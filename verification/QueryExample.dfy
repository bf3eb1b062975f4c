/** A query that is checked in one form and read in another: a replacement that runs into the comment in front of it. */
module QueryExample {
  import opened Wrappers
  import opened Tokenizer
  import opened Rereading
  import opened Restriction
  import opened QueryParser

  /** The character tests on ASCII, and some of the key words. */
  function Ascii(): Classes {
    Classes(c => 'a' <= c <= 'z' || 'A' <= c <= 'Z', c => '0' <= c <= '9', c => c == ' ' || '\t' <= c <= '\r',
            word => word == "exec" || word == "print")
  }

  lemma AsciiIsPlatform()
    ensures Platform(Ascii())
  {
  }

  const NAME := "\nprint print --"
  const COMMENT := "exec sp_columns @table_name='"

  /** An empty line comment, and list columns on the next line. */
  function Query(): seq<Token> {
    [Token(Comment, "", "", ""), Token(Unquoted, "list", "\n", ""), Token(Unquoted, "columns", " ", ""),
     Token(Delimited, NAME, " ", "")]
  }

  /** What is checked in place of list columns. */
  function Instead(name: string): seq<Token> {
    [Token(Keyword, "exec", "", ""), Token(Unquoted, "sp_columns", " ", ""), Token(Unquoted, "@table_name", " ", ""),
     Token(Relop, "=", "", ""), Token(SingleQuoted, name, "", ""), Token(Semicolon, ";", "", "")]
  }

  /** How the text is read that is handed on: behind the comment. */
  function Printed(): seq<Token> {
    [Token(Keyword, "print", "\n", ""), Token(Keyword, "print", " ", ""), Token(Comment, "';", " ", "")]
  }

  // ---------------------------------------------------------------- lists of simple tokens

  /** A list whose tokens are legitimate and stop. */
  ghost predicate Fine(ts: seq<Token>) {
    (forall t :: t in ts ==> LegitToken(Ascii(), t) && t.trailingSpace == "") && AllStop(Ascii(), ts)
  }

  lemma FineLast(ts: seq<Token>, i: nat)
    requires i + 1 == |ts| && LegitToken(Ascii(), ts[i]) && ts[i].trailingSpace == ""
    requires Stops(Ascii(), ts[i].kind, ts[i].name, "")
    ensures Fine(ts[i..])
  {
    hide LegitToken, Stops;
    assert ts[i..] == [ts[i]] && Behind([ts[i]], 0) == "";
    assert StopsAt(Ascii(), [ts[i]], 0);
  }

  /** One more token in front of those that begin with c. */
  lemma FineMore(ts: seq<Token>, i: nat, c: char)
    requires i + 1 < |ts| && Fine(ts[i + 1..]) && LegitToken(Ascii(), ts[i]) && ts[i].trailingSpace == ""
    requires Begins(ts[i + 1], c) && Stops(Ascii(), ts[i].kind, ts[i].name, [c])
    ensures Fine(ts[i..])
  {
    hide LegitToken, Stops, AllStop;
    var t, more := ts[i], ts[i + 1..];
    assert ts[i..] == [t] + more;
    AllTogether(Ascii(), [t], more);
    assert "" + more[0].ToString() == more[0].ToString();
    StopsHead(Ascii(), t.kind, t.name, [c], more[0].ToString());
  }

  predicate Begins(t: Token, c: char) {
    t.ToString() != "" && t.ToString()[0] == c
  }

  /** A token behind no space or one. */
  predicate Spaced(t: Token) {
    t.leadingSpace in {"", " ", "\n"} && t.trailingSpace == ""
  }

  lemma SpacedLegit(t: Token)
    requires Spaced(t) && Legit(Ascii(), t.kind, t.name)
    ensures LegitToken(Ascii(), t)
  {
    hide Legit;
    assert Blank(Ascii(), ' ') && Blank(Ascii(), '\n');
  }

  lemma WordToken(t: Token)
    requires Spaced(t) && Tokenizer.Word(Ascii(), t.name)
    requires t.kind == if Ascii().keyword(t.name) then Keyword else Unquoted
    ensures LegitToken(Ascii(), t)
  {
    AsciiIsPlatform();
    LegitWord(Ascii(), t.name);
    SpacedLegit(t);
  }

  lemma CommentToken(t: Token)
    requires Spaced(t) && t.kind == Comment && '\n' !in t.name
    ensures LegitToken(Ascii(), t)
  {
    LegitComment(Ascii(), t.name);
    SpacedLegit(t);
  }

  lemma NameToken(t: Token)
    requires Spaced(t) && (t.kind == Delimited || t.kind == SingleQuoted) && t.name == NAME
    ensures LegitToken(Ascii(), t)
  {
    LegitEnclosed(Ascii(), t.kind, t.name);
    SpacedLegit(t);
  }

  lemma MarkToken(t: Token)
    requires Spaced(t) && (t == Token(Relop, "=", "", "") || t == Token(Semicolon, ";", "", ""))
    ensures LegitToken(Ascii(), t)
  {
    hide Legit, LegitToken;
    LegitMark(Ascii(), '=');
    LegitMark(Ascii(), ';');
    SpacedLegit(t);
  }

  lemma QueryFine()
    ensures Fine(Query())
  {
    hide LegitToken, Fine;
    var ts := Query();
    NameToken(ts[3]);
    WordToken(ts[2]);
    WordToken(ts[1]);
    CommentToken(ts[0]);
    FineLast(ts, 3);
    FineMore(ts, 2, ' ');
    FineMore(ts, 1, ' ');
    FineMore(ts, 0, '\n');
    assert ts[0..] == ts;
  }

  lemma InsteadLegit()
    ensures forall t :: t in Instead(NAME) ==> LegitToken(Ascii(), t) && t.trailingSpace == ""
  {
    hide LegitToken, Legit, Stops, Fine;
    var ts := Instead(NAME);
    MarkToken(ts[5]);
    NameToken(ts[4]);
    MarkToken(ts[3]);
    WordToken(ts[2]);
    WordToken(ts[1]);
    WordToken(ts[0]);
  }

  lemma InsteadFronts(name: string)
    ensures var ts := Instead(name);
      && |ts| == 6 && Begins(ts[1], ' ') && Begins(ts[2], ' ') && Begins(ts[3], '=') && Begins(ts[4], '\'')
      && Begins(ts[5], ';')
  {
  }

  lemma InsteadStops(name: string)
    ensures var ts := Instead(name);
      && Stops(Ascii(), ts[0].kind, ts[0].name, " ") && Stops(Ascii(), ts[1].kind, ts[1].name, " ")
      && Stops(Ascii(), ts[2].kind, ts[2].name, "=") && Stops(Ascii(), ts[3].kind, ts[3].name, "'")
      && Stops(Ascii(), ts[4].kind, ts[4].name, ";") && Stops(Ascii(), ts[5].kind, ts[5].name, "")
  {
  }

  lemma InsteadFine()
    ensures Fine(Instead(NAME))
  {
    hide LegitToken, Fine, Instead, Begins, Stops, Ascii;
    var ts := Instead(NAME);
    InsteadLegit();
    InsteadFronts(NAME);
    InsteadStops(NAME);
    FineLast(ts, 5);
    FineMore(ts, 4, ';');
    FineMore(ts, 3, '\'');
    FineMore(ts, 2, '=');
    FineMore(ts, 1, ' ');
    FineMore(ts, 0, ' ');
    assert ts[0..] == ts;
  }

  /** The same behind any comment in one line. */
  lemma ReadFine(comment: string)
    requires '\n' !in comment
    ensures Fine([Token(Comment, comment, "", "")] + Printed())
  {
    hide LegitToken, Fine;
    var ts := [Token(Comment, comment, "", "")] + Printed();
    CommentToken(ts[3]);
    WordToken(ts[2]);
    WordToken(ts[1]);
    CommentToken(ts[0]);
    FineLast(ts, 3);
    FineMore(ts, 2, ' ');
    FineMore(ts, 1, ' ');
    FineMore(ts, 0, '\n');
    assert ts[0..] == ts;
  }

  /** A list that is fine is what its text is read as. */
  lemma FineReads(ts: seq<Token>)
    requires Fine(ts)
    ensures Tokenize(Ascii(), Render(ts)) == ts
  {
    hide LegitToken, AllStop, Tokenize, Render;
    AsciiIsPlatform();
    ReadBack(Ascii(), ts);
  }

  // ---------------------------------------------------------------- the query

  function Lower(s: string): string {
    s
  }

  lemma {:induction false} PatternPlain(name: string)
    requires '\\' !in name
    ensures Pattern(name) == name
  {
    if name != "" {
      PatternPlain(name[1..]);
    }
  }

  lemma InsteadText()
    ensures Text(Columns(NAME)) == COMMENT + (NAME + "';")
  {
    PatternPlain(NAME);
    hide Pattern, ObjectText, AllText, AllTablesText;
  }

  lemma RenderTwo(t: Token, ts: seq<Token>)
    ensures Render([t] + ts) == t.ToString() + Render(ts)
  {
    RenderCons([t] + ts);
    assert ([t] + ts)[1..] == ts;
  }

  lemma Renders(ts: seq<Token>, i: nat, text: string, rest: string)
    requires i < |ts| && ts[i].ToString() == text && Render(ts[i + 1..]) == rest
    ensures Render(ts[i..]) == text + rest
  {
    RenderCons(ts[i..]);
    assert ts[i..][1..] == ts[i + 1..];
  }

  lemma CommentText(rest: string)
    ensures "exec" + (" sp_columns" + (" @table_name" + ("=" + ("'" + rest)))) == COMMENT + rest
  {
    assert "exec" + " sp_columns" + " @table_name" + "=" + "'" == COMMENT;
  }

  lemma Bare(t: Token)
    requires t.kind in {Keyword, Unquoted, Relop, Semicolon} && t.trailingSpace == ""
    ensures t.ToString() == t.leadingSpace + t.name
  {
  }

  lemma InsteadStrings(name: string)
    ensures var ts := Instead(name);
      && ts[0].ToString() == "exec" && ts[1].ToString() == " sp_columns" && ts[2].ToString() == " @table_name"
      && ts[3].ToString() == "=" && ts[4].ToString() == "'" + name + "'" && ts[5].ToString() == ";"
  {
    var ts := Instead(name);
    Bare(ts[0]);
    Bare(ts[1]);
    Bare(ts[2]);
    Bare(ts[3]);
    Bare(ts[5]);
  }

  lemma InsteadRenders(name: string)
    ensures Render(Instead(name)) == COMMENT + (name + "';")
  {
    InsteadStrings(name);
    hide Render;
    var ts := Instead(name);
    RenderNone();
    assert |ts| == 6 && ts[6..] == [] && ts[0..] == ts;
    hide Instead;
    Renders(ts, 5, ";", "");
    Renders(ts, 4, "'" + name + "'", ";");
    var rest := "'" + (name + "';");
    assert ("'" + name + "'") + ";" == rest;
    Renders(ts, 3, "=", rest);
    Renders(ts, 2, " @table_name", "=" + rest);
    Renders(ts, 1, " sp_columns", " @table_name" + ("=" + rest));
    Renders(ts, 0, "exec", " sp_columns" + (" @table_name" + ("=" + rest)));
    CommentText(name + "';");
  }

  lemma PrintedStrings()
    ensures var ts := Printed();
      && |ts| == 3 && ts[0].ToString() == "\nprint" && ts[1].ToString() == " print" && ts[2].ToString() == " --';"
  {
  }

  lemma PrintedRenders()
    ensures Render(Printed()) == NAME + "';"
  {
    hide Render, Printed;
    PrintedStrings();
    var ts := Printed();
    RenderNone();
    assert ts[3..] == [] && ts[0..] == ts;
    Renders(ts, 2, " --';", "");
    Renders(ts, 1, " print", " --';");
    Renders(ts, 0, "\nprint", " print" + " --';");
    NameText();
  }

  lemma NameText()
    ensures "\nprint" + (" print" + (" --';" + "")) == NAME + "';"
  {
  }

  /** What is checked. */
  function Checked(): seq<Token> {
    [Token(Comment, "", "", "")] + Instead(NAME)
  }

  /** How the text of that is read. */
  function Sent(): seq<Token> {
    [Token(Comment, COMMENT, "", "")] + Printed()
  }

  lemma QueryStatement()
    ensures |Query()| == 4 && StatementAt(Lower, Query(), 0).None?
    ensures StatementAt(Lower, Query(), 1) == Some(Columns(NAME))
  {
  }

  lemma QueryPieces()
    ensures Flat(Pieces(Ascii(), Lower, Query(), 0)) == Checked()
  {
    hide StatementAt, Tokenize, Text, Pieces, Flat, Fine, Render, Instead, Ascii;
    QueryStatement();
    assert Query()[0] == Token(Comment, "", "", "");
    hide Query;
    PiecesStep(Ascii(), Lower, Query(), 0);
    PiecesStep(Ascii(), Lower, Query(), 1);
    PiecesStep(Ascii(), Lower, Query(), 4);
    InsteadText();
    InsteadRenders(NAME);
    InsteadFine();
    FineReads(Instead(NAME));
    assert Instead(NAME) + [] == Instead(NAME);
  }

  lemma CommentFront(comment: string, ts: seq<Token>)
    ensures Render([Token(Comment, comment, "", "")] + ts) == "--" + (comment + Render(ts))
  {
    hide Render;
    RenderTwo(Token(Comment, comment, "", ""), ts);
    assert Token(Comment, comment, "", "").ToString() == "--" + comment;
  }

  lemma SentText()
    ensures Render(Checked()) == Render(Sent())
  {
    hide Render, Instead, Printed;
    InsteadRenders(NAME);
    PrintedRenders();
    CommentFront("", Instead(NAME));
    CommentFront(COMMENT, Printed());
    assert "" + Render(Instead(NAME)) == Render(Instead(NAME));
  }

  lemma OtherPasses(s: Sym, f: Flags)
    requires s.word.OtherWord? && !f.begin && !f.insert && !f.alter && !f.altertable
    ensures Turn(1, s, f) == Going(f)
  {
  }

  lemma {:induction false} OthersPass(syms: seq<Sym>, n: nat, f: Flags)
    requires n <= |syms| && Check(1, syms[..n]) == Going(f) && !f.begin && !f.insert && !f.alter && !f.altertable
    requires forall k :: n <= k < |syms| ==> syms[k].word.OtherWord?
    ensures Check(1, syms) == Going(f)
    decreases |syms| - n
  {
    hide Check, Turn;
    if n < |syms| {
      CheckNext(1, syms, n);
      OtherPasses(syms[n], f);
      OthersPass(syms, n + 1, f);
    } else {
      assert syms[..n] == syms;
    }
  }

  lemma CheckedSyms(name: string)
    ensures var syms := Syms(Lower, [Token(Comment, "", "", "")] + Instead(name));
      && |syms| == 7 && syms[0].comment && syms[1] == Sym(Exec, false, false, false)
      && forall k :: 2 <= k < 7 ==> syms[k].word.OtherWord?
  {
  }

  lemma CheckedPasses()
    ensures Check(1, Syms(Lower, Checked())).Going?
  {
    hide Check, Syms, Instead;
    var syms := Syms(Lower, Checked());
    CheckedSyms(NAME);
    NothingChecked(1, syms);
    CheckNext(1, syms, 0);
    CheckNext(1, syms, 1);
    OthersPass(syms, 2, NO_FLAGS.(command := true));
  }

  lemma SentSyms(comment: string)
    ensures var syms := Syms(Lower, [Token(Comment, comment, "", "")] + Printed());
      && |syms| == 4 && syms[0].comment
      && syms[1] == syms[2] == Sym(OtherCommand, false, false, false)
  {
  }

  lemma SecondRefused(f: Flags)
    requires f == NO_FLAGS.(command := true)
    ensures Turn(1, Sym(OtherCommand, false, false, false), NO_FLAGS) == Going(f)
    ensures Turn(1, Sym(OtherCommand, false, false, false), f) == Refused
  {
  }

  lemma SentRefused()
    ensures Check(1, Syms(Lower, Sent())).Refused?
  {
    hide Check, Syms, Printed, Turn;
    var syms := Syms(Lower, Sent());
    SentSyms(COMMENT);
    NothingChecked(1, syms);
    SkipComment(1, syms[0]);
    SecondRefused(NO_FLAGS.(command := true));
    CheckNext(1, syms, 0);
    CheckNext(1, syms, 1);
    CheckNext(1, syms, 2);
    RefusedStays(1, syms, 3);
  }

  /** At level 1, what is checked is one EXEC, and what is handed on are two PRINTs, which level 1 does not allow. */
  lemma RunsIntoComment()
    ensures var query := Render(Query());
      var r := HandedOn(Ascii(), Lower, query, 1);
      r.Some? && !Respects(Ascii(), Lower, 1, r.value)
  {
    hide Tokenize, Render, Pieces, Flat, Check, Syms, Ascii, Query, Checked, Obeys, Fine;
    QueryFine();
    FineReads(Query());
    QueryPieces();
    CheckedPasses();
    SentText();
    ReadFine(COMMENT);
    FineReads(Sent());
    SentRefused();
    ObeysIff(Lower, 1, Sent());
  }
}

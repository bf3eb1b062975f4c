/** VxDb.query_parser as a whole: the query is tokenized, statements of the daemon's own are replaced, the result is
    checked and handed on as the text of the tokens. */
module QueryParser {
  import opened Wrappers
  import opened Tokenizer
  import opened Rereading
  import opened Restriction

  // ---------------------------------------------------------------- what is replaced

  /** NotQuotedAndLowercaseEq. */
  predicate IsWord(lower: string -> string, t: Token, word: string) {
    t.kind !in {SingleQuoted, DoubleQuoted, Delimited, Comment, DelimitedComment} && lower(t.name) == word
  }

  predicate IsIdentifier(t: Token) {
    t.kind in {DoubleQuoted, Delimited, Unquoted}
  }

  /** The name of a table as a pattern: a character behind a backslash stands for itself. */
  function Pattern(name: string): string {
    if name == "" then ""
    else if name[0] == '\\' && |name| > 1 then ['[', name[1], ']'] + Pattern(name[2..])
    else [name[0]] + Pattern(name[1..])
  }

  const SELECT := "select "

  function ObjectText(kind: string, name: string): (s: string)
    ensures Head(s) == 's'
  {
    SELECT + ("cast(text as varchar(max)) text from syscomments where objectproperty(id, 'Is" + kind
              + "') = 1 and object_name(id) = '" + name + "' order by number, colid;")
  }

  const TABLES_TEXT := "exec sp_tables;"

  function ColumnsText(table: string): (s: string)
    ensures Head(s) == 'e'
  {
    "exec sp_columns @table_name='" + (Pattern(table) + "';")
  }

  function AllTablesText(): (s: string)
    ensures Head(s) == 's'
  {
    SELECT + ("distinct cast(Name as varchar(max)) Name from sysobjects  where objectproperty(id,'IsTable')=1 "
              + " and xtype='U'  order by Name;")
  }

  function AllText(kind: string): (s: string)
    ensures Head(s) == 's'
  {
    SELECT + ("distinct  cast (object_name(id) as varchar(256)) Name  from syscomments  where objectproperty(id,'Is"
              + kind + "') = 1  order by Name;")
  }

  /** The daemon's own statements. */
  datatype Statement = Object(kind: string, name: string) | Use | Tables | Columns(table: string) | AllTables
                     | All(kind: string)

  function Taken(s: Statement): (n: nat)
    ensures n >= 2
  {
    match s
    case Object(_, _) => 4
    case Use => 2
    case Tables => 2
    case _ => 3
  }

  /** What the server gets in place of one. */
  function Text(s: Statement): string {
    match s
    case Object(kind, name) => ObjectText(kind, name)
    case Use => ";"
    case Tables => TABLES_TEXT
    case Columns(table) => ColumnsText(table)
    case AllTables => AllTablesText()
    case All(kind) => AllText(kind)
  }

  lemma TextFront(s: Statement)
    ensures Head(Text(s)) in "se;"
  {
    hide ObjectText, ColumnsText, AllTablesText, AllText;
  }

  /** The statement at place i, if it is one of the daemon's own. */
  function StatementAt(lower: string -> string, ts: seq<Token>, i: nat): (r: Option<Statement>)
    requires i < |ts|
    ensures r.Some? ==> i + Taken(r.value) <= |ts|
  {
    if i + 3 < |ts| && IsWord(lower, ts[i], "get") && IsWord(lower, ts[i + 1], "object") then
      Some(Object(ts[i + 2].name, ts[i + 3].name))
    else if i + 1 >= |ts| then None
    else if ts[i].kind == Keyword && lower(ts[i].name) == "use" && IsIdentifier(ts[i + 1]) then Some(Use)
    else if !IsWord(lower, ts[i], "list") then None
    else if IsWord(lower, ts[i + 1], "tables") then Some(Tables)
    else if IsWord(lower, ts[i + 1], "columns") && i + 2 < |ts| then Some(Columns(ts[i + 2].name))
    else if IsWord(lower, ts[i + 1], "all") && i + 2 < |ts| then
      Some(if IsWord(lower, ts[i + 2], "table") then AllTables else All(ts[i + 2].name))
    else None
  }

  /** A token as it was, or the tokens of a replacement. */
  datatype Piece = Piece(own: bool, tokens: seq<Token>)

  function Pieces(cls: Classes, lower: string -> string, ts: seq<Token>, i: nat): seq<Piece>
    decreases |ts| - i
  {
    hide Text, StatementAt, Tokenize;
    if i >= |ts| then []
    else
      match StatementAt(lower, ts, i)
      case None => [Piece(false, [ts[i]])] + Pieces(cls, lower, ts, i + 1)
      case Some(s) => [Piece(true, Tokenize(cls, Text(s)))] + Pieces(cls, lower, ts, i + Taken(s))
  }

  function Flat(pieces: seq<Piece>): seq<Token> {
    if pieces == [] then [] else pieces[0].tokens + Flat(pieces[1..])
  }

  /** The tokens that are checked and joined. */
  function Rewritten(cls: Classes, lower: string -> string, query: string): seq<Token> {
    Flat(Pieces(cls, lower, Tokenize(cls, query), 0))
  }

  /** What is handed on, or nothing if the check refuses. */
  function HandedOn(cls: Classes, lower: string -> string, query: string, level: int): Option<string> {
    var ts := Rewritten(cls, lower, query);
    if level == 0 || Check(level, Syms(lower, ts)).Going? then Some(Render(ts)) else None
  }

  // ---------------------------------------------------------------- the methods

  /** The loop that builds the pattern. */
  method MakePattern(name: string) returns (sb: string)
    ensures sb == Pattern(name)
  {
    sb := "";
    var b := 0;
    while b < |name|
      invariant b <= |name| && sb + Pattern(name[b..]) == Pattern(name)
    {
      if name[b] == '\\' && b < |name| - 1 {
        assert name[b..][2..] == name[b + 2..] && name[b..][1] == name[b + 1];
        sb := sb + ['[', name[b + 1], ']'];
        b := b + 2;
      } else {
        assert name[b..][1..] == name[b + 1..];
        sb := sb + [name[b]];
        b := b + 1;
      }
    }
  }

  /** The branches of the rewriting loop. */
  method Replace(lower: string -> string, tokens: seq<Token>, i: nat) returns (text: string, taken: nat)
    requires i < |tokens|
    ensures match StatementAt(lower, tokens, i)
      case None => taken == 0
      case Some(s) => text == Text(s) && taken == Taken(s)
  {
    hide ObjectText, AllText, AllTablesText, IsWord, Pattern;
    var tok := tokens[i];
    if i + 3 < |tokens| && IsWord(lower, tok, "get") && IsWord(lower, tokens[i + 1], "object") {
      return ObjectText(tokens[i + 2].name, tokens[i + 3].name), 4;
    } else if i + 1 < |tokens| {
      var next := tokens[i + 1];
      if tok.kind == Keyword && lower(tok.name) == "use" && IsIdentifier(next) {
        return ";", 2;
      } else if IsWord(lower, tok, "list") {
        if IsWord(lower, next, "tables") {
          return TABLES_TEXT, 2;
        } else if IsWord(lower, next, "columns") && i + 2 < |tokens| {
          var sb := MakePattern(tokens[i + 2].name);
          return "exec sp_columns @table_name='" + (sb + "';"), 3;
        } else if IsWord(lower, next, "all") && i + 2 < |tokens| {
          if IsWord(lower, tokens[i + 2], "table") {
            return AllTablesText(), 3;
          }
          return AllText(tokens[i + 2].name), 3;
        }
      }
    }
    return "", 0;
  }

  lemma PiecesStep(cls: Classes, lower: string -> string, ts: seq<Token>, i: nat)
    ensures i >= |ts| ==> Pieces(cls, lower, ts, i) == [] && Flat(Pieces(cls, lower, ts, i)) == []
    ensures i < |ts| ==>
      var r := StatementAt(lower, ts, i);
      var first := if r.Some? then Piece(true, Tokenize(cls, Text(r.value))) else Piece(false, [ts[i]]);
      var rest := Pieces(cls, lower, ts, i + if r.Some? then Taken(r.value) else 1);
      && Pieces(cls, lower, ts, i) == [first] + rest
      && Flat(Pieces(cls, lower, ts, i)) == first.tokens + Flat(rest)
  {
    hide StatementAt, Text, Tokenize;
    if i < |ts| {
      var rest := Pieces(cls, lower, ts, i)[1..];
      assert Pieces(cls, lower, ts, i) == [Pieces(cls, lower, ts, i)[0]] + rest;
    }
  }

  lemma TakenIs(lower: string -> string, ts: seq<Token>, i: nat)
    requires i < |ts|
    ensures var r := StatementAt(lower, ts, i); r.Some? ==> 2 <= Taken(r.value) <= |ts| - i
  {
    hide StatementAt;
  }

  /** The rewriting loop. */
  method Rewrite(cls: Classes, lower: string -> string, tokens: seq<Token>) returns (result: seq<Token>)
    ensures result == Flat(Pieces(cls, lower, tokens, 0))
  {
    hide *;
    result := [];
    var i := 0;
    while i < |tokens|
      invariant result + Flat(Pieces(cls, lower, tokens, i)) == Flat(Pieces(cls, lower, tokens, 0))
      decreases |tokens| - i
    {
      PiecesStep(cls, lower, tokens, i);
      var text, taken := Replace(lower, tokens, i);
      if taken == 0 {
        result := result + [tokens[i]];
        i := i + 1;
      } else {
        TakenIs(lower, tokens, i);
        var ret := new VxSqlTokenizer(cls);
        ret.TokenizeQuery(text);
        result := result + ret.tokens;
        i := i + taken;
      }
    }
    PiecesStep(cls, lower, tokens, i);
  }

  method QueryParser(cls: Classes, lower: string -> string, query: string, accessRestrictions: int)
      returns (text: Option<string>)
    ensures text == HandedOn(cls, lower, query, accessRestrictions)
  {
    hide Tokenize, Check, Syms, Render, Pieces, Flat;
    var tokenizer := new VxSqlTokenizer(cls);
    tokenizer.TokenizeQuery(query);
    var result := Rewrite(cls, lower, tokenizer.tokens);
    var accepted := CheckTokens(lower, accessRestrictions, result);
    if !accepted {
      return None;
    }
    var joined := Join(result);
    return Some(joined);
  }

  method Join(result: seq<Token>) returns (text: string)
    ensures text == Render(result)
  {
    hide *;
    text := "";
    RenderNone();
    for i := 0 to |result|
      invariant text == Render(result[..i])
    {
      assert result[..i + 1] == result[..i] + [result[i]];
      RenderSnoc(result[..i], result[i]);
      text := text + result[i].ToString();
    }
    assert result[..|result|] == result;
  }

  // ---------------------------------------------------------------- what is handed on, and what was checked

  /** Around every replacement, the token in front of it stops where it begins, and its last one where the next token
      does. */
  predicate Separate(cls: Classes, pieces: seq<Piece>)
    requires forall p :: p in pieces ==> p.tokens != []
  {
    forall k :: 0 <= k < |pieces| - 1 && (pieces[k].own || pieces[k + 1].own) ==>
      Joins(cls, pieces[k].tokens, pieces[k + 1].tokens)
  }

  predicate NothingReplaced(pieces: seq<Piece>) {
    forall p :: p in pieces ==> !p.own
  }

  /** The character tests of a platform; the letters are those that replacements begin with. */
  ghost predicate Platform(cls: Classes) {
    Ordinary(cls) && cls.letter('s') && cls.letter('e')
  }

  /** A replacement has tokens, and no other than those of a query. */
  lemma ReplacementTokens(cls: Classes, text: string)
    requires Platform(cls) && Head(text) in "se;"
    ensures Tokenize(cls, text) != []
    ensures forall t :: t in Tokenize(cls, text) ==> LegitToken(cls, t)
    ensures AllStop(cls, Tokenize(cls, text))
  {
    hide Tokenize, Render, Run, Closing, LegitToken;
    TokensStop(cls, text);
    TokensLegit(cls, text);
    Lossless(cls, text);
    var ts := Tokenize(cls, text);
    RenderNone();
    if OnlyBlanks(cls, ts) {
      BlankFront(cls, ts, text);
      assert false;
    }
  }

  lemma BlankFront(cls: Classes, ts: seq<Token>, text: string)
    requires OnlyBlanks(cls, ts) && text != "" && |text| <= |Render(ts)| && Alike(Render(ts)[0], text[0])
    ensures Blank(cls, text[0]) || text[0] == 'E'
  {
    assert ts == [ts[0]];
    RenderOne(ts[0]);
  }

  lemma SeparateStep(cls: Classes, first: Piece, rest: seq<Piece>)
    requires first.tokens != [] && forall p :: p in rest ==> p.tokens != []
    ensures Separate(cls, [first] + rest) <==>
      Separate(cls, rest)
      && (rest != [] && (first.own || rest[0].own) ==> Joins(cls, first.tokens, rest[0].tokens))
  {
    hide Joins;
    var ps := [first] + rest;
    if Separate(cls, ps) {
      forall k | 0 <= k < |rest| - 1 && (rest[k].own || rest[k + 1].own)
        ensures Joins(cls, rest[k].tokens, rest[k + 1].tokens)
      {
        assert ps[k + 1] == rest[k] && ps[k + 2] == rest[k + 1];
      }
      assert rest != [] ==> ps[0] == first && ps[1] == rest[0];
    }
  }

  /** A token that was kept, in front of another. */
  lemma KeptJoins(cls: Classes, ts: seq<Token>, i: nat)
    requires i + 1 < |ts| && AllStop(cls, ts)
    ensures Joins(cls, [ts[i]], [ts[i + 1]])
  {
    assert StopsAt(cls, ts, i);
  }

  lemma LastStops(cls: Classes, ts: seq<Token>)
    requires ts != [] && AllStop(cls, ts)
    ensures AllStop(cls, [ts[|ts| - 1]])
  {
    assert StopsAt(cls, ts, |ts| - 1);
  }

  ghost predicate Sound(cls: Classes, ps: seq<Piece>) {
    && (forall p :: p in ps ==> p.tokens != []) && (forall t :: t in Flat(ps) ==> LegitToken(cls, t))
    && (AllStop(cls, Flat(ps)) <==> Separate(cls, ps))
    && (ps == [] <==> Flat(ps) == []) && (ps != [] ==> Flat(ps)[0] == ps[0].tokens[0])
  }

  lemma SoundStep(cls: Classes, first: Piece, rest: seq<Piece>)
    requires Sound(cls, rest) && first.tokens != [] && forall t :: t in first.tokens ==> LegitToken(cls, t)
    requires first.own ==> AllStop(cls, first.tokens)
    requires !first.own ==>
      && |first.tokens| == 1
      && if rest == [] then AllStop(cls, first.tokens)
         else !rest[0].own ==> Joins(cls, first.tokens, [rest[0].tokens[0]])
    ensures Sound(cls, [first] + rest)
  {
    hide LegitToken, Stops;
    var ps := [first] + rest;
    assert ps[1..] == rest;
    var more := Flat(rest);
    assert Flat(ps) == first.tokens + more;
    SeparateStep(cls, first, rest);
    if rest == [] {
      assert Flat(ps) == first.tokens;
    } else {
      assert forall i :: 0 <= i < |first.tokens| - 1 ==> StopsAt(cls, first.tokens, i);
      AllTogether(cls, first.tokens, more);
    }
  }

  lemma NoPieces(cls: Classes)
    ensures Sound(cls, [])
  {
  }

  lemma {:induction false} PiecesSound(cls: Classes, lower: string -> string, ts: seq<Token>, i: nat)
    requires Platform(cls) && AllStop(cls, ts)
    requires forall t :: t in ts ==> LegitToken(cls, t)
    ensures var ps := Pieces(cls, lower, ts, i);
      Sound(cls, ps) && (ps == [] <==> i >= |ts|) && (ps != [] && !ps[0].own ==> ps[0].tokens == [ts[i]])
    decreases |ts| - i
  {
    hide Tokenize, LegitToken, Pieces, Flat, StatementAt, AllStop, Sound, Joins, Taken, Text;
    PiecesStep(cls, lower, ts, i);
    if i < |ts| {
      var r := StatementAt(lower, ts, i);
      var first := if r.Some? then Piece(true, Tokenize(cls, Text(r.value))) else Piece(false, [ts[i]]);
      TakenIs(lower, ts, i);
      var next := i + if r.Some? then Taken(r.value) else 1;
      PiecesSound(cls, lower, ts, next);
      var rest := Pieces(cls, lower, ts, next);
      if r.Some? {
        TextFront(r.value);
        ReplacementTokens(cls, Text(r.value));
      } else if rest == [] {
        LastStops(cls, ts);
      } else if !rest[0].own {
        KeptJoins(cls, ts, i);
      }
      SoundStep(cls, first, rest);
    } else {
      NoPieces(cls);
    }
  }

  /** What restrictions allow, as a property of a list of tokens ... */
  predicate Obeys(lower: string -> string, level: int, ts: seq<Token>) {
    var syms := WithoutComments(Syms(lower, ts));
    && (level >= 2 ==> OnlySelects(syms))
    && (level == 1 ==> Permitted(syms, |syms|))
  }

  /** ... and of a text. */
  predicate Respects(cls: Classes, lower: string -> string, level: int, text: string) {
    Obeys(lower, level, Tokenize(cls, text))
  }

  lemma ObeysIff(lower: string -> string, level: int, ts: seq<Token>)
    requires level >= 0
    ensures Obeys(lower, level, ts) <==> level == 0 || Check(level, Syms(lower, ts)).Going?
  {
    hide Check, OnlySelects, Permitted, WithoutComments, Syms;
    if level >= 2 {
      Level2(level, Syms(lower, ts));
    } else {
      Level1(lower, ts);
    }
  }

  lemma SameObeys(lower: string -> string, level: int, a: seq<Token>, b: seq<Token>)
    requires Same(a, b)
    ensures Obeys(lower, level, a) <==> Obeys(lower, level, b)
  {
    assert Syms(lower, a) == Syms(lower, b);
  }

  lemma SameSame(a: seq<Token>)
    ensures Same(a, a)
  {
  }

  /** The text of the rewritten tokens is read as those tokens if and only if replacements and what is around them do
      not run into each other. */
  lemma RewrittenIff(cls: Classes, lower: string -> string, query: string)
    requires Platform(cls)
    ensures var (ps, ts) := (Pieces(cls, lower, Tokenize(cls, query), 0), Rewritten(cls, lower, query));
      && (forall p :: p in ps ==> p.tokens != [])
      && (Same(Tokenize(cls, Render(ts)), ts) <==> Separate(cls, ps))
  {
    hide Tokenize, Render, LegitToken, Pieces, Flat, Separate, AllStop, Same;
    var all := Tokenize(cls, query);
    TokensLegit(cls, query);
    TokensStop(cls, query);
    if forall t :: t in all ==> LegitToken(cls, t) {
      PiecesSound(cls, lower, all, 0);
      ReadBackIff(cls, Rewritten(cls, lower, query));
    } else {
      BlanksKept(cls, lower, all);
      Retokenize(cls, query);
      SameSame(all);
    }
  }

  lemma BlanksKept(cls: Classes, lower: string -> string, ts: seq<Token>)
    requires OnlyBlanks(cls, ts)
    ensures var ps := Pieces(cls, lower, ts, 0);
      Flat(ps) == ts && (forall p :: p in ps ==> p.tokens != []) && Separate(cls, ps)
  {
    hide Blanks;
    PiecesStep(cls, lower, ts, 0);
    PiecesStep(cls, lower, ts, 1);
    assert ts == [ts[0]] && ts + [] == ts;
  }

  /** Any query is handed on exactly if its rewritten tokens keep the restrictions.  If replacements do not run into
      what is around them, the text is read as the tokens that were checked, so keeps the restrictions too. */
  lemma CheckedIsHandedOn(cls: Classes, lower: string -> string, query: string, level: int)
    requires Platform(cls) && level >= 0
    ensures var (ps, ts) := (Pieces(cls, lower, Tokenize(cls, query), 0), Rewritten(cls, lower, query));
      var r := HandedOn(cls, lower, query, level);
      && (r.Some? <==> Obeys(lower, level, ts)) && (r.Some? ==> r.value == Render(ts))
      && (forall p :: p in ps ==> p.tokens != [])
      && (Same(Tokenize(cls, Render(ts)), ts) <==> Separate(cls, ps))
      && (r.Some? && Separate(cls, ps) ==> Respects(cls, lower, level, r.value))
  {
    hide Tokenize, Check, Syms, Render, Obeys, Rewritten, Pieces, Separate, Same;
    var ts := Rewritten(cls, lower, query);
    ObeysIff(lower, level, ts);
    RewrittenIff(cls, lower, query);
    if Same(Tokenize(cls, Render(ts)), ts) {
      SameObeys(lower, level, Tokenize(cls, Render(ts)), ts);
    }
  }

  lemma {:induction false} KeptPieces(cls: Classes, lower: string -> string, ts: seq<Token>, i: nat)
    requires i <= |ts| && NothingReplaced(Pieces(cls, lower, ts, i))
    ensures Flat(Pieces(cls, lower, ts, i)) == ts[i..]
    decreases |ts| - i
  {
    hide StatementAt, Tokenize, Text, Taken, Pieces, Flat;
    PiecesStep(cls, lower, ts, i);
    if i < |ts| {
      var ps := Pieces(cls, lower, ts, i);
      assert ps[0] in ps && forall p :: p in ps[1..] ==> p in ps;
      KeptPieces(cls, lower, ts, i + 1);
    }
  }

  /** A query in which nothing is replaced is handed on just as it is, but for the form of exponent signs and a closing
      mark, and would be again. */
  lemma UnchangedIsHandedOn(cls: Classes, lower: string -> string, query: string, level: int)
    requires cls.CaseBlind() && level >= 0 && NothingReplaced(Pieces(cls, lower, Tokenize(cls, query), 0))
    ensures var r := HandedOn(cls, lower, query, level);
      && (r.Some? <==> Respects(cls, lower, level, query))
      && (r.Some? ==>
          && |query| <= |r.value| && (forall k :: 0 <= k < |query| ==> Alike(r.value[k], query[k]))
          && r.value[|query|..] == Closing(Run(cls, query, 0, START).state)
          && Tokenize(cls, r.value) == Tokenize(cls, query)
          && Respects(cls, lower, level, r.value)
          && HandedOn(cls, lower, r.value, level) == r)
  {
    hide Tokenize, Check, Syms, Render, Obeys, Pieces, Flat, Run, Closing, Alike, NothingReplaced;
    var ts := Tokenize(cls, query);
    KeptPieces(cls, lower, ts, 0);
    assert ts[0..] == ts;
    Lossless(cls, query);
    Retokenize(cls, query);
    ObeysIff(lower, level, ts);
  }
}

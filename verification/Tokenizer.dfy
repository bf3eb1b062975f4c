/** VxSqlTokenizer: a state machine over characters, and why no character is lost. */
module Tokenizer {
  datatype TokenType =
    | NoToken | Unquoted | SingleQuoted | DoubleQuoted | Delimited | LParen | RParen | Comma | Semicolon
    | Keyword | DelimitedComment | Comment | Relop | Not | Bitop | Addop | Multop
    | Numeric | Scientific | Period | ErrorUnknown

  datatype Token = Token(kind: TokenType, name: string, leadingSpace: string, trailingSpace: string) {
    function ToString(): string {
      leadingSpace + Opening(kind) + name + Closing(kind) + trailingSpace
    }
  }

  /** What stands before and after the name of a token. */
  function Opening(kind: TokenType): string {
    match kind
    case SingleQuoted => "'"
    case DoubleQuoted => "\""
    case Delimited => "["
    case DelimitedComment => "/*"
    case Comment => "--"
    case _ => ""
  }

  function Closing(kind: TokenType): string {
    match kind
    case SingleQuoted => "'"
    case DoubleQuoted => "\""
    case Delimited => "]"
    case DelimitedComment => "*/"
    case _ => ""
  }

  /** The character tests of the platform and the list of key words. */
  datatype Classes = Classes(letter: char -> bool, digit: char -> bool, space: char -> bool, keyword: string -> bool) {
    predicate Identifier(c: char) {
      letter(c) || digit(c) || c in "@#_$"
    }

    predicate Number(c: char) {
      digit(c) || c in ".eE"
    }

    /** The two forms of the exponent sign are of one class. */
    predicate CaseBlind() {
      letter('e') == letter('E') && digit('e') == digit('E')
    }
  }

  function SingleTokenState(c: char): TokenType {
    if c == '(' then LParen
    else if c == ')' then RParen
    else if c in "&|^~" then Bitop
    else if c in "*/%" then Multop
    else if c in "+-" then Addop
    else if c in "=><" then Relop
    else if c == '!' then Not
    else if c == ',' then Comma
    else if c == ';' then Semicolon
    else if c == '.' then Period
    else NoToken
  }

  datatype Machine = Machine(state: TokenType, cur: string, space: string, tokens: seq<Token>)

  const START := Machine(NoToken, "", "", [])

  function Save(m: Machine, kind: TokenType): Machine {
    Machine(NoToken, "", "", m.tokens + [Token(kind, m.cur, m.space, "")])
  }

  function Take(m: Machine, state: TokenType, s: string): Machine {
    m.(state := state, cur := m.cur + s)
  }

  function EndWord(cls: Classes, m: Machine, peek: char): Machine {
    if cls.Identifier(peek) then m else Save(m, if cls.keyword(m.cur) then Keyword else Unquoted)
  }

  function EndNumber(more: bool, m: Machine): Machine {
    if more then m else Save(m, Numeric)
  }

  /** Between tokens. */
  function Begin(cls: Classes, c: char, peek: char, m: Machine): (Machine, nat) {
    if cls.letter(c) || c in "_@#" then (EndWord(cls, Take(m, Unquoted, [c]), peek), 1)
    else if c == '\'' then (m.(state := SingleQuoted), 1)
    else if c == '"' then (m.(state := DoubleQuoted), 1)
    else if c == '[' then (m.(state := Delimited), 1)
    else if c == '-' && peek == '-' then (m.(state := Comment), 2)
    else if c == '/' && peek == '*' then (m.(state := DelimitedComment), 2)
    else if cls.digit(c) then (EndNumber(cls.Number(peek), Take(m, Numeric, [c])), 1)
    else if c == '.' && cls.digit(peek) then (Take(m, Numeric, [c]), 1)
    else if SingleTokenState(c) != NoToken then (Save(Take(m, SingleTokenState(c), [c]), SingleTokenState(c)), 1)
    else if !cls.space(c) then (Save(Take(m, ErrorUnknown, [c]), ErrorUnknown), 1)
    else (m.(space := m.space + [c]), 1)
  }

  /** Inside a quoted string; a doubled quote stays doubled in the name. */
  function InQuotes(quote: char, c: char, peek: char, m: Machine): (Machine, nat) {
    if c != quote then (Take(m, m.state, [c]), 1)
    else if peek == quote then (Take(m, m.state, [quote, quote]), 2)
    else (Save(m, m.state), 1)
  }

  function InNumber(cls: Classes, c: char, peek: char, m: Machine): (Machine, nat) {
    if c == 'E' || c == 'e' then
      if peek == '-' || peek == '+' then (Take(m, Scientific, ['e', peek]), 2)
      else if cls.digit(peek) then (Take(m, Scientific, "e"), 1)
      else (Save(Take(m, Numeric, "e"), Numeric), 1)
    else (EndNumber(cls.Number(peek), Take(m, Numeric, [c])), 1)
  }

  /** One turn of the loop: the new state, and how many characters it took. */
  function Step(cls: Classes, c: char, peek: char, m: Machine): (r: (Machine, nat))
    ensures r.1 == 1 || r.1 == 2
  {
    match m.state
    case NoToken => Begin(cls, c, peek, m)
    case Unquoted => (EndWord(cls, Take(m, Unquoted, [c]), peek), 1)
    case SingleQuoted => InQuotes('\'', c, peek, m)
    case DoubleQuoted => InQuotes('"', c, peek, m)
    case Delimited => if c == ']' then (Save(m, Delimited), 1) else (Take(m, Delimited, [c]), 1)
    case Comment => if c == '\n' then (Save(m, Comment).(space := [c]), 1) else (Take(m, Comment, [c]), 1)
    case DelimitedComment =>
      if c == '*' && peek == '/' then (Save(m, DelimitedComment), 2) else (Take(m, DelimitedComment, [c]), 1)
    case Numeric => InNumber(cls, c, peek, m)
    case Scientific => (EndNumber(cls.digit(peek), Take(m, Scientific, [c])), 1)
    case _ => (m, 1)
  }

  /** The loop only stays in these states. */
  predicate Live(m: Machine) {
    && m.state in {NoToken, Unquoted, SingleQuoted, DoubleQuoted, Delimited, Comment, DelimitedComment, Numeric,
        Scientific}
    && (m.state == NoToken ==> m.cur == "")
    && (forall t :: t in m.tokens ==> t.trailingSpace == "")
  }

  function Peek(q: string, i: nat): char {
    if i + 1 < |q| then q[i + 1] else '\0'
  }

  function Run(cls: Classes, q: string, i: nat, m: Machine): Machine
    decreases |q| - i
  {
    if i >= |q| then m
    else var (m', n) := Step(cls, q[i], Peek(q, i), m); Run(cls, q, i + n, m')
  }

  /** After the loop: an open token is closed, and spaces left over go to the last token, if any. */
  function Finish(m: Machine): seq<Token> {
    var m := if m.state != NoToken then Save(m, m.state) else m;
    if m.space == "" then m.tokens
    else if m.tokens != [] then
      m.tokens[..|m.tokens| - 1] + [m.tokens[|m.tokens| - 1].(trailingSpace := m.space)]
    else [Token(NoToken, "", m.space, "")]
  }

  function Tokenize(cls: Classes, q: string): seq<Token> {
    Finish(Run(cls, q, 0, START))
  }

  function Render(ts: seq<Token>): string {
    if ts == [] then "" else Render(ts[..|ts| - 1]) + ts[|ts| - 1].ToString()
  }

  // ---------------------------------------------------------------- nothing is lost

  /** The text of the tokens so far and of the one being read. */
  function Rendered(m: Machine): string {
    Render(m.tokens) + m.space + Opening(m.state) + m.cur
  }

  /** What a turn reads, with the exponent sign in lower case. */
  function NormStep(c: char, peek: char, m: Machine, n: nat): string {
    [if m.state == Numeric && c == 'E' then 'e' else c] + if n == 2 then [peek] else ""
  }

  function Norm(cls: Classes, q: string, i: nat, m: Machine): string
    decreases |q| - i
  {
    if i >= |q| then ""
    else
      var (m', n) := Step(cls, q[i], Peek(q, i), m);
      NormStep(q[i], Peek(q, i), m, n) + Norm(cls, q, i + n, m')
  }

  lemma TakeText(m: Machine, kind: TokenType, s: string)
    requires Opening(kind) == Opening(m.state)
    ensures Rendered(Take(m, kind, s)) == Rendered(m) + s
  {
  }

  /** Saving a token puts its closing mark behind it. */
  lemma SaveText(m: Machine, kind: TokenType)
    requires Opening(kind) == Opening(m.state)
    ensures Rendered(Save(m, kind)) == Rendered(m) + Closing(kind)
  {
    var t := Token(kind, m.cur, m.space, "");
    var ts := m.tokens + [t];
    assert ts[..|ts| - 1] == m.tokens;
    assert t.ToString() == m.space + Opening(kind) + m.cur + Closing(kind);
  }

  lemma OpenText(m: Machine, kind: TokenType)
    requires m.state == NoToken && m.cur == ""
    ensures Rendered(m.(state := kind)) == Rendered(m) + Opening(kind)
  {
  }

  lemma SpaceText(m: Machine, s: string)
    requires m.state == NoToken && m.cur == ""
    ensures Rendered(m.(space := m.space + s)) == Rendered(m) + s
  {
  }

  lemma EndWordText(cls: Classes, m: Machine, peek: char)
    requires m.state == Unquoted
    ensures Rendered(EndWord(cls, m, peek)) == Rendered(m)
  {
    hide Rendered;
    SaveText(m, Keyword);
    SaveText(m, Unquoted);
  }

  lemma EndNumberText(more: bool, m: Machine)
    requires m.state == Numeric || m.state == Scientific
    ensures Rendered(EndNumber(more, m)) == Rendered(m)
  {
    hide Rendered;
    SaveText(m, Numeric);
  }

  lemma Unmarked(c: char)
    ensures Opening(SingleTokenState(c)) == "" && Closing(SingleTokenState(c)) == ""
  {
  }

  lemma BeginLive(cls: Classes, c: char, peek: char, m: Machine)
    requires m.state == NoToken && Live(m)
    ensures Live(Begin(cls, c, peek, m).0)
  {
    hide SingleTokenState;
  }

  lemma BeginText(cls: Classes, c: char, peek: char, m: Machine)
    requires m.state == NoToken && m.cur == ""
    ensures var (m', n) := Begin(cls, c, peek, m); Rendered(m') == Rendered(m) + NormStep(c, peek, m, n)
  {
    hide Rendered, Save, EndWord, EndNumber, SingleTokenState;
    if cls.letter(c) || c in "_@#" {
      TakeText(m, Unquoted, [c]);
      EndWordText(cls, Take(m, Unquoted, [c]), peek);
    } else if c == '\'' || c == '"' || c == '[' {
      OpenText(m, if c == '\'' then SingleQuoted else if c == '"' then DoubleQuoted else Delimited);
    } else if (c == '-' && peek == '-') || (c == '/' && peek == '*') {
      OpenText(m, if c == '-' then Comment else DelimitedComment);
    } else if cls.digit(c) || (c == '.' && cls.digit(peek)) {
      TakeText(m, Numeric, [c]);
      EndNumberText(cls.Number(peek), Take(m, Numeric, [c]));
    } else if SingleTokenState(c) != NoToken {
      Unmarked(c);
      TakeText(m, SingleTokenState(c), [c]);
      SaveText(Take(m, SingleTokenState(c), [c]), SingleTokenState(c));
    } else {
      TakeText(m, ErrorUnknown, [c]);
      SaveText(Take(m, ErrorUnknown, [c]), ErrorUnknown);
      SpaceText(m, [c]);
    }
  }

  lemma InQuotesText(quote: char, c: char, peek: char, m: Machine)
    requires (m.state == SingleQuoted || m.state == DoubleQuoted) && Live(m)
    requires Closing(m.state) == [quote]
    ensures var (m', n) := InQuotes(quote, c, peek, m);
      Live(m') && Rendered(m') == Rendered(m) + NormStep(c, peek, m, n)
  {
    hide Rendered;
    TakeText(m, m.state, [c]);
    TakeText(m, m.state, [quote, quote]);
    SaveText(m, m.state);
  }

  lemma InNumberText(cls: Classes, c: char, peek: char, m: Machine)
    requires m.state == Numeric && Live(m)
    ensures var (m', n) := InNumber(cls, c, peek, m); Live(m') && Rendered(m') == Rendered(m) + NormStep(c, peek, m, n)
  {
    hide Rendered;
    TakeText(m, Scientific, ['e', peek]);
    TakeText(m, Scientific, "e");
    TakeText(m, Numeric, "e");
    TakeText(m, Numeric, [c]);
    SaveText(Take(m, Numeric, "e"), Numeric);
    EndNumberText(cls.Number(peek), Take(m, Numeric, [c]));
  }

  /** A turn adds to the text just what it reads. */
  lemma StepText(cls: Classes, c: char, peek: char, m: Machine)
    requires Live(m)
    ensures var (m', n) := Step(cls, c, peek, m); Live(m') && Rendered(m') == Rendered(m) + NormStep(c, peek, m, n)
  {
    hide Rendered, Begin, InQuotes, InNumber;
    match m.state {
      case NoToken =>
        BeginText(cls, c, peek, m);
        BeginLive(cls, c, peek, m);
      case Unquoted =>
        TakeText(m, Unquoted, [c]);
        EndWordText(cls, Take(m, Unquoted, [c]), peek);
      case SingleQuoted => InQuotesText('\'', c, peek, m);
      case DoubleQuoted => InQuotesText('"', c, peek, m);
      case Numeric => InNumberText(cls, c, peek, m);
      case Scientific =>
        TakeText(m, Scientific, [c]);
        EndNumberText(cls.digit(peek), Take(m, Scientific, [c]));
      case Comment =>
        TakeText(m, Comment, [c]);
        SaveText(m, Comment);
        SpaceText(Save(m, Comment), [c]);
        assert "" + [c] == [c];
      case _ =>
        TakeText(m, m.state, [c]);
        SaveText(m, m.state);
    }
  }

  lemma RunUnfold(cls: Classes, q: string, i: nat, m: Machine)
    ensures i >= |q| ==> Run(cls, q, i, m) == m && Norm(cls, q, i, m) == ""
    ensures i < |q| ==> var (m', n) := Step(cls, q[i], Peek(q, i), m);
      (Run(cls, q, i, m) == Run(cls, q, i + n, m')
       && Norm(cls, q, i, m) == NormStep(q[i], Peek(q, i), m, n) + Norm(cls, q, i + n, m'))
  {
    hide Step;
  }

  /** All turns. */
  lemma {:induction false} RunText(cls: Classes, q: string, i: nat, m: Machine)
    requires Live(m)
    ensures Live(Run(cls, q, i, m)) && Rendered(Run(cls, q, i, m)) == Rendered(m) + Norm(cls, q, i, m)
    decreases |q| - i
  {
    hide *;
    RunUnfold(cls, q, i, m);
    if i < |q| {
      StepText(cls, q[i], Peek(q, i), m);
      var (m', n) := Step(cls, q[i], Peek(q, i), m);
      RunText(cls, q, i + n, m');
      Join3(Rendered(m), NormStep(q[i], Peek(q, i), m, n), Norm(cls, q, i + n, m'));
    } else {
      assert Rendered(m) + "" == Rendered(m);
    }
  }

  lemma Join3(a: string, b: string, c: string)
    ensures (a + b) + c == a + (b + c)
  {
  }

  lemma {:induction false} NormSame(cls: Classes, q: string, i: nat, m: Machine)
    requires i <= |q|
    ensures |Norm(cls, q, i, m)| == |q| - i
    ensures forall k :: i <= k < |q| ==> Alike(Norm(cls, q, i, m)[k - i], q[k])
    decreases |q| - i
  {
    hide *;
    RunUnfold(cls, q, i, m);
    if i < |q| {
      var (m', n) := Step(cls, q[i], Peek(q, i), m);
      StepInside(cls, q, i, m);
      NormSame(cls, q, i + n, m');
      NormStepAlike(q, i, m, n);
      var first, rest := NormStep(q[i], Peek(q, i), m, n), Norm(cls, q, i + n, m');
      forall k | i <= k < |q| ensures Alike(Norm(cls, q, i, m)[k - i], q[k]) {
        assert (first + rest)[k - i] == if k - i < n then first[k - i] else rest[k - i - n];
      }
    }
  }

  lemma NormStepAlike(q: string, i: nat, m: Machine, n: nat)
    requires i + n <= |q| && 1 <= n <= 2
    ensures var first := NormStep(q[i], Peek(q, i), m, n);
      |first| == n && forall k :: 0 <= k < n ==> Alike(first[k], q[i + k])
  {
  }

  /** The same character, but for the case of an exponent sign. */
  predicate Alike(normal: char, c: char) {
    normal == c || (normal == 'e' && c == 'E')
  }

  /** The second character is only taken when it is there. */
  lemma StepInside(cls: Classes, q: string, i: nat, m: Machine)
    requires i < |q|
    ensures i + Step(cls, q[i], Peek(q, i), m).1 <= |q|
  {
  }

  lemma RenderSnoc(ts: seq<Token>, t: Token)
    ensures Render(ts + [t]) == Render(ts) + t.ToString()
  {
    assert (ts + [t])[..|ts|] == ts;
  }

  lemma SpacedToken(t: Token, space: string)
    requires t.trailingSpace == ""
    ensures t.(trailingSpace := space).ToString() == t.ToString() + space
  {
  }

  lemma TrailingSpace(ts: seq<Token>, space: string)
    requires ts != [] && ts[|ts| - 1].trailingSpace == ""
    ensures Render(ts[..|ts| - 1] + [ts[|ts| - 1].(trailingSpace := space)]) == Render(ts) + space
  {
    hide *;
    var init, last := ts[..|ts| - 1], ts[|ts| - 1];
    assert ts == init + [last];
    RenderSnoc(init, last);
    RenderSnoc(init, last.(trailingSpace := space));
    SpacedToken(last, space);
    Join3(Render(init), last.ToString(), space);
  }

  lemma SpaceLast(m: Machine)
    requires m.state == NoToken && m.cur == ""
    ensures Rendered(m) == Render(m.tokens) + m.space
  {
  }

  lemma FinishText(m: Machine)
    requires Live(m)
    ensures Render(Finish(m)) == Rendered(m) + Closing(m.state)
  {
    SaveText(m, m.state);
    var m1 := if m.state != NoToken then Save(m, m.state) else m;
    SpaceLast(m1);
    hide Render, Closing, Opening, Rendered;
    if m1.space != "" {
      if m1.tokens != [] {
        TrailingSpace(m1.tokens, m1.space);
      } else {
        RenderOne(Token(NoToken, "", m1.space, ""));
      }
    }
  }

  lemma RenderOne(t: Token)
    ensures Render([]) == "" && Render([t]) == t.ToString()
  {
    assert [t][..0] == [];
  }

  /** The tokens put together are the query, character for character, with exponent signs in lower case, and with the
      closing mark of a quote, bracket or comment left open at the end. */
  lemma Lossless(cls: Classes, q: string)
    ensures var text, end := Render(Tokenize(cls, q)), Run(cls, q, 0, START);
      && text == Norm(cls, q, 0, START) + Closing(end.state)
      && |q| <= |text| && (forall k :: 0 <= k < |q| ==> Alike(text[k], q[k]))
      && text[|q|..] == Closing(end.state)
  {
    RunText(cls, q, 0, START);
    FinishText(Run(cls, q, 0, START));
    NormSame(cls, q, 0, START);
    hide Render, Norm, Run;
    assert Rendered(START) == Render([]);
    assert Render([]) == "" by { RenderNone(); }
    assert "" + Norm(cls, q, 0, START) == Norm(cls, q, 0, START);
  }

  lemma RenderNone()
    ensures Render([]) == ""
  {
  }

  // ---------------------------------------------------------------- reading the rendering again

  /** A turn does not tell the two forms of an exponent sign apart ... */
  lemma StepAlike(cls: Classes, c: char, c': char, peek: char, peek': char, m: Machine)
    requires cls.CaseBlind() && c' == (if m.state == Numeric && c == 'E' then 'e' else c)
    requires Alike(peek', peek) && (Step(cls, c, peek, m).1 == 2 ==> peek' == peek)
    ensures Step(cls, c', peek', m) == Step(cls, c, peek, m)
  {
    assert cls.Identifier(peek) == cls.Identifier(peek') && cls.Number(peek) == cls.Number(peek');
  }

  /** ... nor, on the last character, the end from the mark that closes what is then open. */
  lemma StepLast(cls: Classes, c: char, c': char, m: Machine)
    requires Live(m) && c' == (if m.state == Numeric && c == 'E' then 'e' else c)
    ensures var m' := Step(cls, c, '\0', m).0;
      Closing(m'.state) != "" ==> Step(cls, c', Closing(m'.state)[0], m) == Step(cls, c, '\0', m)
  {
  }

  /** The rest of a text that renders the rest of a query. */
  ghost predicate Restates(cls: Classes, q: string, i: nat, m: Machine, text: string) {
    && i <= |q| <= |text|
    && text[i..|q|] == Norm(cls, q, i, m)
    && text[|q|..] == Closing(Run(cls, q, i, m).state)
  }

  /** The character there and the one after it. */
  lemma RestatesHere(cls: Classes, q: string, i: nat, m: Machine, text: string)
    requires Restates(cls, q, i, m, text) && i < |q| && Live(m)
    ensures var (m', n) := Step(cls, q[i], Peek(q, i), m);
      && text[i] == (if m.state == Numeric && q[i] == 'E' then 'e' else q[i])
      && Restates(cls, q, i + n, m', text)
      && (n == 2 ==> text[i + 1] == q[i + 1])
      && (i + 1 < |q| ==> Alike(text[i + 1], q[i + 1]))
  {
    var (m', n) := Step(cls, q[i], Peek(q, i), m);
    StepInside(cls, q, i, m);
    RunUnfold(cls, q, i, m);
    NormSame(cls, q, i, m);
    NormSame(cls, q, i + n, m');
    hide Step, Run, Norm;
    var whole, first, rest := Norm(cls, q, i, m), NormStep(q[i], Peek(q, i), m, n), Norm(cls, q, i + n, m');
    assert |first| == n && whole == first + rest;
    assert text[i] == whole[0];
    assert text[i + n..|q|] == whole[n..] == rest;
    if i + 1 < |q| {
      assert text[i + 1] == whole[1];
    }
  }

  /** Reading the text goes through the same states. */
  lemma {:induction false} Lockstep(cls: Classes, q: string, i: nat, m: Machine, text: string)
    requires cls.CaseBlind() && Live(m) && Restates(cls, q, i, m, text)
    ensures Run(cls, text, i, m) == Run(cls, text, |q|, Run(cls, q, i, m)) && Live(Run(cls, q, i, m))
    decreases |q| - i
  {
    hide *;
    RunUnfold(cls, q, i, m);
    Bounds(cls, q, i, m, text);
    if i < |q| {
      var (m', n) := Step(cls, q[i], Peek(q, i), m);
      StepText(cls, q[i], Peek(q, i), m);
      RestatesHere(cls, q, i, m, text);
      StepMatches(cls, q, i, m, text);
      RunUnfold(cls, text, i, m);
      Lockstep(cls, q, i + n, m', text);
    }
  }

  lemma Bounds(cls: Classes, q: string, i: nat, m: Machine, text: string)
    requires Restates(cls, q, i, m, text)
    ensures i <= |q| <= |text|
  {
  }

  lemma StepMatches(cls: Classes, q: string, i: nat, m: Machine, text: string)
    requires cls.CaseBlind() && Live(m) && Restates(cls, q, i, m, text) && i < |q|
    ensures Step(cls, text[i], Peek(text, i), m) == Step(cls, q[i], Peek(q, i), m)
  {
    var (m', n) := Step(cls, q[i], Peek(q, i), m);
    RestatesHere(cls, q, i, m, text);
    StepInside(cls, q, i, m);
    RunUnfold(cls, q, i, m);
    RunUnfold(cls, q, i + n, m');
    StepLast(cls, q[i], text[i], m);
    hide Step, Run, Norm;
    if i + 1 < |q| || |text| == |q| {
      StepAlike(cls, q[i], text[i], Peek(q, i), Peek(text, i), m);
    } else {
      assert text[|q|..][0] == text[i + 1];
    }
  }

  /** The closing mark ends the token just as the end of the query does. */
  lemma ClosingRun(cls: Classes, q: string, m: Machine, text: string)
    requires Live(m) && |q| <= |text| && text[|q|..] == Closing(m.state)
    ensures Finish(Run(cls, text, |q|, m)) == Finish(m)
  {
    var n := |q|;
    RunUnfold(cls, text, n, m);
    if Closing(m.state) != "" {
      assert text[n] == Closing(m.state)[0];
      assert |text| > n + 1 ==> text[n + 1] == Closing(m.state)[1];
      var (m', k) := Step(cls, text[n], Peek(text, n), m);
      assert m' == Save(m, m.state) && n + k == |text|;
      RunUnfold(cls, text, n + k, m');
    }
  }

  /** Tokenizing the rendering of the tokens gives the same tokens. */
  lemma Retokenize(cls: Classes, q: string)
    requires cls.CaseBlind()
    ensures Tokenize(cls, Render(Tokenize(cls, q))) == Tokenize(cls, q)
  {
    var text := Render(Tokenize(cls, q));
    Lossless(cls, q);
    NormSame(cls, q, 0, START);
    hide Render, Norm, Run, Finish;
    assert text[0..|q|] == Norm(cls, q, 0, START);
    Lockstep(cls, q, 0, START, text);
    ClosingRun(cls, q, Run(cls, q, 0, START), text);
  }

  // ---------------------------------------------------------------- what tokens look like

  /** The characters that make a token of their own. */
  function Marks(kind: TokenType): string {
    match kind
    case LParen => "("
    case RParen => ")"
    case Comma => ","
    case Semicolon => ";"
    case Period => "."
    case Not => "!"
    case Relop => "<>="
    case Addop => "+-"
    case Multop => "*/%"
    case Bitop => "&|^~"
    case _ => ""
  }

  predicate Word(cls: Classes, s: string) {
    s != "" && (cls.letter(s[0]) || s[0] in "_@#") && forall k :: 1 <= k < |s| ==> cls.Identifier(s[k])
  }

  /** Digits, dots and exponents; behind a sign, whatever stands there. */
  predicate NumberName(cls: Classes, s: string) {
    s != "" && (cls.digit(s[0]) || s[0] == '.')
    && forall k :: 1 <= k < |s| ==> cls.Number(s[k]) || s[k] in "+-" || s[k - 1] in "+-"
  }

  /** Every quote inside is one of a pair. */
  predicate Paired(s: string, quote: char) {
    s == "" || if s[|s| - 1] != quote then Paired(s[..|s| - 1], quote)
               else |s| >= 2 && s[|s| - 2] == quote && Paired(s[..|s| - 2], quote)
  }

  predicate NoCommentEnd(s: string) {
    forall k :: 0 <= k < |s| - 1 ==> !(s[k] == '*' && s[k + 1] == '/')
  }

  predicate Spaces(cls: Classes, s: string) {
    forall k :: 0 <= k < |s| ==> cls.space(s[k]) || s[k] == '\n'
  }

  predicate Shaped(cls: Classes, kind: TokenType, name: string) {
    match kind
    case NoToken => name == ""
    case Keyword => Word(cls, name) && cls.keyword(name)
    case Unquoted => Word(cls, name) && !cls.keyword(name)
    case SingleQuoted => Paired(name, '\'')
    case DoubleQuoted => Paired(name, '"')
    case Delimited => ']' !in name
    case Comment => '\n' !in name
    case DelimitedComment => NoCommentEnd(name)
    case Numeric => NumberName(cls, name)
    case Scientific => NumberName(cls, name)
    case ErrorUnknown => |name| == 1 && !cls.letter(name[0]) && !cls.digit(name[0]) && !cls.space(name[0])
    case _ => |name| == 1 && name[0] in Marks(kind)
  }

  ghost predicate ShapedToken(cls: Classes, t: Token) {
    Shaped(cls, t.kind, t.name) && Spaces(cls, t.leadingSpace) && Spaces(cls, t.trailingSpace)
  }

  /** The part of a token read so far, and the character that comes next. */
  predicate Growing(cls: Classes, state: TokenType, cur: string, next: char) {
    match state
    case NoToken => cur == ""
    case Unquoted => Word(cls, cur) && cls.Identifier(next)
    case SingleQuoted => Paired(cur, '\'')
    case DoubleQuoted => Paired(cur, '"')
    case Delimited => ']' !in cur
    case Comment => '\n' !in cur
    case DelimitedComment => NoCommentEnd(cur) && (cur != "" && cur[|cur| - 1] == '*' ==> next != '/')
    case Numeric => NumberName(cls, cur) && cls.Number(next)
    case Scientific => NumberName(cls, cur) && (cls.digit(next) || cur[|cur| - 1] in "+-")
    case _ => false
  }

  ghost predicate WellShaped(cls: Classes, m: Machine, next: char) {
    Growing(cls, m.state, m.cur, next) && Spaces(cls, m.space) && forall t :: t in m.tokens ==> ShapedToken(cls, t)
  }

  lemma SaveShape(cls: Classes, m: Machine, kind: TokenType, next: char)
    requires Shaped(cls, kind, m.cur) && Spaces(cls, m.space) && forall t :: t in m.tokens ==> ShapedToken(cls, t)
    ensures WellShaped(cls, Save(m, kind), next)
  {
    hide Shaped;
  }

  lemma TakeShape(cls: Classes, m: Machine, kind: TokenType, s: string, next: char)
    requires Growing(cls, kind, m.cur + s, next) && Spaces(cls, m.space)
    requires forall t :: t in m.tokens ==> ShapedToken(cls, t)
    ensures WellShaped(cls, Take(m, kind, s), next)
  {
    hide Growing;
  }

  lemma WordShape(cls: Classes, m: Machine, s: string, peek: char)
    requires Word(cls, m.cur + s) && Spaces(cls, m.space) && forall t :: t in m.tokens ==> ShapedToken(cls, t)
    ensures WellShaped(cls, EndWord(cls, Take(m, Unquoted, s), peek), peek)
  {
    hide Word, ShapedToken, Spaces;
    var w := Take(m, Unquoted, s);
    if cls.Identifier(peek) {
      TakeShape(cls, m, Unquoted, s, peek);
    } else {
      SaveShape(cls, w, if cls.keyword(w.cur) then Keyword else Unquoted, peek);
    }
  }

  lemma NumberShape(cls: Classes, m: Machine, kind: TokenType, s: string, more: bool, peek: char)
    requires kind == Numeric || kind == Scientific
    requires NumberName(cls, m.cur + s) && Spaces(cls, m.space) && forall t :: t in m.tokens ==> ShapedToken(cls, t)
    requires more ==> Growing(cls, kind, m.cur + s, peek)
    ensures WellShaped(cls, EndNumber(more, Take(m, kind, s)), peek)
  {
    hide NumberName, ShapedToken, Spaces, Growing;
    if more {
      TakeShape(cls, m, kind, s, peek);
    } else {
      SaveShape(cls, Take(m, kind, s), Numeric, peek);
    }
  }

  lemma MarkShape(cls: Classes, c: char)
    requires SingleTokenState(c) != NoToken
    ensures Shaped(cls, SingleTokenState(c), [c])
  {
  }

  lemma BeginShape(cls: Classes, c: char, peek: char, next2: char, m: Machine)
    requires m.state == NoToken && WellShaped(cls, m, c)
    ensures var (m', n) := Begin(cls, c, peek, m); WellShaped(cls, m', if n == 1 then peek else next2)
  {
    hide ShapedToken, Shaped, SingleTokenState, EndWord, EndNumber, Save;
    assert m.cur + [c] == [c];
    if cls.letter(c) || c in "_@#" {
      WordShape(cls, m, [c], peek);
    } else if c == '\'' || c == '"' || c == '[' || (c == '-' && peek == '-') || (c == '/' && peek == '*') {
    } else if cls.digit(c) || (c == '.' && cls.digit(peek)) {
      NumberShape(cls, m, Numeric, [c], cls.Number(peek), peek);
      TakeShape(cls, m, Numeric, [c], if cls.Number(peek) then peek else '.');
    } else if SingleTokenState(c) != NoToken {
      MarkShape(cls, c);
      SaveShape(cls, Take(m, SingleTokenState(c), [c]), SingleTokenState(c), peek);
    } else if !cls.space(c) {
      UnknownShape(cls, c);
      SaveShape(cls, Take(m, ErrorUnknown, [c]), ErrorUnknown, peek);
    }
  }

  lemma UnknownShape(cls: Classes, c: char)
    requires !cls.letter(c) && !cls.digit(c) && !cls.space(c)
    ensures Shaped(cls, ErrorUnknown, [c])
  {
  }

  lemma PairedMore(s: string, quote: char, c: char)
    requires Paired(s, quote)
    ensures c != quote ==> Paired(s + [c], quote)
    ensures Paired(s + [quote, quote], quote)
  {
    assert (s + [c])[..|s|] == s && (s + [quote, quote])[..|s|] == s;
  }

  lemma QuotesShape(cls: Classes, quote: char, c: char, peek: char, next2: char, m: Machine)
    requires (m.state == SingleQuoted && quote == '\'') || (m.state == DoubleQuoted && quote == '"')
    requires WellShaped(cls, m, c)
    ensures var (m', n) := InQuotes(quote, c, peek, m); WellShaped(cls, m', if n == 1 then peek else next2)
  {
    hide ShapedToken, Paired, Save, Spaces;
    PairedMore(m.cur, quote, c);
    if c == quote && peek != quote {
      SaveShape(cls, m, m.state, peek);
    }
  }

  lemma NumberMore(cls: Classes, s: string, t: string)
    requires NumberName(cls, s) && t != "" && (cls.Number(t[0]) || s[|s| - 1] in "+-") && |t| <= 2
      && (|t| == 2 ==> t[1] in "+-")
    ensures NumberName(cls, s + t)
  {
  }

  lemma InNumberShape(cls: Classes, c: char, peek: char, next2: char, m: Machine)
    requires m.state == Numeric && WellShaped(cls, m, c)
    ensures var (m', n) := InNumber(cls, c, peek, m); WellShaped(cls, m', if n == 1 then peek else next2)
  {
    hide ShapedToken, NumberName, Save, Spaces, EndNumber;
    NumberMore(cls, m.cur, "e");
    if c == 'E' || c == 'e' {
      if peek == '-' || peek == '+' {
        NumberMore(cls, m.cur, ['e', peek]);
        TakeShape(cls, m, Scientific, ['e', peek], next2);
      } else if cls.digit(peek) {
        TakeShape(cls, m, Scientific, "e", peek);
      } else {
        SaveShape(cls, Take(m, Numeric, "e"), Numeric, peek);
      }
    } else {
      NumberMore(cls, m.cur, [c]);
      NumberShape(cls, m, Numeric, [c], cls.Number(peek), peek);
    }
  }

  lemma WordMore(cls: Classes, s: string, c: char)
    requires Word(cls, s) && cls.Identifier(c)
    ensures Word(cls, s + [c])
  {
  }

  /** One turn keeps every token in shape. */
  lemma StepShape(cls: Classes, c: char, peek: char, next2: char, m: Machine)
    requires WellShaped(cls, m, c)
    ensures var (m', n) := Step(cls, c, peek, m); WellShaped(cls, m', if n == 1 then peek else next2)
  {
    hide ShapedToken, Begin, InQuotes, InNumber, Word, NumberName, Paired, EndWord, EndNumber, Save;
    match m.state {
      case NoToken => BeginShape(cls, c, peek, next2, m);
      case Unquoted =>
        WordMore(cls, m.cur, c);
        WordShape(cls, m, [c], peek);
      case SingleQuoted => QuotesShape(cls, '\'', c, peek, next2, m);
      case DoubleQuoted => QuotesShape(cls, '"', c, peek, next2, m);
      case Numeric => InNumberShape(cls, c, peek, next2, m);
      case Scientific =>
        NumberMore(cls, m.cur, [c]);
        NumberShape(cls, m, Scientific, [c], cls.digit(peek), peek);
      case Delimited => SaveShape(cls, m, Delimited, peek);
      case Comment => SaveShape(cls, m, Comment, peek);
      case DelimitedComment =>
        if c == '*' && peek == '/' {
          SaveShape(cls, m, DelimitedComment, next2);
        }
      case _ =>
    }
  }

  lemma {:induction false} RunShape(cls: Classes, q: string, i: nat, m: Machine)
    requires i <= |q| && WellShaped(cls, m, if i < |q| then q[i] else '\0')
    ensures WellShaped(cls, Run(cls, q, i, m), '\0')
    decreases |q| - i
  {
    hide *;
    RunUnfold(cls, q, i, m);
    if i < |q| {
      var (m', n) := Step(cls, q[i], Peek(q, i), m);
      StepInside(cls, q, i, m);
      StepShape(cls, q[i], Peek(q, i), if i + 2 < |q| then q[i + 2] else '\0', m);
      PeekIs(q, i);
      RunShape(cls, q, i + n, m');
    }
  }

  lemma PeekIs(q: string, i: nat)
    requires i < |q|
    ensures Peek(q, i) == if i + 1 < |q| then q[i + 1] else '\0'
  {
  }

  /** Every token is what its kind says, whatever the query: words of identifier characters, key words exactly those on
      the list, quotes that pair up inside strings, no closing mark inside brackets and comments, single marks of the
      right kind, and nothing but white space between. */
  lemma TokensShaped(cls: Classes, q: string)
    requires !cls.Identifier('\0')
    ensures forall t :: t in Tokenize(cls, q) ==> ShapedToken(cls, t)
  {
    RunShape(cls, q, 0, START);
    var m := Run(cls, q, 0, START);
    hide Run, Step;
    FinishShape(cls, m);
  }

  lemma FinishShape(cls: Classes, m: Machine)
    requires WellShaped(cls, m, '\0') && !cls.Identifier('\0')
    ensures forall t :: t in Finish(m) ==> ShapedToken(cls, t)
  {
    if m.state != NoToken {
      SaveShape(cls, m, m.state, '\0');
    }
    hide Growing;
    var m1 := if m.state != NoToken then Save(m, m.state) else m;
    assert forall t :: t in m1.tokens ==> ShapedToken(cls, t);
    if m1.space != "" && m1.tokens != [] {
      var last := m1.tokens[|m1.tokens| - 1];
      assert last in m1.tokens && ShapedToken(cls, last.(trailingSpace := m1.space));
      forall t | t in Finish(m) ensures ShapedToken(cls, t) {
        assert t in m1.tokens || t == last.(trailingSpace := m1.space);
      }
    }
  }

  // ---------------------------------------------------------------- the tokenizer

  class VxSqlTokenizer {
    const cls: Classes
    var tokens: seq<Token>
    var cur: string
    var curspace: string
    var curstate: TokenType

    constructor (cls: Classes)
      ensures this.cls == cls && tokens == []
    {
      this.cls := cls;
      tokens, cur, curspace, curstate := [], "", "", NoToken;
    }

    function State(): Machine
      reads this
    {
      Machine(curstate, cur, curspace, tokens)
    }

    method ResetState()
      modifies this
      ensures State() == START.(tokens := old(tokens))
    {
      cur, curspace, curstate := "", "", NoToken;
    }

    method SaveAndResetState()
      modifies this
      ensures State() == Save(old(State()), old(curstate))
    {
      tokens := tokens + [Token(curstate, cur, curspace, "")];
      ResetState();
    }

    method DecipherUnquotedState()
      modifies this`curstate
      ensures curstate == if cls.keyword(cur) then Keyword else old(curstate)
    {
      if cls.keyword(cur) {
        curstate := Keyword;
      }
    }

    method BeginToken(c: char, peek: char) returns (taken: nat)
      requires curstate == NoToken
      modifies this
      ensures (State(), taken) == Begin(cls, c, peek, old(State()))
    {
      taken := 1;
      var singletokenState := SingleTokenState(c);
      if cls.letter(c) || c == '_' || c == '@' || c == '#' {
        curstate, cur := Unquoted, cur + [c];
        if !cls.Identifier(peek) {
          DecipherUnquotedState();
          SaveAndResetState();
        }
      } else if c == '\'' {
        curstate := SingleQuoted;
      } else if c == '"' {
        curstate := DoubleQuoted;
      } else if c == '[' {
        curstate := Delimited;
      } else if c == '-' && peek == '-' {
        taken, curstate := 2, Comment;
      } else if c == '/' && peek == '*' {
        taken, curstate := 2, DelimitedComment;
      } else if cls.digit(c) {
        curstate, cur := Numeric, cur + [c];
        if !cls.Number(peek) {
          SaveAndResetState();
        }
      } else if c == '.' && cls.digit(peek) {
        curstate, cur := Numeric, cur + [c];
      } else if singletokenState != NoToken {
        curstate, cur := singletokenState, cur + [c];
        SaveAndResetState();
      } else if !cls.space(c) {
        curstate, cur := ErrorUnknown, cur + [c];
        SaveAndResetState();
      } else {
        curspace := curspace + [c];
      }
    }

    method ContinueQuoted(quote: char, c: char, peek: char) returns (taken: nat)
      modifies this
      ensures (State(), taken) == InQuotes(quote, c, peek, old(State()))
    {
      taken := 1;
      if c == quote {
        if peek == quote {
          cur, taken := cur + [quote, quote], 2;
        } else {
          SaveAndResetState();
        }
      } else {
        cur := cur + [c];
      }
    }

    method ContinueNumber(c: char, peek: char) returns (taken: nat)
      requires curstate == Numeric
      modifies this
      ensures (State(), taken) == InNumber(cls, c, peek, old(State()))
    {
      taken := 1;
      if c == 'E' || c == 'e' {
        curstate := Scientific;
        ghost var was := cur;
        cur := cur + "e";
        if peek == '-' || peek == '+' {
          taken, cur := 2, cur + [peek];
          assert cur == was + ['e', peek];
        } else if !cls.digit(peek) {
          curstate := Numeric;
          SaveAndResetState();
        }
      } else {
        cur := cur + [c];
        if !cls.Number(peek) {
          SaveAndResetState();
        }
      }
    }

    method Turn(c: char, peek: char) returns (taken: nat)
      modifies this
      ensures (State(), taken) == Step(cls, c, peek, old(State()))
    {
      hide Begin, InQuotes, InNumber;
      taken := 1;
      match curstate {
        case NoToken => taken := BeginToken(c, peek);
        case Unquoted =>
          cur := cur + [c];
          if !cls.Identifier(peek) {
            DecipherUnquotedState();
            SaveAndResetState();
          }
        case SingleQuoted => taken := ContinueQuoted('\'', c, peek);
        case DoubleQuoted => taken := ContinueQuoted('"', c, peek);
        case Delimited =>
          if c == ']' {
            SaveAndResetState();
          } else {
            cur := cur + [c];
          }
        case Comment =>
          if c == '\n' {
            SaveAndResetState();
            curspace := curspace + [c];
            assert curspace == [c];
          } else {
            cur := cur + [c];
          }
        case DelimitedComment =>
          if c == '*' && peek == '/' {
            taken := 2;
            SaveAndResetState();
          } else {
            cur := cur + [c];
          }
        case Numeric => taken := ContinueNumber(c, peek);
        case Scientific =>
          cur := cur + [c];
          if !cls.digit(peek) {
            curstate := Numeric;
            SaveAndResetState();
          }
        case _ =>
      }
    }

    method TokenizeQuery(q: string)
      modifies this
      ensures tokens == Tokenize(cls, q)
    {
      hide Step;
      tokens := [];
      ResetState();
      var i := 0;
      while i < |q|
        invariant Run(cls, q, i, State()) == Run(cls, q, 0, START)
      {
        RunUnfold(cls, q, i, State());
        var taken := Turn(q[i], if i < |q| - 1 then q[i + 1] else '\0');
        i := i + taken;
      }
      RunUnfold(cls, q, i, State());
      if curstate != NoToken {
        SaveAndResetState();
      }
      if curspace != "" {
        if tokens != [] {
          var last := tokens[|tokens| - 1];
          tokens := tokens[..|tokens| - 1] + [last.(trailingSpace := curspace)];
        } else {
          tokens := [Token(NoToken, "", curspace, "")];
        }
      }
    }
  }
}

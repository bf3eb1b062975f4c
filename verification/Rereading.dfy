/** When the text of any list of tokens is read as those tokens again. */
module Rereading {
  import opened Wrappers
  import opened Tokenizer

  /** A character that is passed over between tokens. */
  predicate Blank(cls: Classes, c: char) {
    !cls.letter(c) && !cls.digit(c) && c !in "_@#'\"[" && SingleTokenState(c) == NoToken && cls.space(c)
  }

  predicate Blanks(cls: Classes, s: string) {
    forall k :: 0 <= k < |s| ==> Blank(cls, s[k])
  }

  /** What holds of the character tests of any platform. */
  ghost predicate Ordinary(cls: Classes) {
    cls.CaseBlind() && !cls.digit('e') && !cls.digit('E') && !cls.digit('/') && !cls.digit('-')
    && !cls.Identifier('\0') && Blank(cls, '\n')
  }

  /** The character that comes next, as the tokenizer sees it. */
  function Head(s: string): char {
    if s == "" then '\0' else s[0]
  }

  /** A token without the spaces around it. */
  function Core(kind: TokenType, name: string): string {
    Opening(kind) + name + Closing(kind)
  }

  // ---------------------------------------------------------------- where a token ends

  predicate NumberStops(cls: Classes, name: string, next: char) {
    if 'e' in name[..if name == "" then 0 else |name| - 1] then !cls.digit(next)
    else if name != "" && name[|name| - 1] == 'e' then !cls.digit(next) && next !in "+-"
    else !cls.Number(next)
  }

  /** The token does not run into the text behind it. */
  predicate Stops(cls: Classes, kind: TokenType, name: string, after: string) {
    var next := Head(after);
    match kind
    case Keyword => !cls.Identifier(next)
    case Unquoted => !cls.Identifier(next)
    case SingleQuoted => next != '\''
    case DoubleQuoted => next != '"'
    case Comment => after == "" || next == '\n'
    case Numeric => NumberStops(cls, name, next)
    case Scientific => after == ""
    case Addop => name == "-" ==> next != '-'
    case Multop => name == "/" ==> next != '*'
    case Period => !cls.digit(next)
    case _ => true
  }

  /** The text behind the i-th token, up to the end of the next one. */
  function Behind(ts: seq<Token>, i: nat): string
    requires i < |ts|
  {
    ts[i].trailingSpace + if i + 1 < |ts| then ts[i + 1].ToString() else ""
  }

  predicate StopsAt(cls: Classes, ts: seq<Token>, i: nat)
    requires i < |ts|
  {
    Stops(cls, ts[i].kind, ts[i].name, Behind(ts, i))
  }

  predicate AllStop(cls: Classes, ts: seq<Token>) {
    forall i :: 0 <= i < |ts| ==> StopsAt(cls, ts, i)
  }

  /** The same tokens, wherever the spaces between them are kept. */
  predicate Same(a: seq<Token>, b: seq<Token>) {
    |a| == |b| && forall i :: 0 <= i < |a| ==> a[i].kind == b[i].kind && a[i].name == b[i].name
  }

  // ---------------------------------------------------------------- reading one token

  /** Reading w as one token: nothing if the token ends before w does, or takes the character behind it as well. */
  function Read(cls: Classes, w: string, next: char, m: Machine): Option<Machine> {
    if w == "" then Some(m)
    else
      var (m', n) := Step(cls, w[0], if |w| > 1 then w[1] else next, m);
      if n > |w| then None
      else if n == |w| then Some(m')
      else if m'.state == NoToken then None
      else Read(cls, w[n..], next, m')
  }

  predicate Between(m: Machine) {
    m.state == NoToken && m.cur == ""
  }

  /** A line comment and an exponent without digits are only ended by what follows. */
  predicate EndsLater(kind: TokenType) {
    kind == Comment || kind == Scientific
  }

  function After(m: Machine, kind: TokenType, name: string): Machine {
    if EndsLater(kind) then m.(state := kind, cur := name) else Save(m.(cur := name), kind)
  }

  predicate ReadsAs(cls: Classes, kind: TokenType, name: string, next: char) {
    Read(cls, Core(kind, name), next, START) == Some(After(START, kind, name)) && (kind == Scientific ==> next == '\0')
  }

  /** Something the tokenizer takes for a token if the right character follows. */
  ghost predicate Legit(cls: Classes, kind: TokenType, name: string) {
    && kind != NoToken && Core(kind, name) != "" && !Blank(cls, Core(kind, name)[0])
    && exists next :: ReadsAs(cls, kind, name, next)
  }

  ghost predicate LegitToken(cls: Classes, t: Token) {
    Legit(cls, t.kind, t.name) && Blanks(cls, t.leadingSpace) && Blanks(cls, t.trailingSpace)
  }

  /** Exponents are begun but once. */
  predicate OneExponent(m: Machine) {
    && (m.state == Numeric ==> 'e' !in m.cur && 'E' !in m.cur)
    && (m.state == Scientific ==> 'e' in m.cur)
  }

  ghost predicate Exponents(m: Machine) {
    OneExponent(m) && (m.state == NoToken ==> m.cur == "")
  }

  lemma BeginExponent(cls: Classes, c: char, peek: char, m: Machine)
    requires Ordinary(cls) && Between(m)
    ensures Exponents(Begin(cls, c, peek, m).0)
  {
    hide SingleTokenState;
    assert m.cur + [c] == [c];
  }

  lemma NumberExponent(cls: Classes, c: char, peek: char, m: Machine)
    requires OneExponent(m) && m.state == Numeric
    ensures Exponents(InNumber(cls, c, peek, m).0)
  {
  }

  lemma StepExponent(cls: Classes, c: char, peek: char, m: Machine)
    requires Ordinary(cls) && OneExponent(m) && (m.state == NoToken ==> m.cur == "")
    ensures var m' := Step(cls, c, peek, m).0; OneExponent(m') && (m'.state == NoToken ==> m'.cur == "")
  {
    hide Begin, InNumber, Ordinary;
    match m.state {
      case NoToken => BeginExponent(cls, c, peek, m);
      case Numeric => NumberExponent(cls, c, peek, m);
      case _ =>
    }
  }

  ghost predicate Elsewhere(r: (Machine, nat), m: Machine, o: (Machine, nat), other: Machine) {
    && r.1 == o.1 && r.0.state == o.0.state && r.0.cur == o.0.cur
    && (r.0.state != NoToken ==>
        r.0.space == m.space && o.0.space == other.space && r.0.tokens == m.tokens && o.0.tokens == other.tokens)
  }

  lemma BeginElsewhere(cls: Classes, c: char, peek: char, m: Machine, other: Machine)
    requires m.state == other.state == NoToken && m.cur == other.cur
    ensures Elsewhere(Begin(cls, c, peek, m), m, Begin(cls, c, peek, other), other)
  {
    hide SingleTokenState;
  }

  lemma NumberElsewhere(cls: Classes, c: char, peek: char, m: Machine, other: Machine)
    requires m.state == other.state && m.cur == other.cur
    ensures Elsewhere(InNumber(cls, c, peek, m), m, InNumber(cls, c, peek, other), other)
  {
  }

  lemma QuotesElsewhere(c: char, peek: char, m: Machine, other: Machine)
    requires m.state == other.state && m.cur == other.cur
    ensures Elsewhere(InQuotes('\'', c, peek, m), m, InQuotes('\'', c, peek, other), other)
    ensures Elsewhere(InQuotes('"', c, peek, m), m, InQuotes('"', c, peek, other), other)
  {
  }

  /** Inside a token, what was read before does not matter. */
  lemma StepElsewhere(cls: Classes, c: char, peek: char, m: Machine, other: Machine)
    requires m.state == other.state && m.cur == other.cur
    ensures var ((m', n), (o', k)) := (Step(cls, c, peek, m), Step(cls, c, peek, other));
      && n == k && m'.state == o'.state && m'.cur == o'.cur
      && (m'.state != NoToken ==>
          m'.space == m.space && o'.space == other.space && m'.tokens == m.tokens && o'.tokens == other.tokens)
  {
    hide Begin, InNumber, InQuotes;
    match m.state {
      case NoToken => BeginElsewhere(cls, c, peek, m, other);
      case Numeric => NumberElsewhere(cls, c, peek, m, other);
      case _ =>
    }
    QuotesElsewhere(c, peek, m, other);
  }

  // ---------------------------------------------------------------- reading a text

  /** The run of the machine over a text from its beginning. */
  function RunOn(cls: Classes, s: string, m: Machine): Machine {
    if s == "" then m
    else var (m', n) := Step(cls, s[0], Head(s[1..]), m); RunOn(cls, if n <= |s| then s[n..] else "", m')
  }

  lemma ReadUnfold(cls: Classes, w: string, next: char, m: Machine)
    requires w != ""
    ensures var (m', n) := Step(cls, w[0], if |w| > 1 then w[1] else next, m);
      Read(cls, w, next, m) ==
        if n > |w| then None
        else if n == |w| then Some(m')
        else if m'.state == NoToken then None
        else Read(cls, w[n..], next, m')
  {
    hide Step;
  }

  lemma RunOnUnfold(cls: Classes, w: string, rest: string, m: Machine)
    requires w != ""
    ensures var (m', n) := Step(cls, w[0], if |w| > 1 then w[1] else Head(rest), m);
      n <= |w| ==> RunOn(cls, w + rest, m) == RunOn(cls, w[n..] + rest, m')
  {
    hide Step;
    var s := w + rest;
    var n := Step(cls, w[0], if |w| > 1 then w[1] else Head(rest), m).1;
    assert s[1..] == w[1..] + rest && Head(s[1..]) == if |w| > 1 then w[1] else Head(rest);
    assert n <= |w| ==> s[n..] == w[n..] + rest;
  }

  /** The state before the last turn of a reading, and what that turn takes.  Whatever follows the token, the turns
      before are the same. */
  lemma {:induction false} LastTurn(cls: Classes, w: string, next: char, m: Machine, rest: string)
      returns (last: Machine, v: string)
    requires Ordinary(cls) && OneExponent(m) && (m.state == NoToken ==> m.cur == "")
    requires w != "" && Read(cls, w, next, m).Some?
    ensures OneExponent(last) && (last.state == NoToken ==> v == w && last == m)
    ensures last.space == m.space && last.tokens == m.tokens
    ensures 1 <= |v| <= 2 && Read(cls, w, next, m) == Some(Step(cls, v[0], if |v| == 2 then v[1] else next, last).0)
    ensures Step(cls, v[0], if |v| == 2 then v[1] else next, last).1 == |v|
    ensures RunOn(cls, w + rest, m) == RunOn(cls, v + rest, last)
    decreases |w|
  {
    hide *;
    ReadUnfold(cls, w, next, m);
    var (m', n) := Step(cls, w[0], if |w| > 1 then w[1] else next, m);
    if n == |w| {
      last, v := m, w;
    } else {
      StepExponent(cls, w[0], w[1], m);
      StepElsewhere(cls, w[0], w[1], m, m);
      RunOnUnfold(cls, w, rest, m);
      last, v := LastTurn(cls, w[n..], next, m', rest);
    }
  }

  lemma {:induction false} RunFrom(cls: Classes, q: string, i: nat, m: Machine)
    requires i <= |q|
    ensures Run(cls, q, i, m) == RunOn(cls, q[i..], m)
    decreases |q| - i
  {
    hide Step;
    RunUnfold(cls, q, i, m);
    if i < |q| {
      StepInside(cls, q, i, m);
      PeekIs(q, i);
      var (m', n) := Step(cls, q[i], Peek(q, i), m);
      assert q[i..][1..] == q[i + 1..] && q[i..][n..] == q[i + n..];
      RunFrom(cls, q, i + n, m');
    }
  }

  // ---------------------------------------------------------------- a token that stops, and one that does not

  /** A machine that saved a token is the one after that token and no other. */
  lemma SaveIsAfter(mm: Machine, k: TokenType, m: Machine, kind: TokenType, name: string)
    requires mm.space == m.space && mm.tokens == m.tokens
    ensures Save(mm, k) == After(m, kind, name) <==> !EndsLater(kind) && k == kind && mm.cur == name
  {
    if Save(mm, k) == After(m, kind, name) {
      SavedToken(m, Save(mm, k), kind, name);
    }
  }

  lemma OpenIsAfter(mm: Machine, m: Machine, kind: TokenType, name: string)
    requires mm.tokens == m.tokens
    ensures mm == After(m, kind, name) <==>
      EndsLater(kind) && mm.state == kind && mm.cur == name && mm.space == m.space
  {
    if mm == After(m, kind, name) {
      SavedToken(m, mm, kind, name);
    }
  }

  lemma WordIsAfter(cls: Classes, mm: Machine, peek: char, m: Machine, kind: TokenType, name: string)
    requires mm.space == m.space && mm.tokens == m.tokens && mm.state == Unquoted
    ensures EndWord(cls, mm, peek) == After(m, kind, name) <==>
      !cls.Identifier(peek) && kind == (if cls.keyword(mm.cur) then Keyword else Unquoted) && mm.cur == name
  {
    hide Save, After;
    SaveIsAfter(mm, Keyword, m, kind, name);
    SaveIsAfter(mm, Unquoted, m, kind, name);
    OpenIsAfter(mm, m, kind, name);
  }

  lemma NumberIsAfter(more: bool, mm: Machine, m: Machine, kind: TokenType, name: string)
    requires mm.space == m.space && mm.tokens == m.tokens && (mm.state == Numeric || mm.state == Scientific)
    ensures EndNumber(more, mm) == After(m, kind, name) <==>
      if more then mm.state == kind == Scientific && mm.cur == name else kind == Numeric && mm.cur == name
  {
    hide Save, After;
    SaveIsAfter(mm, Numeric, m, kind, name);
    OpenIsAfter(mm, m, kind, name);
  }

  /** How a number can be over with a turn. */
  lemma InNumberIsAfter(cls: Classes, c: char, peek: char, m: Machine, kind: TokenType, name: string)
    requires m.state == Numeric
    ensures InNumber(cls, c, peek, m).0 == After(m, kind, name) <==>
      if c == 'E' || c == 'e' then
        if peek == '-' || peek == '+' then kind == Scientific && name == m.cur + ['e', peek]
        else kind == (if cls.digit(peek) then Scientific else Numeric) && name == m.cur + "e"
      else !cls.Number(peek) && kind == Numeric && name == m.cur + [c]
    ensures InNumber(cls, c, peek, m).1 == if c in "eE" && peek in "+-" then 2 else 1
  {
    hide Save, After, EndNumber;
    OpenIsAfter(Take(m, Scientific, ['e', peek]), m, kind, name);
    OpenIsAfter(Take(m, Scientific, "e"), m, kind, name);
    SaveIsAfter(Take(m, Numeric, "e"), Numeric, m, kind, name);
    NumberIsAfter(cls.Number(peek), Take(m, Numeric, [c]), m, kind, name);
  }

  predicate WordStart(cls: Classes, c: char) {
    cls.letter(c) || c in "_@#"
  }

  /** A first turn that opens something to be closed. */
  predicate Opens(c: char, peek: char) {
    c in "'\"[" || (c == '-' && peek == '-') || (c == '/' && peek == '*')
  }

  lemma BeginWordIsAfter(cls: Classes, c: char, peek: char, m: Machine, kind: TokenType, name: string)
    requires Between(m) && WordStart(cls, c)
    ensures Begin(cls, c, peek, m).0 == After(m, kind, name) <==>
      !cls.Identifier(peek) && kind == (if cls.keyword([c]) then Keyword else Unquoted) && name == [c]
  {
    hide Save, After, EndWord;
    assert m.cur + [c] == [c];
    WordIsAfter(cls, Take(m, Unquoted, [c]), peek, m, kind, name);
  }

  lemma BeginOpenIsAfter(cls: Classes, c: char, peek: char, m: Machine, kind: TokenType, name: string)
    requires Between(m) && !WordStart(cls, c) && Opens(c, peek)
    ensures Begin(cls, c, peek, m).0 == After(m, kind, name) <==> c == '-' && kind == Comment && name == ""
  {
    hide Save, After, EndWord, EndNumber, SingleTokenState;
    OpenIsAfter(Begin(cls, c, peek, m).0, m, kind, name);
  }

  lemma BeginNumberIsAfter(cls: Classes, c: char, peek: char, m: Machine, kind: TokenType, name: string)
    requires Between(m) && !WordStart(cls, c) && !Opens(c, peek) && (cls.digit(c) || (c == '.' && cls.digit(peek)))
    ensures Begin(cls, c, peek, m).0 == After(m, kind, name) <==>
      cls.digit(c) && !cls.Number(peek) && kind == Numeric && name == [c]
  {
    hide Save, After, EndWord, EndNumber, SingleTokenState;
    assert m.cur + [c] == [c];
    NumberIsAfter(cls.Number(peek), Take(m, Numeric, [c]), m, kind, name);
    OpenIsAfter(Take(m, Numeric, [c]), m, kind, name);
  }

  lemma BeginMarkIsAfter(cls: Classes, c: char, peek: char, m: Machine, kind: TokenType, name: string)
    requires Between(m) && !WordStart(cls, c) && !Opens(c, peek) && !(cls.digit(c) || (c == '.' && cls.digit(peek)))
    ensures var k := SingleTokenState(c);
      Begin(cls, c, peek, m).0 == After(m, kind, name) <==>
        name == [c] && if k != NoToken then kind == k else !cls.space(c) && kind == ErrorUnknown
  {
    hide Save, After, EndWord, EndNumber, SingleTokenState;
    assert m.cur + [c] == [c];
    var k := SingleTokenState(c);
    Unended(c);
    SaveIsAfter(Take(m, k, [c]), k, m, kind, name);
    SaveIsAfter(Take(m, ErrorUnknown, [c]), ErrorUnknown, m, kind, name);
    OpenIsAfter(m.(space := m.space + [c]), m, kind, name);
  }

  /** How a token that is begun can be over with its first turn. */
  lemma BeginIsAfter(cls: Classes, c: char, peek: char, m: Machine, kind: TokenType, name: string)
    requires Between(m)
    ensures var k := SingleTokenState(c);
      Begin(cls, c, peek, m).0 == After(m, kind, name) <==>
        if WordStart(cls, c) then
          !cls.Identifier(peek) && kind == (if cls.keyword([c]) then Keyword else Unquoted) && name == [c]
        else if Opens(c, peek) then c == '-' && kind == Comment && name == ""
        else if cls.digit(c) then !cls.Number(peek) && kind == Numeric && name == [c]
        else if c == '.' && cls.digit(peek) then false
        else name == [c] && if k != NoToken then kind == k else !cls.space(c) && kind == ErrorUnknown
  {
    hide *;
    if WordStart(cls, c) {
      BeginWordIsAfter(cls, c, peek, m, kind, name);
    } else if Opens(c, peek) {
      BeginOpenIsAfter(cls, c, peek, m, kind, name);
    } else if cls.digit(c) || (c == '.' && cls.digit(peek)) {
      BeginNumberIsAfter(cls, c, peek, m, kind, name);
    } else {
      BeginMarkIsAfter(cls, c, peek, m, kind, name);
    }
  }

  lemma BeginTakes(cls: Classes, c: char, peek: char, m: Machine)
    ensures Begin(cls, c, peek, m).1 ==
      if !cls.letter(c) && ((c == '-' && peek == '-') || (c == '/' && peek == '*')) then 2 else 1
  {
    hide SingleTokenState;
  }

  lemma Unended(c: char)
    ensures !EndsLater(SingleTokenState(c))
  {
  }

  lemma InQuotesAfter(quote: char, c: char, peek: char, m: Machine, other: Machine, kind: TokenType, name: string)
    requires m.state == other.state && m.cur == other.cur && m.state in {SingleQuoted, DoubleQuoted}
    requires InQuotes(quote, c, peek, m).0 == After(m, kind, name)
    ensures InQuotes(quote, c, peek, other).0 == After(other, kind, name)
  {
    SavedToken(m, InQuotes(quote, c, peek, m).0, kind, name);
  }

  lemma InNumberAfter(cls: Classes, c: char, peek: char, m: Machine, other: Machine, kind: TokenType, name: string)
    requires m.state == other.state == Numeric && m.cur == other.cur
    requires InNumber(cls, c, peek, m).0 == After(m, kind, name)
    ensures InNumber(cls, c, peek, other).0 == After(other, kind, name)
  {
    hide InNumber, After;
    InNumberIsAfter(cls, c, peek, m, kind, name);
    InNumberIsAfter(cls, c, peek, other, kind, name);
  }

  lemma PlainAfter(cls: Classes, c: char, peek: char, m: Machine, other: Machine, kind: TokenType, name: string)
    requires m.state == other.state && m.cur == other.cur
    requires m.state !in {NoToken, Unquoted, SingleQuoted, DoubleQuoted, Numeric, Scientific}
    requires Step(cls, c, peek, m).0 == After(m, kind, name)
    ensures Step(cls, c, peek, other).0 == After(other, kind, name)
  {
    SavedToken(m, Step(cls, c, peek, m).0, kind, name);
  }

  lemma StepAfter(cls: Classes, c: char, peek: char, m: Machine, other: Machine, kind: TokenType, name: string)
    requires m.state == other.state && m.cur == other.cur && (m.state == NoToken ==> m.cur == "")
    requires Step(cls, c, peek, m).0 == After(m, kind, name)
    ensures Step(cls, c, peek, other).0 == After(other, kind, name)
  {
    hide Begin, InQuotes, InNumber, EndWord, EndNumber, After, Save;
    match m.state {
      case NoToken =>
        BeginIsAfter(cls, c, peek, m, kind, name);
        BeginIsAfter(cls, c, peek, other, kind, name);
      case Unquoted =>
        WordIsAfter(cls, Take(m, Unquoted, [c]), peek, m, kind, name);
        WordIsAfter(cls, Take(other, Unquoted, [c]), peek, other, kind, name);
      case SingleQuoted => InQuotesAfter('\'', c, peek, m, other, kind, name);
      case DoubleQuoted => InQuotesAfter('"', c, peek, m, other, kind, name);
      case Numeric => InNumberAfter(cls, c, peek, m, other, kind, name);
      case Scientific =>
        NumberIsAfter(cls.digit(peek), Take(m, Scientific, [c]), m, kind, name);
        NumberIsAfter(cls.digit(peek), Take(other, Scientific, [c]), other, kind, name);
      case _ => PlainAfter(cls, c, peek, m, other, kind, name);
    }
  }

  lemma SavedToken(m: Machine, m': Machine, kind: TokenType, name: string)
    requires m' == After(m, kind, name)
    ensures !EndsLater(kind) ==> |m'.tokens| > |m.tokens| && m'.tokens[|m.tokens|] == Token(kind, name, m.space, "")
  {
  }

  /** A token is read alike wherever it stands. */
  lemma {:induction false} ReadElsewhere(cls: Classes, w: string, next: char, m: Machine, other: Machine,
                                         kind: TokenType, name: string)
    requires m.state == other.state && m.cur == other.cur && (m.state == NoToken ==> m.cur == "") && w != ""
    requires Read(cls, w, next, m) == Some(After(m, kind, name))
    ensures Read(cls, w, next, other) == Some(After(other, kind, name))
    decreases |w|
  {
    hide Step, After, Read;
    ReadUnfold(cls, w, next, m);
    ReadUnfold(cls, w, next, other);
    var peek := if |w| > 1 then w[1] else next;
    var ((m', n), (o', k)) := (Step(cls, w[0], peek, m), Step(cls, w[0], peek, other));
    StepElsewhere(cls, w[0], peek, m, other);
    if n == |w| {
      StepAfter(cls, w[0], peek, m, other, kind, name);
    } else {
      AfterSame(m, m', kind, name);
      AfterSame(other, o', kind, name);
      ReadElsewhere(cls, w[n..], next, m', o', kind, name);
    }
  }

  lemma AfterSame(m: Machine, other: Machine, kind: TokenType, name: string)
    requires m.space == other.space && m.tokens == other.tokens
    ensures After(m, kind, name) == After(other, kind, name)
  {
  }

  lemma BeginStops(cls: Classes, c: char, next: char, last: Machine, kind: TokenType, name: string, rest: string)
    requires Ordinary(cls) && last.state == NoToken && last.cur == ""
    requires Begin(cls, c, next, last) == (After(last, kind, name), 1) && (kind == Scientific ==> next == '\0')
    requires Stops(cls, kind, name, rest)
    ensures Begin(cls, c, Head(rest), last) == (After(last, kind, name), 1)
  {
    hide Begin, After;
    BeginIsAfter(cls, c, next, last, kind, name);
    BeginIsAfter(cls, c, Head(rest), last, kind, name);
    BeginTakes(cls, c, next, last);
    BeginTakes(cls, c, Head(rest), last);
  }

  lemma InNumberStops(cls: Classes, c: char, next: char, last: Machine, kind: TokenType, name: string, rest: string)
    requires Ordinary(cls) && OneExponent(last) && last.state == Numeric
    requires InNumber(cls, c, next, last) == (After(last, kind, name), 1) && (kind == Scientific ==> next == '\0')
    requires Stops(cls, kind, name, rest)
    ensures InNumber(cls, c, Head(rest), last) == (After(last, kind, name), 1)
  {
    hide InNumber, After;
    InNumberIsAfter(cls, c, next, last, kind, name);
    InNumberIsAfter(cls, c, Head(rest), last, kind, name);
    assert name[..|name| - 1] == last.cur;
  }

  lemma PlainStops(cls: Classes, c: char, next: char, last: Machine, kind: TokenType, name: string, rest: string)
    requires last.state !in {NoToken, Unquoted, Numeric, Scientific}
    requires Step(cls, c, next, last) == (After(last, kind, name), 1)
    requires Stops(cls, kind, name, rest)
    ensures Step(cls, c, Head(rest), last) == (After(last, kind, name), 1)
  {
    SavedToken(last, Step(cls, c, next, last).0, kind, name);
  }

  /** The last turn is the same with any text behind the token that does not run into it. */
  lemma TurnStops(cls: Classes, c: char, next: char, last: Machine, kind: TokenType, name: string, rest: string)
    requires Ordinary(cls) && OneExponent(last) && (last.state == NoToken ==> last.cur == "")
    requires Step(cls, c, next, last) == (After(last, kind, name), 1) && (kind == Scientific ==> next == '\0')
    requires Stops(cls, kind, name, rest)
    ensures Step(cls, c, Head(rest), last) == (After(last, kind, name), 1)
  {
    hide Begin, InNumber, EndWord, EndNumber, After, Save;
    match last.state {
      case NoToken => BeginStops(cls, c, next, last, kind, name, rest);
      case Numeric => InNumberStops(cls, c, next, last, kind, name, rest);
      case Unquoted =>
        WordIsAfter(cls, Take(last, Unquoted, [c]), next, last, kind, name);
        WordIsAfter(cls, Take(last, Unquoted, [c]), Head(rest), last, kind, name);
      case Scientific =>
        NumberIsAfter(cls.digit(next), Take(last, Scientific, [c]), last, kind, name);
        NumberIsAfter(cls.digit(Head(rest)), Take(last, Scientific, [c]), last, kind, name);
        assert kind == Numeric ==> name[..|name| - 1] == last.cur;
      case _ => PlainStops(cls, c, next, last, kind, name, rest);
    }
  }

  predicate Unlike(t: Token, kind: TokenType, name: string) {
    t.kind != kind || t.name != name
  }

  /** What is being read can still become a token of that kind. */
  predicate CanBe(state: TokenType, kind: TokenType) {
    match state
    case Unquoted => kind == Unquoted || kind == Keyword
    case Numeric => kind == Numeric || kind == Scientific
    case Scientific => kind == Numeric || kind == Scientific
    case _ => kind == state
  }

  /** The token behind the first n is not, or will not be, the one of that kind and name. */
  predicate GoneBy(m: Machine, n: nat, kind: TokenType, name: string) {
    if |m.tokens| > n then Unlike(m.tokens[n], kind, name)
    else |m.tokens| == n && m.state != NoToken && (|m.cur| > |name| || !CanBe(m.state, kind))
  }

  lemma StepGoneBy(cls: Classes, c: char, peek: char, m: Machine, n: nat, kind: TokenType, name: string)
    requires GoneBy(m, n, kind, name)
    ensures GoneBy(Step(cls, c, peek, m).0, n, kind, name)
  {
    hide Begin, SingleTokenState;
    if |m.tokens| > n {
      hide Step;
      StepKeeps(cls, c, peek, m);
    } else {
      WithinGoneBy(cls, c, peek, m, n, kind, name);
    }
  }

  lemma WithinGoneBy(cls: Classes, c: char, peek: char, m: Machine, n: nat, kind: TokenType, name: string)
    requires GoneBy(m, n, kind, name) && |m.tokens| == n
    ensures GoneBy(Step(cls, c, peek, m).0, n, kind, name)
  {
    hide Begin, InNumber, InQuotes, EndWord, EndNumber, Save, GoneBy;
    InToken(m, n, kind, name);
    match m.state {
      case Unquoted => GoneFurther(m, Unquoted, m.cur + [c], n, kind, name);
      case SingleQuoted => QuotesGoneBy('\'', c, peek, m, n, kind, name);
      case DoubleQuoted => QuotesGoneBy('"', c, peek, m, n, kind, name);
      case Numeric => NumberGoneBy(cls, c, peek, m, n, kind, name);
      case Scientific => GoneFurther(m, Scientific, m.cur + [c], n, kind, name);
      case _ =>
        GoneFurther(m, m.state, m.cur, n, kind, name);
        GoneFurther(m, m.state, m.cur + [c], n, kind, name);
        PlainTurn(cls, c, peek, m);
    }
    WordTurns(cls, m.(cur := m.cur + [c]), peek);
    NumberTurns(cls.digit(peek), m.(cur := m.cur + [c]));
  }

  lemma InToken(m: Machine, n: nat, kind: TokenType, name: string)
    requires GoneBy(m, n, kind, name) && |m.tokens| == n
    ensures m.state != NoToken
  {
  }

  lemma WordTurns(cls: Classes, m: Machine, peek: char)
    ensures EndWord(cls, m, peek) in {m, Save(m, Keyword), Save(m, Unquoted)}
  {
  }

  lemma NumberTurns(more: bool, m: Machine)
    ensures EndNumber(more, m) in {m, Save(m, Numeric)}
  {
  }

  lemma PlainTurn(cls: Classes, c: char, peek: char, m: Machine)
    requires m.state !in {NoToken, Unquoted, SingleQuoted, DoubleQuoted, Numeric, Scientific}
    ensures var m' := Step(cls, c, peek, m).0;
      m' in {m, m.(cur := m.cur + [c]), Save(m, m.state), Save(m, m.state).(space := [c])}
  {
  }

  /** More of the same token, or the token saved, is no more the one it should have been. */
  lemma GoneFurther(m: Machine, state: TokenType, cur: string, n: nat, kind: TokenType, name: string)
    requires GoneBy(m, n, kind, name) && |m.tokens| == n && |cur| >= |m.cur|
    requires state == m.state || (m.state == Numeric && state == Scientific)
    ensures var m' := m.(state := state, cur := cur);
      && GoneBy(m', n, kind, name)
      && forall k :: CanBe(state, k) ==>
           GoneBy(Save(m', k), n, kind, name) && forall space :: GoneBy(Save(m', k).(space := space), n, kind, name)
  {
  }

  lemma QuotesGoneBy(quote: char, c: char, peek: char, m: Machine, n: nat, kind: TokenType, name: string)
    requires GoneBy(m, n, kind, name) && |m.tokens| == n && m.state in {SingleQuoted, DoubleQuoted}
    ensures GoneBy(InQuotes(quote, c, peek, m).0, n, kind, name)
  {
    hide Save, GoneBy;
    GoneFurther(m, m.state, m.cur, n, kind, name);
    GoneFurther(m, m.state, m.cur + [c], n, kind, name);
    GoneFurther(m, m.state, m.cur + [quote, quote], n, kind, name);
    assert m.(state := m.state, cur := m.cur) == m;
  }

  lemma NumberGoneBy(cls: Classes, c: char, peek: char, m: Machine, n: nat, kind: TokenType, name: string)
    requires GoneBy(m, n, kind, name) && |m.tokens| == n && m.state == Numeric
    ensures GoneBy(InNumber(cls, c, peek, m).0, n, kind, name)
  {
    hide Save, GoneBy, EndNumber;
    GoneFurther(m, Scientific, m.cur + ['e', peek], n, kind, name);
    GoneFurther(m, Scientific, m.cur + "e", n, kind, name);
    GoneFurther(m, Numeric, m.cur + "e", n, kind, name);
    GoneFurther(m, Numeric, m.cur + [c], n, kind, name);
    NumberTurns(cls.Number(peek), Take(m, Numeric, [c]));
  }

  lemma StepKeeps(cls: Classes, c: char, peek: char, m: Machine)
    ensures m.tokens <= Step(cls, c, peek, m).0.tokens
  {
    hide Begin;
    BeginKeeps(cls, c, peek, m);
  }

  lemma BeginKeeps(cls: Classes, c: char, peek: char, m: Machine)
    ensures m.tokens <= Begin(cls, c, peek, m).0.tokens
  {
    hide SingleTokenState;
  }

  lemma {:induction false} RunGoneBy(cls: Classes, s: string, m: Machine, n: nat, kind: TokenType, name: string)
    requires GoneBy(m, n, kind, name)
    ensures GoneBy(RunOn(cls, s, m), n, kind, name)
    decreases |s|
  {
    hide Step, GoneBy;
    if s != "" {
      var (m', k) := Step(cls, s[0], Head(s[1..]), m);
      StepGoneBy(cls, s[0], Head(s[1..]), m, n, kind, name);
      RunGoneBy(cls, if k <= |s| then s[k..] else "", m', n, kind, name);
    }
  }

  /** The machine with what was left open closed. */
  function Closed(m: Machine): Machine {
    if m.state != NoToken then Save(m, m.state) else m
  }

  predicate UnlikeAt(ts: seq<Token>, n: nat, kind: TokenType, name: string) {
    |ts| > n && Unlike(ts[n], kind, name)
  }

  lemma GoneByClosed(m: Machine, n: nat, kind: TokenType, name: string)
    requires GoneBy(m, n, kind, name)
    ensures UnlikeAt(Closed(m).tokens, n, kind, name)
  {
  }

  lemma RunningOn(cls: Classes, kind: TokenType, name: string, after: string)
    requires Ordinary(cls) && !Stops(cls, kind, name, after)
    ensures after != ""
  {
  }

  /** A token that should be over, but takes one more character. */
  lemma OneMore(cls: Classes, c: char, peek: char, m: Machine, n: nat, kind: TokenType, name: string)
    requires m.state in {Unquoted, Numeric, Scientific, Comment} && (m.state == Comment ==> c != '\n')
    requires |m.tokens| == n && m.cur == name
    ensures GoneBy(Step(cls, c, peek, m).0, n, kind, name)
  {
  }

  /** The token goes on, or something else has begun. */
  predicate GoesOn(r: (Machine, nat), last: Machine, kind: TokenType, name: string) {
    var (m, n) := r;
    || GoneBy(m, |last.tokens|, kind, name)
    || (n == 1 && m.state in {Unquoted, Numeric, Scientific} && m.cur == name && m.tokens == last.tokens)
  }

  /** What must follow a token of one turn to make it go on. */
  lemma OnlyThese(cls: Classes, c: char, next: char, last: Machine, kind: TokenType, name: string, rest: string)
    requires Ordinary(cls) && Between(last)
    requires Begin(cls, c, next, last) == (After(last, kind, name), 1) && !EndsLater(kind)
    requires !Stops(cls, kind, name, rest)
    ensures name == [c]
    ensures if cls.letter(c) || c in "_@#" then cls.Identifier(Head(rest))
      else
        && c !in "'\"["
        && if c == '-' then Head(rest) == '-' && kind == Addop
           else if c == '/' then Head(rest) == '*' && kind == Multop
           else if cls.digit(c) then cls.Number(Head(rest))
           else c == '.' && cls.digit(Head(rest)) && kind == Period
  {
    hide Begin, After;
    BeginIsAfter(cls, c, next, last, kind, name);
    BeginTakes(cls, c, next, last);
  }

  lemma BeginRuns(cls: Classes, c: char, next: char, last: Machine, kind: TokenType, name: string, rest: string)
    requires Ordinary(cls) && Between(last)
    requires Begin(cls, c, next, last) == (After(last, kind, name), 1) && !EndsLater(kind)
    requires !Stops(cls, kind, name, rest)
    ensures GoesOn(Begin(cls, c, Head(rest), last), last, kind, name)
  {
    OnlyThese(cls, c, next, last, kind, name, rest);
    assert last.cur + [c] == [c];
    hide After, Save, Stops, SingleTokenState;
  }

  lemma InNumberRuns(cls: Classes, c: char, next: char, last: Machine, kind: TokenType, name: string, rest: string)
    requires Ordinary(cls) && OneExponent(last) && last.state == Numeric
    requires InNumber(cls, c, next, last) == (After(last, kind, name), 1) && !EndsLater(kind)
    requires !Stops(cls, kind, name, rest)
    ensures GoesOn(InNumber(cls, c, Head(rest), last), last, kind, name)
  {
    InNumberIsAfter(cls, c, next, last, kind, name);
    assert name[..|name| - 1] == last.cur;
    hide After, Save;
  }

  lemma TurnRuns(cls: Classes, c: char, next: char, last: Machine, kind: TokenType, name: string, rest: string)
    requires Ordinary(cls) && OneExponent(last) && (last.state == NoToken ==> last.cur == "")
    requires Step(cls, c, next, last) == (After(last, kind, name), 1) && !EndsLater(kind)
    requires !Stops(cls, kind, name, rest)
    ensures GoesOn(Step(cls, c, Head(rest), last), last, kind, name)
  {
    hide Begin, InNumber, GoesOn;
    SavedToken(last, Step(cls, c, next, last).0, kind, name);
    match last.state {
      case NoToken => BeginRuns(cls, c, next, last, kind, name, rest);
      case Numeric => InNumberRuns(cls, c, next, last, kind, name, rest);
      case _ => OtherRuns(cls, c, next, last, kind, name, rest);
    }
  }

  lemma OtherRuns(cls: Classes, c: char, next: char, last: Machine, kind: TokenType, name: string, rest: string)
    requires Ordinary(cls) && OneExponent(last) && last.state != NoToken && last.state != Numeric
    requires Step(cls, c, next, last) == (After(last, kind, name), 1) && !EndsLater(kind)
    requires !Stops(cls, kind, name, rest)
    ensures GoesOn(Step(cls, c, Head(rest), last), last, kind, name)
  {
    SavedToken(last, Step(cls, c, next, last).0, kind, name);
    if last.state == Scientific {
      assert name[..|name| - 1] == last.cur;
    }
  }

  lemma TwoTaken(cls: Classes, c: char, d: char, last: Machine, kind: TokenType, name: string)
    requires Step(cls, c, d, last) == (After(last, kind, name), 2) && (last.state == NoToken ==> last.cur == "")
    ensures kind in {Comment, Scientific, DelimitedComment}
  {
    SavedToken(last, Step(cls, c, d, last).0, kind, name);
  }

  /** A comment or exponent whose end has not come yet. */
  lemma PendingRuns(cls: Classes, m: Machine, kind: TokenType, name: string, rest: string)
    requires Ordinary(cls) && EndsLater(kind) && !Stops(cls, kind, name, rest)
    ensures GoneBy(RunOn(cls, rest, After(m, kind, name)), |m.tokens|, kind, name)
  {
    hide GoneBy, Step;
    var a := After(m, kind, name);
    RunningOn(cls, kind, name, rest);
    OneMore(cls, rest[0], Head(rest[1..]), a, |m.tokens|, kind, name);
    var (m', n) := Step(cls, rest[0], Head(rest[1..]), a);
    RunGoneBy(cls, if n <= |rest| then rest[n..] else "", m', |m.tokens|, kind, name);
  }

  lemma RunStep(cls: Classes, s: string, m: Machine)
    requires s != ""
    ensures var (m', n) := Step(cls, s[0], Head(s[1..]), m);
      RunOn(cls, s, m) == RunOn(cls, if n <= |s| then s[n..] else "", m')
  {
    hide Step;
  }

  lemma GoesOnGoneBy(cls: Classes, m: Machine, last: Machine, kind: TokenType, name: string, rest: string, n: nat)
    requires GoesOn((m, n), last, kind, name) && rest != "" && 1 <= n <= 2
    ensures GoneBy(RunOn(cls, rest[n - 1..], m), |last.tokens|, kind, name)
  {
    hide GoneBy, Step;
    if GoneBy(m, |last.tokens|, kind, name) {
      RunGoneBy(cls, rest[n - 1..], m, |last.tokens|, kind, name);
    } else {
      OneMore(cls, rest[0], Head(rest[1..]), m, |last.tokens|, kind, name);
      RunStep(cls, rest, m);
      var (m', k) := Step(cls, rest[0], Head(rest[1..]), m);
      RunGoneBy(cls, if k <= |rest| then rest[k..] else "", m', |last.tokens|, kind, name);
    }
  }

  /** A token that does not stop is not read as itself. */
  lemma RunsOver(cls: Classes, c: char, next: char, last: Machine, kind: TokenType, name: string, rest: string)
    requires Ordinary(cls) && OneExponent(last) && (last.state == NoToken ==> last.cur == "")
    requires Step(cls, c, next, last) == (After(last, kind, name), 1) && !EndsLater(kind)
    requires !Stops(cls, kind, name, rest)
    ensures GoneBy(RunOn(cls, [c] + rest, last), |last.tokens|, kind, name)
  {
    TurnRuns(cls, c, next, last, kind, name, rest);
    RunningOn(cls, kind, name, rest);
    var s := [c] + rest;
    RunStep(cls, s, last);
    assert s[1..] == rest;
    var (m', n) := Step(cls, c, Head(rest), last);
    assert s[n..] == rest[n - 1..];
    GoesOnGoneBy(cls, m', last, kind, name, rest, n);
  }

  lemma LegitReads(cls: Classes, kind: TokenType, name: string) returns (next: char)
    requires Legit(cls, kind, name)
    ensures Core(kind, name) != "" && Read(cls, Core(kind, name), next, START) == Some(After(START, kind, name))
    ensures kind == Scientific ==> next == '\0'
  {
    next :| ReadsAs(cls, kind, name, next);
  }

  lemma BetweenFacts(m: Machine, kind: TokenType, name: string)
    requires Between(m)
    ensures m.state == START.state == NoToken && m.cur == START.cur == "" && OneExponent(m)
  {
  }

  lemma OnlyPending(cls: Classes, kind: TokenType, name: string, rest: string)
    requires kind in {Comment, Scientific, DelimitedComment} && !Stops(cls, kind, name, rest)
    ensures EndsLater(kind)
  {
  }

  /** The last turn of a comment does not look ahead, and that of an exponent takes its sign. */
  lemma PendingTurn(cls: Classes, c: char, next: char, peek: char, last: Machine, kind: TokenType, name: string)
    requires Ordinary(cls) && OneExponent(last) && (last.state == NoToken ==> last.cur == "")
    requires Step(cls, c, next, last) == (After(last, kind, name), 1) && EndsLater(kind)
    requires kind == Scientific ==> next == '\0'
    ensures Step(cls, c, peek, last) == (After(last, kind, name), 1)
  {
    hide Begin, SingleTokenState;
    if last.state == NoToken {
      BeginIsAfter(cls, c, next, last, kind, name);
      BeginTakes(cls, c, next, last);
      Unended(c);
      assert false;
    }
  }

  /** Reading a token from the text it begins: exactly it, if it stops there, and never it otherwise. */
  lemma TokenRead(cls: Classes, kind: TokenType, name: string, m: Machine, rest: string)
    requires Ordinary(cls) && Legit(cls, kind, name) && Between(m)
    ensures Stops(cls, kind, name, rest) ==>
      RunOn(cls, Core(kind, name) + rest, m) == RunOn(cls, rest, After(m, kind, name))
    ensures !Stops(cls, kind, name, rest) ==>
      GoneBy(RunOn(cls, Core(kind, name) + rest, m), |m.tokens|, kind, name)
  {
    hide *;
    var next := LegitReads(cls, kind, name);
    BetweenFacts(m, kind, name);
    ReadElsewhere(cls, Core(kind, name), next, START, m, kind, name);
    var last, v := LastTurn(cls, Core(kind, name), next, m, rest);
    AfterSame(m, last, kind, name);
    RunOnUnfold(cls, v, rest, last);
    assert v[|v|..] + rest == rest;
    if |v| == 2 {
      TwoTaken(cls, v[0], v[1], last, kind, name);
      if !Stops(cls, kind, name, rest) {
        OnlyPending(cls, kind, name, rest);
        PendingRuns(cls, m, kind, name, rest);
      }
    } else if Stops(cls, kind, name, rest) {
      TurnStops(cls, v[0], next, last, kind, name, rest);
    } else if EndsLater(kind) {
      PendingTurn(cls, v[0], next, Head(rest), last, kind, name);
      PendingRuns(cls, m, kind, name, rest);
    } else {
      assert [v[0]] + rest == v + rest;
      RunsOver(cls, v[0], next, last, kind, name, rest);
    }
  }

  // ---------------------------------------------------------------- reading a list of tokens

  lemma BlankStep(cls: Classes, c: char, peek: char, m: Machine)
    requires Blank(cls, c) && Between(m)
    ensures Step(cls, c, peek, m) == (m.(space := m.space + [c]), 1)
  {
  }

  /** Blanks between tokens are kept for the next one. */
  lemma {:induction false} BlanksRead(cls: Classes, b: string, rest: string, m: Machine)
    requires Blanks(cls, b) && Between(m)
    ensures RunOn(cls, b + rest, m) == RunOn(cls, rest, m.(space := m.space + b))
    decreases |b|
  {
    hide Step, Blank;
    if b == "" {
      assert b + rest == rest && m.space + b == m.space;
    } else {
      var s := b + rest;
      BlankStep(cls, b[0], Head(s[1..]), m);
      RunStep(cls, s, m);
      assert s[1..] == b[1..] + rest && m.space + [b[0]] + b[1..] == m.space + b;
      BlanksRead(cls, b[1..], rest, m.(space := m.space + [b[0]]));
    }
  }

  /** The machine is between tokens, or in one that the text, if there is more, ends. */
  predicate Rests(m: Machine, text: string) {
    || Between(m)
    || (EndsLater(m.state) && text == "")
    || (m.state == Comment && text != "" && text[0] == '\n')
  }

  /** The machine with some blanks behind it. */
  function Lead(m: Machine, b: string): Machine {
    if Between(m) then m.(space := m.space + b)
    else if b == "" then m
    else Machine(NoToken, "", b, Closed(m).tokens)
  }

  /** The machine after a list of tokens that all stop. */
  function Through(m: Machine, gap: string, ts: seq<Token>): Machine
    decreases |ts|
  {
    if ts == [] then Lead(m, gap)
    else
      Through(After(Lead(m, gap + ts[0].leadingSpace), ts[0].kind, ts[0].name), ts[0].trailingSpace, ts[1..])
  }

  /** The end of a line comment, and the blanks behind it. */
  lemma NewLine(cls: Classes, b: string, rest: string, m: Machine) returns (m': Machine)
    requires Blanks(cls, b) && m.state == Comment
    ensures RunOn(cls, ("\n" + b) + rest, m) == RunOn(cls, rest, m')
    ensures m' == Machine(NoToken, "", "\n" + b, Closed(m).tokens)
  {
    hide Blank;
    var s, m1 := ("\n" + b) + rest, Save(m, Comment).(space := "\n");
    RunStep(cls, s, m);
    assert s[1..] == b + rest && s[0] == '\n' && [s[0]] == "\n";
    BlanksRead(cls, b, rest, m1);
    m' := m1.(space := m1.space + b);
  }

  /** Reading the blanks in front of a token. */
  lemma LeadIn(cls: Classes, b: string, rest: string, m: Machine) returns (m': Machine)
    requires Ordinary(cls) && Blanks(cls, b) && Rests(m, b + rest) && (b == "" ==> Between(m))
    ensures RunOn(cls, b + rest, m) == RunOn(cls, rest, m')
    ensures Between(m') && m'.tokens == Closed(m).tokens && m' == Lead(m, b)
  {
    hide Blank, Step;
    if Between(m) {
      BlanksRead(cls, b, rest, m);
      m' := m.(space := m.space + b);
    } else {
      assert b != "" && (b + rest)[0] == b[0];
      m' := NewLine(cls, b[1..], rest, m);
      assert "\n" + b[1..] == b;
    }
  }

  lemma {:induction false} RenderCons(ts: seq<Token>)
    requires ts != []
    ensures Render(ts) == ts[0].ToString() + Render(ts[1..])
  {
    var n := |ts| - 1;
    RenderNone();
    if n > 0 {
      RenderCons(ts[..n]);
      assert ts[..n][1..] == ts[1..][..n - 1];
    } else {
      assert ts[..0] == [];
    }
  }

  lemma StopsHead(cls: Classes, kind: TokenType, name: string, a: string, b: string)
    requires Head(a) == Head(b) && (a == "" <==> b == "")
    ensures Stops(cls, kind, name, a) <==> Stops(cls, kind, name, b)
  {
  }

  lemma TokenText(t: Token)
    ensures t.ToString() == t.leadingSpace + Core(t.kind, t.name) + t.trailingSpace
  {
  }

  /** What is behind the first token begins like the text of all the others. */
  lemma BehindFirst(cls: Classes, ts: seq<Token>)
    requires ts != [] && forall t :: t in ts ==> LegitToken(cls, t)
    ensures var rest := ts[0].trailingSpace + Render(ts[1..]);
      AllStop(cls, ts) <==> Stops(cls, ts[0].kind, ts[0].name, rest) && AllStop(cls, ts[1..])
  {
    hide Stops, Render, LegitToken;
    var t, more := ts[0], ts[1..];
    assert ts == [t] + more;
    if more == [] {
      RenderNone();
      assert StopsAt(cls, ts, 0) <==> Stops(cls, t.kind, t.name, t.trailingSpace + "");
    } else {
      AllTogether(cls, [t], more);
      RenderCons(more);
      assert more[0] in ts;
      TokenText(more[0]);
      LegitStart(cls, more[0]);
      StopsHead(cls, t.kind, t.name, t.trailingSpace + Render(more), t.trailingSpace + more[0].ToString());
    }
  }

  lemma AfterRests(cls: Classes, m: Machine, kind: TokenType, name: string, rest: string)
    requires Stops(cls, kind, name, rest) && Between(m) && kind != NoToken
    ensures var m' := After(m, kind, name);
      Rests(m', rest) && Closed(m').tokens == m.tokens + [Token(kind, name, m.space, "")]
  {
  }

  lemma SameMiddle(a: seq<Token>, done: seq<Token>, u: Token, t: Token, more: seq<Token>)
    requires u.kind == t.kind && u.name == t.name
    ensures Same(a, (done + [u]) + more) <==> Same(a, done + ([t] + more))
  {
    var x, y := (done + [u]) + more, done + ([t] + more);
    assert Same(x, y);
  }

  /** From some point on, the text of the tokens is read as them exactly if all of them stop. */
  lemma {:induction false} RereadFrom(cls: Classes, gap: string, ts: seq<Token>, m: Machine)
    requires Ordinary(cls) && Blanks(cls, gap) && Rests(m, gap + Render(ts))
    requires forall t :: t in ts ==> LegitToken(cls, t)
    ensures Same(Closed(RunOn(cls, gap + Render(ts), m)).tokens, Closed(m).tokens + ts) <==> AllStop(cls, ts)
    ensures AllStop(cls, ts) ==> RunOn(cls, gap + Render(ts), m) == Through(m, gap, ts)
    decreases |ts|
  {
    hide *;
    if ts == [] {
      NoneLeft(cls, gap, m);
    } else {
      var t, more := ts[0], ts[1..];
      var core, rest := Core(t.kind, t.name), t.trailingSpace + Render(more);
      FirstToken(cls, gap, ts, m);
      var m1 := LeadIn(cls, gap + t.leadingSpace, core + rest, m);
      TokenRead(cls, t.kind, t.name, m1, rest);
      BehindFirst(cls, ts);
      var end := Closed(RunOn(cls, gap + Render(ts), m)).tokens;
      if Stops(cls, t.kind, t.name, rest) {
        AfterRests(cls, m1, t.kind, t.name, rest);
        RereadFrom(cls, t.trailingSpace, more, After(m1, t.kind, t.name));
        ThroughFirst(m, gap, ts);
        SameMiddle(end, m1.tokens, Token(t.kind, t.name, m1.space, ""), t, more);
        assert [t] + more == ts;
      } else {
        GoneByClosed(RunOn(cls, core + rest, m1), |m1.tokens|, t.kind, t.name);
        NotSame(end, m1.tokens, ts);
      }
    }
  }

  lemma ThroughFirst(m: Machine, gap: string, ts: seq<Token>)
    requires ts != []
    ensures Through(m, gap, ts) ==
      Through(After(Lead(m, gap + ts[0].leadingSpace), ts[0].kind, ts[0].name), ts[0].trailingSpace, ts[1..])
  {
  }

  lemma NotSame(end: seq<Token>, done: seq<Token>, ts: seq<Token>)
    requires ts != [] && UnlikeAt(end, |done|, ts[0].kind, ts[0].name)
    ensures !Same(end, done + ts)
  {
    assert (done + ts)[|done|] == ts[0];
  }

  lemma NoneLeft(cls: Classes, gap: string, m: Machine)
    requires Ordinary(cls) && Blanks(cls, gap) && Rests(m, gap + Render([]))
    ensures Same(Closed(RunOn(cls, gap + Render([]), m)).tokens, Closed(m).tokens + []) && AllStop(cls, [])
    ensures RunOn(cls, gap + Render([]), m) == Through(m, gap, [])
  {
    RenderNone();
    assert gap + Render([]) == gap + "" == gap;
    if gap != "" {
      var m' := LeadIn(cls, gap, "", m);
    }
  }

  lemma FirstToken(cls: Classes, gap: string, ts: seq<Token>, m: Machine)
    requires Ordinary(cls) && ts != [] && LegitToken(cls, ts[0]) && Blanks(cls, gap) && Rests(m, gap + Render(ts))
    ensures var t := ts[0];
      var b, rest := gap + t.leadingSpace, Core(t.kind, t.name) + (t.trailingSpace + Render(ts[1..]));
      && gap + Render(ts) == b + rest && Blanks(cls, b) && Rests(m, b + rest) && (b == "" ==> Between(m))
      && Legit(cls, t.kind, t.name) && t.kind != NoToken && Blanks(cls, t.trailingSpace)
  {
    hide Render, Core, Legit, Blank;
    RenderCons(ts);
    TokenText(ts[0]);
    LegitStart(cls, ts[0]);
    var t := ts[0];
    var b, rest := gap + t.leadingSpace, Core(t.kind, t.name) + (t.trailingSpace + Render(ts[1..]));
    assert gap + Render(ts) == b + rest;
    assert b == "" ==> (b + rest)[0] == Core(t.kind, t.name)[0];
  }

  lemma LegitStart(cls: Classes, t: Token)
    requires LegitToken(cls, t)
    ensures t.kind != NoToken && Core(t.kind, t.name) != "" && !Blank(cls, Core(t.kind, t.name)[0])
  {
  }

  lemma FinishSame(m: Machine, ts: seq<Token>)
    requires ts != [] && forall t :: t in ts ==> t.kind != NoToken
    ensures Same(Finish(m), ts) <==> Same(Closed(m).tokens, ts)
  {
    var a, b := Finish(m), Closed(m).tokens;
    assert ts[0] in ts;
    if b != [] {
      assert Same(a, b);
    }
  }

  /** The text of a list of tokens is read as the same tokens if and only if each of them stops where the next one
      begins. */
  lemma ReadBackIff(cls: Classes, ts: seq<Token>)
    requires Ordinary(cls) && forall t :: t in ts ==> LegitToken(cls, t)
    ensures Same(Tokenize(cls, Render(ts)), ts) <==> AllStop(cls, ts)
    ensures AllStop(cls, ts) ==> Run(cls, Render(ts), 0, START) == Through(START, "", ts)
  {
    hide *;
    var text := Render(ts);
    assert "" + text == text && text[0..] == text;
    RunFrom(cls, text, 0, START);
    Beginning(cls, text);
    RereadFrom(cls, "", ts, START);
    assert START.tokens + ts == ts;
    TokenizeIs(cls, text);
    if ts == [] {
      NothingToRead(cls);
    } else {
      forall t | t in ts ensures t.kind != NoToken {
        LegitStart(cls, t);
      }
      FinishSame(Run(cls, text, 0, START), ts);
    }
  }

  lemma Beginning(cls: Classes, text: string)
    ensures Blanks(cls, "") && Rests(START, text) && Closed(START).tokens == [] == START.tokens
  {
  }

  lemma TokenizeIs(cls: Classes, text: string)
    ensures Tokenize(cls, text) == Finish(Run(cls, text, 0, START))
  {
  }

  lemma NothingToRead(cls: Classes)
    ensures Tokenize(cls, Render([])) == [] && Same([], []) && AllStop(cls, [])
  {
    RenderNone();
  }

  // ---------------------------------------------------------------- the tokens of a query

  /** What has been read of the token in hand. */
  function Part(m: Machine): string {
    Opening(m.state) + m.cur
  }

  ghost predicate LegitSoFar(cls: Classes, m: Machine) {
    Blanks(cls, m.space) && (m.state == NoToken ==> m.cur == "") && forall t :: t in m.tokens ==> LegitToken(cls, t)
  }

  /** The token in hand would be read alike from its beginning. */
  ghost predicate Begun(cls: Classes, state: TokenType, cur: string, next: char) {
    var w := Opening(state) + cur;
    state != NoToken ==>
      && w != "" && !Blank(cls, w[0])
      && Read(cls, w, next, START) == Some(START.(state := state, cur := cur))
  }

  lemma {:induction false} ReadAppend(cls: Classes, w: string, v: string, next: char, m: Machine)
    requires w != "" && v != "" && Read(cls, w, v[0], m).Some? && Read(cls, w, v[0], m).value.state != NoToken
    ensures Read(cls, w + v, next, m) == Read(cls, v, next, Read(cls, w, v[0], m).value)
    decreases |w|
  {
    hide Step, Read;
    ReadUnfold(cls, w, v[0], m);
    ReadUnfold(cls, w + v, next, m);
    var (m', n) := Step(cls, w[0], if |w| > 1 then w[1] else v[0], m);
    assert (w + v)[1] == if |w| > 1 then w[1] else v[0];
    assert (w + v)[n..] == w[n..] + v;
    if n < |w| {
      ReadAppend(cls, w[n..], v, next, m');
    }
  }

  /** One turn further with the token in hand. */
  lemma ReadMore(cls: Classes, w: string, c: char, peek: char, m: Machine, next: char)
    requires Begun(cls, m.state, m.cur, c) && w == Part(m)
    requires m.state == NoToken ==> m.cur == ""
    ensures var (s', n) := Step(cls, c, peek, START.(state := m.state, cur := m.cur));
      Read(cls, w + (if n == 1 then [c] else [c, peek]), if n == 1 then peek else next, START) == Some(s')
  {
    hide Step, Read;
    var s := START.(state := m.state, cur := m.cur);
    var (s', n) := Step(cls, c, peek, s);
    var v := if n == 1 then [c] else [c, peek];
    var after := if n == 1 then peek else next;
    ReadUnfold(cls, v, after, s);
    if m.state != NoToken {
      ReadAppend(cls, w, v, after, START);
    } else {
      assert w == "" && w + v == v && s == START;
    }
  }

  /** What a turn that ends between tokens has done: passed over a blank, or saved a token. */
  ghost predicate Passed(cls: Classes, c: char, m: Machine, m': Machine) {
    m.state == NoToken && Blank(cls, c) && m' == m.(space := m.space + [c])
  }

  ghost predicate Saved(m: Machine, m': Machine, t: Token) {
    && t.kind !in {NoToken, Comment, Scientific} && t.leadingSpace == m.space && t.trailingSpace == ""
    && m' == After(m, t.kind, t.name)
  }

  ghost predicate SavedComment(c: char, m: Machine, m': Machine) {
    && m.state == Comment && c == '\n'
    && m' == Machine(NoToken, "", [c], m.tokens + [Token(Comment, m.cur, m.space, "")])
  }

  lemma SaveIsSaved(mm: Machine, k: TokenType, m: Machine)
    requires mm.space == m.space && mm.tokens == m.tokens && k !in {NoToken, Comment, Scientific}
    ensures Saved(m, Save(mm, k), Token(k, mm.cur, m.space, ""))
  {
  }

  lemma BeginForms(cls: Classes, c: char, peek: char, m: Machine)
    requires Between(m)
    ensures var m' := Begin(cls, c, peek, m).0;
      && (Blank(cls, c) <==> m' == m.(space := m.space + [c]))
      && (m'.state == NoToken ==> Passed(cls, c, m, m') || exists t :: Saved(m, m', t))
  {
    hide Saved;
    SaveIsSaved(Take(m, Unquoted, [c]), Keyword, m);
    SaveIsSaved(Take(m, Unquoted, [c]), Unquoted, m);
    SaveIsSaved(Take(m, Numeric, [c]), Numeric, m);
    Unended(c);
    if SingleTokenState(c) != NoToken {
      SaveIsSaved(Take(m, SingleTokenState(c), [c]), SingleTokenState(c), m);
    }
    SaveIsSaved(Take(m, ErrorUnknown, [c]), ErrorUnknown, m);
    hide SingleTokenState;
  }

  lemma StepForms(cls: Classes, c: char, peek: char, m: Machine)
    requires Live(m)
    ensures var m' := Step(cls, c, peek, m).0;
      m'.state == NoToken ==>
        Passed(cls, c, m, m') || SavedComment(c, m, m') || exists t :: Saved(m, m', t)
  {
    hide Begin, Saved;
    var m' := Step(cls, c, peek, m).0;
    match m.state {
      case NoToken => BeginForms(cls, c, peek, m);
      case Unquoted =>
        SaveIsSaved(Take(m, Unquoted, [c]), Keyword, m);
        SaveIsSaved(Take(m, Unquoted, [c]), Unquoted, m);
      case Numeric =>
        SaveIsSaved(Take(m, Numeric, [c]), Numeric, m);
        SaveIsSaved(Take(m, Numeric, "e"), Numeric, m);
      case Scientific => SaveIsSaved(Take(m, Scientific, [c]), Numeric, m);
      case Comment =>
      case _ => SaveIsSaved(m, m.state, m);
    }
  }

  lemma NonBlankStart(cls: Classes, c: char, peek: char, m: Machine, w: string)
    requires Live(m) && Begun(cls, m.state, m.cur, c) && w != "" && Part(m) + [c] <= w
    requires m.state == NoToken ==> Step(cls, c, peek, m).0 != m.(space := m.space + [c])
    ensures !Blank(cls, w[0])
  {
    hide Begin, Read, Blank;
    if m.state == NoToken {
      BeginForms(cls, c, peek, m);
    } else {
      assert Part(m) <= w && w[0] == Part(m)[0];
    }
  }

  lemma PartGrows(cls: Classes, c: char, peek: char, m: Machine)
    requires Live(m) && !(m.state == Numeric && c == 'E') && Step(cls, c, peek, m).0.state != NoToken
    ensures var s := START.(state := m.state, cur := m.cur);
      var (s', n) := Step(cls, c, peek, s);
      && s' == START.(state := s'.state, cur := s'.cur) && (s'.state, s'.cur, n) == StateOf(Step(cls, c, peek, m))
      && Part(s') == Part(m) + if n == 1 then [c] else [c, peek]
  {
    hide Step, NormStep, Opening, Render;
    var s := START.(state := m.state, cur := m.cur);
    StepElsewhere(cls, c, peek, m, s);
    StepText(cls, c, peek, s);
    RenderNone();
    StartRendered(m);
    var (s', n) := Step(cls, c, peek, s);
    StartRendered(s');
    NormStepPlain(c, peek, m, n);
  }

  function StateOf(r: (Machine, nat)): (TokenType, string, nat) {
    (r.0.state, r.0.cur, r.1)
  }

  /** A turn that stays within a token. */
  lemma StepWithin(cls: Classes, c: char, peek: char, next: char, m: Machine)
    requires Live(m) && Begun(cls, m.state, m.cur, c) && !(m.state == Numeric && c == 'E')
    requires Step(cls, c, peek, m).0.state != NoToken
    ensures var (m', n) := Step(cls, c, peek, m); Begun(cls, m'.state, m'.cur, if n == 1 then peek else next)
  {
    hide Step, Read, Blank, Opening;
    PartGrows(cls, c, peek, m);
    ReadMore(cls, Part(m), c, peek, m, next);
    var (m', n) := Step(cls, c, peek, m);
    NonBlankStart(cls, c, peek, m, Part(m'));
  }

  /** A turn that saves a token. */
  lemma StepSaves(cls: Classes, c: char, peek: char, next: char, m: Machine, t: Token)
    requires Ordinary(cls) && Live(m) && Begun(cls, m.state, m.cur, c) && !(m.state == Numeric && c == 'E')
    requires Saved(m, Step(cls, c, peek, m).0, t)
    ensures Legit(cls, t.kind, t.name)
  {
    hide Step, Read, Blank, NormStep, Opening, Closing;
    var s := START.(state := m.state, cur := m.cur);
    var (m', n) := Step(cls, c, peek, m);
    StepElsewhere(cls, c, peek, m, s);
    StepText(cls, c, peek, s);
    StepAfter(cls, c, peek, m, s, t.kind, t.name);
    AfterSame(s, START, t.kind, t.name);
    var s' := Step(cls, c, peek, s).0;
    var v := if n == 1 then [c] else [c, peek];
    StartRendered(m);
    SavedRendered(t.kind, t.name);
    assert NormStep(c, peek, s, n) == v by { NormStepPlain(c, peek, m, n); }
    ReadMore(cls, Part(m), c, peek, m, next);
    SpaceKept(cls, c, peek, m, t);
    NonBlankStart(cls, c, peek, m, Part(m) + v);
    assert ReadsAs(cls, t.kind, t.name, if n == 1 then peek else next);
  }

  lemma SpaceKept(cls: Classes, c: char, peek: char, m: Machine, t: Token)
    requires Saved(m, Step(cls, c, peek, m).0, t)
    ensures Step(cls, c, peek, m).0 != m.(space := m.space + [c])
  {
    SavedToken(m, Step(cls, c, peek, m).0, t.kind, t.name);
  }

  lemma NormStepPlain(c: char, peek: char, m: Machine, n: nat)
    requires !(m.state == Numeric && c == 'E') && 1 <= n <= 2
    ensures NormStep(c, peek, START.(state := m.state, cur := m.cur), n) == if n == 1 then [c] else [c, peek]
  {
  }

  lemma StartRendered(m: Machine)
    ensures Rendered(START.(state := m.state, cur := m.cur)) == Part(m)
  {
    RenderNone();
  }

  lemma SavedRendered(kind: TokenType, name: string)
    requires !EndsLater(kind)
    ensures Rendered(After(START, kind, name)) == Core(kind, name)
  {
    hide Render;
    var t := Token(kind, name, "", "");
    RenderOne(t);
    TokenText(t);
    assert After(START, kind, name) == Machine(NoToken, "", "", [t]);
    assert "" + Core(kind, name) + "" == Core(kind, name);
  }

  lemma KeepsLegit(cls: Classes, m: Machine, t: Token, space: string)
    requires LegitSoFar(cls, m) && Legit(cls, t.kind, t.name) && t.leadingSpace == m.space && t.trailingSpace == ""
    requires Blanks(cls, space)
    ensures LegitSoFar(cls, Machine(NoToken, "", space, m.tokens + [t]))
  {
    hide Legit;
  }

  lemma CommentLegit(cls: Classes, m: Machine, next: char)
    requires m.state == Comment && Begun(cls, m.state, m.cur, next)
    ensures Legit(cls, Comment, m.cur)
  {
    assert Core(Comment, m.cur) == Part(m);
    assert ReadsAs(cls, Comment, m.cur, next);
  }

  lemma StepBegun(cls: Classes, c: char, peek: char, next: char, m: Machine)
    requires Ordinary(cls) && Live(m) && LegitSoFar(cls, m) && Begun(cls, m.state, m.cur, c)
    requires !(m.state == Numeric && c == 'E')
    ensures var (m', n) := Step(cls, c, peek, m);
      LegitSoFar(cls, m') && Begun(cls, m'.state, m'.cur, if n == 1 then peek else next)
  {
    hide Step, Read, Blank, Legit;
    var m' := Step(cls, c, peek, m).0;
    StepForms(cls, c, peek, m);
    if m'.state != NoToken {
      StepElsewhere(cls, c, peek, m, m);
      StepWithin(cls, c, peek, next, m);
    } else if SavedComment(c, m, m') {
      CommentLegit(cls, m, c);
      KeepsLegit(cls, m, Token(Comment, m.cur, m.space, ""), "\n");
      assert [c] == "\n";
    } else if !Passed(cls, c, m, m') {
      var t :| Saved(m, m', t);
      StepSaves(cls, c, peek, next, m, t);
      KeepsLegit(cls, m, t, "");
      assert m' == Machine(NoToken, "", "", m.tokens + [t]);
    }
  }

  /** Along a query without exponent signs in upper case. */
  lemma {:induction false} RunBegun(cls: Classes, q: string, i: nat, m: Machine)
    requires Ordinary(cls) && Live(m) && LegitSoFar(cls, m) && i <= |q| && Norm(cls, q, i, m) == q[i..]
    requires Begun(cls, m.state, m.cur, Head(q[i..]))
    ensures var end := Run(cls, q, i, m); LegitSoFar(cls, end) && Begun(cls, end.state, end.cur, '\0')
    decreases |q| - i
  {
    hide Step, Begun, LegitSoFar, Ordinary, NormStep, Run, Norm, Live;
    RunUnfold(cls, q, i, m);
    if i < |q| {
      var (m', n) := Step(cls, q[i], Peek(q, i), m);
      StepInside(cls, q, i, m);
      StepText(cls, q[i], Peek(q, i), m);
      PeekIs(q, i);
      NormSplit(cls, q, i, m);
      StepBegun(cls, q[i], Peek(q, i), if i + 2 < |q| then q[i + 2] else '\0', m);
      RunBegun(cls, q, i + n, m');
    }
  }

  lemma NormSplit(cls: Classes, q: string, i: nat, m: Machine)
    requires i < |q| && Norm(cls, q, i, m) == q[i..]
    ensures !(m.state == Numeric && q[i] == 'E')
    ensures var (m', n) := Step(cls, q[i], Peek(q, i), m);
      i + n <= |q| && Norm(cls, q, i + n, m') == q[i + n..]
  {
    hide Step;
    StepInside(cls, q, i, m);
    RunUnfold(cls, q, i, m);
    var (m', n) := Step(cls, q[i], Peek(q, i), m);
    var first := NormStep(q[i], Peek(q, i), m, n);
    assert |first| == n && q[i..][..n] == first && q[i..][n..] == q[i + n..];
    assert q[i] == q[i..][0] == first[0];
  }

  /** What a query of nothing but blanks gives. */
  predicate OnlyBlanks(cls: Classes, ts: seq<Token>) {
    |ts| == 1 && ts[0] == Token(NoToken, "", ts[0].leadingSpace, "") && Blanks(cls, ts[0].leadingSpace)
  }

  /** The tokens at the end of a query that leaves nothing to be closed. */
  lemma FinishLegit(cls: Classes, m: Machine)
    requires Ordinary(cls) && LegitSoFar(cls, m) && Begun(cls, m.state, m.cur, '\0')
    requires Closing(m.state) == "" && Growing(cls, m.state, m.cur, '\0')
    ensures (forall t :: t in Finish(m) ==> LegitToken(cls, t)) || OnlyBlanks(cls, Finish(m))
  {
    hide Read, Blank;
    if m.state != NoToken {
      assert EndsLater(m.state) && Core(m.state, m.cur) == Part(m);
      assert ReadsAs(cls, m.state, m.cur, '\0');
    }
    hide Legit, Growing, Begun;
    var m1 := Closed(m);
    assert forall t :: t in m1.tokens ==> LegitToken(cls, t);
    if m1.space != "" && m1.tokens != [] {
      var last := m1.tokens[|m1.tokens| - 1];
      assert last in m1.tokens && LegitToken(cls, last.(trailingSpace := m1.space));
    }
  }

  /** The tokens of a query read again from their text leave nothing to be closed, and no exponent sign in upper
      case. */
  lemma RenderedAgain(cls: Classes, q: string)
    requires Ordinary(cls)
    ensures var text := Render(Tokenize(cls, q));
      && Tokenize(cls, text) == Tokenize(cls, q) && Norm(cls, text, 0, START) == text
      && Closing(Run(cls, text, 0, START).state) == ""
  {
    hide Tokenize, Render, Norm, Run, Closing;
    Retokenize(cls, q);
    var text := Render(Tokenize(cls, q));
    Lossless(cls, text);
    NormSame(cls, text, 0, START);
  }

  /** Every token of a query is read as itself if the right character follows. */
  lemma TokensLegit(cls: Classes, q: string)
    requires Ordinary(cls)
    ensures (forall t :: t in Tokenize(cls, q) ==> LegitToken(cls, t)) || OnlyBlanks(cls, Tokenize(cls, q))
  {
    hide *;
    RenderedAgain(cls, q);
    var text := Render(Tokenize(cls, q));
    var end := Run(cls, text, 0, START);
    StartLegit(cls, text);
    assert text[0..] == text;
    RunBegun(cls, text, 0, START);
    RunShape(cls, text, 0, START);
    EndShape(cls, end);
    FinishLegit(cls, end);
    TokenizeIs(cls, text);
  }

  lemma StartLegit(cls: Classes, text: string)
    requires Ordinary(cls)
    ensures LegitSoFar(cls, START) && Begun(cls, START.state, START.cur, Head(text)) && Live(START)
    ensures WellShaped(cls, START, if 0 < |text| then text[0] else '\0')
  {
  }

  lemma EndShape(cls: Classes, end: Machine)
    requires WellShaped(cls, end, '\0')
    ensures Growing(cls, end.state, end.cur, '\0')
  {
  }

  /** The tokens of any query stop where the next ones begin. */
  lemma TokensStop(cls: Classes, q: string)
    requires Ordinary(cls)
    ensures AllStop(cls, Tokenize(cls, q))
  {
    hide Tokenize, Render, LegitToken;
    var ts := Tokenize(cls, q);
    TokensLegit(cls, q);
    Retokenize(cls, q);
    if forall t :: t in ts ==> LegitToken(cls, t) {
      ReadBackIff(cls, ts);
    }
  }

  /** The last token of one list in front of another. */
  predicate Joins(cls: Classes, ts: seq<Token>, more: seq<Token>)
    requires ts != [] && more != []
  {
    var last := ts[|ts| - 1];
    Stops(cls, last.kind, last.name, last.trailingSpace + more[0].ToString())
  }

  lemma StopsTogether(cls: Classes, ts: seq<Token>, more: seq<Token>, i: nat)
    requires ts != [] && more != [] && i < |ts| + |more|
    ensures StopsAt(cls, ts + more, i) <==>
      if i < |ts| - 1 then StopsAt(cls, ts, i)
      else if i == |ts| - 1 then Joins(cls, ts, more)
      else StopsAt(cls, more, i - |ts|)
  {
    hide Stops;
  }

  /** Lists put together stop exactly if they do where they meet. */
  lemma AllTogether(cls: Classes, ts: seq<Token>, more: seq<Token>)
    requires ts != [] && more != [] && forall i :: 0 <= i < |ts| - 1 ==> StopsAt(cls, ts, i)
    ensures AllStop(cls, ts + more) <==> Joins(cls, ts, more) && AllStop(cls, more)
  {
    hide StopsAt, Joins;
    forall i | 0 <= i < |ts| + |more|
      ensures StopsAt(cls, ts + more, i) <==>
        if i < |ts| - 1 then StopsAt(cls, ts, i)
        else if i == |ts| - 1 then Joins(cls, ts, more)
        else StopsAt(cls, more, i - |ts|)
    {
      StopsTogether(cls, ts, more, i);
    }
    if AllStop(cls, ts + more) {
      assert StopsAt(cls, ts + more, |ts| - 1);
      forall i | 0 <= i < |more| ensures StopsAt(cls, more, i) {
        assert StopsAt(cls, ts + more, |ts| + i);
      }
    }
  }

  // ---------------------------------------------------------------- tokens of simple form

  /** The character that a quote, bracket or comment does not simply go on with. */
  predicate Ender(state: TokenType, c: char) {
    match state
    case SingleQuoted => c == '\''
    case Delimited => c == ']'
    case Comment => c == '\n'
    case _ => true
  }

  lemma {:induction false} ReadInside(cls: Classes, w: string, next: char, m: Machine)
    requires m.state != NoToken && forall k :: 0 <= k < |w| ==> !Ender(m.state, w[k])
    ensures Read(cls, w, next, m) == Some(m.(cur := m.cur + w))
    decreases |w|
  {
    if w == "" {
      assert m.cur + w == m.cur;
    } else {
      ReadInside(cls, w[1..], next, m.(cur := m.cur + [w[0]]));
      assert m.cur + [w[0]] + w[1..] == m.cur + w;
    }
  }

  lemma DashTurn(cls: Classes)
    requires !cls.letter('-')
    ensures Step(cls, '-', '-', START) == (START.(state := Comment), 2) && !Blank(cls, '-')
  {
  }

  lemma LegitComment(cls: Classes, name: string)
    requires '\n' !in name && !cls.letter('-')
    ensures Legit(cls, Comment, name)
  {
    hide Step, Read, Blank;
    DashTurn(cls);
    var w, m := Core(Comment, name), START.(state := Comment);
    assert w[0] == '-' && w[1] == '-' && w[2..] == name && "" + name == name;
    ReadInside(cls, name, '\0', m);
    ReadUnfold(cls, w, '\0', START);
    assert ReadsAs(cls, Comment, name, '\0');
  }

  /** A name in single quotes or brackets. */
  lemma LegitEnclosed(cls: Classes, kind: TokenType, name: string)
    requires kind == SingleQuoted || kind == Delimited
    requires !cls.letter(Opening(kind)[0]) && forall k :: 0 <= k < |name| ==> !Ender(kind, name[k])
    ensures Legit(cls, kind, name)
  {
    var w, m := Core(kind, name), START.(state := kind);
    var v := Closing(kind);
    EnclosedTurns(cls, kind, name, if |w| > 1 then w[1] else '\0');
    assert w[1..] == name + v;
    hide Step, Read, Ender;
    ReadUnfold(cls, w, '\0', START);
    ReadUnfold(cls, v, '\0', m.(cur := name));
    assert "" + name == name;
    if name != "" {
      ReadInside(cls, name, v[0], m);
      ReadAppend(cls, name, v, '\0', m);
    } else {
      assert name + v == v;
    }
    assert ReadsAs(cls, kind, name, '\0');
  }

  /** The first turn and the last. */
  lemma EnclosedTurns(cls: Classes, kind: TokenType, name: string, peek: char)
    requires (kind == SingleQuoted || kind == Delimited) && !cls.letter(Opening(kind)[0])
    ensures Step(cls, Opening(kind)[0], peek, START) == (START.(state := kind), 1)
    ensures var m := START.(state := kind, cur := name);
      Step(cls, Closing(kind)[0], '\0', m) == (After(START, kind, name), 1)
    ensures !Blank(cls, Opening(kind)[0]) && |Closing(kind)| == |Opening(kind)| == 1
  {
  }

  lemma WordTurn(cls: Classes, c: char, peek: char, m: Machine)
    requires m.state == Unquoted
    ensures var cur := m.cur + [c];
      Step(cls, c, peek, m) ==
        (if cls.Identifier(peek) then m.(cur := cur)
          else After(m, if cls.keyword(cur) then Keyword else Unquoted, cur), 1)
  {
  }

  lemma {:induction false} ReadWord(cls: Classes, w: string, next: char, m: Machine)
    requires m.state == Unquoted && w != "" && !cls.Identifier(next)
    requires forall k :: 0 <= k < |w| ==> cls.Identifier(w[k])
    ensures var cur := m.cur + w;
      Read(cls, w, next, m) == Some(After(m, if cls.keyword(cur) then Keyword else Unquoted, cur))
    decreases |w|
  {
    hide Step, Read, Save, EndWord;
    ReadUnfold(cls, w, next, m);
    WordTurn(cls, w[0], if |w| > 1 then w[1] else next, m);
    if |w| > 1 {
      ReadWord(cls, w[1..], next, m.(cur := m.cur + [w[0]]));
      assert m.cur + [w[0]] + w[1..] == m.cur + w;
    } else {
      assert w == [w[0]];
    }
  }

  lemma LegitWord(cls: Classes, name: string)
    requires Ordinary(cls) && Word(cls, name)
    ensures Legit(cls, if cls.keyword(name) then Keyword else Unquoted, name)
  {
    var kind := if cls.keyword(name) then Keyword else Unquoted;
    assert Core(kind, name) == name;
    ReadUnfold(cls, name, '\0', START);
    assert "" + [name[0]] == [name[0]];
    if |name| > 1 {
      ReadWord(cls, name[1..], '\0', START.(state := Unquoted, cur := [name[0]]));
      assert [name[0]] + name[1..] == name;
    } else {
      assert name == [name[0]];
    }
    assert ReadsAs(cls, kind, name, '\0');
  }

  lemma LegitMark(cls: Classes, c: char)
    requires !cls.letter(c) && !cls.digit(c) && !cls.digit('\0') && SingleTokenState(c) != NoToken
    ensures Legit(cls, SingleTokenState(c), [c])
  {
    hide Begin, After, Read, Step, SingleTokenState, Core, Legit;
    var kind := SingleTokenState(c);
    MarkCore(c);
    StepBegins(cls, c, '\0');
    ReadUnfold(cls, [c], '\0', START);
    BeginIsAfter(cls, c, '\0', START, kind, [c]);
    BeginTakes(cls, c, '\0', START);
    MarkReads(cls, c, kind);
  }

  lemma MarkCore(c: char)
    requires SingleTokenState(c) != NoToken
    ensures Core(SingleTokenState(c), [c]) == [c] && c !in "_@#'\"["
  {
    Unmarked(c);
  }

  lemma StepBegins(cls: Classes, c: char, peek: char)
    ensures Step(cls, c, peek, START) == Begin(cls, c, peek, START) && Between(START)
  {
    hide Begin;
  }

  lemma MarkReads(cls: Classes, c: char, kind: TokenType)
    requires Core(kind, [c]) == [c] && kind == SingleTokenState(c) != NoToken
    requires Read(cls, [c], '\0', START) == Some(After(START, kind, [c]))
    ensures Legit(cls, kind, [c])
  {
    hide Read;
    Unended(c);
    assert ReadsAs(cls, kind, [c], '\0');
  }

  // ---------------------------------------------------------------- spaces as well

  /** Each token keeps the spaces in front of it. */
  lemma {:induction false} ThroughTokens(cls: Classes, m: Machine, ts: seq<Token>)
    requires Ordinary(cls) && (forall t :: t in ts ==> LegitToken(cls, t) && t.trailingSpace == "") && AllStop(cls, ts)
    requires Rests(m, Render(ts)) && Closed(m).space == ""
    ensures var end := Closed(Through(m, "", ts)); end.space == "" && end.tokens == Closed(m).tokens + ts
    decreases |ts|
  {
    hide *;
    if ts == [] {
      ThroughNone(m);
    } else {
      var t, more := ts[0], ts[1..];
      Beginning(cls, "");
      assert "" + Render(ts) == Render(ts) && "" + t.leadingSpace == t.leadingSpace;
      FirstToken(cls, "", ts, m);
      ThroughFirst(m, "", ts);
      BehindFirst(cls, ts);
      var m1 := Lead(m, t.leadingSpace);
      LeadBetween(m, t.leadingSpace);
      assert "" + Render(more) == Render(more);
      AfterRests(cls, m1, t.kind, t.name, Render(more));
      AfterSpace(m1, t.kind, t.name);
      ThroughTokens(cls, After(m1, t.kind, t.name), more);
      assert Token(t.kind, t.name, t.leadingSpace, "") == t && [t] + more == ts;
    }
  }

  lemma ThroughNone(m: Machine)
    ensures Through(m, "", []) == m || (Between(m) && Through(m, "", []) == m.(space := m.space + ""))
  {
  }

  lemma LeadBetween(m: Machine, b: string)
    requires Closed(m).space == "" && (b == "" ==> Between(m))
    ensures Between(Lead(m, b)) && Lead(m, b).space == b && Lead(m, b).tokens == Closed(m).tokens
  {
  }

  lemma AfterSpace(m: Machine, kind: TokenType, name: string)
    requires kind != NoToken
    ensures Closed(After(m, kind, name)).space == ""
  {
  }

  /** A list of tokens that stop, with all spaces in front of tokens, is read from its text exactly. */
  lemma ReadBack(cls: Classes, ts: seq<Token>)
    requires Ordinary(cls) && (forall t :: t in ts ==> LegitToken(cls, t) && t.trailingSpace == "") && AllStop(cls, ts)
    ensures Tokenize(cls, Render(ts)) == ts
  {
    hide LegitToken, AllStop, Through, Tokenize, Run, Render;
    ReadBackIff(cls, ts);
    TokenizeIs(cls, Render(ts));
    Beginning(cls, Render(ts));
    ThroughTokens(cls, START, ts);
    assert [] + ts == ts;
  }
}

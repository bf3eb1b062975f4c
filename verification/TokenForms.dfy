/** Single tokens, written out character by character. */
module TokenForms {
  import opened Wrappers
  import opened Tokenizer
  import opened Rereading

  /** The marks that are tokens of their own, by kind; there are no others. */
  lemma MarkForm(c: char)
    ensures SingleTokenState(c) ==
      if c == '(' then LParen else if c == ')' then RParen else if c == ',' then Comma else if c == ';' then Semicolon
      else if c == '.' then Period else if c == '!' then Not else if c in "=<>" then Relop else if c in "+-" then Addop
      else if c in "*/%" then Multop else if c in "&|^~" then Bitop else NoToken
  {
  }

  predicate NameStart(cls: Classes, c: char) {
    cls.letter(c) || c == '_' || c == '@' || c == '#'
  }

  predicate NamePart(cls: Classes, c: char) {
    cls.letter(c) || cls.digit(c) || c == '_' || c == '@' || c == '#' || c == '$'
  }

  /** A token alone. */
  lemma Alone(cls: Classes, kind: TokenType, name: string)
    requires Ordinary(cls) && Legit(cls, kind, name)
    ensures Tokenize(cls, Core(kind, name)) == [Token(kind, name, "", "")]
  {
    hide Legit, Tokenize, Core;
    var t := Token(kind, name, "", "");
    TokenText(t);
    assert "" + Core(kind, name) + "" == Core(kind, name);
    RenderOne(t);
    StopsAtEnd(cls, t);
    ReadBack(cls, [t]);
  }

  lemma StopsAtEnd(cls: Classes, t: Token)
    requires Ordinary(cls) && t.leadingSpace == t.trailingSpace == "" && Legit(cls, t.kind, t.name)
    ensures AllStop(cls, [t]) && LegitToken(cls, t)
  {
    hide Legit, Stops;
    EndStops(cls, t.kind, t.name);
    assert Behind([t], 0) == "";
    assert StopsAt(cls, [t], 0);
  }

  /** The end of the text ends every token. */
  lemma EndStops(cls: Classes, kind: TokenType, name: string)
    requires Ordinary(cls)
    ensures Stops(cls, kind, name, "")
  {
  }

  /** A word with its letters, digits and signs is one token, a key word exactly if it is on the list. */
  lemma WordForm(cls: Classes, word: string)
    requires Ordinary(cls) && word != "" && NameStart(cls, word[0])
    requires forall k :: 1 <= k < |word| ==> NamePart(cls, word[k])
    ensures Tokenize(cls, word) == [Token(if cls.keyword(word) then Keyword else Unquoted, word, "", "")]
  {
    hide Tokenize, Legit;
    LegitWord(cls, word);
    Alone(cls, if cls.keyword(word) then Keyword else Unquoted, word);
    assert Core(if cls.keyword(word) then Keyword else Unquoted, word) == word;
  }

  // ---------------------------------------------------------------- numbers

  lemma NumberTurn(cls: Classes, c: char, peek: char, m: Machine)
    requires Ordinary(cls) && m.state == Numeric && (cls.digit(c) || c == '.')
    ensures Step(cls, c, peek, m) ==
      (if cls.digit(peek) || peek in ".eE" then m.(cur := m.cur + [c]) else After(m, Numeric, m.cur + [c]), 1)
  {
  }

  lemma {:induction false} ReadNumber(cls: Classes, w: string, next: char, m: Machine)
    requires Ordinary(cls) && m.state == Numeric && w != ""
    requires forall k :: 0 <= k < |w| ==> cls.digit(w[k]) || w[k] == '.'
    ensures Read(cls, w, next, m) == Some(
      if cls.digit(next) || next in ".eE" then m.(cur := m.cur + w) else After(m, Numeric, m.cur + w))
    decreases |w|
  {
    hide Step, Read, Save;
    ReadUnfold(cls, w, next, m);
    NumberTurn(cls, w[0], if |w| > 1 then w[1] else next, m);
    if |w| > 1 {
      ReadNumber(cls, w[1..], next, m.(cur := m.cur + [w[0]]));
      assert m.cur + [w[0]] + w[1..] == m.cur + w;
    } else {
      assert w == [w[0]];
    }
  }

  lemma FirstTurn(cls: Classes, c: char, peek: char)
    requires Ordinary(cls) && cls.digit(c) && !NameStart(cls, c) && c !in "'\"[/-"
    ensures Step(cls, c, peek, START) ==
      (if cls.digit(peek) || peek in ".eE" then START.(state := Numeric, cur := [c]) else After(START, Numeric, [c]), 1)
    ensures !Blank(cls, c)
  {
    assert "" + [c] == [c];
  }

  /** Digits and dots read from the beginning. */
  lemma ReadMantissa(cls: Classes, w: string, next: char)
    requires Ordinary(cls) && w != "" && cls.digit(w[0]) && !NameStart(cls, w[0]) && w[0] !in "'\"[/-"
    requires forall k :: 0 <= k < |w| ==> cls.digit(w[k]) || w[k] == '.'
    ensures Read(cls, w, next, START) == Some(
      if cls.digit(next) || next in ".eE" then START.(state := Numeric, cur := w) else After(START, Numeric, w))
    ensures !Blank(cls, w[0])
  {
    hide Step, Read, Save, After, Blank;
    ReadUnfold(cls, w, next, START);
    FirstTurn(cls, w[0], if |w| > 1 then w[1] else next);
    if |w| > 1 {
      var m := START.(state := Numeric, cur := [w[0]]);
      ReadNumber(cls, w[1..], next, m);
      AfterSame(m, START, Numeric, w);
      assert [w[0]] + w[1..] == w;
    } else {
      assert w == [w[0]];
    }
  }

  /** Digits and dots that begin with a digit are one token. */
  lemma NumberForm(cls: Classes, w: string)
    requires Ordinary(cls) && w != "" && cls.digit(w[0]) && !NameStart(cls, w[0]) && w[0] !in "'\"[/-"
    requires forall k :: 0 <= k < |w| ==> cls.digit(w[k]) || w[k] == '.'
    ensures Tokenize(cls, w) == [Token(Numeric, w, "", "")]
  {
    hide Tokenize, Read, Save, Blank;
    ReadMantissa(cls, w, '\0');
    assert Core(Numeric, w) == w && ReadsAs(cls, Numeric, w, '\0');
    Alone(cls, Numeric, w);
  }

  lemma {:induction false} ReadExponent(cls: Classes, w: string, m: Machine)
    requires Ordinary(cls) && m.state == Scientific && w != "" && forall k :: 0 <= k < |w| ==> cls.digit(w[k])
    ensures Read(cls, w, '\0', m) == Some(After(m, Numeric, m.cur + w))
    decreases |w|
  {
    hide Step, Read, Save;
    ReadUnfold(cls, w, '\0', m);
    ExponentTurn(cls, w[0], if |w| > 1 then w[1] else '\0', m);
    if |w| > 1 {
      ReadExponent(cls, w[1..], m.(cur := m.cur + [w[0]]));
      assert m.cur + [w[0]] + w[1..] == m.cur + w;
    } else {
      assert w == [w[0]];
    }
  }

  lemma ExponentTurn(cls: Classes, c: char, peek: char, m: Machine)
    requires m.state == Scientific
    ensures Step(cls, c, peek, m) ==
      (if cls.digit(peek) then m.(cur := m.cur + [c]) else After(m, Numeric, m.cur + [c]), 1)
  {
  }

  /** The turn that begins the exponent, with or without a sign. */
  lemma BeginExponent(cls: Classes, peek: char, m: Machine)
    requires m.state == Numeric && (peek in "+-" || cls.digit(peek))
    ensures Step(cls, 'e', peek, m) ==
      if peek in "+-" then (m.(state := Scientific, cur := m.cur + ['e', peek]), 2)
      else (m.(state := Scientific, cur := m.cur + "e"), 1)
  {
  }

  /** So are they with an exponent behind them, with or without a sign. */
  lemma ExponentForm(cls: Classes, w: string, sign: string, digits: string)
    requires Ordinary(cls) && w != "" && cls.digit(w[0]) && !NameStart(cls, w[0]) && w[0] !in "'\"[/-"
    requires (forall k :: 0 <= k < |w| ==> cls.digit(w[k]) || w[k] == '.') && sign in {"", "+", "-"}
    requires digits != "" && (forall k :: 0 <= k < |digits| ==> cls.digit(digits[k])) && digits[0] !in "+-"
    ensures var number := w + ("e" + sign + digits); Tokenize(cls, number) == [Token(Numeric, number, "", "")]
  {
    hide Tokenize, Step, Read, Save, Blank, After;
    var v := "e" + sign + digits;
    var m := START.(state := Numeric, cur := w);
    ReadMantissa(cls, w, 'e');
    ReadAppend(cls, w, v, '\0', START);
    ReadUnfold(cls, v, '\0', m);
    BeginExponent(cls, v[1], m);
    if sign == "" {
      assert v[1..] == digits && (w + "e") + digits == w + v;
      ReadExponent(cls, digits, m.(state := Scientific, cur := w + "e"));
      AfterSame(m.(state := Scientific, cur := w + "e"), START, Numeric, w + v);
    } else {
      assert v[1] == sign[0] && v[2..] == digits && (w + ['e', v[1]]) + digits == w + v;
      ReadExponent(cls, digits, m.(state := Scientific, cur := w + ['e', v[1]]));
      AfterSame(m.(state := Scientific, cur := w + ['e', v[1]]), START, Numeric, w + v);
    }
    var number := w + v;
    assert Core(Numeric, number) == number && number[0] == w[0];
    assert ReadsAs(cls, Numeric, number, '\0');
    Alone(cls, Numeric, number);
  }
}

/** StripMatchingParens: taking matching outer parentheses off a default value. */
module Parens {
  import opened Wrappers

  // ---------------------------------------------------------------- balance

  /** Inside a quoted string at the end of s. */
  predicate Quoted(s: string) {
    s != "" && Quoted(s[..|s| - 1]) != (s[|s| - 1] == '\'')
  }

  /** Parentheses open at the end of s, those inside quotes not counted. */
  function Depth(s: string): int {
    if s == "" then 0
    else
      var init, c := s[..|s| - 1], s[|s| - 1];
      Depth(init) + if Quoted(init) then 0 else if c == '(' then 1 else if c == ')' then -1 else 0
  }

  predicate Balanced(s: string) {
    !Quoted(s) && Depth(s) == 0 && forall j :: 0 <= j <= |s| ==> Depth(s[..j]) >= 0
  }

  /** m parentheses all around, and the rest is balanced. */
  predicate Wrapped(s: string, m: nat) {
    && 2 * m <= |s|
    && (forall i :: 0 <= i < m ==> s[i] == '(')
    && (forall i :: |s| - m <= i < |s| ==> s[i] == ')')
    && Balanced(s[m..|s| - m])
  }

  // ---------------------------------------------------------------- the computation

  function Lead(s: string, c: char, i: nat): (n: nat)
    requires i <= |s|
    ensures i <= n <= |s| && (forall j :: i <= j < n ==> s[j] == c) && (n < |s| ==> s[n] != c)
    decreases |s| - i
  {
    if i < |s| && s[i] == c then Lead(s, c, i + 1) else i
  }

  function Trail(s: string, c: char, n: nat): (t: nat)
    requires n <= |s| && forall j :: |s| - n <= j < |s| ==> s[j] == c
    ensures n <= t <= |s| && (forall j :: |s| - t <= j < |s| ==> s[j] == c) && (t < |s| ==> s[|s| - 1 - t] != c)
    decreases |s| - n
  {
    if n < |s| && s[|s| - 1 - n] == c then Trail(s, c, n + 1) else n
  }

  /** The least number of parentheses open anywhere from a to b. */
  function Least(s: string, a: nat, b: nat): (m: int)
    requires a <= b <= |s|
    ensures forall j :: a <= j <= b ==> m <= Depth(s[..j])
    ensures exists j :: a <= j <= b && m == Depth(s[..j])
    decreases b
  {
    if a == b then Depth(s[..a])
    else
      var m := Least(s, a, b - 1);
      if Depth(s[..b]) < m then Depth(s[..b]) else m
  }

  function Min(a: int, b: int): int {
    if a < b then a else b
  }

  /** How many to strip; negative if more were closed than opened. */
  function StripCount(s: string): int {
    var a, t := Lead(s, '(', 0), Trail(s, ')', 0);
    if a == 0 || t == 0 then 0
    else
      Disjoint(s);
      Min(Least(s, a, |s| - t), t)
  }

  lemma Disjoint(s: string)
    ensures Lead(s, '(', 0) + Trail(s, ')', 0) <= |s|
  {
    var a, t := Lead(s, '(', 0), Trail(s, ')', 0);
    assert a > 0 ==> s[a - 1] == '(';
    if a + t > |s| {
      assert false;
    }
  }

  /** Nothing when the substring asked for does not exist. */
  function Strip(s: string): Option<string> {
    var k := StripCount(s);
    if k < 0 then None else StripFits(s); Some(s[k..|s| - k])
  }

  lemma StripFits(s: string)
    ensures 2 * StripCount(s) <= |s| && StripCount(s) <= Lead(s, '(', 0) && StripCount(s) <= Trail(s, ')', 0)
  {
    var a, t := Lead(s, '(', 0), Trail(s, ')', 0);
    Disjoint(s);
    if a > 0 && t > 0 {
      DepthOfLead(s, a);
    }
  }

  /** A run of opening parentheses at the front. */
  lemma {:induction false} DepthOfLead(s: string, k: nat)
    requires k <= |s| && forall j :: 0 <= j < k ==> s[j] == '('
    ensures Depth(s[..k]) == k && !Quoted(s[..k])
  {
    if k > 0 {
      assert s[..k][..k - 1] == s[..k - 1];
      DepthOfLead(s, k - 1);
    }
  }

  // ---------------------------------------------------------------- what it means

  /** Behind k opening parentheses, everything is k deeper. */
  lemma {:induction false} DepthInside(s: string, k: nat, p: nat)
    requires k <= p <= |s| && forall j :: 0 <= j < k ==> s[j] == '('
    ensures Depth(s[..p]) == k + Depth(s[k..p]) && Quoted(s[..p]) == Quoted(s[k..p])
  {
    if p == k {
      DepthOfLead(s, k);
    } else {
      assert s[..p][..p - 1] == s[..p - 1] && s[k..p][..p - k - 1] == s[k..p - 1];
      DepthInside(s, k, p - 1);
    }
  }

  /** In a run of closing parentheses outside quotes, one less at every step. */
  lemma {:induction false} DepthOfTrail(s: string, p: nat, e: nat)
    requires p <= e <= |s| && (forall j :: p <= j < e ==> s[j] == ')')
    ensures Quoted(s[..e]) == Quoted(s[..p])
    ensures !Quoted(s[..p]) ==> Depth(s[..e]) == Depth(s[..p]) - (e - p)
  {
    if p < e {
      assert s[..e][..e - 1] == s[..e - 1];
      DepthOfTrail(s, p, e - 1);
    }
  }

  lemma TakenOff(s: string, k: nat)
    requires 2 * k <= |s| && (forall i :: 0 <= i < k ==> s[i] == '(')
      && (forall i :: |s| - k <= i < |s| ==> s[i] == ')')
    ensures s == seq(k, i => '(') + s[k..|s| - k] + seq(k, i => ')')
  {
  }

  /** The result is the string without k parentheses at either end. */
  lemma StripShape(s: string)
    ensures var k := StripCount(s);
      match Strip(s)
      case None => k < 0
      case Some(r) => k >= 0 && s == seq(k, i => '(') + r + seq(k, i => ')')
  {
    hide Least, Depth, StripCount;
    StripFits(s);
    if StripCount(s) >= 0 {
      TakenOff(s, StripCount(s));
    }
  }

  /** Taking k off both ends where there are k: the rest is balanced exactly if the whole was, provided the depth in
      between never falls below k. */
  lemma InnerBalanced(s: string, k: nat)
    requires 2 * k <= |s| && (forall i :: 0 <= i < k ==> s[i] == '(')
      && (forall i :: |s| - k <= i < |s| ==> s[i] == ')')
    requires Balanced(s) && forall p :: k <= p <= |s| - k ==> Depth(s[..p]) >= k
    ensures Balanced(s[k..|s| - k])
  {
    hide Depth, Quoted;
    var e := |s| - k;
    var r := s[k..e];
    DepthOfTrail(s, e, |s|);
    assert s[..|s|] == s;
    DepthInside(s, k, e);
    forall j | 0 <= j <= |r| ensures Depth(r[..j]) >= 0 {
      assert r[..j] == s[k..k + j];
      DepthInside(s, k, k + j);
    }
  }

  lemma OuterBalanced(s: string, k: nat)
    requires 2 * k <= |s| && (forall i :: 0 <= i < k ==> s[i] == '(')
      && (forall i :: |s| - k <= i < |s| ==> s[i] == ')')
    requires Balanced(s[k..|s| - k])
    ensures Balanced(s)
  {
    hide Depth, Quoted;
    var e := |s| - k;
    var r := s[k..e];
    DepthInside(s, k, e);
    DepthOfTrail(s, e, |s|);
    assert s[..|s|] == s && r[..|r|] == r;
    forall p | 0 <= p <= |s| ensures Depth(s[..p]) >= 0 {
      if p <= k {
        DepthOfLead(s, p);
      } else if p <= e {
        assert r[..p - k] == s[k..p];
        DepthInside(s, k, p);
      } else {
        DepthOfTrail(s, e, p);
      }
    }
  }

  /** In a balanced string the depth between the outer runs of parentheses, and on to the last one stripped, is at least
      the number stripped. */
  lemma DeepEnough(s: string, p: nat)
    requires Balanced(s) && StripCount(s) >= 0 && StripCount(s) <= p <= |s| - StripCount(s)
    ensures Depth(s[..p]) >= StripCount(s)
  {
    hide *;
    var k, a, t := StripCount(s), Lead(s, '(', 0), Trail(s, ')', 0);
    StripFits(s);
    NeverNegative(s);
    BalancedEnd(s);
    if p <= a {
      DepthOfLead(s, p);
    } else if p > |s| - t {
      DepthOfTrail(s, |s| - t, |s|);
      DepthOfTrail(s, |s| - t, p);
      assert s[..|s|] == s;
    } else {
      CountIsLeast(s, p);
    }
  }

  lemma BalancedEnd(s: string)
    requires Balanced(s)
    ensures !Quoted(s) && Depth(s) == 0
  {
  }

  /** Between the outer runs, the depth is at least the number stripped. */
  lemma CountIsLeast(s: string, p: nat)
    requires Lead(s, '(', 0) <= p <= |s| - Trail(s, ')', 0)
    ensures Depth(s[..p]) >= StripCount(s) || StripCount(s) == 0
  {
    hide Depth, Lead, Trail;
    Disjoint(s);
  }

  /** The parentheses stripped match: the rest is balanced exactly if the string was. */
  lemma StripBalanced(s: string)
    ensures Balanced(s) <==> Strip(s).Some? && Balanced(Strip(s).value)
  {
    hide Balanced, Depth, Least, StripCount;
    var k := StripCount(s);
    StripFits(s);
    if Balanced(s) {
      NeverNegative(s);
      NotNegative(s);
      forall p | k <= p <= |s| - k ensures Depth(s[..p]) >= k {
        DeepEnough(s, p);
      }
      InnerBalanced(s, k);
    } else if k >= 0 && Balanced(s[k..|s| - k]) {
      OuterBalanced(s, k);
    }
  }

  /** An opening parenthesis outside quotes and the closing one that comes back to its depth first. */
  ghost predicate Matches(s: string, i: nat, j: nat)
    requires i < j < |s|
  {
    && s[i] == '(' && s[j] == ')' && !Quoted(s[..i]) && !Quoted(s[..j])
    && Depth(s[..j]) == Depth(s[..i]) + 1
    && forall p :: i < p <= j ==> Depth(s[..p]) > Depth(s[..i])
  }

  /** What is stripped are matching pairs, one inside the other. */
  ghost predicate PairsMatch(s: string, k: nat)
    requires 2 * k <= |s|
  {
    forall i :: 0 <= i < k ==> PairMatches(s, i)
  }

  /** As far from either end. */
  ghost predicate PairMatches(s: string, i: nat)
    requires 2 * i + 2 <= |s|
  {
    Matches(s, i, |s| - 1 - i)
  }

  /** Parentheses are only stripped in matching pairs if and only if the string is balanced. */
  lemma StrippedMatch(s: string)
    requires StripCount(s) > 0
    ensures 2 * StripCount(s) <= |s| && (PairsMatch(s, StripCount(s)) <==> Balanced(s))
  {
    hide Depth, Quoted, StripCount, Balanced, Matches;
    var k := StripCount(s);
    StripFits(s);
    if Balanced(s) {
      forall i | 0 <= i < k ensures PairMatches(s, i) {
        StrippedPair(s, i);
      }
    } else if PairsMatch(s, k) {
      assert PairMatches(s, 0);
      OuterPair(s);
    }
  }

  lemma StrippedPair(s: string, i: nat)
    requires Balanced(s) && i < StripCount(s)
    ensures 2 * i + 2 <= |s| && Matches(s, i, |s| - 1 - i)
  {
    hide Depth, Quoted, StripCount, Balanced, Lead, Trail;
    var k, j := StripCount(s), |s| - 1 - i;
    StripFits(s);
    BalancedEnd(s);
    DepthOfLead(s, i);
    assert s[..|s|] == s;
    QuotedBeforeTrail(s, Trail(s, ')', 0), j);
    forall p | i < p <= j ensures Depth(s[..p]) > i && (p == j ==> Depth(s[..p]) == i + 1) {
      if p <= k {
        DepthOfLead(s, p);
      }
      if p >= |s| - k {
        InTrail(s, k, p);
      } else if p > k {
        DeepEnough(s, p);
      }
    }
  }

  /** In the closing parentheses at the end of a balanced string. */
  lemma InTrail(s: string, k: nat, p: nat)
    requires Balanced(s) && k <= |s| && (forall i :: |s| - k <= i < |s| ==> s[i] == ')') && |s| - k <= p <= |s|
    ensures Depth(s[..p]) == |s| - p && !Quoted(s[..p])
  {
    hide Depth, Quoted;
    assert s[..|s|] == s;
    DepthOfTrail(s, p, |s|);
  }

  lemma QuotedBeforeTrail(s: string, t: nat, j: nat)
    requires Balanced(s) && t <= |s| && (forall i :: |s| - t <= i < |s| ==> s[i] == ')') && |s| - t <= j <= |s|
    ensures !Quoted(s[..j])
  {
    InTrail(s, t, j);
  }

  /** A string in which the outermost parentheses match is balanced. */
  lemma OuterPair(s: string)
    requires |s| >= 2 && Matches(s, 0, |s| - 1)
    ensures Balanced(s)
  {
    var n := |s| - 1;
    assert s[..n + 1] == s && s[..n + 1][..n] == s[..n] && s[..0] == "";
    assert !Quoted(s) && Depth(s) == 0;
    hide Depth, Quoted;
    forall j | 0 <= j <= |s| ensures Depth(s[..j]) >= 0 {
      if j == 0 {
        DepthOfLead(s, 0);
      } else if j == |s| {
        assert s[..j] == s;
      } else {
        assert Depth(s[..j]) > Depth(s[..0]);
        DepthOfLead(s, 0);
      }
    }
  }

  lemma NeverNegative(s: string)
    requires Balanced(s)
    ensures forall j :: 0 <= j <= |s| ==> Depth(s[..j]) >= 0
  {
  }

  lemma NotNegative(s: string)
    requires forall j :: 0 <= j <= |s| ==> Depth(s[..j]) >= 0
    ensures StripCount(s) >= 0
  {
    Disjoint(s);
  }

  /** No more could be stripped: no balanced string has more parentheses around it. */
  lemma StripMaximal(s: string, m: nat)
    requires Wrapped(s, m)
    ensures m <= StripCount(s)
  {
    if m > 0 {
      var a, t := Lead(s, '(', 0), Trail(s, ')', 0);
      Disjoint(s);
      assert m <= a && m <= t;
      var r := s[m..|s| - m];
      forall p | a <= p <= |s| - t ensures Depth(s[..p]) >= m {
        assert r[..p - m] == s[m..p];
        DepthInside(s, m, p);
      }
    } else {
      assert s[0..|s|] == s;
      NotNegative(s);
    }
  }

  lemma StripWrapped(s: string)
    requires Balanced(s)
    ensures var k := StripCount(s); k >= 0 && Wrapped(s, k) && Strip(s) == Some(s[k..|s| - k])
  {
    hide Balanced, Least;
    StripBalanced(s);
    StripFits(s);
  }

  lemma InnerSlice(s: string, k: nat, m: nat)
    requires 2 * (k + m) <= |s|
    ensures s[k..|s| - k][m..|s| - 2 * k - m] == s[k + m..|s| - (k + m)]
  {
    var r := s[k..|s| - k];
    var x, y := r[m..|s| - 2 * k - m], s[k + m..|s| - (k + m)];
    forall i | 0 <= i < |x| ensures x[i] == y[i] {
      assert x[i] == r[m + i];
    }
  }

  lemma WrappedTwice(s: string, k: nat, m: nat)
    requires 2 * k <= |s| && Wrapped(s, k) && Wrapped(s[k..|s| - k], m)
    ensures Wrapped(s, k + m)
  {
    hide Balanced;
    var r, n := s[k..|s| - k], |s|;
    InnerSlice(s, k, m);
    forall i | 0 <= i < k + m ensures s[i] == '(' {
      assert i >= k ==> r[i - k] == s[i];
    }
    forall i | n - (k + m) <= i < n ensures s[i] == ')' {
      assert i < n - k ==> r[i - k] == s[i];
    }
  }

  /** Stripping what was stripped changes nothing. */
  lemma StripIdempotent(s: string)
    requires Balanced(s)
    ensures Strip(s).Some? && Strip(Strip(s).value) == Strip(s)
  {
    hide *;
    StripWrapped(s);
    var k := StripCount(s);
    WrappedFits(s, k);
    var r := s[k..|s| - k];
    StripWrapped(r);
    WrappedTwice(s, k, StripCount(r));
    StripMaximal(s, k + StripCount(r));
    assert StripCount(r) == 0 && r[0..|r|] == r;
  }

  lemma WrappedFits(s: string, k: nat)
    requires Wrapped(s, k)
    ensures 2 * k <= |s| && Balanced(s[k..|s| - k])
  {
  }

  /** Without balance neither holds: a parenthesis that matches nothing may go, ... */
  lemma UnbalancedLosesParen()
    ensures Strip("(()") == Some("(") && !Balanced("(()")
  {
    var s := "(()";
    var a, t := Lead(s, '(', 0), Trail(s, ')', 0);
    assert s[0] == '(' && s[1] == '(' && s[2] == ')';
    assert a == 2 && t == 1;
    DepthOfLead(s, 2);
    assert s[..2] == "((";
    assert s[1..2] == "(";
    DepthOfTrail(s, 2, 3);
    assert s[..3] == s;
  }

  /** ... and exactly when the inside closes more than was opened, the substring asked for does not exist. */
  lemma StripThrows(s: string)
    ensures Strip(s).None? <==>
      && |s| > 0 && s[0] == '(' && s[|s| - 1] == ')'
      && exists j :: Lead(s, '(', 0) <= j <= |s| - Trail(s, ')', 0) && Depth(s[..j]) < 0
  {
    Disjoint(s);
  }

  lemma OverclosedThrows()
    ensures Strip("())(b)").None?
  {
    var s := "())(b)";
    var a, t := Lead(s, '(', 0), Trail(s, ')', 0);
    assert s[0] == '(' && s[1] == ')' && s[4] == 'b' && s[5] == ')';
    assert a == 1 && t == 1;
    DepthOfLead(s, 1);
    DepthOfTrail(s, 1, 3);
    assert Depth(s[..3]) == -1;
    StripThrows(s);
  }

  // ---------------------------------------------------------------- the method

  /** The loop between the outer runs of parentheses. */
  method LeastParens(s: string, initParens: nat, end: nat) returns (minParens: int)
    requires initParens <= end <= |s| && forall j :: 0 <= j < initParens ==> s[j] == '('
    ensures minParens == Least(s, initParens, end)
  {
    hide Quoted, Depth, Least;
    DepthOfLead(s, initParens);
    LeastStart(s, initParens);
    var isEscaped, parenCount := false, initParens;
    minParens := initParens;
    for i := initParens to end
      invariant isEscaped == Quoted(s[..i]) && parenCount == Depth(s[..i]) && minParens == Least(s, initParens, i)
    {
      DepthNext(s, initParens, i);
      if s[i] == '(' && !isEscaped {
        parenCount := parenCount + 1;
      } else if s[i] == ')' && !isEscaped {
        parenCount := parenCount - 1;
      } else if s[i] == '\'' {
        isEscaped := !isEscaped;
      }
      if parenCount < minParens {
        minParens := parenCount;
      }
    }
  }

  method StripMatchingParens(s: string) returns (r: Option<string>)
    ensures r == Strip(s)
  {
    hide Quoted, Depth, Least, Strip, StripCount;
    var len := |s|;
    var initParens := 0;
    while initParens < len && s[initParens] == '('
      invariant initParens <= len && Lead(s, '(', initParens) == Lead(s, '(', 0)
    {
      initParens := initParens + 1;
    }
    var trailingParens := 0;
    while trailingParens < len && s[len - trailingParens - 1] == ')'
      invariant trailingParens <= len && (forall j :: len - trailingParens <= j < len ==> s[j] == ')')
      invariant Trail(s, ')', trailingParens) == Trail(s, ')', 0)
    {
      trailingParens := trailingParens + 1;
    }
    StripIs(s, initParens, trailingParens);
    if initParens == 0 || trailingParens == 0 {
      return Some(s);
    }
    var minParens := LeastParens(s, initParens, len - trailingParens);
    minParens := Min(minParens, trailingParens);
    if minParens < 0 {
      return None;
    }
    return Some(s[minParens..len - minParens]);
  }

  lemma StripIs(s: string, a: nat, t: nat)
    requires a == Lead(s, '(', 0) && t == Trail(s, ')', 0)
    ensures a + t <= |s|
    ensures a == 0 || t == 0 ==> Strip(s) == Some(s)
    ensures a > 0 && t > 0 ==>
      var k := Min(Least(s, a, |s| - t), t);
      2 * k <= |s| && Strip(s) == if k < 0 then None else Some(s[k..|s| - k])
  {
    hide Least, Depth;
    Disjoint(s);
    StripFits(s);
    assert s[0..|s|] == s;
  }

  lemma LeastStart(s: string, a: nat)
    requires a <= |s|
    ensures Least(s, a, a) == Depth(s[..a])
  {
  }

  lemma DepthNext(s: string, a: nat, i: nat)
    requires a <= i < |s|
    ensures Quoted(s[..i + 1]) == (Quoted(s[..i]) != (s[i] == '\''))
    ensures Depth(s[..i + 1]) == Depth(s[..i]) + if Quoted(s[..i]) then 0 else if s[i] == '(' then 1
      else if s[i] == ')' then -1 else 0
    ensures Least(s, a, i + 1) == if Depth(s[..i + 1]) < Least(s, a, i) then Depth(s[..i + 1]) else Least(s, a, i)
  {
    assert s[..i + 1][..i] == s[..i];
  }
}

/** Splitting and joining text, as String.Split and String.Join do. */
module Text {
  import opened Wrappers

  /** The parts between occurrences of c; there is always at least one. */
  function Split(s: string, c: char): (r: seq<string>)
    ensures |r| >= 1
  {
    if s == "" then [""]
    else
      var rest := Split(s[1..], c);
      if s[0] == c then [""] + rest else [[s[0]] + rest[0]] + rest[1..]
  }

  function Join(parts: seq<string>, c: char): string
    requires |parts| >= 1
  {
    if |parts| == 1 then parts[0] else parts[0] + [c] + Join(parts[1..], c)
  }

  lemma {:induction false} JoinSplit(s: string, c: char)
    ensures Join(Split(s, c), c) == s
  {
    if s != "" {
      JoinSplit(s[1..], c);
      var rest := Split(s[1..], c);
      var all := Split(s, c);
      if s[0] == c {
        assert all[1..] == rest;
      } else {
        assert all[1..] == rest[1..];
      }
    }
  }

  lemma {:induction false} SplitParts(s: string, c: char)
    ensures forall k :: 0 <= k < |Split(s, c)| ==> c !in Split(s, c)[k]
  {
    if s != "" {
      SplitParts(s[1..], c);
      var rest := Split(s[1..], c);
      assert s[0] != c ==> c !in [s[0]] + rest[0];
    }
  }

  /** A part without the separator stays one part. */
  lemma {:induction false} SplitPrefix(p: string, rest: string, c: char)
    requires c !in p
    ensures Split(p, c) == [p]
    ensures Split(p + [c] + rest, c) == [p] + Split(rest, c)
  {
    var s := p + [c] + rest;
    if p == "" {
      assert s[1..] == rest;
    } else {
      SplitPrefix(p[1..], rest, c);
      assert s[1..] == p[1..] + [c] + rest;
      assert [p[0]] + p[1..] == p;
    }
  }

  lemma {:induction false} SplitJoin(parts: seq<string>, c: char)
    requires |parts| >= 1 && forall k :: 0 <= k < |parts| ==> c !in parts[k]
    ensures Split(Join(parts, c), c) == parts
  {
    if |parts| == 1 {
      SplitPrefix(parts[0], "", c);
    } else {
      SplitJoin(parts[1..], c);
      SplitPrefix(parts[0], Join(parts[1..], c), c);
      assert [parts[0]] + parts[1..] == parts;
    }
  }

  /** Cut at the first c: what is in front of it and what is behind. */
  function Cut(s: string, c: char): (r: Result<(string, string), ()>)
    ensures r.Success? ==> s == r.value.0 + [c] + r.value.1 && c !in r.value.0
    ensures r.Failure? ==> c !in s
  {
    if s == "" then Failure(())
    else if s[0] == c then Success(("", s[1..]))
    else match Cut(s[1..], c)
      case Failure(_) => Failure(())
      case Success((a, b)) =>
        assert s == [s[0]] + s[1..] && [s[0]] + (a + [c] + b) == ([s[0]] + a) + [c] + b;
        Success(([s[0]] + a, b))
  }

  lemma {:induction false} CutUnique(a: string, b: string, c: char)
    requires c !in a
    ensures Cut(a + [c] + b, c) == Success((a, b))
  {
    var s := a + [c] + b;
    if a == "" {
      assert s[1..] == b;
    } else {
      assert s[1..] == a[1..] + [c] + b && s[0] == a[0];
      CutUnique(a[1..], b, c);
      assert [a[0]] + a[1..] == a;
    }
  }

  /** Leading and trailing white space removed. */
  function TrimStart(s: string, isSpace: char -> bool): string {
    if s != "" && isSpace(s[0]) then TrimStart(s[1..], isSpace) else s
  }

  function TrimEnd(s: string, isSpace: char -> bool): string {
    if s != "" && isSpace(s[|s| - 1]) then TrimEnd(s[..|s| - 1], isSpace) else s
  }

  function Trim(s: string, isSpace: char -> bool): string {
    TrimEnd(TrimStart(s, isSpace), isSpace)
  }

  predicate Trimmed(s: string, isSpace: char -> bool) {
    s != "" ==> !isSpace(s[0]) && !isSpace(s[|s| - 1])
  }

  lemma {:induction false} TrimEndKeeps(s: string, isSpace: char -> bool, c: char)
    ensures var t := TrimEnd(s, isSpace);
      (t != "" ==> t[0] == s[0] && !isSpace(t[|t| - 1])) && |t| <= |s| && (c !in s ==> c !in t)
  {
    if s != "" && isSpace(s[|s| - 1]) {
      TrimEndKeeps(s[..|s| - 1], isSpace, c);
    }
  }

  lemma {:induction false} TrimStartKeeps(s: string, isSpace: char -> bool, c: char)
    ensures var t := TrimStart(s, isSpace);
      (t != "" ==> !isSpace(t[0])) && (c !in s ==> c !in t)
  {
    if s != "" && isSpace(s[0]) {
      TrimStartKeeps(s[1..], isSpace, c);
    }
  }

  lemma TrimIsTrimmed(s: string, isSpace: char -> bool, c: char)
    ensures Trimmed(Trim(s, isSpace), isSpace) && (c !in s ==> c !in Trim(s, isSpace))
  {
    TrimStartKeeps(s, isSpace, c);
    TrimEndKeeps(TrimStart(s, isSpace), isSpace, c);
  }

  lemma TrimmedStays(s: string, isSpace: char -> bool)
    requires Trimmed(s, isSpace)
    ensures Trim(s, isSpace) == s
  {
  }

  predicate AllSpace(s: string, isSpace: char -> bool) {
    forall k :: 0 <= k < |s| ==> isSpace(s[k])
  }

  lemma {:induction false} TrimStartForm(s: string, isSpace: char -> bool) returns (front: string)
    ensures s == front + TrimStart(s, isSpace) && AllSpace(front, isSpace)
  {
    if s != "" && isSpace(s[0]) {
      var more := TrimStartForm(s[1..], isSpace);
      front := [s[0]] + more;
      var rest := TrimStart(s, isSpace);
      assert rest == TrimStart(s[1..], isSpace);
      hide TrimStart;
      assert s == [s[0]] + (more + rest);
    } else {
      front := "";
    }
  }

  lemma {:induction false} TrimEndForm(s: string, isSpace: char -> bool) returns (end: string)
    ensures s == TrimEnd(s, isSpace) + end && AllSpace(end, isSpace)
  {
    if s != "" && isSpace(s[|s| - 1]) {
      var more := TrimEndForm(s[..|s| - 1], isSpace);
      end := more + [s[|s| - 1]];
      var rest := TrimEnd(s, isSpace);
      assert rest == TrimEnd(s[..|s| - 1], isSpace);
      hide TrimEnd;
      assert s == (rest + more) + [s[|s| - 1]];
    } else {
      end := "";
    }
  }

  /** Nothing but white space at either end is taken off, and all of it. */
  lemma TrimForm(s: string, isSpace: char -> bool) returns (front: string, end: string)
    ensures s == front + Trim(s, isSpace) + end && AllSpace(front, isSpace) && AllSpace(end, isSpace)
    ensures Trimmed(Trim(s, isSpace), isSpace)
  {
    front := TrimStartForm(s, isSpace);
    end := TrimEndForm(TrimStart(s, isSpace), isSpace);
    TrimIsTrimmed(s, isSpace, ' ');
  }
}

/** The texts that bytes become, written out character by character. */
module ByteForms {
  import opened Positional
  import opened HexCodec
  import opened PgBinary
  import opened Delivery
  import opened GetData

  // ---------------------------------------------------------------- hexadecimal

  const UPPER_CASE := "0123456789ABCDEF"

  predicate Upper(c: Byte) {
    c as char in UPPER_CASE
  }

  lemma UpperDigit(n: int)
    requires 0 <= n < 16
    ensures HexDigit(n) as char == UPPER_CASE[n]
  {
  }

  /** Two digits in upper case to a byte, the higher one first. */
  lemma HexForm(s: seq<Byte>, k: nat)
    requires k < |s|
    ensures |Hex(s)| == 2 * |s|
    ensures Hex(s)[2 * k] as char == UPPER_CASE[s[k] / 16] && Hex(s)[2 * k + 1] as char == UPPER_CASE[s[k] % 16]
  {
    hide HexDigit;
    UpperDigit(s[k] / 16);
    UpperDigit(s[k] % 16);
  }

  lemma HexAlphabet(s: seq<Byte>)
    ensures forall k :: 0 <= k < |Hex(s)| ==> Upper(Hex(s)[k])
  {
    hide Hex, HexDigit;
    forall k | 0 <= k < |Hex(s)| ensures Upper(Hex(s)[k]) {
      HexForm(s, k / 2);
      assert k == 2 * (k / 2) || k == 2 * (k / 2) + 1;
      assert s[k / 2] / 16 < 16 && s[k / 2] % 16 < 16;
      InAlphabet(if k % 2 == 0 then s[k / 2] / 16 else s[k / 2] % 16);
    }
  }

  lemma InAlphabet(n: int)
    requires 0 <= n < 16
    ensures UPPER_CASE[n] in UPPER_CASE
  {
  }

  /** Digits of either case are read; any other character counts from the digit zero. */
  lemma HexValueForm(c: Byte, n: int)
    requires 0 <= n < 16
    ensures (c as char == UPPER_CASE[n] || c as char == "0123456789abcdef"[n]) ==> HexValue(c) == n
    ensures c as char !in UPPER_CASE && c as char !in "abcdef" ==> HexValue(c) == c as int - '0' as int
  {
  }

  // ---------------------------------------------------------------- what a run delivers

  /** Of a text the characters up to the first NUL count, and the NUL is read if there is one. */
  lemma {:induction false} CellsForm(front: seq<Byte>, rest: seq<Byte>)
    requires 0 !in front
    ensures TextLength(front) == CellsRead(front) == |front|
    ensures TextLength(front + ([0] + rest)) == |front| && CellsRead(front + ([0] + rest)) == |front| + 1
  {
    if front == [] {
      assert front + ([0] + rest) == [0] + rest;
    } else {
      CellsForm(front[1..], rest);
      assert (front + ([0] + rest))[1..] == front[1..] + ([0] + rest);
    }
  }

  /** Every piece is made of bytes of the value. */
  lemma {:induction false} PiecesOfValue(total: seq<Byte>, sizes: seq<nat>, reserve: nat, slack: nat)
    requires reserve <= 1
    ensures var r := Calls(total, sizes, reserve, slack);
      && (forall b :: b in r.delivered ==> b in total)
      && forall k :: 0 <= k < |sizes| ==> forall b :: b in r.replies[k].chunk ==> b in total
  {
    hide Deliver, Calls;
    if sizes == [] {
      NoCalls(total, reserve, slack);
    } else {
      var n := |sizes| - 1;
      PiecesOfValue(total, sizes[..n], reserve, slack);
      LastCall(total, sizes, reserve, slack);
      PieceOfValue(total, Calls(total, sizes[..n], reserve, slack).left, sizes[n], reserve, slack);
    }
  }

  lemma PieceOfValue(total: seq<Byte>, left: int, size: nat, reserve: nat, slack: nat)
    requires IsLeft(left, |total|) && reserve <= 1
    ensures forall b :: b in Deliver(total, left, size, reserve, slack).0.chunk ==> b in total
  {
  }

  /** A binary column read as characters delivers nothing but digits in upper case. */
  lemma BinaryChunks(value: seq<Byte>, lfConv: bool, sizes: seq<nat>)
    requires WellEscaped(value)
    ensures var r := Calls(CharValue(value, true, lfConv), sizes, 1, 1);
      forall k :: 0 <= k < |sizes| ==> forall b :: b in r.replies[k].chunk ==> Upper(b)
  {
    hide Hex, Calls, FromText;
    var total := CharValue(value, true, lfConv);
    CharCases(value, true, lfConv);
    HexAlphabet(FromText(value));
    PiecesOfValue(total, sizes, 1, 1);
    assert forall b :: b in total ==> Upper(b);
  }

  // ---------------------------------------------------------------- octal

  predicate Between(c: Byte, low: char, high: char) {
    low as int <= c as int <= high as int
  }

  /** Letters, digits and the blank. */
  predicate Unescaped(c: Byte) {
    Between(c, '0', '9') || Between(c, 'A', 'Z') || Between(c, 'a', 'z') || c as char == ' '
  }

  function OctalText(a: int, b: int, d: int): seq<char>
    requires 0 <= a < 8 && 0 <= b < 8 && 0 <= d < 8
  {
    ['\\', "01234567"[a], "01234567"[b], "01234567"[d]]
  }

  function Chars(t: seq<Byte>): (s: string)
    ensures |s| == |t| && forall k :: 0 <= k < |t| ==> s[k] == t[k] as char
  {
    seq(|t|, k requires 0 <= k < |t| => t[k] as char)
  }

  /** A byte becomes itself, or a backslash and its three octal digits, with the escape in front if there is one. */
  lemma PieceForm(c: Byte, escape: Byte)
    ensures Chars(PgBinary.Piece(c, escape)) ==
      if Unescaped(c) then [c as char]
      else (if escape == 0 then "" else [escape as char]) + OctalText(c / 64, c / 8 % 8, c % 8)
  {
    Numerals(c / 64, c / 8 % 8, c % 8);
  }

  lemma Numerals(a: int, b: int, d: int)
    requires 0 <= a < 8 && 0 <= b < 8 && 0 <= d < 8
    ensures OctalText(a, b, d) == ['\\', (48 + a) as char, (48 + b) as char, (48 + d) as char]
  {
  }

  /** Text to decode: behind a backslash stands another one, or three characters; nothing in it is a NUL. */
  lemma WellEscapedForm(t: seq<Byte>, c: Byte, x: Byte, y: Byte, z: Byte)
    requires x != 92
    ensures c != 92 ==> (WellEscaped([c] + t) <==> c != 0 && WellEscaped(t))
    ensures WellEscaped([92, 92] + t) <==> WellEscaped(t)
    ensures WellEscaped([92, x, y, z] + t) <==> 0 !in [x, y, z] && WellEscaped(t)
    ensures !WellEscaped([92]) && !WellEscaped([92, x]) && !WellEscaped([92, x, y])
  {
    var one, two, four := [c] + t, [92, 92] + t, [92, x, y, z] + t;
    assert one[1..] == t && two[2..] == t && four[4..] == t;
  }

  /** Three octal digits are read with their weights, and cut to a byte. */
  lemma OctalRead(a: int, b: int, d: int, x: Byte, y: Byte, z: Byte)
    requires 0 <= a < 8 && 0 <= b < 8 && 0 <= d < 8 && ['\\'] + Chars([x, y, z]) == OctalText(a, b, d)
    ensures FromOctal(x, y, z) == (64 * a + 8 * b + d) % 256
  {
    Numerals(a, b, d);
    assert (['\\'] + Chars([x, y, z]))[1] == x as char;
    assert (['\\'] + Chars([x, y, z]))[2] == y as char;
    assert (['\\'] + Chars([x, y, z]))[3] == z as char;
  }

  // ---------------------------------------------------------------- line ends

  /** Each line feed has a carriage return in front of it. */
  ghost predicate Led(before: Byte, s: seq<Byte>) {
    forall j :: 0 <= j < |s| ==> LedAt(before, s, j)
  }

  predicate LedAt(before: Byte, s: seq<Byte>, j: nat)
    requires j < |s|
  {
    s[j] as char == '\n' ==> (if j == 0 then before else s[j - 1]) as char == '\r'
  }

  /** The same bytes, but for carriage returns. */
  ghost predicate SameOthers(a: seq<Byte>, b: seq<Byte>) {
    forall c: Byte :: c as char != '\r' ==> multiset(a)[c] == multiset(b)[c]
  }

  lemma LedConcat(before: Byte, a: seq<Byte>, b: seq<Byte>)
    requires a != [] && Led(before, a) && Led(a[|a| - 1], b)
    ensures Led(before, a + b)
  {
    forall j | 0 <= j < |a + b| ensures LedAt(before, a + b, j) {
      if j < |a| {
        assert LedAt(before, a, j);
      } else {
        assert LedAt(a[|a| - 1], b, j - |a|);
      }
    }
  }

  lemma OthersConcat(a: seq<Byte>, b: seq<Byte>, x: seq<Byte>, y: seq<Byte>)
    requires SameOthers(a, x) && SameOthers(b, y)
    ensures SameOthers(a + b, x + y)
  {
    assert multiset(a + b) == multiset(a) + multiset(b) && multiset(x + y) == multiset(x) + multiset(y);
  }

  lemma ExpandedForm(si: seq<Byte>, i: nat)
    requires i < |si|
    ensures var e := Expanded(si, i, true);
      Led(GetData.Before(si, i), e) && e[|e| - 1] == si[i] && SameOthers(e, [si[i]])
    ensures Expanded(si, i, false) == [si[i]]
  {
  }

  /** Behind the conversion each line feed has a carriage return in front of it, and no other byte is more or less than
      before; without it nothing changes. */
  lemma {:induction false} LinefeedForm(si: seq<Byte>, i: nat)
    requires i <= |si|
    ensures var out := Linefeeds(si, i, true); Led(GetData.Before(si, i), out) && SameOthers(out, si[i..])
    ensures Linefeeds(si, i, false) == si[i..]
    decreases |si| - i
  {
    if i < |si| {
      LinefeedForm(si, i + 1);
      ExpandedForm(si, i);
      var e, rest := Expanded(si, i, true), Linefeeds(si, i + 1, true);
      assert Linefeeds(si, i, true) == e + rest && si[i..] == [si[i]] + si[i + 1..];
      hide Expanded, Linefeeds, Led, SameOthers;
      LedConcat(GetData.Before(si, i), e, rest);
      OthersConcat(e, rest, [si[i]], si[i + 1..]);
    }
  }
}

/** Positional notation: the arithmetic shared by the two base converters of the ODBC driver. */
module Positional {

  type Byte = x: int | 0 <= x < 256

  function Pow(b: nat, e: nat): (r: nat) {
    if e == 0 then 1 else b * Pow(b, e - 1)
  }

  /** Overwriting the first element behind a prefix. */
  lemma OverwriteNext<T>(done: seq<T>, rest: seq<T>, x: T)
    requires rest != []
    ensures (done + rest)[|done| := x] == (done + [x]) + rest[1..]
  {
  }

  /** The number whose digits, least significant first, are s. */
  function LittleEndian(s: seq<int>, base: nat): int {
    if s == [] then 0 else s[0] + base * LittleEndian(s[1..], base)
  }

  /** The number whose decimal digits, most significant first, are s. */
  function BigEndian(s: seq<int>): int {
    if s == [] then 0 else 10 * BigEndian(s[..|s| - 1]) + s[|s| - 1]
  }

  predicate IsDigits(s: seq<int>, base: nat) {
    forall k :: 0 <= k < |s| ==> 0 <= s[k] < base
  }

  /** v without its n low-order digits. */
  function Shift(v: nat, base: nat, n: nat): (r: nat)
    requires base > 1
  {
    if n == 0 then v else Shift(v, base, n - 1) / base
  }

  /** How many decimal digits v has; zero has none. */
  function DigitCount(v: nat): (r: nat) {
    if v == 0 then 0 else 1 + DigitCount(v / 10)
  }

  /** The n low-order base-256 digits of v, least significant first. */
  function Bytes(v: nat, n: nat): (r: seq<Byte>)
    ensures |r| == n
  {
    if n == 0 then [] else Bytes(v, n - 1) + [Shift(v, 256, n - 1) % 256]
  }

  /** The n low-order decimal digits of v, least significant first. */
  function Decimals(v: nat, n: nat): (r: seq<int>)
    ensures |r| == n && IsDigits(r, 10)
  {
    if n == 0 then [] else [v % 10] + Decimals(v / 10, n - 1)
  }

  function Reverse(s: seq<int>): (r: seq<int>)
    ensures |r| == |s| && forall k :: 0 <= k < |s| ==> r[k] == s[|s| - 1 - k]
  {
    if s == [] then [] else Reverse(s[1..]) + [s[0]]
  }

  lemma {:induction false} ReverseValue(s: seq<int>)
    ensures BigEndian(Reverse(s)) == LittleEndian(s, 10)
  {
    hide BigEndian;
    BigEndianEmpty();
    if s != [] {
      ReverseValue(s[1..]);
      BigEndianAppend(Reverse(s[1..]), s[0]);
    }
  }

  /** Digits are determined by the number they denote. */
  lemma {:induction false} DecimalsUnique(s: seq<int>)
    requires IsDigits(s, 10)
    ensures LittleEndian(s, 10) >= 0 && s == Decimals(LittleEndian(s, 10), |s|)
  {
    hide LittleEndian, Decimals;
    LittleEndianCons(s, 10);
    if s != [] {
      DecimalsUnique(s[1..]);
      var l := LittleEndian(s[1..], 10);
      DecimalsCons(s[0] + 10 * l, |s|);
      assert (s[0] + 10 * l) % 10 == s[0] && (s[0] + 10 * l) / 10 == l;
      assert s == [s[0]] + s[1..];
    } else {
      DecimalsCons(0, 0);
    }
  }

  lemma LittleEndianCons(s: seq<int>, base: nat)
    ensures LittleEndian(s, base) == if s == [] then 0 else s[0] + base * LittleEndian(s[1..], base)
  {
  }

  lemma DecimalsCons(v: nat, n: nat)
    ensures Decimals(v, n) == if n == 0 then [] else [v % 10] + Decimals(v / 10, n - 1)
  {
  }

  lemma {:induction false} DecimalsValue(v: nat, n: nat)
    requires v < Pow(10, n)
    ensures LittleEndian(Decimals(v, n), 10) == v
  {
    if n > 0 {
      DecimalsValue(v / 10, n - 1);
      assert Decimals(v, n)[1..] == Decimals(v / 10, n - 1);
    }
  }

  lemma {:induction false} DecimalsPrefix(v: nat, m: nat, n: nat)
    requires m <= n
    ensures Decimals(v, n)[..m] == Decimals(v, m)
  {
    if m > 0 { DecimalsPrefix(v / 10, m - 1, n - 1); }
  }

  lemma {:induction false} PowPositive(b: nat, e: nat)
    requires b > 0
    ensures Pow(b, e) > 0
  {
    if e > 0 { PowPositive(b, e - 1); }
  }

  lemma PowZero(b: nat)
    ensures Pow(b, 0) == 1
  {
  }

  lemma PowStep(b: nat, e: nat)
    ensures Pow(b, e + 1) == b * Pow(b, e)
  {
  }

  lemma {:induction false} PowAdd(b: nat, m: nat, n: nat)
    ensures Pow(b, m + n) == Pow(b, m) * Pow(b, n)
  {
    if m == 0 {
      assert Pow(b, m) == 1;
    } else {
      PowAdd(b, m - 1, n);
      calc {
        Pow(b, m + n);
        b * Pow(b, (m - 1) + n);
        b * (Pow(b, m - 1) * Pow(b, n));
        (b * Pow(b, m - 1)) * Pow(b, n);
      }
    }
  }

  lemma {:induction false} PowMonotone(b: nat, m: nat, n: nat)
    requires b > 0 && m <= n
    ensures Pow(b, m) <= Pow(b, n)
    decreases n - m
  {
    if m < n {
      PowMonotone(b, m + 1, n);
      PowPositive(b, m);
      assert Pow(b, m) <= b * Pow(b, m) by { MulGrows(b, Pow(b, m)); }
    }
  }

  lemma MulGrows(b: nat, x: nat)
    requires b > 0
    ensures x <= b * x
  {
    assert b * x == x + (b - 1) * x;
    assert (b - 1) * x >= 0;
  }

  lemma Factor(b: nat, x: int, y: int, z: nat)
    ensures b * (x + y * z) == b * x + y * (b * z)
  {
    assert b * (y * z) == y * (b * z);
  }

  lemma MulMonotone(c: nat, x: int, y: int)
    requires x <= y
    ensures c * x <= c * y
  {
    assert c * y - c * x == c * (y - x);
  }

  lemma {:induction false} LittleEndianAppend(s: seq<int>, x: int, base: nat)
    ensures LittleEndian(s + [x], base) == LittleEndian(s, base) + x * Pow(base, |s|)
  {
    if s == [] {
      assert s + [x] == [x];
      assert LittleEndian([x], base) == x + base * LittleEndian([], base);
    } else {
      assert (s + [x])[1..] == s[1..] + [x];
      LittleEndianAppend(s[1..], x, base);
      Factor(base, LittleEndian(s[1..], base), x, Pow(base, |s| - 1));
    }
  }

  lemma {:induction false} LittleEndianConcat(s: seq<int>, t: seq<int>, base: nat)
    ensures LittleEndian(s + t, base) == LittleEndian(s, base) + Pow(base, |s|) * LittleEndian(t, base)
  {
    hide *;
    LittleEndianCons(s, base);
    if s == [] {
      assert s + t == t;
      PowZero(base);
    } else {
      assert (s + t)[1..] == s[1..] + t && (s + t)[0] == s[0];
      LittleEndianCons(s + t, base);
      LittleEndianConcat(s[1..], t, base);
      PowStep(base, |s| - 1);
      Factor(base, LittleEndian(s[1..], base), LittleEndian(t, base), Pow(base, |s| - 1));
    }
  }

  lemma {:induction false} LittleEndianUpdate(s: seq<int>, i: nat, x: int, base: nat)
    requires i < |s|
    ensures LittleEndian(s[i := x], base) == LittleEndian(s, base) + (x - s[i]) * Pow(base, i)
  {
    var t := s[i := x];
    if i == 0 {
      assert t[1..] == s[1..];
    } else {
      assert t[1..] == s[1..][i - 1 := x];
      LittleEndianUpdate(s[1..], i - 1, x, base);
      Factor(base, LittleEndian(s[1..], base), x - s[i], Pow(base, i - 1));
    }
  }

  lemma {:induction false} LittleEndianNonNegative(s: seq<int>, base: nat)
    requires forall k :: 0 <= k < |s| ==> 0 <= s[k]
    ensures LittleEndian(s, base) >= 0
  {
    if s != [] {
      LittleEndianNonNegative(s[1..], base);
      assert base * LittleEndian(s[1..], base) >= 0;
    }
  }

  /** A digit at position k bounds the number from below. */
  lemma {:induction false} LittleEndianAtLeast(s: seq<int>, k: nat, base: nat)
    requires k < |s| && forall i :: 0 <= i < |s| ==> 0 <= s[i]
    ensures LittleEndian(s, base) >= s[k] * Pow(base, k)
  {
    if k == 0 {
      LittleEndianNonNegative(s[1..], base);
      assert base * LittleEndian(s[1..], base) >= 0;
    } else {
      LittleEndianAtLeast(s[1..], k - 1, base);
      var p := Pow(base, k - 1);
      MulMonotone(base, s[k] * p, LittleEndian(s[1..], base));
      assert base * (s[k] * p) == s[k] * (base * p);
    }
  }

  lemma AddDigit(base: nat, d: int, l: nat, p: nat)
    requires 0 <= d < base && l < p
    ensures 0 <= d + base * l < base * p
  {
    MulMonotone(base, l + 1, p);
    assert base * (l + 1) == base * l + base;
  }

  lemma {:induction false} LittleEndianBound(s: seq<int>, base: nat)
    requires base > 0 && IsDigits(s, base)
    ensures 0 <= LittleEndian(s, base) < Pow(base, |s|)
  {
    if s != [] {
      LittleEndianBound(s[1..], base);
      AddDigit(base, s[0], LittleEndian(s[1..], base), Pow(base, |s| - 1));
    }
  }

  lemma {:induction false} LittleEndianZeros(s: seq<int>, base: nat)
    requires forall k :: 0 <= k < |s| ==> s[k] == 0
    ensures LittleEndian(s, base) == 0
  {
    if s != [] { LittleEndianZeros(s[1..], base); }
  }

  lemma BigEndianEmpty()
    ensures BigEndian([]) == 0
  {
  }

  lemma BigEndianAppend(s: seq<int>, x: int)
    ensures BigEndian(s + [x]) == 10 * BigEndian(s) + x
  {
    assert (s + [x])[..|s|] == s;
  }

  lemma {:induction false} BigEndianZeros(s: seq<int>)
    requires forall k :: 0 <= k < |s| ==> s[k] == 0
    ensures BigEndian(s) == 0
  {
    if s != [] { BigEndianZeros(s[..|s| - 1]); }
  }

  lemma {:induction false} BigEndianBound(s: seq<int>)
    requires IsDigits(s, 10)
    ensures 0 <= BigEndian(s) < Pow(10, |s|)
  {
    if s != [] { BigEndianBound(s[..|s| - 1]); }
  }

  lemma {:induction false} BigEndianConcat(s: seq<int>, t: seq<int>)
    ensures BigEndian(s + t) == BigEndian(s) * Pow(10, |t|) + BigEndian(t)
  {
    if t == [] {
      assert s + t == s;
    } else {
      var n := |s + t| - 1;
      assert (s + t)[..n] == s + t[..|t| - 1];
      BigEndianConcat(s, t[..|t| - 1]);
      var p := Pow(10, |t| - 1);
      assert 10 * (BigEndian(s) * p) == BigEndian(s) * (10 * p);
    }
  }

  /** Without leading zeros the digit string is as long as its number. */
  lemma {:induction false} BigEndianDigitCount(s: seq<int>)
    requires IsDigits(s, 10) && (s != [] ==> s[0] != 0)
    ensures BigEndian(s) >= 0 && DigitCount(BigEndian(s)) == |s|
  {
    BigEndianBound(s);
    if s != [] {
      var t := s[..|s| - 1];
      BigEndianDigitCount(t);
      BigEndianBound(t);
      assert BigEndian(s) / 10 == BigEndian(t);
      if t == [] {
        assert BigEndian(s) == s[0];
      } else {
        assert DigitCount(BigEndian(t)) > 0;
      }
    }
  }

  /** Leading zeros do not count. */
  lemma {:induction false} LeadingZeros(s: seq<int>, sta: nat)
    requires IsDigits(s, 10) && sta <= |s|
    requires forall k :: 0 <= k < sta ==> s[k] == 0
    requires sta < |s| ==> s[sta] != 0
    ensures BigEndian(s) >= 0 && DigitCount(BigEndian(s)) == |s| - sta
    ensures BigEndian(s) == 0 <==> sta == |s|
  {
    assert s == s[..sta] + s[sta..];
    BigEndianConcat(s[..sta], s[sta..]);
    BigEndianZeros(s[..sta]);
    BigEndianDigitCount(s[sta..]);
  }

  lemma {:induction false} ShiftShrinks(v: nat, base: nat, m: nat, n: nat)
    requires base > 1 && m <= n
    ensures Shift(v, base, n) <= Shift(v, base, m)
  {
    if m < n {
      ShiftShrinks(v, base, m, n - 1);
      DivShrinks(Shift(v, base, n - 1), base);
    }
  }

  /** Once the rest fits in one byte, the remaining bytes are that one and zeros. */
  lemma {:induction false} BytesTail(v: nat, k: nat, n: nat)
    requires k < n && Shift(v, 256, k) < 256
    ensures Bytes(v, n) == Bytes(v, k) + [Shift(v, 256, k)] + seq(n - k - 1, _ => 0)
    ensures n > k + 1 ==> Shift(v, 256, n - 1) == 0
  {
    if n > k + 1 {
      BytesTail(v, k, n - 1);
      ShiftShrinks(v, 256, k + 1, n - 1);
    }
  }

  lemma {:induction false} DigitCountBounds(v: nat)
    ensures v < Pow(10, DigitCount(v))
    ensures v > 0 ==> DigitCount(v) > 0 && Pow(10, DigitCount(v) - 1) <= v
  {
    if v > 0 {
      DigitCountBounds(v / 10);
    }
  }

  lemma DigitCountUnique(v: nat, n: nat)
    requires v < Pow(10, n) && (n > 0 ==> Pow(10, n - 1) <= v)
    ensures DigitCount(v) == n
  {
    DigitCountBounds(v);
    var d := DigitCount(v);
    if n > d {
      PowMonotone(10, d, n - 1);
    } else if d > n {
      PowMonotone(10, n, d - 1);
    }
  }

  lemma {:induction false} ShiftAtLeast(v: nat, base: nat, n: nat, m: nat)
    requires base > 1
    ensures Shift(v, base, n) >= m <==> v >= m * Pow(base, n)
  {
    hide *;
    ShiftStep(v, base, n);
    if n > 0 {
      var w := Shift(v, base, n - 1);
      DivAtLeast(w, base, m);
      ProductNonNegative(m, base);
      ShiftAtLeast(v, base, n - 1, m * base);
      PowStep(base, n - 1);
      Associate(m, base, Pow(base, n - 1));
    } else {
      PowZero(base);
    }
  }

  lemma ShiftStep(v: nat, base: nat, n: nat)
    requires base > 1
    ensures n == 0 ==> Shift(v, base, n) == v
    ensures n > 0 ==> Shift(v, base, n) == Shift(v, base, n - 1) / base
  {
  }

  lemma ProductNonNegative(a: nat, b: nat)
    ensures a * b >= 0
  {
  }

  lemma Associate(a: int, b: int, c: int)
    ensures (a * b) * c == a * (b * c)
  {
  }

  lemma DivAtLeast(w: nat, base: nat, m: nat)
    requires base > 0
    ensures w / base >= m <==> w >= m * base
  {
    var q, r := w / base, w % base;
    assert w == base * q + r;
    if q >= m {
      MulMonotone(base, m, q);
    } else {
      MulMonotone(base, q + 1, m);
    }
  }

  lemma DivShrinks(w: nat, base: nat)
    requires base > 0
    ensures w / base <= w
  {
    MulGrows(base, w / base);
    assert w == base * (w / base) + w % base;
  }

  lemma SplitByte(p: nat, w: nat)
    ensures p * w == (w % 256) * p + (256 * p) * (w / 256)
  {
    var q, r := w / 256, w % 256;
    assert w == r + 256 * q;
    assert p * (r + 256 * q) == p * r + p * (256 * q);
  }

  /** Low digits and the shifted rest recombine. */
  lemma {:induction false} BytesValue(v: nat, n: nat)
    ensures v == LittleEndian(Bytes(v, n), 256) + Pow(256, n) * Shift(v, 256, n)
  {
    if n > 0 {
      BytesValue(v, n - 1);
      var w := Shift(v, 256, n - 1);
      LittleEndianAppend(Bytes(v, n - 1), w % 256, 256);
      SplitByte(Pow(256, n - 1), w);
    }
  }

  lemma {:induction false} BytesAreDigits(v: nat, n: nat)
    ensures IsDigits(Bytes(v, n), 256)
  {
    if n > 0 { BytesAreDigits(v, n - 1); }
  }
}

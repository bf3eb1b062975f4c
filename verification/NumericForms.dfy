/** The decimal texts that are read and printed, written out character by character. */
module NumericForms {
  import opened Positional
  import opened NumericRead
  import opened NumericPrint
  import opened NumericRoundTrip

  predicate DecimalDigits(ds: seq<int>) {
    forall k :: 0 <= k < |ds| ==> 0 <= ds[k] <= 9
  }

  function Digits(ds: seq<int>): (s: string)
    requires DecimalDigits(ds)
    ensures |s| == |ds| && forall k :: 0 <= k < |ds| ==> s[k] == "0123456789"[ds[k]]
  {
    seq(|ds|, k requires 0 <= k < |ds| => "0123456789"[ds[k]])
  }

  lemma DigitsAre(ds: seq<int>)
    requires DecimalDigits(ds)
    ensures IsDigits(ds, 10) && Digits(ds) == DigitText(ds)
  {
    forall k | 0 <= k < |ds| ensures "0123456789"[ds[k]] == (ds[k] + '0' as int) as char {
      Numeral(ds[k]);
    }
  }

  lemma Numeral(d: int)
    requires 0 <= d <= 9
    ensures "0123456789"[d] == (d + '0' as int) as char
  {
  }

  // ---------------------------------------------------------------- reading

  /** The six characters in front of a number that are skipped. */
  predicate White(c: char) {
    c as int in {9, 10, 11, 12, 13, 32}
  }

  /** Blanks, a sign, digits and perhaps a dot with digits behind it. */
  function Written(blanks: string, sign: string, whole: seq<int>, dot: bool, part: seq<int>): string
    requires DecimalDigits(whole) && DecimalDigits(part)
  {
    blanks + (sign + (Digits(whole) + (if dot then "." + Digits(part) else "")))
  }

  /** What may stand behind a number: anything that does not go on with it. */
  predicate Ends(rest: string, dot: bool) {
    rest == "" || !('0' <= rest[0] <= '9' || (rest[0] == '.' && !dot))
  }

  lemma {:induction false} BlanksSkipped(blanks: string, t: string)
    requires (forall k :: 0 <= k < |blanks| ==> White(blanks[k])) && t != "" && !White(t[0])
    ensures AfterSpaces(blanks + t) == t
  {
    if blanks != "" {
      assert (blanks + t)[1..] == blanks[1..] + t;
      BlanksSkipped(blanks[1..], t);
    } else {
      assert blanks + t == t;
    }
  }

  lemma {:induction false} ZerosSkipped(zeros: nat, w: string)
    requires w == "" || w[0] != '0'
    ensures AfterZeros(seq(zeros, _ => '0') + w) == w
  {
    var t := seq(zeros, _ => '0') + w;
    if zeros > 0 {
      assert t[1..] == seq(zeros - 1, _ => '0') + w;
      ZerosSkipped(zeros - 1, w);
    } else {
      assert t == w;
    }
  }

  lemma DigitsRead(lead: seq<int>, dot: bool, part: seq<int>, rest: string)
    requires DecimalDigits(lead) && DecimalDigits(part) && (dot || part == []) && Ends(rest, dot)
    ensures ReadDigits(Digits(lead) + ((if dot then "." + Digits(part) else "") + rest), false) == (lead + part, |part|)
  {
    DigitsAre(lead);
    DigitsAre(part);
    assert ReadDigits(rest, dot) == ([], 0);
    hide Digits, DigitText;
    var behind := (if dot then "." + Digits(part) else "") + rest;
    ReadDigitText(lead, behind, false);
    if dot {
      assert behind[1..] == Digits(part) + rest;
      ReadDigitText(part, rest, true);
      assert part + [] == part;
    } else {
      assert behind == rest && lead + [] == lead + part;
    }
  }

  lemma Front(sign: string, u: string)
    requires sign in {"", "+", "-"} && u != "" && ('0' <= u[0] <= '9' || u[0] == '.')
    ensures var t := sign + u;
      && t != "" && !White(t[0]) && AfterSign(t) == u && (SaysNegative(t) <==> sign == "-")
  {
    var t := sign + u;
    assert sign != "" ==> t[1..] == u;
    assert sign == "" ==> t == u;
  }

  lemma WrittenParts(blanks: string, sign: string, zeros: nat, lead: seq<int>, dot: bool, part: seq<int>, rest: string)
    requires DecimalDigits(lead) && DecimalDigits(part)
    ensures DecimalDigits(Zeroes(zeros) + lead)
    ensures Written(blanks, sign, Zeroes(zeros) + lead, dot, part) + rest ==
      blanks + (sign + (seq(zeros, _ => '0') + (Digits(lead) + ((if dot then "." + Digits(part) else "") + rest))))
  {
    assert Digits(Zeroes(zeros) + lead) == seq(zeros, _ => '0') + Digits(lead);
    hide Digits;
    var z, l, d := seq(zeros, _ => '0'), Digits(lead), if dot then "." + Digits(part) else "";
    assert ((z + l) + d) + rest == z + (l + (d + rest));
    assert (sign + ((z + l) + d)) + rest == sign + (((z + l) + d) + rest);
    assert (blanks + (sign + ((z + l) + d))) + rest == blanks + ((sign + ((z + l) + d)) + rest);
  }

  function Zeroes(n: nat): (s: seq<int>)
    ensures |s| == n && forall k :: 0 <= k < n ==> s[k] == 0
  {
    seq(n, _ => 0)
  }

  lemma FrontDigit(zeros: nat, lead: seq<int>, behind: string)
    requires DecimalDigits(lead) && (zeros > 0 || lead != [] || (behind != "" && behind[0] == '.'))
    ensures var u := seq(zeros, _ => '0') + (Digits(lead) + behind);
      u != "" && ('0' <= u[0] <= '9' || u[0] == '.')
  {
    if zeros == 0 && lead != [] {
      DigitsAre(lead);
    }
  }

  lemma LeadDigit(lead: seq<int>, behind: string)
    requires DecimalDigits(lead) && (lead != [] ==> lead[0] != 0) && (behind == "" || behind[0] != '0')
    ensures var w := Digits(lead) + behind; w == "" || w[0] != '0'
  {
    if lead != [] {
      DigitsAre(lead);
    }
  }

  /** Any number written with blanks, a sign, leading zeros, digits and a dot is read with that sign, with the digits
      behind the leading zeros, and with as many of them behind the dot as stand there. */
  lemma ReadsWritten(blanks: string, sign: string, zeros: nat, lead: seq<int>, dot: bool, part: seq<int>, rest: string)
    requires (forall k :: 0 <= k < |blanks| ==> White(blanks[k])) && sign in {"", "+", "-"}
    requires DecimalDigits(lead) && (lead != [] ==> lead[0] != 0) && DecimalDigits(part)
    requires (dot || part == []) && (zeros > 0 || lead != [] || dot) && Ends(rest, dot)
    ensures DecimalDigits(Zeroes(zeros) + lead)
    ensures var text := Written(blanks, sign, Zeroes(zeros) + lead, dot, part) + rest;
      ReadDecimal(text) == Decimal(sign == "-", lead + part, |part|)
  {
    WrittenParts(blanks, sign, zeros, lead, dot, part, rest);
    var behind := (if dot then "." + Digits(part) else "") + rest;
    FrontDigit(zeros, lead, behind);
    LeadDigit(lead, behind);
    hide Digits, ReadDigits, AfterSpaces, AfterSign, AfterZeros, SaysNegative, White;
    var u := seq(zeros, _ => '0') + (Digits(lead) + behind);
    Front(sign, u);
    BlanksSkipped(blanks, sign + u);
    ZerosSkipped(zeros, Digits(lead) + behind);
    DigitsRead(lead, dot, part, rest);
  }

  /** What such a text is worth, and the struct it fills. */
  lemma StructOfWritten(blanks: string, sign: string, zeros: nat, lead: seq<int>, dot: bool, part: seq<int>,
                        rest: string)
    requires (forall k :: 0 <= k < |blanks| ==> White(blanks[k])) && sign in {"", "+", "-"}
    requires DecimalDigits(lead) && (lead != [] ==> lead[0] != 0) && DecimalDigits(part)
    requires (dot || part == []) && (zeros > 0 || lead != [] || dot) && Ends(rest, dot)
    ensures DecimalDigits(Zeroes(zeros) + lead)
    ensures var text, v := Written(blanks, sign, Zeroes(zeros) + lead, dot, part) + rest, BigEndian(lead + part);
      && v >= 0
      && Worth(text) * (Pow(10, |part|) as real) == (if sign == "-" then -1.0 else 1.0) * (v as real)
      && Encode(text).sign == (if sign == "-" then 0 else 1) && Encode(text).precision == |lead| + |part|
      && |Encode(text).val| == 16
      && (v < 0x80_0000_0000_0000_0000_0000_0000_0000 ==>
          Encode(text).scale == |part| && LittleEndian(Encode(text).val, 256) == v)
  {
    hide *;
    ReadsWritten(blanks, sign, zeros, lead, dot, part, rest);
    var text, v := Written(blanks, sign, Zeroes(zeros) + lead, dot, part) + rest, BigEndian(lead + part);
    EncodeIs(text);
    ReadDecimalWorth(text);
    EncodeValue(text);
    DigitsValue(lead, part);
    TwoTo119();
    WorthTimes(sign == "-", v, |part|);
    NumericLength();
  }

  lemma DigitsValue(lead: seq<int>, part: seq<int>)
    requires DecimalDigits(lead) && DecimalDigits(part)
    ensures BigEndian(lead + part) >= 0
  {
    BigEndianBound(lead + part);
  }

  lemma NumericLength()
    ensures NUMERIC_LEN == 16 && KEPT == 15
  {
  }

  lemma WorthTimes(negative: bool, v: nat, f: nat)
    ensures Rational(negative, v, f) * (Pow(10, f) as real) == (if negative then -1.0 else 1.0) * (v as real)
  {
    PowPositive(10, f);
    var p := Pow(10, f) as real;
    var q := (v as real) / p;
    assert q * p == v as real;
    assert -1.0 * q * p == -1.0 * (q * p);
  }

  lemma TwoTo119()
    ensures TWO_119 == 0x80_0000_0000_0000_0000_0000_0000_0000
    ensures TWO_120 == 2 * TWO_119
  {
    assert Pow(256, 7) == 0x100_0000_0000_0000;
    PowAdd(256, 7, 7);
  }

  /** Such a text comes back as the same number exactly if it has at most 48 digits behind its leading zeros; if its
      scale is below forty where it has ten digits or more, or, from 2^119 up to 2^120, is nothing;
        and if it is not a negative
      number of fewer than ten digits without any in front of the dot. */
  lemma SurvivesWritten(blanks: string, sign: string, zeros: nat, lead: seq<int>, dot: bool, part: seq<int>,
                        rest: string)
    requires (forall k :: 0 <= k < |blanks| ==> White(blanks[k])) && sign in {"", "+", "-"}
    requires DecimalDigits(lead) && (lead != [] ==> lead[0] != 0) && DecimalDigits(part)
    requires (dot || part == []) && (zeros > 0 || lead != [] || dot) && Ends(rest, dot)
    ensures DecimalDigits(Zeroes(zeros) + lead)
    ensures var text, v := Written(blanks, sign, Zeroes(zeros) + lead, dot, part) + rest, BigEndian(lead + part);
      var count := |lead| + |part|;
      Survives(text) <==>
        && count <= 48
        && (if v < 0x80_0000_0000_0000_0000_0000_0000_0000 then count < 10 || |part| < 40
            else v < 0x100_0000_0000_0000_0000_0000_0000_0000 && part == [])
        && !(sign == "-" && count < 10 && 0 < v < Pow(10, |part|))
  {
    ReadsWritten(blanks, sign, zeros, lead, dot, part, rest);
    TwoTo119();
    hide ReadDecimal, Written, Digits, Pow, BigEndian;
  }

  // ---------------------------------------------------------------- printing

  lemma FirstOf(ds: seq<int>)
    requires IsDigits(ds, 10) && ds != []
    ensures BigEndian(ds) == ds[0] * Pow(10, |ds| - 1) + BigEndian(ds[1..])
    ensures BigEndian(ds[1..]) < Pow(10, |ds| - 1)
  {
    hide BigEndian, Pow;
    var d, tail := ds[0], ds[1..];
    assert ds == [d] + tail && |tail| == |ds| - 1;
    forall k | 0 <= k < |tail| ensures 0 <= tail[k] < 10 {
      assert tail[k] == ds[k + 1];
    }
    BigEndianConcat([d], tail);
    BigEndianBound(tail);
    OneDigit(d);
  }

  lemma OneDigit(d: int)
    ensures BigEndian([d]) == d
  {
    BigEndianAppend([], d);
    BigEndianEmpty();
    assert [] + [d] == [d];
  }

  /** The first digit of as many as a number needs is not zero. */
  lemma TopDigit(v: nat, width: nat)
    requires v > 0 && width == DigitCount(v)
    ensures width > 0 && Padded(v, width)[0] != 0
  {
    DigitCountBounds(v);
    hide BigEndian, Pow, Padded, DigitCount;
    PaddedValue(v, width);
    FirstOf(Padded(v, width));
  }

  /** A number in front of the dot: no leading zero, unless it is the only digit. */
  predicate Plain(whole: seq<int>) {
    DecimalDigits(whole) && whole != [] && (|whole| > 1 ==> whole[0] != 0)
  }

  lemma NatDigitsPlain(n: nat)
    ensures Plain(NatDigits(n, 1)) && BigEndian(NatDigits(n, 1)) == n
  {
    NatDigitsValue(n, 1);
    if n > 0 {
      TopDigit(n, DigitCount(n));
    }
  }

  lemma IsDecimal(ds: seq<int>)
    requires IsDigits(ds, 10)
    ensures DecimalDigits(ds) && Digits(ds) == DigitText(ds)
  {
    assert DecimalDigits(ds);
    DigitsAre(ds);
  }

  lemma LeadingDigit(v: nat, scale: nat, width: nat, whole: seq<int>, part: seq<int>)
    requires width == Max(DigitCount(v), scale + 1) && Padded(v, width) == whole + part && |part| == scale
    ensures |whole| > 1 ==> whole[0] != 0
  {
    if |whole| > 1 {
      assert width == |whole + part| && width == DigitCount(v);
      DigitCountBounds(v);
      TopDigit(v, width);
      assert whole[0] == (whole + part)[0];
    }
  }

  /** From ten digits of precision on: the sign, the digits in front of the dot without leading zeros, a dot if the
      scale is not zero, and as many digits behind it as the scale says; a zero has one more digit. */
  lemma LargeTextForm(negative: bool, v: nat, scale: nat) returns (whole: seq<int>, part: seq<int>)
    ensures Plain(whole) && DecimalDigits(part) && |part| == scale && BigEndian(whole + part) == v
    ensures LargeText(negative, v, scale) ==
      (if negative then "-" else "")
      + (Digits(whole) + (if scale > 0 then "." + Digits(part) else "") + (if v == 0 then "0" else ""))
  {
    hide DigitCount, Padded, DigitText, Digits, FixedBody, BigEndian, Max, DecimalDigits;
    var width;
    width, whole, part := FixedBodyShape(v, scale);
    FitsWidth(v, width);
    PaddedValue(v, width);
    IsDecimal(whole);
    IsDecimal(part);
    LeadingDigit(v, scale, width, whole, part);
  }

  lemma Divided(v: nat, scale: nat, div: nat)
    requires div == Pow(10, scale)
    ensures div > 0 && v / div <= v && v == (v / div) * div + v % div && v % div < div
    ensures scale == 0 ==> v / div == v && v % div == 0
  {
    PowPositive(10, scale);
    PowZero(10);
    DivShrinks(v, div);
  }

  lemma FractionValue(v: nat, scale: nat, div: nat, whole: seq<int>, part: seq<int>)
    requires div == Pow(10, scale) > 0 && |part| == scale
    requires BigEndian(whole) == v / div && BigEndian(part) == v % div
    ensures BigEndian(whole + part) == v
  {
    BigEndianConcat(whole, part);
    assert v == (v / div) * div + v % div;
  }

  /** Below ten digits of precision: the same, without the sign where there is nothing but zeros in front of the dot. */
  lemma SmallTextForm(negative: bool, v: nat, scale: nat) returns (whole: seq<int>, part: seq<int>)
    requires v < 0x8000_0000
    ensures Plain(whole) && DecimalDigits(part) && |part| == scale && BigEndian(whole + part) == v
    ensures SmallText(negative, v, scale) ==
      (if negative && whole != [0] then "-" else "")
      + (Digits(whole) + (if scale > 0 then "." + Digits(part) else ""))
  {
    hide *;
    var div := Pow(10, scale);
    Divided(v, scale, div);
    SmallTextShape(negative, v, scale, div);
    var q := v / div;
    NatDigitsPlain(q);
    OnlyZero(q);
    whole := NatDigits(q, 1);
    IsDecimal(whole);
    if scale == 0 {
      part := [];
      NothingBehind(whole);
    } else {
      NatDigitsValue(v % div, scale);
      part := NatDigits(v % div, scale);
      IsDecimal(part);
    }
    FractionValue(v, scale, div, whole, part);
    PlainParts(whole, part);
    assert Digits(whole) + "" == Digits(whole);
  }

  lemma Truncated(ival: int, w: nat, div: nat)
    requires ival == 0 - w < 0 && div > 0
    ensures Quotient(ival, div) == 0 - w / div && Remainder(ival, div) == 0 - w % div
  {
  }

  lemma Shown(n: int, q: nat, width: nat)
    ensures n == q ==> IntText(n, width) == DigitText(NatDigits(q, width))
    ensures n == 0 - q ==> IntText(n, width) == (if q == 0 then "" else "-") + DigitText(NatDigits(q, width))
  {
    hide NatDigits, DigitText;
    assert "" + DigitText(NatDigits(q, width)) == DigitText(NatDigits(q, width));
  }

  lemma Unwrapped(q: nat)
    requires q <= 0x8000_0000
    ensures Wrap32(q) == if q < 0x8000_0000 then q else 0 - q
  {
  }

  lemma Behind(a: string, b: string, c: string)
    ensures a + b + "" == a + b && "" + b == b && a + b + "." + c == a + b + ("." + c)
  {
    assert a + b + "." + c == a + b + ("." + c);
  }

  lemma WrappedShape(negative: bool, ival: int, w: nat, scale: nat, div: nat)
    requires 0 < w <= 0x8000_0000 && ival == 0 - w && Pow(10, scale) == div > 0 && (scale == 0 ==> div == 1)
    requires scale > 0 ==> w / div < 0x8000_0000
    ensures var (q, r) := (w / div, w % div);
      SmallText(negative, ival, scale) ==
      (if q == 0 || (negative && q < 0x8000_0000) then "" else "-") + DigitText(NatDigits(q, 1))
      + (if scale == 0 then "" else "." + ((if r == 0 then "" else "-") + DigitText(NatDigits(r, scale))))
  {
    hide Pow, IntText, NatDigits, DigitText, Quotient, Remainder, Wrap32;
    var (q, r) := (w / div, w % div);
    Truncated(ival, w, div);
    Unwrapped(q);
    Shown(if negative then Wrap32(q) else 0 - q, q, 1);
    Shown(0 - r, r, scale);
    var part := (if r == 0 then "" else "-") + DigitText(NatDigits(r, scale));
    Behind("", DigitText(NatDigits(q, 1)), part);
    Behind("-", DigitText(NatDigits(q, 1)), part);
  }

  lemma TenAtLeast(scale: nat)
    requires scale > 0
    ensures Pow(10, scale) >= 10
  {
    PowPositive(10, scale - 1);
  }

  /** Four bytes from 0x80000000 up are a negative number to the driver, w below zero: a minus then stands in front of
      the digits behind the dot, unless they are all zeros, and in front of the dot where the struct says plus. */
  lemma WrappedTextForm(negative: bool, ival: int, w: nat, scale: nat) returns (whole: seq<int>, part: seq<int>)
    requires 0 < w <= 0x8000_0000 && ival == 0 - w
    ensures Plain(whole) && DecimalDigits(part) && |part| == scale && BigEndian(whole + part) == w
    ensures SmallText(negative, ival, scale) ==
      (if whole == [0] || (negative && (w < 0x8000_0000 || scale > 0)) then "" else "-") + Digits(whole)
      + (if scale == 0 then "" else "." + ((if BigEndian(part) == 0 then "" else "-") + Digits(part)))
  {
    hide *;
    var div := Pow(10, scale);
    Divided(w, scale, div);
    PowZero(10);
    if scale > 0 {
      TenAtLeast(scale);
      ShrinksBelow(w, div);
    }
    WrappedShape(negative, ival, w, scale, div);
    NatDigitsPlain(w / div);
    OnlyZero(w / div);
    whole := NatDigits(w / div, 1);
    IsDecimal(whole);
    if scale == 0 {
      part := [];
      NothingBehind(whole);
    } else {
      NatDigitsValue(w % div, scale);
      part := NatDigits(w % div, scale);
      IsDecimal(part);
    }
    FractionValue(w, scale, div, whole, part);
    PlainParts(whole, part);
  }

  lemma ShrinksBelow(w: nat, div: nat)
    requires w <= 0x8000_0000 && div >= 10
    ensures w / div < 0x8000_0000
  {
  }

  lemma NothingBehind(whole: seq<int>)
    ensures BigEndian([]) == 0 && DecimalDigits([])
  {
  }

  lemma PlainParts(whole: seq<int>, part: seq<int>)
    requires Plain(whole) && DecimalDigits(part)
    ensures DecimalDigits(whole)
  {
  }

  lemma OnlyZero(n: nat)
    ensures NatDigits(n, 1) == [0] <==> n == 0
  {
    NatDigitsPlain(n);
    if NatDigits(n, 1) == [0] {
      assert BigEndian([0]) == 0;
    }
    if n == 0 {
      assert DigitCount(0) == 0;
      assert |NatDigits(0, 1)| == 1;
      var d := NatDigits(0, 1)[0];
      assert NatDigits(0, 1) == [d] && BigEndian([d]) == d;
    }
  }

  // ---------------------------------------------------------------- the precision table

  lemma LowBytePowers()
    ensures Pow(256, 0) == 1 && Pow(256, 1) == 0x100 && Pow(256, 2) == 0x1_0000 && Pow(256, 3) == 0x100_0000
    ensures Pow(256, 4) == 0x1_0000_0000 && Pow(256, 5) == 0x100_0000_0000 && Pow(256, 6) == 0x1_0000_0000_0000
    ensures Pow(256, 7) == 0x100_0000_0000_0000 && Pow(256, 8) == 0x1_0000_0000_0000_0000
  {
  }

  lemma LowTenPowers()
    ensures Pow(10, 0) == 1 && Pow(10, 1) == 10 && Pow(10, 2) == 100 && Pow(10, 3) == 1000 && Pow(10, 5) == 100000
    ensures Pow(10, 7) == 10000000 && Pow(10, 8) == 100000000 && Pow(10, 9) == 1000000000
    ensures Pow(10, 10) == 10000000000
  {
  }

  lemma HighTenPowers()
    ensures Pow(10, 12) == 1000000000000 && Pow(10, 13) == 10000000000000 && Pow(10, 15) == 1000000000000000
    ensures Pow(10, 17) == 100000000000000000 && Pow(10, 19) == 10000000000000000000
    ensures Pow(10, 14) == 100000000000000 && Pow(10, 20) == 100000000000000000000
  {
    LowTenPowers();
    hide Pow;
    PowAdd(10, 10, 2);
    PowAdd(10, 10, 3);
    PowAdd(10, 7, 7);
    PowAdd(10, 10, 5);
    PowAdd(10, 10, 7);
    PowAdd(10, 10, 9);
    PowAdd(10, 10, 10);
  }

  lemma TableBelow(k: nat)
    requires k <= 8
    ensures Pow(256, k) < Pow(10, Prec(k))
  {
    LowBytePowers();
    LowTenPowers();
    HighTenPowers();
    hide Pow;
  }

  lemma TableAbove(k: nat)
    requires 8 < k <= 16
    ensures Pow(256, k) < Pow(10, Prec(k))
  {
    LowBytePowers();
    LowTenPowers();
    HighTenPowers();
    hide Pow;
    PowAdd(256, 8, k - 8);
    PowAdd(10, 20, Prec(k) - 20);
  }

  /** The k-th entry of the table is the number of decimal digits of 256^k: any other would look at too few bytes, or at
      more than are needed. */
  lemma PrecExact(k: nat)
    requires k <= 16
    ensures Pow(10, Prec(k) - 1) <= Pow(256, k) < Pow(10, Prec(k))
  {
    hide Pow, Prec;
    PrecTable(k);
    if k <= 8 {
      TableBelow(k);
    } else {
      TableAbove(k);
    }
  }
}

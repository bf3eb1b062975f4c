/** Decimal text, SQL_NUMERIC_STRUCT and back: when the number survives. */
module NumericRoundTrip {
  import opened Positional
  import opened NumericRead
  import opened NumericPrint
  import opened NumericResolve

  lemma Combine(a: nat, k: nat, b: nat, m: nat)
    requires Pow(10, a) <= Pow(256, k) && Pow(10, b) <= Pow(256, m)
    ensures Pow(10, a + b) <= Pow(256, k + m)
  {
    hide *;
    PowAdd(10, a, b);
    PowAdd(256, k, m);
    MulMonotone(Pow(10, a), Pow(10, b), Pow(256, m));
    MulMonotone(Pow(256, m), Pow(10, a), Pow(256, k));
  }

  lemma PrecBase()
    ensures Pow(10, 0) <= Pow(256, 0) && Pow(10, 2) <= Pow(256, 1)
    ensures Pow(10, 7) <= Pow(256, 3) && Pow(10, 12) <= Pow(256, 5)
  {
  }

  /** Each entry of the precision table is the last point at which k bytes still hold every number:
      the other rows follow from four of them. */
  lemma {:induction false} PrecTable(k: nat)
    requires k <= NUMERIC_LEN
    ensures Pow(10, Prec(k) - 1) <= Pow(256, k)
  {
    hide Pow;
    if k in {0, 1, 3, 5} {
      PrecBase();
    } else {
      var i := if k in {2, 4, 6, 9} then 1 else if k == 7 then 2 else if k in {8, 11} then 3
               else if k in {10, 13, 15} then 5 else if k in {12, 14} then 6 else 8;
      PrecSum(k, i);
      PrecTable(i);
      PrecTable(k - i);
      Combine(Prec(i) - 1, i, Prec(k - i) - 1, k - i);
    }
  }

  lemma PrecSum(k: nat, i: nat)
    requires k <= NUMERIC_LEN && k !in {0, 1, 3, 5}
    requires i == if k in {2, 4, 6, 9} then 1 else if k == 7 then 2 else if k in {8, 11} then 3
                  else if k in {10, 13, 15} then 5 else if k in {12, 14} then 6 else 8
    ensures 0 < i < k && Prec(i) + Prec(k - i) == Prec(k) + 1
  {
  }

  /** The table always selects enough bytes: 256^bytes >= 10^precision. */
  lemma EnoughBytes(precision: nat, limit: nat)
    requires limit <= NUMERIC_LEN && precision < Prec(limit)
    ensures Pow(10, precision) <= Pow(256, BytesFrom(0, limit, precision))
  {
    var r := BytesFrom(0, limit, precision);
    hide Pow;
    PrecTable(r);
    PowMonotone(10, precision, Prec(r) - 1);
  }

  /** A number that fits in the first r bytes is what those bytes say. */
  lemma LowBytes(val: seq<Byte>, r: nat, v: nat)
    requires r <= |val| && LittleEndian(val, 256) == v < Pow(256, r)
    ensures LittleEndian(val[..r], 256) == v
  {
    var lo, hi := val[..r], val[r..];
    hide *;
    assert val == lo + hi;
    LittleEndianConcat(lo, hi, 256);
    LittleEndianNonNegative(lo, 256);
    LittleEndianNonNegative(hi, 256);
    var p, h := Pow(256, r), LittleEndian(hi, 256);
    if h > 0 {
      MulMonotone(p, 1, h);
      assert false;
    }
    assert p * 0 == 0;
  }

  lemma DigitsBoundInteger(text: string)
    ensures DigitInteger(text) < Pow(10, |ReadDecimal(text).digits|)
  {
    BigEndianBound(ReadDecimal(text).digits);
  }

  lemma Bounds()
    ensures Pow(10, 9) < 0x8000_0000 && Pow(10, 10) < TWO_119 <= TWO_120 <= Pow(256, NUMERIC_LEN)
  {
    assert Pow(256, 14) >= 0x1_0000_0000_0000;
    assert TWO_120 == 256 * Pow(256, 14);
  }

  /** Every number the table allows for fits in the bytes it selects. */
  lemma FitsSelection(v: nat, precision: nat, limit: nat)
    requires v < TWO_120 && v < Pow(10, precision)
    requires limit == if precision < 10 then 4 else NUMERIC_LEN
    ensures v < Pow(256, BytesFrom(0, limit, precision))
  {
    var r := BytesFrom(0, limit, precision);
    hide Pow, TWO_119, TWO_120;
    if precision < Prec(limit) {
      EnoughBytes(precision, limit);
    } else {
      Bounds();
    }
  }

  lemma SelectedIsWhole(text: string)
    requires DigitInteger(text) < TWO_120
    ensures Selected(Encode(text), if Encode(text).precision < 10 then 4 else NUMERIC_LEN) == DigitInteger(text)
  {
    var n, v := Encode(text), DigitInteger(text);
    var limit := if n.precision < 10 then 4 else NUMERIC_LEN;
    assert n.precision == |ReadDecimal(text).digits|;
    hide Pow, LittleEndian, Encode, DigitInteger, ReadDecimal, BytesFrom, TWO_119, TWO_120;
    EncodeValue(text);
    DigitsBoundInteger(text);
    FitsSelection(v, n.precision, limit);
    LowBytes(n.val, BytesFrom(0, limit, n.precision), v);
  }

  lemma RationalDiffers(negative: bool, v: nat, scale: nat)
    ensures v > 0 ==> Rational(negative, v, scale) != Rational(!negative, v, scale)
    ensures v > 0 && scale > 0 ==> Rational(negative, v, scale) != Rational(negative, v, 0)
  {
    PowPositive(10, scale);
    if v > 0 {
      var p: real := Pow(10, scale) as real;
      var q := (v as real) / p;
      assert q > 0.0;
      if scale > 0 {
        PowPositive(10, scale - 1);
        assert p >= 10.0;
        assert q * p == v as real;
        assert Pow(10, 0) as real == 1.0;
        assert (v as real) / 1.0 == v as real;
        assert q * p > q * 1.0;
      }
    }
  }

  lemma ZeroText()
    ensures Worth("0") == 0.0
  {
    assert BigEndian([0]) == 0;
    assert ReadDigits("0", false) == ([0], 0) by { ReadWhole([0]); assert DigitText([0]) == "0"; }
    RationalZero(false, 0, 0);
  }

  /** Text to struct and back to text, as the two functions do it one after the other. */
  function ThereAndBack(text: string): Outcome {
    if |ReadDecimal(text).digits| > DIGIT_BUFFER then ReadOverrun else Resolve(Encode(text))
  }

  /** What a caller can check of a text: it fits the reading buffer; its scale fits the forty cells, or from 2^119 on,
      where it is overwritten, is zero; and the sign is not that of a number with fewer than ten digits, none of them
      in front of the dot. */
  predicate Survives(text: string) {
    var d, v := ReadDecimal(text), DigitInteger(text);
    && |d.digits| <= DIGIT_BUFFER
    && (if v < TWO_119 then |d.digits| < 10 || d.scale < CALV else v < TWO_120 && d.scale == 0)
    && !(d.negative && |d.digits| < 10 && 0 < v < Pow(10, d.scale))
  }

  /** Every text either survives, printed as the same number, or is on one of the branches that fail. */
  lemma NumericRoundTrip(text: string)
    ensures var r := ThereAndBack(text);
      (r.Printed? && Worth(r.chrform) == Worth(text)) <==> Survives(text)
    ensures ThereAndBack(text) == ReadOverrun <==> |ReadDecimal(text).digits| > DIGIT_BUFFER
  {
    if |ReadDecimal(text).digits| <= DIGIT_BUFFER {
      var v := DigitInteger(text);
      if v >= TWO_120 {
        NegativeScale(text);
      } else {
        InPrecision(text);
        RoundTripBelow(text);
      }
    }
  }

  /** From 2^120 on the scale is negative, and printing reads in front of the cells. */
  lemma NegativeScale(text: string)
    requires DigitInteger(text) >= TWO_120
    ensures !Printable(Encode(text)) && !Survives(text)
  {
    var v := DigitInteger(text);
    ShiftAtLeast(v, 256, KEPT, 1);
    Bounds();
    DigitsBoundInteger(text);
    if |ReadDecimal(text).digits| <= 10 {
      PowMonotone(10, |ReadDecimal(text).digits|, 10);
    }
    hide Shift, Pow;
  }

  /** Below 2^120 the scale is that of the text or zero, and with few digits it is small. */
  lemma InPrecision(text: string)
    requires DigitInteger(text) < TWO_120
    ensures var n, d := Encode(text), ReadDecimal(text);
      && |n.val| == NUMERIC_LEN && n.precision == |d.digits|
          && n.scale == (if DigitInteger(text) < TWO_119 then d.scale else 0)
      && (Printable(n) <==> |d.digits| < 10 || n.scale < CALV)
  {
    ShiftAtLeast(DigitInteger(text), 256, KEPT, 1);
    hide Shift, Pow;
  }

  lemma RoundTripBelow(text: string)
    requires DigitInteger(text) < TWO_120
    ensures Encode(text).scale >= 0
    ensures var d, v := ReadDecimal(text), DigitInteger(text);
      Printable(Encode(text)) ==>
        (Worth(Resolve(Encode(text)).chrform) == Worth(text) <==>
          (v < TWO_119 || d.scale == 0) && !(d.negative && |d.digits| < 10 && 0 < v < Pow(10, d.scale)))
  {
    var n, d, v := Encode(text), ReadDecimal(text), DigitInteger(text);
    InPrecision(text);
    assert (n.sign == 0 <==> d.negative) && |n.val| == NUMERIC_LEN;
    if !Printable(n) {
      return;
    }
    hide Encode, DigitInteger, ReadDecimal, Worth, Render, Rational, Pow, TWO_119, TWO_120, Selected;
    ReadDecimalWorth(text);
    SelectedIsWhole(text);
    DigitsBoundInteger(text);
    ResolveIs(n);
    SurvivesIff(n, d, v);
  }

  lemma ResolveIs(n: Numeric)
    requires |n.val| == NUMERIC_LEN && Printable(n)
    ensures Resolve(n).Printed? && (n.precision > 0 ==> n.scale >= 0)
    ensures n.precision == 0 ==> Resolve(n).chrform == "0"
    ensures n.precision > 0 ==> Resolve(n).chrform == Render(n)
  {
    hide Render;
  }

  /** Both conversions, run one after the other on any text. */
  method ConvertBothWays(text: string) returns (r: Outcome)
    ensures r == ThereAndBack(text)
    ensures (r.Printed? && Worth(r.chrform) == Worth(text)) <==> Survives(text)
  {
    hide *;
    var ns := new SqlNumericStruct();
    var overrun := ConvertToNumeric(text, ns);
    NumericRoundTrip(text);
    TripIs(text);
    if overrun {
      return ReadOverrun;
    }
    r := ResolveNumericParam(ns);
  }

  lemma TripIs(text: string)
    ensures ThereAndBack(text) == if |ReadDecimal(text).digits| > DIGIT_BUFFER then ReadOverrun
      else Resolve(Encode(text))
  {
  }

  lemma SurvivesIff(n: Numeric, d: Decimal, v: nat)
    requires |n.val| == NUMERIC_LEN && n.precision == |d.digits| && (n.sign == 0 <==> d.negative)
    requires v < TWO_120 && v < Pow(10, n.precision)
    requires n.scale == if v < TWO_119 then d.scale else 0
    requires Selected(n, if n.precision < 10 then 4 else NUMERIC_LEN) == v
    ensures Worth(Render(n)) == Rational(d.negative, v, d.scale) <==>
        (v < TWO_119 || d.scale == 0) && !(d.negative && |d.digits| < 10 && 0 < v < Pow(10, d.scale))
  {
    RenderCases(n, v);
    hide *;
    RationalDiffers(d.negative, v, d.scale);
    RationalZero(d.negative, d.scale, 0);
    RationalZero(!d.negative, d.scale, 0);
    Bounds();
    PowZero(10);
    ZeroText();
    if n.precision == 0 {
    } else if n.precision < 10 {
      PowMonotone(10, n.precision, 9);
      PowMonotone(10, n.precision, 10);
      SmallTextWorth(n.sign == 0, v, n.scale);
    } else {
      LargeTextWorth(n.sign == 0, v, n.scale);
    }
  }

  lemma RenderCases(n: Numeric, v: nat)
    requires |n.val| == NUMERIC_LEN && 0 <= n.scale
    requires Selected(n, if n.precision < 10 then 4 else NUMERIC_LEN) == v
    ensures n.precision == 0 ==> Render(n) == "0"
    ensures 0 < n.precision < 10 && v < 0x8000_0000 ==> Render(n) == SmallText(n.sign == 0, v, n.scale)
    ensures n.precision >= 10 ==> Render(n) == LargeText(n.sign == 0, v, n.scale)
  {
  }

  /** Minus one half comes back positive. */
  lemma LostSign()
    ensures Encode("-0.5").scale == 1 && Worth(Render(Encode("-0.5"))) != Worth("-0.5")
  {
    hide ReadDecimal, DigitInteger, Encode, Render, Worth, Pow;
    HalfReads();
    Bounds();
    InPrecision("-0.5");
    RoundTripBelow("-0.5");
    ResolveIs(Encode("-0.5"));
    PowStep(10, 0);
    PowZero(10);
  }

  /** One digit, behind the dot. */
  lemma HalfReads()
    ensures ReadDecimal("-0.5") == Decimal(true, [5], 1) && DigitInteger("-0.5") == 5 < TWO_119
  {
    var t := "-0.5";
    assert AfterSpaces(t) == t && AfterSign(t) == "0.5";
    assert "0.5"[1..] == ".5" && AfterZeros("0.5") == ".5";
    assert ".5"[1..] == "5" && "5"[1..] == "";
    assert ReadDigits("5", true) == ([5] + ReadDigits("", true).0, ReadDigits("", true).1 + 1);
    assert [5] + ReadDigits("", true).0 == [5];
    assert ReadDigits("5", true) == ([5], 1);
    assert ReadDigits(".5", false) == ([5], 1);
    assert BigEndian([5]) == 5 && Pow(10, 1) == 10;
    Bounds();
    PowMonotone(10, 1, 10);
  }
}

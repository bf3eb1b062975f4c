/** SQL_NUMERIC_STRUCT to decimal text: ResolveNumericParam. */
module NumericPrint {
  import opened Positional
  import opened NumericRead

  /** prec[i]: the number of decimal digits from which on i + 1 bytes are looked at. */
  function Prec(i: nat): (r: nat)
    ensures 1 <= r <= 39
  {
    match i
    case 0 => 1 case 1 => 3 case 2 => 5 case 3 => 8 case 4 => 10 case 5 => 13
    case 6 => 15 case 7 => 17 case 8 => 20 case 9 => 22 case 10 => 25 case 11 => 27
    case 12 => 29 case 13 => 32 case 14 => 34 case 15 => 37 case _ => 39
  }

  /** The work buffer holds forty decimal digits. */
  const CALV: nat := 40

  /** How many bytes of val the driver reads for a precision: entries of the table among the first `limit`,
      counted from i on until one is above the precision. */
  function BytesFrom(i: nat, limit: nat, precision: nat): (r: nat)
    requires i <= limit <= 16
    ensures i <= r <= limit
    ensures forall k :: i <= k < r ==> Prec(k) <= precision
    ensures r < limit ==> Prec(r) > precision
    decreases limit - i
  {
    if i < limit && Prec(i) <= precision then BytesFrom(i + 1, limit, precision) else i
  }

  function DigitText(ds: seq<int>): (r: string)
    requires IsDigits(ds, 10)
    ensures |r| == |ds| && forall k :: 0 <= k < |ds| ==> r[k] == (ds[k] + '0' as int) as char
  {
    seq(|ds|, k requires 0 <= k < |ds| => (ds[k] + '0' as int) as char)
  }

  /** The decimal digits of v, most significant first, zero-padded to `width`. */
  function Padded(v: nat, width: nat): (r: seq<int>)
    ensures |r| == width && IsDigits(r, 10)
  {
    Reverse(Decimals(v, width))
  }

  function Max(a: int, b: int): int { if a < b then b else a }

  /** What printf writes for "%d" and "%0.*d". */
  function IntText(n: int, width: nat): string {
    if n < 0 then "-" + DigitText(NatDigits(-n, width)) else DigitText(NatDigits(n, width))
  }

  function NatDigits(n: nat, width: nat): (r: seq<int>)
    ensures IsDigits(r, 10) && r != []
  {
    Padded(n, Max(DigitCount(n), Max(1, width)))
  }

  /** A 32-bit signed value. */
  function Wrap32(n: int): (r: int)
    ensures -0x8000_0000 <= r < 0x8000_0000
    ensures -0x8000_0000 <= n < 0x8000_0000 ==> r == n
  {
    (n + 0x8000_0000) % 0x1_0000_0000 - 0x8000_0000
  }

  /** C division and remainder truncate toward zero. */
  function Quotient(a: int, b: nat): int requires b > 0 { if a < 0 then -(-a / b) else a / b }
  function Remainder(a: int, b: nat): int requires b > 0 { if a < 0 then -(-a % b) else a % b }

  /** Precision below ten: 32-bit arithmetic. */
  function SmallText(negative: bool, ival: int, scale: nat): string {
    PowPositive(10, scale);
    var div := Pow(10, scale);
    if scale == 0 then
      IntText(if negative then Wrap32(-ival) else ival, 1)
    else
      var whole := Quotient(ival, div);
      IntText(if negative then Wrap32(-whole) else whole, 1) + "." + IntText(Remainder(ival, div), scale)
  }

  /** The digits in front of the dot, the dot, the digits behind it; zero gets one more digit. */
  function FixedBody(v: nat, scale: nat): string {
    var width := Max(DigitCount(v), scale + 1);
    var all := Padded(v, width);
    DigitText(all[..width - scale])
    + (if scale > 0 then "." + DigitText(all[width - scale..]) else "")
    + (if v == 0 then "0" else "")
  }

  /** Precision ten and up. */
  function LargeText(negative: bool, v: nat, scale: nat): string {
    (if negative then "-" else "") + FixedBody(v, scale)
  }

  /** The number in the bytes that the precision selects. */
  function Selected(ns: Numeric, limit: nat): (v: nat)
    requires |ns.val| == NUMERIC_LEN && limit <= NUMERIC_LEN
  {
    var bytes := ns.val[..BytesFrom(0, limit, ns.precision)];
    LittleEndianNonNegative(bytes, 256);
    LittleEndian(bytes, 256)
  }

  /** How printing ends: a text; nothing written; a 32-bit product that overflows; a cell read outside the forty; or,
      of a whole trip, digits written outside the reading buffer. */
  datatype Outcome = Printed(chrform: string) | Unwritten | Overflow | OutsideCells(index: int) | ReadOverrun

  /** The scales that the branch for this precision can print. */
  predicate Printable(ns: Numeric) {
    ns.precision == 0 || 0 <= ns.scale < if ns.precision < 10 then 10 else CALV
  }

  function Resolve(ns: Numeric): Outcome
    requires |ns.val| == NUMERIC_LEN
  {
    if Printable(ns) then Printed(if ns.precision == 0 then "0" else Render(ns))
    else if ns.precision < 10 then if ns.scale < 0 then Unwritten else Overflow
    else OutsideCells(if ns.scale < 0 then -1 else ns.scale)
  }

  function Render(ns: Numeric): string
    requires 0 <= ns.scale && |ns.val| == NUMERIC_LEN
  {
    if ns.precision == 0 then "0"
    else if ns.precision < 10 then SmallText(ns.sign == 0, Wrap32(Selected(ns, 4)), ns.scale)
    else LargeText(ns.sign == 0, Selected(ns, NUMERIC_LEN), ns.scale)
  }

  // ---------------------------------------------------------------- reading a printed text back

  lemma {:induction false} ReadDigitText(ds: seq<int>, rest: string, dot: bool)
    requires IsDigits(ds, 10)
    ensures var (r, n) := (ReadDigits(rest, dot), |ds|);
      ReadDigits(DigitText(ds) + rest, dot) == (ds + r.0, if dot then n + r.1 else r.1)
  {
    hide *;
    var t := DigitText(ds) + rest;
    if ds == [] {
      assert t == rest && ds + ReadDigits(rest, dot).0 == ReadDigits(rest, dot).0;
    } else {
      TextStep(ds, rest);
      var more := DigitText(ds[1..]) + rest;
      ReadNext(ds[0], more, dot);
      ReadDigitText(ds[1..], rest, dot);
      assert [ds[0]] + (ds[1..] + ReadDigits(rest, dot).0) == ds + ReadDigits(rest, dot).0;
    }
  }

  lemma TextStep(ds: seq<int>, rest: string)
    requires IsDigits(ds, 10) && ds != []
    ensures IsDigits(ds[1..], 10) && 0 <= ds[0] < 10
    ensures DigitText(ds) + rest == [(ds[0] + '0' as int) as char] + (DigitText(ds[1..]) + rest)
  {
    assert DigitText(ds) == [(ds[0] + '0' as int) as char] + DigitText(ds[1..]);
  }

  lemma ReadNext(d: int, more: string, dot: bool)
    requires 0 <= d < 10
    ensures var r := ReadDigits(more, dot);
      ReadDigits([(d + '0' as int) as char] + more, dot) == ([d] + r.0, if dot then r.1 + 1 else r.1)
  {
    var t := [(d + '0' as int) as char] + more;
    assert t[1..] == more;
  }

  /** "ddd.ddd" reads as all its digits, with those behind the dot counted. */
  lemma ReadFixed(whole: seq<int>, part: seq<int>)
    requires IsDigits(whole, 10) && IsDigits(part, 10)
    ensures ReadDigits(DigitText(whole) + "." + DigitText(part), false) == (whole + part, |part|)
  {
    var rest := "." + DigitText(part);
    assert DigitText(whole) + "." + DigitText(part) == DigitText(whole) + rest;
    ReadDigitText(whole, rest, false);
    assert rest[1..] == DigitText(part) + "";
    ReadDigitText(part, "", true);
    assert part + [] == part;
  }

  lemma ReadWhole(whole: seq<int>)
    requires IsDigits(whole, 10)
    ensures ReadDigits(DigitText(whole), false) == (whole, 0)
  {
    ReadDigitText(whole, "", false);
    assert DigitText(whole) + "" == DigitText(whole) && whole + [] == whole;
  }

  /** A sign in front of a digit is all that the scan of a printed text skips. */
  lemma SignedWorth(negative: bool, body: string)
    requires body != [] && IsDigit(body[0])
    ensures Worth((if negative then "-" else "") + body)
      == Rational(negative, BigEndian(ReadDigits(body, false).0), ReadDigits(body, false).1)
  {
    var t := (if negative then "-" else "") + body;
    assert !negative ==> t == body;
    assert AfterSpaces(t) == t;
    assert AfterSign(t) == body;
  }

  lemma PaddedValue(v: nat, width: nat)
    requires v < Pow(10, width)
    ensures BigEndian(Padded(v, width)) == v
  {
    ReverseValue(Decimals(v, width));
    DecimalsValue(v, width);
  }

  lemma FitsWidth(v: nat, width: nat)
    requires DigitCount(v) <= width
    ensures v < Pow(10, width)
  {
    DigitCountBounds(v);
    PowMonotone(10, DigitCount(v), width);
  }

  lemma NatDigitsValue(n: nat, width: nat)
    ensures BigEndian(NatDigits(n, width)) == n
    ensures width > 0 && n < Pow(10, width) ==> |NatDigits(n, width)| == width
  {
    var w := Max(DigitCount(n), Max(1, width));
    FitsWidth(n, w);
    PaddedValue(n, w);
    if n < Pow(10, width) {
      DigitCountLow(n, width);
    }
  }

  lemma {:induction false} DigitCountLow(r: nat, n: nat)
    requires r < Pow(10, n)
    ensures DigitCount(r) <= n
  {
    if r > 0 { DigitCountLow(r / 10, n - 1); }
  }

  lemma RationalZero(negative: bool, f: nat, g: nat)
    ensures Rational(negative, 0, f) == Rational(negative, 0, g) == 0.0
  {
    PowPositive(10, f);
    PowPositive(10, g);
  }

  lemma BodyReads(whole: seq<int>, part: seq<int>, zero: bool)
    requires IsDigits(whole, 10) && IsDigits(part, 10) && whole != []
    ensures var body := DigitText(whole) + (if |part| > 0 then "." + DigitText(part) else "")
      + (if zero then "0" else "");
      && IsDigit(body[0])
      && ReadDigits(body, false).0 == whole + part + (if zero then [0] else [])
      && (!zero ==> ReadDigits(body, false).1 == |part|)
  {
    hide *;
    var last := if zero then [0] else [];
    LastText(zero);
    if |part| > 0 {
      TextConcat(part, last);
      Regroup3(DigitText(whole), ".", DigitText(part), DigitText(last));
      ReadFixed(whole, part + last);
      FirstIsDigit(whole, "." + DigitText(part + last));
      assert DigitText(whole) + ("." + DigitText(part + last)) == DigitText(whole) + "." + DigitText(part + last);
      assert whole + (part + last) == whole + part + last;
    } else {
      TextConcat(whole, last);
      ReadWhole(whole + last);
      FirstIsDigit(whole + last, "");
      assert DigitText(whole + last) + "" == DigitText(whole + last);
      assert DigitText(whole) + "" + DigitText(last) == DigitText(whole) + DigitText(last);
      assert whole + part + last == whole + last;
    }
  }

  lemma LastText(zero: bool)
    ensures IsDigits(if zero then [0] else [], 10) && DigitText(if zero then [0] else []) == if zero then "0" else ""
  {
  }

  lemma TextConcat(a: seq<int>, b: seq<int>)
    requires IsDigits(a, 10) && IsDigits(b, 10)
    ensures IsDigits(a + b, 10) && DigitText(a + b) == DigitText(a) + DigitText(b)
  {
  }

  lemma Regroup3(a: string, dot: string, b: string, c: string)
    ensures a + (dot + b) + c == a + dot + (b + c)
  {
  }

  lemma FixedBodyShape(v: nat, scale: nat) returns (width: nat, whole: seq<int>, part: seq<int>)
    ensures width == Max(DigitCount(v), scale + 1) >= DigitCount(v) && Padded(v, width) == whole + part
    ensures IsDigits(whole, 10) && IsDigits(part, 10) && whole != [] && |part| == scale
    ensures FixedBody(v, scale)
      == DigitText(whole) + (if |part| > 0 then "." + DigitText(part) else "") + (if v == 0 then "0" else "")
  {
    hide DigitCount, Padded, DigitText;
    width := Max(DigitCount(v), scale + 1);
    var all := Padded(v, width);
    whole, part := all[..width - scale], all[width - scale..];
  }

  lemma FixedBodyReads(v: nat, scale: nat)
    ensures var (body, r) := (FixedBody(v, scale), ReadDigits(FixedBody(v, scale), false));
      body != [] && IsDigit(body[0]) && BigEndian(r.0) == v && (v != 0 ==> r.1 == scale)
  {
    hide *;
    var width, whole, part := FixedBodyShape(v, scale);
    FitsWidth(v, width);
    PaddedValue(v, width);
    BodyReads(whole, part, v == 0);
    BigEndianAppend(whole + part, 0);
    assert whole + part + [] == whole + part;
  }

  /** The large path prints exactly the number in the struct. */
  lemma LargeTextWorth(negative: bool, v: nat, scale: nat)
    ensures Worth(LargeText(negative, v, scale)) == Rational(negative, v, scale)
  {
    FixedBodyReads(v, scale);
    var body := FixedBody(v, scale);
    SignedWorth(negative, body);
    if v == 0 {
      RationalZero(negative, scale, ReadDigits(body, false).1);
    }
  }

  /** A small text is a sign and digits; the sign is printed only in front of a nonzero integer part. */
  lemma SmallTextShape(negative: bool, v: nat, scale: nat, div: nat)
    requires v < 0x8000_0000 && Pow(10, scale) == div > 0 && v / div <= v
    ensures var q := v / div;
      var body := if scale == 0 then DigitText(NatDigits(v, 1))
        else DigitText(NatDigits(q, 1)) + "." + DigitText(NatDigits(v % div, scale));
      var shown := negative && (if scale == 0 then v else q) > 0;
      SmallText(negative, v, scale) == (if shown then "-" else "") + body
  {
    hide Pow, NatDigits, DigitText;
    var q := v / div;
    var whole := DigitText(NatDigits(q, 1));
    var part := DigitText(NatDigits(v % div, scale));
    assert "-" + whole + "." + part == "-" + (whole + "." + part);
    assert "" + (whole + "." + part) == whole + "." + part;
    assert "" + DigitText(NatDigits(v, 1)) == DigitText(NatDigits(v, 1));
  }

  lemma SmallWholeReads(v: nat)
    ensures var body := DigitText(NatDigits(v, 1));
      body != [] && IsDigit(body[0]) && BigEndian(ReadDigits(body, false).0) == v && ReadDigits(body, false).1 == 0
  {
    hide *;
    NatDigitsValue(v, 1);
    ReadWhole(NatDigits(v, 1));
    FirstIsDigit(NatDigits(v, 1), "");
    assert DigitText(NatDigits(v, 1)) + "" == DigitText(NatDigits(v, 1));
  }

  /** The small path loses the sign of a negative number whose integer part is zero, and nothing else. */
  lemma SmallTextWorth(negative: bool, v: nat, scale: nat)
    requires v < 0x8000_0000
    ensures Worth(SmallText(negative, v, scale)) == Rational(negative && v >= Pow(10, scale), v, scale)
  {
    hide *;
    var div := Pow(10, scale);
    PowPositive(10, scale);
    PowZero(10);
    DivAtLeast(v, div, 1);
    DivShrinks(v, div);
    SmallTextShape(negative, v, scale, div);
    if scale == 0 {
      SmallWholeReads(v);
      SignedWorth(negative && v > 0, DigitText(NatDigits(v, 1)));
    } else {
      SmallFractionReads(v, scale, div);
      SignedWorth(negative && v / div > 0,
                  DigitText(NatDigits(v / div, 1)) + "." + DigitText(NatDigits(v % div, scale)));
    }
  }

  lemma FirstIsDigit(ds: seq<int>, rest: string)
    requires IsDigits(ds, 10) && ds != []
    ensures DigitText(ds) + rest != [] && IsDigit((DigitText(ds) + rest)[0])
  {
  }

  lemma SmallFractionReads(v: nat, scale: nat, div: nat)
    requires scale > 0 && Pow(10, scale) == div > 0
    ensures var body := DigitText(NatDigits(v / div, 1)) + "." + DigitText(NatDigits(v % div, scale));
      body != [] && IsDigit(body[0]) && BigEndian(ReadDigits(body, false).0) == v && ReadDigits(body, false).1 == scale
  {
    hide *;
    var q, r := v / div, v % div;
    assert v == q * div + r;
    NatDigitsValue(q, 1);
    NatDigitsValue(r, scale);
    var whole, part := NatDigits(q, 1), NatDigits(r, scale);
    ReadFixed(whole, part);
    FirstIsDigit(whole, "." + DigitText(part));
    assert DigitText(whole) + "." + DigitText(part) == DigitText(whole) + ("." + DigitText(part));
    BigEndianConcat(whole, part);
  }
}

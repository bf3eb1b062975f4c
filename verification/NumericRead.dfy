/** Decimal text to SQL_NUMERIC_STRUCT: the SQL_C_NUMERIC branch of copy_and_convert_field. */
module NumericRead {
  import opened Positional

  /** A snapshot of SQL_NUMERIC_STRUCT; val is little endian. */
  datatype Numeric = Numeric(sign: int, precision: nat, scale: int, val: seq<Byte>)

  /** What a decimal text says: a sign and the digits, `scale` of them behind the dot. */
  datatype Decimal = Decimal(negative: bool, digits: seq<int>, scale: nat)

  /** The buffer holds three times SQL_MAX_NUMERIC_LEN characters. */
  const DIGIT_BUFFER: nat := 48
  const NUMERIC_LEN: nat := 16
  /** The conversion stops one byte short of the full length. */
  const KEPT: nat := NUMERIC_LEN - 1

  predicate IsSpace(c: char) {
    c in " \t\n\r" || c as int == 11 || c as int == 12
  }

  predicate IsDigit(c: char) {
    '0' <= c <= '9'
  }

  function AfterSpaces(t: string): string {
    if t != [] && IsSpace(t[0]) then AfterSpaces(t[1..]) else t
  }

  function AfterZeros(t: string): string {
    if t != [] && t[0] == '0' then AfterZeros(t[1..]) else t
  }

  function AfterSign(t: string): string {
    if t != [] && (t[0] == '-' || t[0] == '+') then t[1..] else t
  }

  predicate SaysNegative(t: string) {
    t != [] && t[0] == '-'
  }

  /** The digits up to the first character that is neither a digit nor the first dot. */
  function ReadDigits(t: string, dot: bool): (r: (seq<int>, nat))
    ensures IsDigits(r.0, 10) && (dot ==> r.1 == |r.0|) && r.1 <= |r.0|
  {
    if t == [] then ([], 0)
    else if t[0] == '.' then
      if dot then ([], 0) else ReadDigits(t[1..], true)
    else if !IsDigit(t[0]) then ([], 0)
    else
      var (ds, sc) := ReadDigits(t[1..], dot);
      ([t[0] as int - '0' as int] + ds, if dot then sc + 1 else sc)
  }

  /** The text as the driver scans it: blanks, sign and leading zeros are skipped. */
  function ReadDecimal(text: string): (d: Decimal)
    ensures IsDigits(d.digits, 10) && d.scale <= |d.digits|
  {
    var t := AfterSpaces(text);
    var (ds, sc) := ReadDigits(AfterZeros(AfterSign(t)), false);
    Decimal(SaysNegative(t), ds, sc)
  }

  /** The digit integer V of a text: its digits read as one number, dot ignored. */
  function DigitInteger(text: string): (v: nat) {
    BigEndianBound(ReadDecimal(text).digits);
    BigEndian(ReadDecimal(text).digits)
  }

  /** The rational number sign * m / 10^f. */
  function Rational(negative: bool, m: int, f: nat): real {
    PowPositive(10, f);
    (if negative then -1.0 else 1.0) * ((m as real) / (Pow(10, f) as real))
  }

  /** The number a decimal text denotes. */
  function Worth(text: string): real {
    var t := AfterSpaces(text);
    var (ds, sc) := ReadDigits(AfterSign(t), false);
    Rational(SaysNegative(t), BigEndian(ds), sc)
  }

  const TWO_119: nat := 128 * Pow(256, KEPT - 1)
  const TWO_120: nat := Pow(256, KEPT)

  /** The struct the driver fills.  Fifteen bytes take V mod 2^120.  From 2^119 on the scale is
      overwritten with minus the number of decimal digits that are still unread. */
  function Encode(text: string): Numeric {
    var d, v := ReadDecimal(text), DigitInteger(text);
    Numeric(
      if d.negative then 0 else 1,
      |d.digits|,
      if v < TWO_119 then d.scale else -(DigitCount(Shift(v, 256, KEPT)) as int),
      Bytes(v, KEPT) + [0])
  }

  lemma {:induction false} ZerosAreWorthless(t: string)
    ensures BigEndian(ReadDigits(AfterZeros(t), false).0) == BigEndian(ReadDigits(t, false).0)
    ensures ReadDigits(AfterZeros(t), false).1 == ReadDigits(t, false).1
  {
    hide *;
    ZeroStep(t);
    if t != [] && t[0] == '0' {
      ZerosAreWorthless(t[1..]);
      BigEndianConcat([0], ReadDigits(t[1..], false).0);
      BigEndianZeros([0]);
    }
  }

  lemma ZeroStep(t: string)
    ensures t == [] || t[0] != '0' ==> AfterZeros(t) == t
    ensures t != [] && t[0] == '0' ==>
      var (rest, all) := (ReadDigits(t[1..], false), ReadDigits(t, false));
      AfterZeros(t) == AfterZeros(t[1..]) && all.0 == [0] + rest.0 && all.1 == rest.1
  {
  }

  /** The scan keeps the number the text denotes. */
  lemma ReadDecimalWorth(text: string)
    ensures Worth(text) == Rational(ReadDecimal(text).negative, DigitInteger(text), ReadDecimal(text).scale)
  {
    ZerosAreWorthless(AfterSign(AfterSpaces(text)));
  }

  /** Up to 2^120 the bytes are the whole digit integer, and always its low 120 bits. */
  lemma EncodeValue(text: string)
    ensures var v := DigitInteger(text);
      v == LittleEndian(Encode(text).val, 256) + TWO_120 * Shift(v, 256, KEPT)
    ensures DigitInteger(text) < TWO_120 ==> LittleEndian(Encode(text).val, 256) == DigitInteger(text)
    ensures 0 <= LittleEndian(Encode(text).val, 256) < TWO_120
  {
    var v := DigitInteger(text);
    BytesValue(v, KEPT);
    BytesAreDigits(v, KEPT);
    LittleEndianAppend(Bytes(v, KEPT), 0, 256);
    LittleEndianBound(Bytes(v, KEPT), 256);
    if v < TWO_120 {
      ShiftAtLeast(v, 256, KEPT, 1);
    }
  }

  class SqlNumericStruct {
    var sign: int
    var precision: nat
    var scale: int
    const val: array<Byte>

    constructor ()
      ensures fresh(val) && val.Length == NUMERIC_LEN
    {
      sign, precision, scale := 1, 0, 0;
      val := new Byte[NUMERIC_LEN];
    }

    function Value(): Numeric
      reads this, val
    {
      Numeric(sign, precision, scale, val[..])
    }
  }

  /** One in-place division of the digits calv[sta..nlen] by two. */
  method Halve(calv: array<int>, nlen: nat, sta0: nat) returns (sta: nat, dig: int)
    requires sta0 < nlen <= calv.Length
    requires IsDigits(calv[..nlen], 10) && forall k :: 0 <= k < sta0 ==> calv[k] == 0
    modifies calv
    ensures sta <= nlen && 0 <= dig < 2 && Halved(old(calv[..nlen]), calv[..nlen], sta, dig)
  {
    hide *;
    ghost var was, done := calv[..nlen], calv[..sta0];
    HalvingStart(was, done);
    dig, sta := 0, sta0;
    var i := sta;
    while i < nlen
      invariant sta <= i <= nlen && |done| == i
      invariant calv[..nlen] == done + was[i..]
      invariant HalvingState(was, done, sta, dig)
    {
      ghost var all, rest := calv[..nlen], was[i..];
      assert calv[i] == all[i] == rest[0] == was[i];
      var tv := dig * 10 + calv[i];
      HalvingStep(was, done, sta, dig);
      dig := tv % 2;
      calv[i] := tv / 2;
      assert calv[..nlen] == all[i := tv / 2];
      OverwriteNext(done, rest, tv / 2);
      done := done + [tv / 2];
      assert rest[1..] == was[i + 1..];
      if i == sta && tv < 2 {
        sta := sta + 1;
      }
      i := i + 1;
    }
    assert calv[..nlen] == done;
    HalvingDone(was, done, sta, dig);
  }

  /** Inside one halving: `done` is half of the digits passed so far, dig the remainder carried on. */
  ghost predicate HalvingState(was: seq<int>, done: seq<int>, sta: nat, dig: int) {
    && sta <= |done| <= |was| && 0 <= dig < 2
    && IsDigits(was, 10) && IsDigits(done, 10)
    && BigEndian(was[..|done|]) == 2 * BigEndian(done) + dig
    && (forall k :: 0 <= k < sta ==> done[k] == 0)
    && (sta < |done| ==> done[sta] != 0)
  }

  lemma HalvingStart(was: seq<int>, done: seq<int>)
    requires IsDigits(was, 10) && done <= was && forall k :: 0 <= k < |done| ==> done[k] == 0
    ensures HalvingState(was, done, |done|, 0)
  {
    assert was[..|done|] == done;
    BigEndianZeros(done);
  }

  lemma HalvingStep(was: seq<int>, done: seq<int>, sta: nat, dig: int)
    requires HalvingState(was, done, sta, dig) && |done| < |was|
    ensures var tv := dig * 10 + was[|done|];
      HalvingState(was, done + [tv / 2], if |done| == sta && tv < 2 then sta + 1 else sta, tv % 2)
  {
    var i := |done|;
    var tv := dig * 10 + was[i];
    assert was[..i + 1] == was[..i] + [was[i]];
    BigEndianAppend(was[..i], was[i]);
    BigEndianAppend(done, tv / 2);
  }

  lemma HalvingDone(was: seq<int>, now: seq<int>, sta: nat, dig: int)
    requires HalvingState(was, now, sta, dig) && |now| == |was|
    ensures Halved(was, now, sta, dig)
  {
    assert was[..|now|] == was;
  }

  /** now is was divided by two, remainder dig; its leading digit is at sta. */
  ghost predicate Halved(was: seq<int>, now: seq<int>, sta: nat, dig: int) {
    && |now| == |was| && sta <= |now| && 0 <= dig < 2
    && IsDigits(now, 10) && BigEndian(was) == 2 * BigEndian(now) + dig
    && (forall k :: 0 <= k < sta ==> now[k] == 0) && (sta < |now| ==> now[sta] != 0)
  }

  /** Blanks, sign and leading zeros. */
  method ScanPrefix(text: string) returns (negative: bool, i: nat)
    ensures i <= |text| && negative == SaysNegative(AfterSpaces(text))
    ensures text[i..] == AfterZeros(AfterSign(AfterSpaces(text)))
  {
    hide AfterSpaces, AfterZeros, IsSpace;
    i := 0;
    assert text[0..] == text;
    while i < |text| && IsSpace(text[i])
      invariant i <= |text| && AfterSpaces(text[i..]) == AfterSpaces(text)
    {
      SkipStep(text, i);
      i := i + 1;
    }
    SkipStep(text, i);
    ghost var t := AfterSpaces(text);
    assert text[i..] == t;
    negative := false;
    if i < |text| && text[i] == '-' {
      negative := true;
      i := i + 1;
    } else if i < |text| && text[i] == '+' {
      i := i + 1;
    }
    assert text[i..] == AfterSign(t);
    while i < |text| && text[i] == '0'
      invariant i <= |text| && AfterZeros(text[i..]) == AfterZeros(AfterSign(t))
    {
      SkipStep(text, i);
      i := i + 1;
    }
    SkipStep(text, i);
  }

  lemma SkipStep(text: string, i: nat)
    requires i <= |text|
    ensures AfterSpaces(text[i..]) == if i < |text| && IsSpace(text[i]) then AfterSpaces(text[i + 1..]) else text[i..]
    ensures AfterZeros(text[i..]) == if i < |text| && text[i] == '0' then AfterZeros(text[i + 1..]) else text[i..]
  {
    assert i < |text| ==> text[i..][1..] == text[i + 1..];
  }

  /** What one scan step takes off the unread rest. */
  lemma ReadStep(text: string, i: nat, dot: bool, done: seq<int>, scale: nat, all: (seq<int>, nat))
    requires i < |text| && if text[i] == '.' then !dot else IsDigit(text[i])
    requires all.0 == done + ReadDigits(text[i..], dot).0 && all.1 == scale + ReadDigits(text[i..], dot).1
    ensures var next := ReadDigits(text[i + 1..], dot || text[i] == '.');
      if text[i] == '.' then all == (done + next.0, scale + next.1)
      else
        && |done| < |all.0|
        && all == (done + [text[i] as int - '0' as int] + next.0, (if dot then scale + 1 else scale) + next.1)
  {
    assert text[i..][1..] == text[i + 1..];
    if text[i] != '.' {
      var d, rest := text[i] as int - '0' as int, ReadDigits(text[i + 1..], dot).0;
      assert done + ([d] + rest) == done + [d] + rest;
    }
  }

  /** Stops short when a digit has no cell left to go to. */
  method ScanDigits(text: string, start: nat, calv: array<int>) returns (nlen: nat, scale: nat, overrun: bool)
    requires start <= |text|
    modifies calv
    ensures nlen <= calv.Length && (overrun <==> |ReadDigits(text[start..], false).0| > calv.Length)
    ensures !overrun ==> (calv[..nlen], scale) == ReadDigits(text[start..], false)
  {
    hide ReadDigits;
    overrun := false;
    var i := start;
    ghost var all := ReadDigits(text[i..], false);
    nlen, scale := 0, 0;
    var dotExist := false;
    ghost var done: seq<int> := [];
    while i < |text| && (if text[i] == '.' then !dotExist else IsDigit(text[i]))
      invariant i <= |text| && nlen <= |all.0| && nlen <= calv.Length && done == calv[..nlen]
      invariant all.0 == done + ReadDigits(text[i..], dotExist).0
      invariant all.1 == scale + ReadDigits(text[i..], dotExist).1
    {
      ReadStep(text, i, dotExist, done, scale, all);
      if text[i] == '.' {
        dotExist := true;
      } else {
        if dotExist {
          scale := scale + 1;
        }
        if nlen == calv.Length {
          overrun := true;
          return;
        }
        calv[nlen] := text[i] as int - '0' as int;
        nlen := nlen + 1;
        done := done + [text[i] as int - '0' as int];
        assert done == calv[..nlen];
      }
      i := i + 1;
    }
    ReadEnd(text[i..], dotExist);
    assert all.0 == done;
  }

  lemma ReadEnd(rest: string, dot: bool)
    requires rest != "" ==> if rest[0] == '.' then dot else !IsDigit(rest[0])
    ensures ReadDigits(rest, dot) == ([], 0)
  {
  }

  function Zeros(n: nat): (r: seq<Byte>) {
    seq(n, _ => 0)
  }

  /** The bit loop between two halvings: olen bytes of v are out, hval holds the bits below `bit`,
      and the digits from sta on are what is left of v. */
  ghost predicate BitState(v: nat, digits: seq<int>, val: seq<Byte>, sta: nat, hval: nat, bit: nat, olen: nat) {
    && IsDigits(digits, 10)
    && sta <= |digits| && (forall k :: 0 <= k < sta ==> digits[k] == 0)
    && olen <= KEPT && bit in {1, 2, 4, 8, 16, 32, 64, 128} && hval < bit
    && BigEndian(digits) >= 0
    && (if olen > 0 || bit > 1 then DigitCount(BigEndian(digits)) == |digits| - sta else sta == 0)
    && Shift(v, 256, olen) == hval + bit * BigEndian(digits)
    && (olen == KEPT ==> bit == 1 && v >= TWO_119)
    && val == Bytes(v, olen) + Zeros(NUMERIC_LEN - olen)
  }

  lemma BitStart(digits: seq<int>, val: seq<Byte>)
    requires IsDigits(digits, 10) && BigEndian(digits) >= 0 && val == Zeros(NUMERIC_LEN)
    ensures BitState(BigEndian(digits), digits, val, 0, 0, 1, 0)
  {
    assert [] + val == val;
  }

  /** Moving the low bit of the rest into hval ... */
  lemma TakeBit(hval: nat, bit: nat, rest: nat, left: nat, dig: nat)
    requires rest == 2 * left + dig
    ensures hval + bit * rest == (hval + bit * dig) + (2 * bit) * left
  {
    assert bit * (2 * left + dig) == (2 * bit) * left + bit * dig;
  }

  /** ... and the eighth bit completes a byte. */
  lemma TakeByte(v: nat, val: seq<Byte>, hval: nat, left: nat, dig: nat, olen: nat)
    requires olen < KEPT && hval < 128 && dig < 2 && val == Bytes(v, olen) + Zeros(NUMERIC_LEN - olen)
    requires Shift(v, 256, olen) == (hval + 128 * dig) + 256 * left
    ensures var h: Byte := hval + 128 * dig;
      val[olen := h] == Bytes(v, olen + 1) + Zeros(NUMERIC_LEN - (olen + 1))
    ensures Shift(v, 256, olen + 1) == left
  {
    var h, n := hval + 128 * dig, NUMERIC_LEN - olen;
    OverwriteNext(Bytes(v, olen), Zeros(n), h);
    assert Zeros(n)[1..] == Zeros(n - 1);
  }

  /** A rest still nonzero at the top bit of the fifteenth byte means at least 2^119. */
  lemma ReachesTop(v: nat, hval: nat, rest: nat)
    requires rest > 0 && Shift(v, 256, KEPT - 1) == hval + 128 * rest
    ensures v >= TWO_119
  {
    ShiftAtLeast(v, 256, KEPT - 1, 128);
  }

  lemma BitStep(v: nat, was: seq<int>, now: seq<int>, val: seq<Byte>, sta: nat, sta': nat, hval: nat, bit: nat,
        olen: nat, dig: nat)
    requires BitState(v, was, val, sta, hval, bit, olen) && sta < |was| && olen < KEPT
    requires Halved(was, now, sta', dig)
    ensures BigEndian(was) >= 2 * BigEndian(now) >= 0 && (BigEndian(now) == 0 ==> sta' == |now|)
    ensures var h := if dig > 0 then hval + bit else hval;
      if bit < 128 then bit * 2 < 256 && BitState(v, now, val, sta', h, bit * 2, olen)
      else bit * 2 >= 256 && h < 256 && BitState(v, now, val[olen := h], sta', 0, 1, olen + 1)
  {
    hide *;
    HalvedFacts(v, was, now, val, sta, sta', hval, bit, olen, dig);
    if bit < 128 {
      BitKept(v, was, now, val, sta, sta', hval, bit, olen, dig);
    } else {
      ByteFilled(v, was, now, val, sta, sta', hval, bit, olen, dig);
    }
  }

  /** The digits after one halving. */
  lemma HalvedFacts(v: nat, was: seq<int>, now: seq<int>, val: seq<Byte>, sta: nat, sta': nat, hval: nat, bit: nat,
        olen: nat, dig: nat)
    requires BitState(v, was, val, sta, hval, bit, olen) && sta < |was| && olen < KEPT
    requires Halved(was, now, sta', dig)
    ensures bit in {1, 2, 4, 8, 16, 32, 64, 128} && hval < bit && dig < 2 && |now| == |was|
    ensures BigEndian(was) == 2 * BigEndian(now) + dig && BigEndian(now) >= 0
    ensures IsDigits(now, 10) && sta' <= |now| && (forall k :: 0 <= k < sta' ==> now[k] == 0)
    ensures DigitCount(BigEndian(now)) == |now| - sta'
    ensures BigEndian(now) == 0 ==> sta' == |now|
    ensures DigitCount(BigEndian(was)) == |was| - sta ==> BigEndian(was) > 0
  {
    LeadingZeros(now, sta');
    hide BigEndian, Shift, Bytes, Zeros, Pow;
  }

  lemma BitKept(v: nat, was: seq<int>, now: seq<int>, val: seq<Byte>, sta: nat, sta': nat, hval: nat, bit: nat,
        olen: nat, dig: nat)
    requires BitState(v, was, val, sta, hval, bit, olen) && sta < |was| && olen < KEPT && bit < 128
    requires Halved(was, now, sta', dig)
    ensures var h := if dig > 0 then hval + bit else hval;
      bit * 2 < 256 && BitState(v, now, val, sta', h, bit * 2, olen)
  {
    HalvedFacts(v, was, now, val, sta, sta', hval, bit, olen, dig);
    TakeBit(hval, bit, BigEndian(was), BigEndian(now), dig);
    hide Halved, BigEndian, Shift, Bytes, Zeros, Pow, DigitCount, IsDigits;
  }

  lemma ByteFilled(v: nat, was: seq<int>, now: seq<int>, val: seq<Byte>, sta: nat, sta': nat, hval: nat, bit: nat,
        olen: nat, dig: nat)
    requires BitState(v, was, val, sta, hval, bit, olen) && sta < |was| && olen < KEPT && bit == 128
    requires Halved(was, now, sta', dig)
    ensures var h := if dig > 0 then hval + bit else hval;
      bit * 2 >= 256 && h < 256 && BitState(v, now, val[olen := h], sta', 0, 1, olen + 1)
  {
    HalvedFacts(v, was, now, val, sta, sta', hval, bit, olen, dig);
    var left := BigEndian(now);
    TakeBit(hval, bit, BigEndian(was), left, dig);
    hide Halved, BigEndian, Shift, Bytes, Zeros, Pow, DigitCount, IsDigits;
    TakeByte(v, val, hval, left, dig, olen);
    if olen + 1 == KEPT {
      assert BigEndian(was) > 0;
      ReachesTop(v, hval, BigEndian(was));
    }
  }

  /** The rest is used up: one last partial byte and zeros. */
  lemma LastByte(v: nat, digits: seq<int>, val: seq<Byte>, hval: nat, bit: nat, olen: nat)
    requires BitState(v, digits, val, |digits|, hval, bit, olen) && olen < KEPT
    ensures hval < 256 && val[olen := hval] == Bytes(v, KEPT) + [0] && v < TWO_119
    ensures hval == 0 ==> val[olen := hval] == val
  {
    BigEndianZeros(digits);
    assert bit * 0 == 0;
    ShiftShrinks(v, 256, olen, KEPT - 1);
    ShiftAtLeast(v, 256, KEPT - 1, 128);
    BytesTail(v, olen, KEPT);
    var n := NUMERIC_LEN - olen;
    OverwriteNext(Bytes(v, olen), Zeros(n), hval);
    assert Zeros(n)[1..] == Zeros(KEPT - olen - 1) + [0];
  }

  /** All fifteen bytes are out. */
  lemma Filled(v: nat, digits: seq<int>, val: seq<Byte>, sta: nat, hval: nat, bit: nat)
    requires BitState(v, digits, val, sta, hval, bit, KEPT)
    ensures val == Bytes(v, KEPT) + [0] && v >= TWO_119 && DigitCount(Shift(v, 256, KEPT)) == |digits| - sta
  {
    assert Shift(v, 256, KEPT) == BigEndian(digits);
    assert Zeros(1) == [0];
  }

  /** One turn of the bit loop: a halving, and the bit it gives. */
  method TakeNext(calv: array<int>, nlen: nat, val: array<Byte>, sta0: nat, hval0: nat, bit0: nat, olen0: nat,
                  ghost v: nat)
      returns (sta: nat, hval: int, bit: int, olen: nat)
    requires sta0 < nlen <= calv.Length && val.Length == NUMERIC_LEN && olen0 < KEPT < NUMERIC_LEN
    requires BitState(v, calv[..nlen], val[..], sta0, hval0, bit0, olen0)
    modifies calv, val
    ensures sta <= nlen && olen <= KEPT && hval >= 0 && bit >= 0
    ensures BitState(v, calv[..nlen], val[..], sta, hval, bit, olen)
    ensures BigEndian(old(calv[..nlen])) >= 2 * BigEndian(calv[..nlen]) >= 0
    ensures BigEndian(calv[..nlen]) == 0 ==> sta == nlen
  {
    hide *;
    ghost var was, val0 := calv[..nlen], val[..];
    StateGivesHalvePre(v, was, val0, sta0, hval0, bit0, olen0);
    var dig;
    sta, dig := Halve(calv, nlen, sta0);
    BitStep(v, was, calv[..nlen], val0, sta0, sta, hval0, bit0, olen0, dig);
    olen := olen0;
    hval := if dig > 0 then hval0 + bit0 else hval0;
    bit := bit0 * 2;
    if bit >= 256 {
      val[olen] := hval;
      assert val[..] == val0[olen := hval as Byte];
      olen := olen + 1;
      hval, bit := 0, 1;
    }
  }

  /** The bit loop: fills at most fifteen bytes of val, eight halvings to a byte.  `full` says that the
      fifteenth byte was completed, in which case digits from sta on may be unread. */
  method HalveToBytes(calv: array<int>, nlen: nat, val: array<Byte>, ghost v: nat) returns (sta: nat, full: bool)
    requires nlen <= calv.Length && val.Length == NUMERIC_LEN
    requires IsDigits(calv[..nlen], 10) && BigEndian(calv[..nlen]) == v
    requires val[..] == Zeros(NUMERIC_LEN)
    modifies calv, val
    ensures sta <= nlen && val[..] == Bytes(v, KEPT) + [0]
    ensures full <==> v >= TWO_119
    ensures full ==> DigitCount(Shift(v, 256, KEPT)) == nlen - sta
  {
    assert KEPT < NUMERIC_LEN;
    hide *;
    BitStart(calv[..nlen], val[..]);
    var hval, bit, olen := 0, 1, 0;
    sta := 0;
    while sta < nlen && olen < KEPT
      invariant sta <= nlen && 0 <= olen <= KEPT && 0 <= hval && 0 <= bit
      invariant BitState(v, calv[..nlen], val[..], sta, hval, bit, olen)
      decreases BigEndian(calv[..nlen]), nlen - sta
    {
      sta, hval, bit, olen := TakeNext(calv, nlen, val, sta, hval, bit, olen, v);
    }
    full := olen >= KEPT;
    if full {
      Filled(v, calv[..nlen], val[..], sta, hval, bit);
    } else {
      ghost var val0 := val[..];
      LastByte(v, calv[..nlen], val0, hval, bit, olen);
      if hval > 0 {
        val[olen] := hval;
        assert val[..] == val0[olen := hval as Byte];
      }
    }
  }

  lemma StateGivesHalvePre(v: nat, digits: seq<int>, val: seq<Byte>, sta: nat, hval: nat, bit: nat, olen: nat)
    requires BitState(v, digits, val, sta, hval, bit, olen)
    ensures IsDigits(digits, 10) && forall k :: 0 <= k < sta ==> digits[k] == 0
  {
  }

  /** The whole conversion.  It overruns the digit buffer exactly when there are more than 48 digits. */
  method ConvertToNumeric(text: string, ns: SqlNumericStruct) returns (overrun: bool)
    requires ns.val.Length == NUMERIC_LEN
    modifies ns, ns.val
    ensures overrun <==> |ReadDecimal(text).digits| > DIGIT_BUFFER
    ensures !overrun ==> ns.Value() == Encode(text)
  {
    hide ReadDecimal, Encode, DigitInteger, BigEndian, Bytes, Shift, DigitCount, ReadDigits, AfterSpaces, AfterZeros,
      AfterSign, SaysNegative, IsDigits, Zeros, Pow;
    DecimalIs(text);
    EncodeIs(text);
    var calv := new int[DIGIT_BUFFER];
    var negative, start := ScanPrefix(text);
    ns.sign := if negative then 0 else 1;
    var nlen, scale;
    nlen, scale, overrun := ScanDigits(text, start, calv);
    if overrun {
      return;
    }
    ns.precision := nlen;
    ns.scale := scale;
    forall k | 0 <= k < ns.val.Length { ns.val[k] := 0; }
    assert ns.val[..] == Zeros(NUMERIC_LEN) by { ZerosAre(ns.val[..]); }
    assert calv[..nlen] == ReadDecimal(text).digits;
    var sta, full := HalveToBytes(calv, nlen, ns.val, DigitInteger(text));
    if full {
      ns.scale := sta - ns.precision;
    }
  }

  lemma ZerosAre(s: seq<Byte>)
    requires |s| == NUMERIC_LEN && forall k :: 0 <= k < |s| ==> s[k] == 0
    ensures s == Zeros(NUMERIC_LEN)
  {
  }

  lemma DecimalIs(text: string)
    ensures var t := AfterSpaces(text);
      var r := ReadDigits(AfterZeros(AfterSign(t)), false);
      ReadDecimal(text) == Decimal(SaysNegative(t), r.0, r.1) && IsDigits(r.0, 10)
  {
  }

  lemma EncodeIs(text: string)
    ensures var d, v := ReadDecimal(text), DigitInteger(text);
      && v == BigEndian(d.digits) && NUMERIC_LEN == KEPT + 1
      && Encode(text) == Numeric(if d.negative then 0 else 1, |d.digits|,
           if v < TWO_119 then d.scale else -(DigitCount(Shift(v, 256, KEPT)) as int), Bytes(v, KEPT) + [0])
  {
    assert DigitInteger(text) == BigEndian(ReadDecimal(text).digits);
  }
}

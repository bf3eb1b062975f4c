/** The loops of ResolveNumericParam: base 256 to base 10 in a fixed buffer of forty digits. */
module NumericResolve {
  import opened Positional
  import opened NumericRead
  import opened NumericPrint

  /** Multiplying by 256 keeps every intermediate number below ten to this power. */
  const TOP: nat := 39

  // ---------------------------------------------------------------- carries

  /** The largest value a cell can hold while the carry loop stands at k and additions reached up to `top`. */
  function Cap(i: int, k: int, top: int): int {
    if i < k then 9 else if i == k then (if k <= top then 19 else 10) else if i <= top then 18 else 9
  }

  ghost predicate CarryState(v: nat, s: seq<int>, k: nat, top: nat, len: nat) {
    && |s| == CALV && v < Pow(10, TOP) && LittleEndian(s, 10) == v
    && top < CALV && len <= CALV
    && (forall i :: 0 <= i < CALV ==> 0 <= s[i] <= Cap(i, k, top))
    && (forall i :: len <= i < CALV && (i < k || (i > top && i > k)) ==> s[i] == 0)
  }

  /** Settled: one decimal digit to a cell, all of them below len. */
  ghost predicate Settled(v: nat, s: seq<int>, len: nat) {
    && |s| == CALV && len <= CALV && IsDigits(s, 10) && LittleEndian(s, 10) == v
    && (forall i :: len <= i < CALV ==> s[i] == 0)
    && (len > 0 ==> Pow(10, len - 1) <= v)
  }

  lemma CellAtLeast(c: nat, m: nat, k: nat, v: int)
    requires v >= c * Pow(10, k) && c >= m
    ensures v >= m * Pow(10, k)
  {
    MulMonotone(Pow(10, k), m, c);
  }

  /** A cell that is not empty shows how big the number is. */
  lemma CellBounds(v: nat, s: seq<int>, k: nat, top: nat, len: nat)
    requires CarryState(v, s, k, top, len) && k < CALV
    ensures s[k] > 0 ==> k < TOP && Pow(10, k) <= v
    ensures s[k] > 9 ==> k + 1 < TOP
  {
    assert forall i :: 0 <= i < |s| ==> 0 <= s[i];
    assert v < Pow(10, TOP) && LittleEndian(s, 10) == v;
    PowStep(10, k);
    hide *;
    LittleEndianAtLeast(s, k, 10);
    if s[k] > 0 {
      CellAtLeast(s[k], 1, k, v);
      if k >= TOP {
        PowMonotone(10, TOP, k);
      }
    }
    if s[k] > 9 {
      CellAtLeast(s[k], 10, k, v);
    }
  }

  function Carried(s: seq<int>, k: nat): (r: seq<int>)
    requires k + 1 < |s|
  {
    s[k + 1 := s[k + 1] + 1][k := s[k] - 10]
  }

  /** Ten in one cell are one in the next. */
  lemma CarryOne(s: seq<int>, k: nat)
    requires k + 1 < |s|
    ensures LittleEndian(Carried(s, k), 10) == LittleEndian(s, 10)
  {
    hide LittleEndian, Pow;
    PowStep(10, k);
    LittleEndianUpdate(s, k + 1, s[k + 1] + 1, 10);
    LittleEndianUpdate(s[k + 1 := s[k + 1] + 1], k, s[k] - 10, 10);
  }

  lemma CarryMove(v: nat, s: seq<int>, k: nat, top: nat, len: nat)
    requires CarryState(v, s, k, top, len) && k + 1 < CALV && (s[k] > 0 ==> k < len)
    ensures s[k] <= 9 ==> CarryState(v, s, k + 1, top, len)
    ensures s[k] > 9 ==> s[k + 1] < 19 && s[k] < 20 && CarryState(v, Carried(s, k), k + 1, top, len)
  {
    hide Pow, LittleEndian;
    CarryOne(s, k);
  }

  lemma CarryDone(v: nat, s: seq<int>, k: nat, top: nat, len: nat)
    requires CarryState(v, s, k, top, len) && top <= k < CALV && s[k] <= 9 && (s[k] > 0 ==> k < len)
    requires len > 0 ==> Pow(10, len - 1) <= v
    ensures Settled(v, s, len)
  {
    hide Pow, LittleEndian;
  }

  /** The carry loop: from `start` on, and at least up to `top`. */
  method Settle(calv: array<Byte>, start: nat, top: nat, len0: nat, ghost v: nat) returns (len: nat)
    requires calv.Length == CALV && start <= top && CarryState(v, calv[..], start, top, len0)
    requires len0 > 0 ==> Pow(10, len0 - 1) <= v
    modifies calv
    ensures Settled(v, calv[..], len) && len >= len0
    ensures calv[..start] == old(calv[..start])
  {
    assert top < CALV && TOP < CALV;
    hide CarryState, Settled, Pow, LittleEndian, Cap;
    len := len0;
    var k := start;
    while true
      invariant start <= k < CALV && len0 <= len
      invariant CarryState(v, calv[..], k, top, len)
      invariant len > 0 ==> Pow(10, len - 1) <= v
      invariant calv[..start] == old(calv[..start])
      decreases CALV - k
    {
      ghost var s: seq<int>, len1 := calv[..], len;
      var nextFigure := false;
      CellBounds(v, s, k, top, len);
      if calv[k] > 0 {
        if k >= len {
          len := k + 1;
        }
        CarryLen(v, s, k, top, len1, len);
        while calv[k] > 9
          invariant if nextFigure then k + 1 < CALV && calv[..] == Carried(s, k) && s[k] > 9 else calv[..] == s
          invariant nextFigure ==> calv[k] <= 9
          decreases calv[k]
        {
          CarryMove(v, s, k, top, len);
          calv[k + 1] := calv[k + 1] + 1;
          calv[k] := calv[k] - 10;
          nextFigure := true;
        }
      }
      if k >= top && !nextFigure {
        CarryDone(v, s, k, top, len);
        break;
      }
      CarryMove(v, s, k, top, len);
      k := k + 1;
    }
  }

  lemma CarryLen(v: nat, s: seq<int>, k: nat, top: nat, len: nat, len': nat)
    requires CarryState(v, s, k, top, len) && k < CALV && (len' == len || len < len' == k + 1)
    ensures CarryState(v, s, k, top, len')
  {
  }

  // ---------------------------------------------------------------- times 256

  /** n times 256 in progress: the digits from j on are done, those below j still count once. */
  ghost predicate MulState(n: nat, s: seq<int>, j: nat, len: nat) {
    && 256 * n < Pow(10, TOP) && j <= 37
    && (exists v: nat :: Settled(v, s, len) && v + 255 * LittleEndian(s[..j], 10) == 256 * n)
  }

  lemma MulStart(n: nat, s: seq<int>, len: nat)
    requires Settled(n, s, len) && 256 * n < Pow(10, TOP)
    ensures len <= 37 && MulState(n, s, len, len)
  {
    hide Pow, LittleEndian;
    LengthLeavesRoom(n, len);
    assert s == s[..len] + s[len..];
    LittleEndianConcat(s[..len], s[len..], 10);
    LittleEndianZeros(s[len..], 10);
    assert n + 255 * LittleEndian(s[..len], 10) == 256 * n;
  }

  lemma LengthLeavesRoom(n: nat, len: nat)
    requires 256 * n < Pow(10, TOP) && (len > 0 ==> Pow(10, len - 1) <= n)
    ensures len <= 37
  {
    assert Pow(10, 2) == 100;
    hide Pow;
    PowAdd(10, 37, 2);
    if len > 37 {
      PowMonotone(10, 37, len - 1);
      assert false;
    }
  }

  function Scaled(s: seq<int>, j: nat): (r: seq<int>)
    requires j + 3 < |s| && s[j] >= 0
  {
    var x := 256 * s[j];
    var y := x / 10;
    var z := y / 10;
    s[j := x % 10][j + 1 := s[j + 1] + y % 10][j + 2 := s[j + 2] + z % 10][j + 3 := s[j + 3] + z / 10]
  }

  /** Scaling one digit adds 255 times that digit. */
  lemma ScaledValue(s: seq<int>, j: nat)
    requires j + 3 < |s| && s[j] >= 0
    ensures LittleEndian(Scaled(s, j), 10) == LittleEndian(s, 10) + 255 * (s[j] * Pow(10, j))
  {
    hide LittleEndian, Pow;
    var x, p := 256 * s[j], Pow(10, j);
    var y := x / 10;
    var z := y / 10;
    var s1 := s[j := x % 10];
    var s2 := s1[j + 1 := s1[j + 1] + y % 10];
    var s3 := s2[j + 2 := s2[j + 2] + z % 10];
    LittleEndianUpdate(s, j, x % 10, 10);
    LittleEndianUpdate(s1, j + 1, s1[j + 1] + y % 10, 10);
    LittleEndianUpdate(s2, j + 2, s2[j + 2] + z % 10, 10);
    LittleEndianUpdate(s3, j + 3, s3[j + 3] + z / 10, 10);
    PowStep(10, j);
    PowStep(10, j + 1);
    PowStep(10, j + 2);
    assert x == x % 10 + 10 * (y % 10) + 100 * (z % 10) + 1000 * (z / 10);
    ProductOfSum(x % 10, y % 10, z % 10, z / 10, p);
    Distribute(x % 10, s[j], p);
  }

  lemma Distribute(a: int, c: int, p: int)
    ensures (a - c) * p == a * p - c * p && (256 * c) * p == 256 * (c * p)
  {
  }

  lemma ProductOfSum(a: int, b: int, c: int, d: int, p: int)
    ensures (a + 10 * b + 100 * c + 1000 * d) * p ==
      a * p + b * (10 * p) + c * (10 * (10 * p)) + d * (10 * (10 * (10 * p)))
  {
  }

  /** One digit of the multiplication, before its carries: the number v the cells now hold. */
  lemma MulDigit(n: nat, s: seq<int>, j: nat, len: nat) returns (v: nat)
    requires MulState(n, s, j + 1, len) && |s| == CALV && s[j] > 0
    ensures s[j] <= 9 && CarryState(v, Scaled(s, j), j, j + 3, len) && (len > 0 ==> Pow(10, len - 1) <= v)
    ensures v + 255 * LittleEndian(s[..j], 10) == 256 * n && Scaled(s, j)[..j] == s[..j]
    ensures forall i :: j < i <= j + 3 ==> s[i] <= 9
  {
    hide LittleEndian, Pow;
    var w: nat :| Settled(w, s, len) && w + 255 * LittleEndian(s[..j + 1], 10) == 256 * n;
    ScaledValue(s, j);
    assert s[..j + 1] == s[..j] + [s[j]];
    LittleEndianAppend(s[..j], s[j], 10);
    LittleEndianNonNegative(s[..j], 10);
    var p := s[j] * Pow(10, j);
    assert p >= 0;
    v := w + 255 * p;
  }

  lemma MulSkip(n: nat, s: seq<int>, j: nat, len: nat)
    requires MulState(n, s, j + 1, len) && |s| == CALV && s[j] == 0
    ensures MulState(n, s, j, len)
  {
    var w: nat :| Settled(w, s, len) && w + 255 * LittleEndian(s[..j + 1], 10) == 256 * n;
    hide LittleEndian, Pow;
    assert s[..j + 1] == s[..j] + [0];
    LittleEndianAppend(s[..j], 0, 10);
    assert w + 255 * LittleEndian(s[..j], 10) == 256 * n;
  }

  method Times256(calv: array<Byte>, len0: nat, ghost n: nat) returns (len: nat)
    requires calv.Length == CALV && Settled(n, calv[..], len0) && 256 * n < Pow(10, TOP)
    modifies calv
    ensures Settled(256 * n, calv[..], len)
  {
    hide Settled, CarryState, Pow, LittleEndian, Cap, MulState;
    MulStart(n, calv[..], len0);
    len := len0;
    for j := len0 downto 0
      invariant j <= 37 && MulState(n, calv[..], j, len)
    {
      ghost var s: seq<int> := calv[..];
      if calv[j] == 0 {
        MulSkip(n, s, j, len);
        continue;
      }
      ghost var v := MulDigit(n, s, j, len);
      ScaleCell(calv, j);
      len := Settle(calv, j, j + 3, len, v);
      MulCarried(n, calv[..], j, len, v);
    }
    MulDone(n, calv[..], len);
  }

  /** One cell times 256, spread over four. */
  method ScaleCell(calv: array<Byte>, j: nat)
    requires j + 3 < calv.Length && calv[j] <= 9 && forall i :: j < i <= j + 3 ==> calv[i] <= 9
    modifies calv
    ensures calv[..] == Scaled(old(calv[..]), j)
  {
    var ival: int := calv[j] as int * 256;
    calv[j] := ival % 10;
    ival := ival / 10;
    calv[j + 1] := calv[j + 1] + ival % 10;
    ival := ival / 10;
    calv[j + 2] := calv[j + 2] + ival % 10;
    ival := ival / 10;
    calv[j + 3] := calv[j + 3] + ival;
  }

  lemma MulCarried(n: nat, s: seq<int>, j: nat, len: nat, v: nat)
    requires Settled(v, s, len) && j <= 37 && 256 * n < Pow(10, TOP)
    requires v + 255 * LittleEndian(s[..j], 10) == 256 * n
    ensures MulState(n, s, j, len)
  {
  }

  lemma MulDone(n: nat, s: seq<int>, len: nat)
    requires MulState(n, s, 0, len)
    ensures Settled(256 * n, s, len)
  {
    assert LittleEndian(s[..0], 10) == 0;
  }

  // ---------------------------------------------------------------- the byte loop

  function Added(s: seq<int>, b: nat): (r: seq<int>)
    requires |s| > 2
  {
    var y := b / 10;
    s[0 := s[0] + b % 10][1 := s[1] + y % 10][2 := s[2] + y / 10]
  }

  lemma AddedState(s: seq<int>, b: Byte, v: nat, len: nat)
    requires Settled(v, s, len) && v + b < Pow(10, TOP)
    ensures CarryState(v + b, Added(s, b), 0, 2, len) && s[0] <= 9 && s[1] <= 9 && s[2] <= 9
    ensures len > 0 ==> Pow(10, len - 1) <= v
  {
    hide LittleEndian, Pow;
    var y := b / 10;
    var s1 := s[0 := s[0] + b % 10];
    var s2 := s1[1 := s1[1] + y % 10];
    LittleEndianUpdate(s, 0, s[0] + b % 10, 10);
    LittleEndianUpdate(s1, 1, s1[1] + y % 10, 10);
    LittleEndianUpdate(s2, 2, s2[2] + y / 10, 10);
    PowZero(10);
    PowStep(10, 0);
    PowStep(10, 1);
  }

  method AddByte(calv: array<Byte>, len0: nat, b: Byte, ghost v: nat) returns (len: nat)
    requires calv.Length == CALV && Settled(v, calv[..], len0) && v + b < Pow(10, TOP)
    modifies calv
    ensures Settled(v + b, calv[..], len)
  {
    hide Settled, CarryState, Pow, LittleEndian, Cap;
    len := len0;
    ghost var s: seq<int> := calv[..];
    if b != 0 {
      AddedState(s, b, v, len0);
      var ival: int := b;
      calv[0] := calv[0] + ival % 10;
      ival := ival / 10;
      calv[1] := calv[1] + ival % 10;
      ival := ival / 10;
      calv[2] := calv[2] + ival;
      assert calv[..] == Added(s, b);
      len := Settle(calv, 0, 2, len0, v + b);
    }
  }

  lemma RoomBelowTop()
    ensures Pow(256, NUMERIC_LEN) < Pow(10, TOP)
  {
    assert Pow(256, 4) == 4294967296 && Pow(10, 8) == 100000000 && Pow(10, 7) == 10000000;
    hide Pow;
    PowAdd(256, 4, 4);
    PowAdd(256, 8, 8);
    PowAdd(10, 8, 8);
    PowAdd(10, 16, 16);
    PowAdd(10, 32, 7);
  }

  /** Sixteen bytes stay below ten to the 39th, before and after every step. */
  lemma RoomForBytes(val: seq<Byte>, i: nat)
    requires i < |val| <= NUMERIC_LEN
    ensures var n := LittleEndian(val[i + 1..], 256);
      n >= 0 && LittleEndian(val[i..], 256) == val[i] + 256 * n && 256 * n + val[i] < Pow(10, TOP)
  {
    assert val[i..][1..] == val[i + 1..];
    RoomBelowTop();
    hide Pow;
    LittleEndianBound(val[i..], 256);
    LittleEndianNonNegative(val[i + 1..], 256);
    PowMonotone(256, |val[i..]|, NUMERIC_LEN);
  }

  /** The nested loops of the large path: calv becomes the decimal digits of the first vlen bytes. */
  method ToDecimal(val: array<Byte>, vlen: nat, calv: array<Byte>) returns (len: nat)
    requires vlen <= val.Length == NUMERIC_LEN && calv.Length == CALV && calv != val
    modifies calv
    ensures LittleEndian(val[..vlen], 256) >= 0 && Settled(LittleEndian(val[..vlen], 256), calv[..], len)
    ensures val[..] == old(val[..])
  {
    len := 0;
    forall k | 0 <= k < CALV { calv[k] := 0; }
    ghost var bytes := val[..vlen];
    assert bytes[vlen..] == [];
    LittleEndianZeros(calv[..], 10);
    assert Settled(LittleEndian(bytes[vlen..], 256), calv[..], 0);
    hide Settled, Pow, LittleEndian;
    for i := vlen downto 0
      invariant val[..] == old(val[..]) && val[..vlen] == bytes
      invariant LittleEndian(bytes[i..], 256) >= 0 && Settled(LittleEndian(bytes[i..], 256), calv[..], len)
    {
      RoomForBytes(bytes, i);
      ghost var n := LittleEndian(bytes[i + 1..], 256);
      len := Times256(calv, len, n);
      assert val[i] == bytes[i];
      len := AddByte(calv, len, val[i], 256 * n);
    }
    assert bytes[0..] == bytes;
  }

  // ---------------------------------------------------------------- the text

  lemma DigitTextAppend(ds: seq<int>, d: int)
    requires IsDigits(ds, 10) && 0 <= d < 10
    ensures DigitText(ds + [d]) == DigitText(ds) + [(d + '0' as int) as char]
  {
  }

  /** The cells are the digits that the text shows. */
  lemma CellsAreDigits(v: nat, s: seq<int>, len: nat, width: nat)
    requires Settled(v, s, len) && width <= CALV
    ensures len == DigitCount(v) && (len == 0 <==> v == 0)
    ensures forall k :: 0 <= k < width ==> Padded(v, width)[width - 1 - k] == s[k]
  {
    DecimalsUnique(s);
    DecimalsPrefix(v, width, CALV);
    assert s == s[..len] + s[len..];
    LittleEndianConcat(s[..len], s[len..], 10);
    LittleEndianZeros(s[len..], 10);
    LittleEndianBound(s[..len], 10);
    DigitCountUnique(v, len);
    hide DigitCount, LittleEndian, Pow, Decimals;
    assert Decimals(v, CALV)[..width] == s[..width];
  }

  lemma LargeShape(negative: bool, v: nat, scale: nat, width: nat)
    requires width == if DigitCount(v) <= scale then scale + 1 else DigitCount(v)
    ensures var all := Padded(v, width);
      var front := (if negative then "-" else "") + DigitText(all[..width - scale]);
      var text := if scale > 0 then front + "." + DigitText(all[width - scale..]) else front;
      LargeText(negative, v, scale) == if v == 0 then text + "0" else text
  {
    hide Padded, DigitCount, DigitText, FixedBody, LargeText;
    var all := Padded(v, width);
    BodyIs(v, scale, width);
    Regroup(if negative then "-" else "", DigitText(all[..width - scale]), scale > 0,
            DigitText(all[width - scale..]), v == 0);
    LargeIs(negative, v, scale);
  }

  lemma BodyIs(v: nat, scale: nat, width: nat)
    requires width == if DigitCount(v) <= scale then scale + 1 else DigitCount(v)
    ensures var all := Padded(v, width);
      scale <= width && FixedBody(v, scale)
        == DigitText(all[..width - scale]) + (if scale > 0 then "." + DigitText(all[width - scale..]) else "")
           + (if v == 0 then "0" else "")
  {
    hide Padded, DigitCount, DigitText;
  }

  lemma LargeIs(negative: bool, v: nat, scale: nat)
    ensures LargeText(negative, v, scale) == (if negative then "-" else "") + FixedBody(v, scale)
  {
    hide FixedBody;
  }

  lemma Regroup(sign: string, whole: string, dot: bool, part: string, zero: bool)
    ensures var front := sign + whole;
      var text := if dot then front + "." + part else front;
      sign + (whole + (if dot then "." + part else "") + (if zero then "0" else "")) ==
        if zero then text + "0" else text
  {
  }

  method SelectBytes(precision: nat, limit: nat) returns (vlen: nat)
    requires limit <= NUMERIC_LEN
    ensures vlen == BytesFrom(0, limit, precision)
  {
    vlen := 0;
    while vlen < limit && Prec(vlen) <= precision
      invariant vlen <= limit && BytesFrom(vlen, limit, precision) == BytesFrom(0, limit, precision)
    {
      vlen := vlen + 1;
    }
  }

  method ResolveLarge(ns: SqlNumericStruct) returns (r: Outcome)
    requires ns.val.Length == NUMERIC_LEN && ns.precision >= 10
    ensures r == if 0 <= ns.scale < CALV then
      Printed(LargeText(ns.sign == 0, Selected(ns.Value(), NUMERIC_LEN), ns.scale))
                 else OutsideCells(if ns.scale < 0 then -1 else ns.scale)
  {
    assert NUMERIC_LEN <= 16;
    ghost var v := Selected(ns.Value(), NUMERIC_LEN);
    ghost var n := BytesFrom(0, NUMERIC_LEN, ns.precision);
    assert ns.val[..][..n] == ns.val[..n];
    assert v == LittleEndian(ns.val[..n], 256);
    hide Selected, LargeText, Padded, Prec, BytesFrom, DigitText, Settled, DigitCount, LittleEndian, IsDigits;
    var vlen := SelectBytes(ns.precision, NUMERIC_LEN);
    var calv := new Byte[CALV];
    var len := ToDecimal(ns.val, vlen, calv);
    r := Emit(ns.sign == 0, calv, len, ns.scale, v);
  }

  lemma SettledLength(v: nat, s: seq<int>, len: nat)
    requires Settled(v, s, len)
    ensures len <= CALV
  {
    hide LittleEndian, Pow;
  }

  /** The cells from i down to `stop` as characters, unless one of them is not there. */
  method EmitCells(text: string, calv: array<Byte>, ghost all: seq<int>, start: int, stop: int)
      returns (r: string, i: int, outside: bool)
    requires start >= -1 && IsDigits(all, 10) && |all| <= calv.Length
    requires forall k :: 0 <= k < |all| ==> all[|all| - 1 - k] == calv[k]
    requires 0 <= stop <= start < calv.Length ==> start < |all|
    ensures outside <==> stop <= start && (stop < 0 || start >= calv.Length)
    ensures outside ==> i == if start >= calv.Length then start else -1
    ensures !outside && stop <= start ==> r == text + DigitText(all[|all| - 1 - start..|all| - stop]) && i == stop - 1
    ensures stop > start ==> r == text && i == start
  {
    r, i := text, start;
    assert text + DigitText([]) == text;
    while i >= stop
      invariant stop <= start ==> stop - 1 <= i <= start
      invariant stop > start ==> i == start && r == text
      invariant i < start ==> start < calv.Length && i >= -1
      invariant 0 <= stop <= start < calv.Length ==> r == text + DigitText(all[|all| - 1 - start..|all| - 1 - i])
      decreases i - stop
    {
      if i < 0 || i >= calv.Length {
        return r, i, true;
      }
      if 0 <= stop {
        assert all[|all| - 1 - i] == calv[i];
        DigitTextAppend(all[|all| - 1 - start..|all| - 1 - i], calv[i]);
        assert all[|all| - 1 - start..|all| - i] == all[|all| - 1 - start..|all| - 1 - i] + [all[|all| - 1 - i]];
      }
      r := r + [(calv[i] + '0' as int) as char];
      i := i - 1;
    }
    outside := false;
  }

  /** The printing loop.  From ten digits on it leaves the forty cells exactly for scales below zero and from forty
      on. */
  method Emit(negative: bool, calv: array<Byte>, len: nat, scale: int, ghost v: nat) returns (r: Outcome)
    requires calv.Length == CALV && Settled(v, calv[..], len)
    ensures r == if 0 <= scale < CALV then Printed(LargeText(negative, v, scale))
                 else OutsideCells(if scale < 0 then -1 else scale)
  {
    hide *;
    SettledLength(v, calv[..], len);
    if 0 <= scale < CALV {
      var chrform := EmitInside(negative, calv, len, scale, v);
      return Printed(chrform);
    }
    NoDigits();
    var chrform, i, outside := EmitCells("", calv, [], if len - 1 < scale then scale else len - 1, scale);
    return OutsideCells(i);
  }

  lemma NoDigits()
    ensures IsDigits([], 10)
  {
  }

  method EmitInside(negative: bool, calv: array<Byte>, len: nat, scale: nat, ghost v: nat) returns (chrform: string)
    requires calv.Length == CALV && scale < CALV && Settled(v, calv[..], len)
    ensures chrform == LargeText(negative, v, scale)
  {
    hide *;
    SettledLength(v, calv[..], len);
    ghost var width := if len <= scale then scale + 1 else len;
    CellsAreDigits(v, calv[..], len, width);
    LargeShape(negative, v, scale, width);
    ghost var all := Padded(v, width);
    chrform := EmitWhole(if negative then "-" else "", calv, all, if len - 1 < scale then scale else len - 1, scale);
    chrform := EmitPart(chrform, calv, all, scale - 1, scale);
    if len == 0 {
      chrform := chrform + "0";
    }
  }

  /** The digits in front of the dot. */
  method EmitWhole(sign: string, calv: array<Byte>, ghost all: seq<int>, start: nat, scale: nat) returns (r: string)
    requires IsDigits(all, 10) && scale <= start == |all| - 1 < calv.Length
    requires forall k :: 0 <= k < |all| ==> all[|all| - 1 - k] == calv[k]
    ensures r == sign + DigitText(all[..|all| - scale])
  {
    hide DigitText;
    assert all[|all| - 1 - start..|all| - scale] == all[..|all| - scale];
    var i, outside;
    r, i, outside := EmitCells(sign, calv, all, start, scale);
  }

  /** The dot and the digits behind it. */
  method EmitPart(front: string, calv: array<Byte>, ghost all: seq<int>, i: int, scale: nat) returns (r: string)
    requires scale < calv.Length && i == scale - 1 && IsDigits(all, 10) && scale <= |all| <= calv.Length
    requires forall k :: 0 <= k < |all| ==> all[|all| - 1 - k] == calv[k]
    ensures r == if scale > 0 then front + "." + DigitText(all[|all| - scale..]) else front
  {
    hide DigitText;
    if scale == 0 {
      return front;
    }
    assert all[|all| - 1 - i..|all|] == all[|all| - scale..];
    var last, outside;
    r, last, outside := EmitCells(front + ".", calv, all, i, 0);
  }

  // ---------------------------------------------------------------- precision below ten

  /** 32-bit accumulation may wrap early or late. */
  lemma WrapAdd(x: int, y: int)
    ensures Wrap32(Wrap32(x) + y) == Wrap32(x + y)
  {
    var m := 0x1_0000_0000;
    var q := (x + 0x8000_0000) / m;
    assert Wrap32(x) == x - m * q;
    assert Wrap32(x) + y + 0x8000_0000 == x + y + 0x8000_0000 + m * (-q);
    ModShift(x + y + 0x8000_0000, m, -q);
  }

  lemma ModShift(a: int, m: nat, k: int)
    requires m > 0
    ensures (a + m * k) % m == a % m
  {
    var d := (a + m * k) / m - a / m - k;
    assert m * d == a % m - (a + m * k) % m;
    if d >= 1 {
      MulMonotone(m, 1, d);
    } else if d <= -1 {
      MulMonotone(m, d, -1);
    }
  }

  /** ival: the little-endian bytes, added up in 32 bits. */
  method AddUp(val: array<Byte>, precision: nat) returns (ival: int)
    requires val.Length == NUMERIC_LEN
    ensures ival == Wrap32(LittleEndian(val[..BytesFrom(0, 4, precision)], 256))
  {
    hide LittleEndian, Pow, Wrap32, Prec;
    var limit := 4;
    ghost var bytes: seq<int> := val[..];
    var i, unit := 0, 1;
    ival := 0;
    PowZero(256);
    WrapOfNothing(bytes[..0]);
    while i < limit && Prec(i) <= precision
      invariant i <= limit && unit == Pow(256, i)
      invariant BytesFrom(i, limit, precision) == BytesFrom(0, limit, precision)
      invariant ival == Wrap32(LittleEndian(bytes[..i], 256))
    {
      assert bytes[..i + 1] == bytes[..i] + [bytes[i]];
      LittleEndianAppend(bytes[..i], bytes[i], 256);
      WrapAdd(LittleEndian(bytes[..i], 256), bytes[i] * unit);
      PowStep(256, i);
      ival := Wrap32(ival + val[i] * unit);
      unit := 256 * unit;
      i := i + 1;
    }
    assert val[..i] == bytes[..i];
  }

  lemma WrapOfNothing(s: seq<int>)
    requires s == []
    ensures Wrap32(LittleEndian(s, 256)) == 0
  {
  }

  const INT_MAX := 0x7fff_ffff

  /** The divisor, which from ten on does not fit in 32 bits. */
  method TenTo(scale: nat) returns (div: nat, overflow: bool)
    ensures overflow <==> scale >= 10
    ensures !overflow ==> div == Pow(10, scale) > 0
  {
    div := 1;
    NinthPower();
    for k := 0 to scale
      invariant k <= 9 && div == Pow(10, k)
    {
      PowStep(10, k);
      if k < 9 {
        PowMonotone(10, k + 1, 9);
      }
      if div * 10 > INT_MAX {
        return div, true;
      }
      div := div * 10;
    }
    PowPositive(10, scale);
    overflow := false;
  }

  lemma NinthPower()
    ensures Pow(10, 9) == 1_000_000_000
  {
  }

  method ResolveSmall(ns: SqlNumericStruct) returns (r: Outcome)
    requires ns.val.Length == NUMERIC_LEN && ns.precision < 10
    ensures r == if ns.scale < 0 then Unwritten else if ns.scale >= 10 then Overflow
                 else Printed(SmallText(ns.sign == 0, Wrap32(Selected(ns.Value(), 4)), ns.scale))
  {
    hide LittleEndian, Pow, Wrap32, BytesFrom, IntText, Quotient, Remainder;
    var ival := AddUp(ns.val, ns.precision);
    ghost var n := BytesFrom(0, 4, ns.precision);
    assert ns.val[..][..n] == ns.val[..n];
    if ns.scale == 0 {
      if ns.sign == 0 {
        ival := Wrap32(-ival);
      }
      r := Printed(IntText(ival, 1));
    } else if ns.scale < 0 {
      r := Unwritten;
    } else {
      var div, overflow := TenTo(ns.scale);
      if overflow {
        return Overflow;
      }
      var o1val, o2val := Quotient(ival, div), Remainder(ival, div);
      if ns.sign == 0 {
        o1val := Wrap32(-o1val);
      }
      r := Printed(IntText(o1val, 1) + "." + IntText(o2val, ns.scale));
    }
  }

  /** The whole function, for every struct. */
  method ResolveNumericParam(ns: SqlNumericStruct) returns (r: Outcome)
    requires ns.val.Length == NUMERIC_LEN
    ensures r == Resolve(ns.Value())
  {
    if ns.precision == 0 {
      r := Printed("0");
    } else if ns.precision < Prec(4) {
      r := ResolveSmall(ns);
    } else {
      r := ResolveLarge(ns);
    }
  }
}

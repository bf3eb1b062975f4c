/** SQLGetData on character and binary columns: the per-column state of bind.h and the chunking branches of
    copy_and_convert_field. */
module GetData {
  import opened Positional
  import opened Delivery
  import opened PgBinary
  import opened HexCodec

  const LINEFEED: Byte := 10
  const CARRIAGE_RETURN: Byte := 13

  // ---------------------------------------------------------------- line feeds

  /** What the character at place i becomes: a bare line feed gets its carriage return. */
  function Expanded(si: seq<Byte>, i: nat, convlf: bool): (r: seq<Byte>)
    requires i < |si|
    ensures 1 <= |r| <= 2 && (r == [si[i]] || |r| == 2)
  {
    if convlf && si[i] == LINEFEED && !(i > 0 && si[i - 1] == CARRIAGE_RETURN) then [CARRIAGE_RETURN, LINEFEED]
    else [si[i]]
  }

  /** The converted text from place i on. */
  function Linefeeds(si: seq<Byte>, i: nat, convlf: bool): (r: seq<Byte>)
    requires i <= |si|
    ensures |r| >= |si| - i && (|r| == |si| - i ==> r == si[i..])
    decreases |si| - i
  {
    if i == |si| then [] else Expanded(si, i, convlf) + Linefeeds(si, i + 1, convlf)
  }

  /** The conversion of the first n characters. */
  function LinefeedsTo(si: seq<Byte>, n: nat, convlf: bool): (r: seq<Byte>)
    requires n <= |si|
    ensures |r| >= n && (|r| == n ==> r == si[..n])
  {
    if n == 0 then [] else LinefeedsTo(si, n - 1, convlf) + Expanded(si, n - 1, convlf)
  }

  /** Where the conversion stops: at the end, or as soon as max - 1 characters are out; no limit for 0. */
  function Stop(si: seq<Byte>, i: nat, max: nat, convlf: bool): (n: nat)
    requires i <= |si|
    ensures i <= n <= |si|
    decreases |si| - i
  {
    if i == |si| || (max > 0 && |LinefeedsTo(si, i, convlf)| >= max - 1) then i else Stop(si, i + 1, max, convlf)
  }

  function LinefeedsUpTo(si: seq<Byte>, max: nat, convlf: bool): seq<Byte> {
    LinefeedsTo(si, Stop(si, 0, max, convlf), convlf)
  }

  /** convert_linefeeds; without a buffer it only measures. */
  method ConvertLinefeeds(si: seq<Byte>, dst: array?<Byte>, max: nat, convlf: bool) returns (out: nat, changed: bool)
    requires dst != null ==> |LinefeedsUpTo(si, max, convlf)| < dst.Length
    modifies if dst != null then {dst} else {}
    ensures out == |LinefeedsUpTo(si, max, convlf)|
    ensures !changed ==> LinefeedsUpTo(si, max, convlf) == si[..Stop(si, 0, max, convlf)]
    ensures dst != null ==> dst[..out] == LinefeedsUpTo(si, max, convlf) && dst[out] == 0
    ensures dst != null ==> forall k :: out < k < dst.Length ==> dst[k] == old(dst[k])
  {
    hide *;
    out, changed := 0, false;
    var i := 0;
    ghost var n := Stop(si, 0, max, convlf);
    LinefeedsNone(si, convlf);
    UpToIs(si, max, convlf);
    StopStep(si, 0, max, convlf);
    while i < |si| && (max == 0 || out < max - 1)
      invariant i <= n && Stop(si, i, max, convlf) == n
      invariant out == |LinefeedsTo(si, i, convlf)|
      invariant dst != null ==> out < dst.Length && dst[..out] == LinefeedsTo(si, i, convlf)
      invariant dst != null ==> forall k :: out <= k < dst.Length ==> dst[k] == old(dst[k])
      invariant !changed ==> out == i
      decreases |si| - i
    {
      StopStep(si, i, max, convlf);
      LinefeedNext(si, i, convlf);
      LinefeedsGrow(si, i + 1, n, convlf);
      if convlf && si[i] == LINEFEED && !(i > 0 && CARRIAGE_RETURN == si[i - 1]) {
        changed := true;
        if dst != null {
          dst[out] := CARRIAGE_RETURN;
          dst[out + 1] := LINEFEED;
          assert dst[..out + 2] == dst[..out] + [CARRIAGE_RETURN, LINEFEED];
        }
        out := out + 2;
      } else {
        if dst != null {
          dst[out] := si[i];
          assert dst[..out + 1] == dst[..out] + [si[i]];
        }
        out := out + 1;
      }
      i := i + 1;
    }
    StopStep(si, i, max, convlf);
    if !changed {
      LinefeedsPlain(si, i, convlf);
    }
    if dst != null {
      dst[out] := 0;
    }
  }

  lemma LinefeedsNone(si: seq<Byte>, convlf: bool)
    ensures LinefeedsTo(si, 0, convlf) == []
  {
  }

  lemma UpToIs(si: seq<Byte>, max: nat, convlf: bool)
    ensures LinefeedsUpTo(si, max, convlf) == LinefeedsTo(si, Stop(si, 0, max, convlf), convlf)
  {
  }

  lemma StopStep(si: seq<Byte>, i: nat, max: nat, convlf: bool)
    requires i <= |si|
    ensures Stop(si, i, max, convlf) ==
      if i < |si| && (max == 0 || |LinefeedsTo(si, i, convlf)| < max - 1) then Stop(si, i + 1, max, convlf) else i
  {
    hide LinefeedsTo;
  }

  lemma LinefeedNext(si: seq<Byte>, i: nat, convlf: bool)
    requires i < |si|
    ensures LinefeedsTo(si, i + 1, convlf) == LinefeedsTo(si, i, convlf) +
      if convlf && si[i] == LINEFEED && !(i > 0 && CARRIAGE_RETURN == si[i - 1])
      then [CARRIAGE_RETURN, LINEFEED] else [si[i]]
  {
  }

  lemma {:induction false} LinefeedsGrow(si: seq<Byte>, i: nat, n: nat, convlf: bool)
    requires i <= n <= |si|
    ensures |LinefeedsTo(si, i, convlf)| <= |LinefeedsTo(si, n, convlf)|
    decreases n
  {
    if i < n {
      LinefeedsGrow(si, i, n - 1, convlf);
    }
  }

  lemma LinefeedsPlain(si: seq<Byte>, i: nat, convlf: bool)
    requires i <= |si| && |LinefeedsTo(si, i, convlf)| == i
    ensures LinefeedsTo(si, i, convlf) == si[..i]
  {
  }

  lemma {:induction false} LinefeedsSplit(si: seq<Byte>, i: nat, convlf: bool)
    requires i <= |si|
    ensures Linefeeds(si, 0, convlf) == LinefeedsTo(si, i, convlf) + Linefeeds(si, i, convlf)
  {
    if i > 0 {
      LinefeedsSplit(si, i - 1, convlf);
    }
  }

  /** The whole text comes out whenever it leaves room for the terminator, and always without a limit. */
  lemma {:induction false} LinefeedsWhole(si: seq<Byte>, i: nat, max: nat, convlf: bool)
    requires i <= |si| && (max == 0 || |Linefeeds(si, 0, convlf)| < max)
    ensures Stop(si, i, max, convlf) == |si|
    decreases |si| - i
  {
    LinefeedsSplit(si, i, convlf);
    StopStep(si, i, max, convlf);
    if i < |si| {
      LinefeedsWhole(si, i + 1, max, convlf);
    }
  }

  lemma UpToWhole(si: seq<Byte>, max: nat, convlf: bool)
    requires max == 0 || |Linefeeds(si, 0, convlf)| < max
    ensures LinefeedsUpTo(si, max, convlf) == Linefeeds(si, 0, convlf) && Stop(si, 0, max, convlf) == |si|
  {
    LinefeedsWhole(si, 0, max, convlf);
    LinefeedsSplit(si, |si|, convlf);
  }

  /** With a limit, at most max characters come out, so the terminator falls outside a buffer of max bytes in just one
      case: the last character is a bare line feed for which there was room only once. */
  lemma TerminatorOutside(si: seq<Byte>, max: nat, convlf: bool)
    requires max > 0
    ensures var (n, r) := (Stop(si, 0, max, convlf), LinefeedsUpTo(si, max, convlf));
      && |r| <= max
      && (|r| == max <==> n > 0 && |LinefeedsTo(si, n - 1, convlf)| == max - 2 && |Expanded(si, n - 1, convlf)| == 2)
  {
    BeforeStop(si, 0, max, convlf);
  }

  lemma {:induction false} BeforeStop(si: seq<Byte>, i: nat, max: nat, convlf: bool)
    requires i <= |si|
    ensures var n := Stop(si, i, max, convlf);
      n > i && max > 0 ==> |LinefeedsTo(si, n - 1, convlf)| < max - 1
    decreases |si| - i
  {
    hide LinefeedsTo;
    StopStep(si, i, max, convlf);
    if Stop(si, i, max, convlf) > i {
      BeforeStop(si, i + 1, max, convlf);
    }
  }

  /** Behind a byte, every line feed has a carriage return in front of it. */
  predicate Paired(before: Byte, s: seq<Byte>) {
    forall j :: 0 <= j < |s| && s[j] == LINEFEED ==> Prior(before, s, j) == CARRIAGE_RETURN
  }

  function Prior(before: Byte, s: seq<Byte>, j: nat): Byte
    requires j < |s|
  {
    if j == 0 then before else s[j - 1]
  }

  function Before(si: seq<Byte>, i: nat): Byte
    requires i <= |si|
  {
    if i > 0 then si[i - 1] else 0
  }

  lemma {:induction false} LinefeedsPaired(si: seq<Byte>, i: nat)
    requires i <= |si|
    ensures Paired(Before(si, i), Linefeeds(si, i, true))
    decreases |si| - i
  {
    if i < |si| {
      LinefeedsPaired(si, i + 1);
    }
  }

  lemma {:induction false} PairedStays(si: seq<Byte>, i: nat)
    requires i <= |si| && Paired(0, si)
    ensures Linefeeds(si, i, true) == si[i..]
    decreases |si| - i
  {
    if i < |si| {
      PairedStays(si, i + 1);
      assert si[i] == LINEFEED ==> Prior(0, si, i) == CARRIAGE_RETURN;
      assert Expanded(si, i, true) == [si[i]] && si[i..] == [si[i]] + si[i + 1..];
    }
  }

  /** Converting once is enough. */
  lemma LinefeedsOnce(si: seq<Byte>)
    ensures Paired(0, Linefeeds(si, 0, true))
    ensures Linefeeds(Linefeeds(si, 0, true), 0, true) == Linefeeds(si, 0, true)
  {
    LinefeedsPaired(si, 0);
    PairedStays(Linefeeds(si, 0, true), 0);
  }

  /** Carriage returns in front of line feeds taken out. */
  function Bare(s: seq<Byte>): seq<Byte> {
    if s == [] then []
    else if s[0] == CARRIAGE_RETURN && |s| > 1 && s[1] == LINEFEED then Bare(s[1..])
    else [s[0]] + Bare(s[1..])
  }

  /** Nothing but carriage returns in front of line feeds was added. */
  lemma {:induction false} LinefeedsAddOnlyReturns(si: seq<Byte>, i: nat)
    requires i <= |si|
    ensures Bare(Linefeeds(si, i, true)) == Bare(si[i..])
    decreases |si| - i
  {
    if i < |si| {
      LinefeedsAddOnlyReturns(si, i + 1);
      var rest := Linefeeds(si, i + 1, true);
      var r := Expanded(si, i, true) + rest;
      assert si[i..][1..] == si[i + 1..];
      if |Expanded(si, i, true)| == 2 {
        assert r[1..] == [LINEFEED] + rest && ([LINEFEED] + rest)[1..] == rest;
      } else {
        assert r[1..] == rest;
        if i + 1 < |si| {
          assert rest[0] == Expanded(si, i + 1, true)[0];
        }
      }
    }
  }

  // ---------------------------------------------------------------- the column

  /** The value the column converts to as SQL_C_CHAR: binary as hex digits, text with its line feeds. */
  function CharValue(value: seq<Byte>, isBytea: bool, lfConv: bool): seq<Byte>
    requires isBytea ==> WellEscaped(value)
  {
    if isBytea then Hex(FromText(value)) else Linefeeds(value, 0, lfConv)
  }

  class GetDataClass {
    var ttlbuf: array?<Byte>
    var ttlbuflen: nat
    var ttlbufused: nat
    var dataLeft: int

    /** create_empty_gdata. */
    constructor ()
      ensures ttlbuf == null && dataLeft == -1 && ttlbuflen == ttlbufused == 0
    {
      ttlbuf, ttlbuflen, ttlbufused, dataLeft := null, 0, 0, -1;
    }

    /** reset_a_getdata_info. */
    method Reset()
      modifies this
      ensures ttlbuf == null && dataLeft == -1 && ttlbuflen == ttlbufused == 0
    {
      ttlbuf, ttlbuflen, ttlbufused, dataLeft := null, 0, 0, -1;
    }

    /** In the middle of a read the buffer holds the whole value. */
    ghost predicate Reading(total: seq<Byte>)
      reads this, ttlbuf
    {
      && (ttlbuf != null ==> ttlbuf.Length == ttlbuflen)
      && IsLeft(dataLeft, |total|)
      && (dataLeft > 0 ==> ttlbuf != null && ttlbufused == |total| <= ttlbuflen && ttlbuf[..ttlbufused] == total)
    }

    /** The unused end of the buffer in the middle of a read. */
    function Slack(): int
      reads this
    {
      ttlbuflen - ttlbufused
    }

    /** The slack a first call leaves behind: one byte for the terminator, more when an older and longer
        buffer is still there. */
    function FirstSlack(total: seq<Byte>): nat
      reads this
    {
      if ttlbuf != null && ttlbuflen > |total| + 1 then ttlbuflen - |total| else 1
    }

    /** Measures the value and, unless it can be taken straight from the source text, converts it into the
        column's buffer. */
    method PrepareChar(value: seq<Byte>, isBytea: bool, lfConv: bool, cb: nat) returns (len: nat, direct: bool)
      requires (isBytea ==> WellEscaped(value)) && Reading(CharValue(value, isBytea, lfConv))
      modifies this, ttlbuf
      ensures var total := CharValue(value, isBytea, lfConv);
        && len == |total| && dataLeft == old(dataLeft)
        && (cb == 0 ==> ttlbuf == old(ttlbuf) && ttlbuflen == old(ttlbuflen))
        && (cb > 0 && direct ==> ttlbuf == null && total == value && len + 1 <= cb)
        && (cb > 0 && !direct ==> (ttlbuf != null && ttlbuf.Length == ttlbuflen == len + old(FirstSlack(total))
            && ttlbufused == len && ttlbuf[..len] == total && (ttlbuf == old(ttlbuf) || fresh(ttlbuf))))
    {
      hide CharValue, Linefeeds, Hex, FromText, WellEscaped;
      CharCases(value, isBytea, lfConv);
      ghost var total := CharValue(value, isBytea, lfConv);
      var changed;
      if isBytea {
        len := ConvertFromPgBinary(value, null);
        len, changed := 2 * len, true;
      } else {
        UpToWhole(value, 0, lfConv);
        len, changed := ConvertLinefeeds(value, null, 0, lfConv);
        assert value[..|value|] == value;
      }
      direct := false;
      if cb > 0 {
        if ttlbuf == null {
          ttlbuflen := 0;
        }
        var needbuflen := len + 1;
        if changed || needbuflen > cb {
          if needbuflen > ttlbuflen {
            ttlbuf := new Byte[needbuflen];
            ttlbuflen := needbuflen;
          }
          FillChar(value, isBytea, lfConv, len);
          ttlbufused := len;
        } else {
          ttlbuf, direct := null, true;
        }
      }
    }

    /** The filling pass; for binary the hex text is written over the bytes in the same buffer. */
    method FillChar(value: seq<Byte>, isBytea: bool, lfConv: bool, len: nat)
      requires (isBytea ==> WellEscaped(value)) && len == |CharValue(value, isBytea, lfConv)|
      requires ttlbuf != null && len < ttlbuf.Length
      modifies ttlbuf
      ensures ttlbuf[..len] == CharValue(value, isBytea, lfConv)
    {
      hide CharValue, Linefeeds, FromText, WellEscaped;
      CharCases(value, isBytea, lfConv);
      if isBytea {
        var n := ConvertFromPgBinary(value, ttlbuf);
        ghost var bytes := ttlbuf[..];
        assert bytes[0..n] == FromText(value);
        var _ := PgBin2Hex(ttlbuf, 0, 0, n);
        assert ttlbuf[..][0..2 * n] == ttlbuf[..len];
      } else {
        UpToWhole(value, ttlbuf.Length, lfConv);
        var _, _ := ConvertLinefeeds(value, ttlbuf, ttlbuf.Length, lfConv);
      }
    }

    /** The copying half of a call: the piece at ptr goes out, and the buffer is dropped after the last one. */
    method SendChar(ghost total: seq<Byte>, value: seq<Byte>, direct: bool, ptr: nat, len: nat, needbuflen: nat,
                    rgb: array<Byte>, cb: nat) returns (result: Status, copied: nat)
      requires direct ==> value == total
      requires !direct ==> ttlbuf != null && |total| <= ttlbuf.Length && ttlbuf[..|total|] == total
      requires ptr + len == |total| && dataLeft == len && cb <= rgb.Length && rgb != ttlbuf
      modifies this, rgb
      ensures copied == if cb == 0 then 0 else if len >= cb then cb - 1 else len
      ensures copied <= rgb.Length && rgb[..copied] == total[ptr..][..copied] && (cb > 0 ==> rgb[copied] == 0)
      ensures forall k :: (if cb > 0 then copied + 1 else 0) <= k < rgb.Length ==> rgb[k] == old(rgb[k])
      ensures ttlbuflen == old(ttlbuflen) && ttlbufused == old(ttlbufused)
      ensures if cb > 0 && needbuflen > cb then result == Truncated && ttlbuf == old(ttlbuf) && dataLeft == len - copied
              else result == Complete && ttlbuf == null && dataLeft == 0
    {
      copied := 0;
      if cb > 0 {
        copied := if len >= cb then cb - 1 else len;
        if direct {
          CopyText(value, ptr, rgb, copied);
        } else {
          PieceOf(ttlbuf[..], total, ptr, copied);
          CopyBytes(ttlbuf, ptr, rgb, copied);
        }
        rgb[copied] := 0;
        dataLeft := dataLeft - copied;
      }
      if cb > 0 && needbuflen > cb {
        result := Truncated;
      } else {
        ttlbuf := null;
        result := Complete;
      }
      if result == Complete {
        dataLeft := 0;
      }
    }

    /** One SQLGetData call for SQL_C_CHAR. */
    method GetChar(value: seq<Byte>, isBytea: bool, lfConv: bool, rgb: array<Byte>, cb: nat)
        returns (result: Status, pcb: nat, copied: nat)
      requires (isBytea ==> WellEscaped(value)) && Reading(CharValue(value, isBytea, lfConv))
      requires cb <= rgb.Length && rgb != ttlbuf
      modifies this, ttlbuf, rgb
      ensures var total := CharValue(value, isBytea, lfConv);
        var slack := if old(dataLeft) > 0 then old(Slack()) else old(FirstSlack(total));
        && Reading(total) && slack >= 0 && (dataLeft > 0 ==> Slack() == slack)
        && copied <= rgb.Length
        && (Reply(result, rgb[..copied], pcb), dataLeft) == Deliver(total, old(dataLeft), cb, 1, slack)
      ensures result != NoData && cb > 0 ==> copied < cb && rgb[copied] == 0
      ensures forall k :: (if result != NoData && cb > 0 then copied + 1 else 0) <= k < rgb.Length ==>
        rgb[k] == old(rgb[k])
      ensures result != Truncated || (dataLeft < 0 && old(ttlbuf) == null) ==> ttlbuf == null
      ensures result == NoData && old(ttlbuf) != null ==> ttlbuflen == 0
      ensures ttlbuf == null || ttlbuf == old(ttlbuf) || fresh(ttlbuf)
    {
      hide CharValue, Linefeeds, Hex, FromText, WellEscaped, Deliver;
      ghost var total := CharValue(value, isBytea, lfConv);
      ghost var was, slack := dataLeft, if dataLeft > 0 then Slack() else FirstSlack(total);
      DeliverCases(total, was, cb, 1, slack);
      if dataLeft == -2 {
        dataLeft := if cb > 0 then 0 else -1;
      }
      if dataLeft == 0 {
        if ttlbuf != null {
          ttlbuf, ttlbuflen := null, 0;
        }
        dataLeft := -2;
        assert rgb[..0] == [];
        return NoData, 0, 0;
      }
      var direct, ptr, needbuflen := false, 0, 0;
      if dataLeft < 0 {
        pcb, direct := PrepareChar(value, isBytea, lfConv, cb);
        if cb == 0 {
          assert rgb[..0] == [];
          return Truncated, pcb, 0;
        }
        needbuflen := pcb + 1;
        dataLeft := pcb;
      } else {
        ptr := ttlbufused - dataLeft;
        pcb := dataLeft;
        needbuflen := pcb + (ttlbuflen - ttlbufused);
      }
      assert total[ptr..] == Rest(total, Entry(was, cb));
      result, copied := SendChar(total, value, direct, ptr, pcb, needbuflen, rgb, cb);
    }

    /** One SQLGetData call for SQL_C_BINARY on a binary column. */
    method GetBinary(value: seq<Byte>, rgb: array<Byte>, cb: nat) returns (result: Status, pcb: nat, copied: nat)
      requires WellEscaped(value) && Reading(FromText(value))
      requires cb <= rgb.Length && rgb != ttlbuf
      modifies this, ttlbuf, rgb
      ensures var total := FromText(value);
        && Reading(total) && copied <= rgb.Length
        && (Reply(result, rgb[..copied], pcb), dataLeft) == Deliver(total, old(dataLeft), cb, 0, 0)
      ensures forall k :: copied <= k < rgb.Length ==> rgb[k] == old(rgb[k])
      ensures result == Complete || result == NoData ==> ttlbuf == null
      ensures result == NoData && old(ttlbuf) != null ==> ttlbuflen == 0
      ensures ttlbuf == null || ttlbuf == old(ttlbuf) || fresh(ttlbuf)
    {
      hide FromText, WellEscaped, Deliver;
      ghost var total, was := FromText(value), dataLeft;
      DeliverCases(total, was, cb, 0, 0);
      copied := 0;
      assert rgb[..0] == [];
      if dataLeft == -2 {
        dataLeft := if cb > 0 then 0 else -1;
      }
      if dataLeft == 0 {
        if ttlbuf != null {
          ttlbuf, ttlbuflen := null, 0;
        }
        dataLeft := -2;
        return NoData, 0, 0;
      }
      if ttlbuf == null {
        ttlbuflen := 0;
      }
      var ptr := 0;
      if dataLeft < 0 {
        if cb == 0 {
          pcb := ConvertFromPgBinary(value, null);
          return Truncated, pcb, 0;
        }
        if |value| >= ttlbuflen {
          ttlbuf := new Byte[|value| + 1];
          ttlbuflen := |value| + 1;
        }
        pcb := ConvertFromPgBinary(value, ttlbuf);
        ttlbufused := pcb;
        dataLeft := pcb;
      } else {
        ptr := ttlbufused - dataLeft;
        pcb := dataLeft;
      }
      assert total[ptr..] == Rest(total, Entry(was, cb));
      result, copied := SendBinary(total, ptr, pcb, rgb, cb);
    }

    method SendBinary(ghost total: seq<Byte>, ptr: nat, len: nat, rgb: array<Byte>, cb: nat) returns (result: Status,
          copied: nat)
      requires ttlbuf != null && |total| <= ttlbuf.Length && ttlbuf[..|total|] == total
      requires ptr + len == |total| && dataLeft == len && cb <= rgb.Length && rgb != ttlbuf
      modifies this, rgb
      ensures copied == if len > cb then cb else len
      ensures copied <= rgb.Length && rgb[..copied] == total[ptr..][..copied]
      ensures forall k :: copied <= k < rgb.Length ==> rgb[k] == old(rgb[k])
      ensures ttlbuflen == old(ttlbuflen) && ttlbufused == old(ttlbufused)
      ensures if len > cb then result == Truncated && ttlbuf == old(ttlbuf) && dataLeft == len - copied
              else result == Complete && ttlbuf == null && dataLeft == 0
    {
      copied := 0;
      if cb > 0 {
        copied := if len > cb then cb else len;
        PieceOf(ttlbuf[..], total, ptr, copied);
        CopyBytes(ttlbuf, ptr, rgb, copied);
        dataLeft := dataLeft - copied;
      }
      if len > cb {
        result := Truncated;
      } else {
        ttlbuf := null;
        result := Complete;
      }
      if result == Complete {
        dataLeft := 0;
      }
    }

    /** An application reading a freshly reset column as text, one buffer after the other. */
    method ReadChars(value: seq<Byte>, isBytea: bool, lfConv: bool, sizes: seq<nat>)
        returns (delivered: seq<Byte>, replies: seq<Reply>)
      requires (isBytea ==> WellEscaped(value)) && ttlbuf == null && dataLeft == -1
      modifies this
      ensures Run(delivered, replies, dataLeft) == Calls(CharValue(value, isBytea, lfConv), sizes, 1, 1)
    {
      hide CharValue, Linefeeds, Hex, FromText, WellEscaped, Deliver, Calls;
      ghost var total := CharValue(value, isBytea, lfConv);
      delivered, replies := [], [];
      NoCalls(total, 1, 1);
      assert sizes[..0] == [];
      for k := 0 to |sizes|
        invariant Run(delivered, replies, dataLeft) == Calls(total, sizes[..k], 1, 1)
        invariant Reading(total) && (ttlbuf == null || fresh(ttlbuf))
        invariant if dataLeft > 0 then Slack() == 1 else ttlbuf == null
      {
        var rgb := new Byte[sizes[k]];
        var result, pcb, copied := GetChar(value, isBytea, lfConv, rgb, sizes[k]);
        NextCall(total, sizes, k, 1, 1);
        TruncatedGoesOn(total, Calls(total, sizes[..k], 1, 1).left, sizes[k]);
        delivered, replies := delivered + rgb[..copied], replies + [Reply(result, rgb[..copied], pcb)];
      }
      assert sizes[..|sizes|] == sizes;
    }

    method ReadBinary(value: seq<Byte>, sizes: seq<nat>) returns (delivered: seq<Byte>, replies: seq<Reply>)
      requires WellEscaped(value) && ttlbuf == null && dataLeft == -1
      modifies this
      ensures Run(delivered, replies, dataLeft) == Calls(FromText(value), sizes, 0, 0)
    {
      hide FromText, WellEscaped, Deliver, Calls;
      ghost var total := FromText(value);
      delivered, replies := [], [];
      NoCalls(total, 0, 0);
      assert sizes[..0] == [];
      for k := 0 to |sizes|
        invariant Run(delivered, replies, dataLeft) == Calls(total, sizes[..k], 0, 0)
        invariant Reading(total) && (ttlbuf == null || fresh(ttlbuf))
      {
        var rgb := new Byte[sizes[k]];
        var result, pcb, copied := GetBinary(value, rgb, sizes[k]);
        NextCall(total, sizes, k, 0, 0);
        delivered, replies := delivered + rgb[..copied], replies + [Reply(result, rgb[..copied], pcb)];
      }
      assert sizes[..|sizes|] == sizes;
    }
  }

  lemma TruncatedGoesOn(total: seq<Byte>, left: int, size: nat)
    requires IsLeft(left, |total|)
    ensures var (reply, left') := Deliver(total, left, size, 1, 1);
      reply.status == Truncated ==> left' > 0 || (left' == -1 && left < 0)
  {
  }

  lemma NextCall(total: seq<Byte>, sizes: seq<nat>, k: nat, reserve: nat, slack: nat)
    requires k < |sizes| && reserve <= 1
    ensures var before := Calls(total, sizes[..k], reserve, slack);
      var (reply, left) := Deliver(total, before.left, sizes[k], reserve, slack);
      Calls(total, sizes[..k + 1], reserve, slack) ==
        Run(before.delivered + reply.chunk, before.replies + [reply], left)
  {
    assert sizes[..k + 1][..k] == sizes[..k];
    LastCall(total, sizes[..k + 1], reserve, slack);
  }

  /** Deliver, case by case. */
  lemma DeliverCases(total: seq<Byte>, left: int, size: nat, reserve: nat, slack: nat)
    requires IsLeft(left, |total|) && reserve <= 1
    ensures var (r, now, rest) := (Deliver(total, left, size, reserve, slack), Entry(left, size),
      Rest(total, Entry(left, size)));
      && (now == 0 ==> r == (Reply(NoData, [], 0), -2))
      && (size == 0 && now == -1 ==> r == (Reply(Truncated, [], |rest|), -1))
      && (size == 0 && now > 0 && reserve == 1 ==> r == (Reply(Complete, [], |rest|), 0))
      && (size == 0 && now > 0 && reserve == 0 ==> r == (Reply(Truncated, [], |rest|), |rest|))
      && (size > 0 && now != 0 ==>
          var copied := if |rest| + reserve > size then size - reserve else |rest|;
          r == if |rest| + (if now == -1 then reserve else slack) > size
               then (Reply(Truncated, rest[..copied], |rest|), |rest| - copied)
               else (Reply(Complete, rest[..copied], |rest|), 0))
  {
    var rest := Rest(total, Entry(left, size));
    assert rest[..0] == [];
  }

  lemma CharCases(value: seq<Byte>, isBytea: bool, lfConv: bool)
    requires isBytea ==> WellEscaped(value)
    ensures var total := CharValue(value, isBytea, lfConv);
      if isBytea then total == Hex(FromText(value)) && |total| == 2 * |FromText(value)|
      else total == Linefeeds(value, 0, lfConv)
  {
  }

  /** A piece of the buffer is a piece of the value it holds. */
  lemma PieceOf(buf: seq<Byte>, total: seq<Byte>, ptr: nat, n: nat)
    requires |total| <= |buf| && buf[..|total|] == total && ptr + n <= |total|
    ensures buf[ptr..ptr + n] == total[ptr..][..n]
  {
    forall k | 0 <= k < n ensures buf[ptr..ptr + n][k] == total[ptr..][..n][k] {
      assert total[ptr + k] == buf[..|total|][ptr + k];
    }
  }

  method CopyText(src: seq<Byte>, ptr: nat, rgb: array<Byte>, n: nat)
    requires ptr + n <= |src| && n <= rgb.Length
    modifies rgb
    ensures forall k :: n <= k < rgb.Length ==> rgb[k] == old(rgb[k])
    ensures rgb[..n] == src[ptr..ptr + n]
  {
    forall k | 0 <= k < n { rgb[k] := src[ptr + k]; }
  }

  method CopyBytes(src: array<Byte>, ptr: nat, rgb: array<Byte>, n: nat)
    requires ptr + n <= src.Length && n <= rgb.Length && src != rgb
    modifies rgb
    ensures forall k :: n <= k < rgb.Length ==> rgb[k] == old(rgb[k])
    ensures rgb[..n] == src[..][ptr..ptr + n]
  {
    forall k | 0 <= k < n { rgb[k] := src[ptr + k]; }
  }
}

/** ER_ReturnError: an error message handed out in records, and which sequences of calls deliver it whole. */
module ErrorRecords {
  const DRVMNGRDIV := 511
  const MAX_MESSAGE := 32767  // lengths and positions are signed 16-bit numbers

  type int16 = n: int | -MAX_MESSAGE - 1 <= n <= MAX_MESSAGE

  type BufferSize = n: nat | n <= MAX_MESSAGE

  /** Outside: the call would read in front of the message.  Nothing is said of what it does then. */
  datatype Ret = NoData | SuccessWithInfo | Success | Outside

  /** recsize is negative until the first call. */
  datatype Error = Gone | Error(msg: string, recsize: int, errorpos: int)

  datatype Reply = Reply(error: Error, ret: Ret, text: string, pcblen: int)

  /** An error that a call may meet. */
  predicate Valid(e: Error) {
    e.Error? ==>
      && |e.msg| <= MAX_MESSAGE && e.recsize < MAX_MESSAGE
      && (e.errorpos == 0 || (0 < e.errorpos < |e.msg| && e.recsize > 0))
  }

  /** A number cut to 16 bits. */
  function Wrap16(n: int): (w: int16)
    ensures (w - n) % 0x10000 == 0
  {
    if n % 0x10000 > MAX_MESSAGE then n % 0x10000 - 0x10000 else n % 0x10000
  }

  function RecordSize(recsize: int, cb: BufferSize): (r: int)
    ensures r >= 0 && (recsize < MAX_MESSAGE ==> r < MAX_MESSAGE)
  {
    if recsize >= 0 then recsize else if cb > 0 then cb - 1 else DRVMNGRDIV
  }

  /** The record that comes next, recovered from the position. */
  function NextRecord(errorpos: int, recsize: int): (n: int)
    requires errorpos == 0 || (errorpos > 0 && recsize > 0)
    ensures 1 <= n <= errorpos + 1
  {
    assert errorpos > 0 ==> (errorpos - 1) / recsize <= errorpos - 1 by {
      if errorpos > 0 {
        Quotient(errorpos - 1, recsize);
      }
    }
    if errorpos == 0 then 1 else 2 + (errorpos - 1) / recsize
  }

  lemma Quotient(a: int, r: int)
    requires a >= 0 && r > 0
    ensures 0 <= a / r <= a
  {
    var q, x := a / r, a % r;
    assert a == q * r + x && q >= 0;
    Grows(q, r);
  }

  lemma Grows(q: int, r: int)
    requires q >= 0 && r > 0
    ensures q * r >= q
  {
    assert q * r == q * (r - 1) + q;
  }

  function Least(a: int, b: int): int {
    if a < b then a else b
  }

  /** How much of a record of pcblen characters is written into a buffer of cb, when remaining characters are left. */
  function Written(remaining: int, pcblen: int, recsize: int, cb: nat, partialOk: bool): int {
    var wrtlen :=
      if cb == 0 then 0
      else if remaining < cb then remaining
      else if partialOk then cb - 1
      else if cb <= recsize then 0
      else recsize;
    Least(wrtlen, pcblen)
  }

  /** The record that starts at some position. */
  function Extract(e: Error, stapos: int, cb: nat, partialOk: bool, clear: bool): Reply
    requires e.Error? && stapos >= 0 && e.recsize >= 0
  {
    if stapos > |e.msg| then Reply(e, NoData, "", 0)
    else
      var pcblen := Least(|e.msg| - stapos, e.recsize);
      var wrtlen := Written(|e.msg| - stapos, pcblen, e.recsize, cb, partialOk);
      var e1 := if !clear then e else if stapos + wrtlen >= |e.msg| then Gone else e.(errorpos := stapos + wrtlen);
      Reply(e1, if wrtlen == 0 then SuccessWithInfo else Success, e.msg[stapos..stapos + wrtlen], pcblen)
  }

  /** One call; a negative record number asks for the next record.  Where the record starts is cut to 16 bits. */
  function ReturnError(e: Error, recNumber: int16, cb: BufferSize, partialOk: bool, clear: bool): Reply
    requires Valid(e)
  {
    if e.Gone? then Reply(e, NoData, "", 0)
    else
      var r := RecordSize(e.recsize, cb);
      var n: int16 := if recNumber < 0 then NextRecord(e.errorpos, r) else recNumber;
      At(e.(recsize := r), Place(n, r), cb, partialOk, clear)
  }

  /** Where the n-th record starts. */
  function Place(n: int16, r: int): int16 {
    Wrap16((n - 1) * r)
  }

  function At(e: Error, stapos: int, cb: nat, partialOk: bool, clear: bool): Reply
    requires e.Error? && e.recsize >= 0
  {
    if stapos < 0 then Reply(e, Outside, "", 0) else Extract(e, stapos, cb, partialOk, clear)
  }

  lemma Start(n: int, r: int)
    requires n >= 1 && r >= 0
    ensures (n - 1) * r >= 0
  {
  }

  // ---------------------------------------------------------------- the object

  class PG_ErrorInfo {
    const message: string
    var recsize: int
    var errorpos: int

    constructor (msg: string)
      ensures message == msg && recsize == -1 && errorpos == 0
    {
      message, recsize, errorpos := msg, -1, 0;
    }
  }

  /** The handle's pointer to its error, cleared when everything was read. */
  class Handle {
    var pgerror: PG_ErrorInfo?

    constructor (error: PG_ErrorInfo?)
      ensures pgerror == error
    {
      pgerror := error;
    }

    function State(): Error
      reads this, pgerror
    {
      if pgerror == null then Gone else Error(pgerror.message, pgerror.recsize, pgerror.errorpos)
    }

    /** The record that starts there is written, and the error is freed once its end was reached. */
    method WriteRecord(stapos: int, cb: nat, partialOk: bool, clear: bool) returns (ret: Ret, text: string,
          pcbErrorMsg: int)
      requires State().Error? && stapos >= 0 && State().recsize >= 0
      modifies this, pgerror
      ensures Reply(State(), ret, text, pcbErrorMsg) == Extract(old(State()), stapos, cb, partialOk, clear)
      ensures pgerror == null || pgerror == old(pgerror)
    {
      var msglen := |pgerror.message|;
      if stapos > msglen {
        return NoData, "", 0;
      }
      var wrtlen := msglen - stapos;
      var pcblen := wrtlen;
      if pcblen > pgerror.recsize {
        pcblen := pgerror.recsize;
      }
      if cb == 0 {
        wrtlen := 0;
      } else if wrtlen >= cb {
        if partialOk {
          wrtlen := cb - 1;
        } else if cb <= pgerror.recsize {
          wrtlen := 0;
        } else {
          wrtlen := pgerror.recsize;
        }
      }
      if wrtlen > pcblen {
        wrtlen := pcblen;
      }
      text := pgerror.message[stapos..stapos + wrtlen];
      pcbErrorMsg := pcblen;
      if clear {
        pgerror.errorpos := stapos + wrtlen;
        if pgerror.errorpos >= msglen {
          pgerror := null;
        }
      }
      ret := if wrtlen == 0 then SuccessWithInfo else Success;
    }

    /** The record asked for; a negative number asks for the one behind the position. */
    method RecordNumber(recNumber: int16) returns (rec: int16)
      requires State().Error? && Valid(State()) && State().recsize >= 0
      ensures rec == if recNumber < 0 then NextRecord(State().errorpos, State().recsize) else recNumber
    {
      rec := recNumber;
      if rec < 0 {
        rec := if pgerror.errorpos == 0 then 1 else 2 + (pgerror.errorpos - 1) / pgerror.recsize;
      }
    }

    method ER_ReturnError(recNumber: int16, cb: BufferSize, partialOk: bool, clear: bool)
        returns (ret: Ret, text: string, pcbErrorMsg: int)
      requires Valid(State())
      modifies this, pgerror
      ensures Reply(State(), ret, text, pcbErrorMsg) == ReturnError(old(State()), recNumber, cb, partialOk, clear)
      ensures pgerror == null || pgerror == old(pgerror)
    {
      hide Extract, Place, NextRecord;
      if pgerror == null {
        return NoData, "", 0;
      }
      if pgerror.recsize < 0 {
        pgerror.recsize := if cb > 0 then cb - 1 else DRVMNGRDIV;
      }
      var rec := RecordNumber(recNumber);
      var stapos := Place(rec, pgerror.recsize);
      if stapos < 0 {
        return Outside, "", 0;
      }
      ret, text, pcbErrorMsg := WriteRecord(stapos, cb, partialOk, clear);
    }
  }

  // ---------------------------------------------------------------- successive calls of SQLError

  /** PGAPI_Error: the next record, in part if need be, and then done with. */
  function Next(e: Error, cb: BufferSize): Reply
    requires Valid(e)
  {
    ReturnError(e, -1, cb, true, true)
  }

  datatype Run = Run(error: Error, text: string)

  /** Calls with buffers of these sizes, and all that they return. */
  function Calls(e: Error, sizes: seq<BufferSize>): Run
    requires Valid(e)
    decreases |sizes|
  {
    if sizes == [] then Run(e, "")
    else
      var r := Next(e, sizes[0]);
      NextValid(e, sizes[0]);
      var rest := Calls(r.error, sizes[1..]);
      rest.(text := r.text + rest.text)
  }

  lemma NextValid(e: Error, cb: BufferSize)
    requires Valid(e)
    ensures Valid(Next(e, cb).error)
    ensures Next(e, cb).error.Error? ==> e.Error? && Next(e, cb).error.msg == e.msg && Next(e, cb).error.recsize >= 0
  {
    if e.Error? {
      var r := RecordSize(e.recsize, cb);
      NextStart(e.errorpos, r);
    }
  }

  /** Where the next record starts: at the position if it is a multiple of the record size, else at the next
      multiple. */
  lemma NextStart(errorpos: int, r: int)
    requires r >= 0 && errorpos >= 0 && (r == 0 ==> errorpos == 0)
    ensures var stapos := (NextRecord(errorpos, r) - 1) * r;
      && errorpos <= stapos <= errorpos + r && (errorpos == 0 ==> stapos == 0)
      && (stapos == errorpos <==> r == 0 || errorpos % r == 0)
  {
    if r > 0 && errorpos > 0 {
      var q := (errorpos - 1) / r;
      Division(errorpos - 1, r, q);
    }
  }

  lemma Division(a: int, r: int, q: int)
    requires r > 0 && a >= 0 && q == a / r
    ensures a + 1 <= (q + 1) * r <= a + r && ((q + 1) * r == a + 1 <==> (a + 1) % r == 0)
  {
    var x := a % r;
    assert a == q * r + x && 0 <= x < r;
    assert (q + 1) * r == q * r + r;
    if x == r - 1 {
      Remainder(q + 1, r, 0);
    } else {
      Remainder(q, r, x + 1);
    }
  }

  lemma Remainder(q: int, r: int, x: int)
    requires 0 <= x < r
    ensures (q * r + x) % r == x && (q * r + x) / r == q
  {
    var z := q * r + x;
    var d := z / r - q;
    assert d * r == x - z % r by {
      assert z == (z / r) * r + z % r;
      assert d * r == (z / r) * r - q * r;
    }
    AtLeastOnce(d, r);
  }

  lemma AtLeastOnce(d: int, r: int)
    requires r > 0
    ensures (d >= 1 ==> d * r >= r) && (d <= -1 ==> d * r <= -r)
  {
  }

  /** Where the next record of e starts. */
  function NextStartOf(e: Error): (p: int)
    requires Valid(e) && e.Error?
    ensures e.errorpos <= p <= 2 * MAX_MESSAGE
  {
    if e.recsize <= 0 then 0
    else
      NextStart(e.errorpos, e.recsize);
      (NextRecord(e.errorpos, e.recsize) - 1) * e.recsize
  }

  /** How many characters can still come. */
  function Left(e: Error): (n: int)
    requires Valid(e)
    ensures n >= 0 && (e.Error? ==> n <= |e.msg|)
  {
    if e.Gone? || NextStartOf(e) > |e.msg| then 0 else |e.msg| - NextStartOf(e)
  }

  /** A buffer that takes some of the next record, but not all of it. */
  predicate Loses(e: Error, cb: BufferSize)
    requires Valid(e)
  {
    e.Error? && 0 < cb - 1 < Least(Left(e), RecordSize(e.recsize, cb))
  }

  /** After w characters of the record that starts at k * r: the same record again, or the one after it. */
  lemma StartAfter(k: int, r: int, w: int)
    requires k >= 0 && r > 0 && 0 <= w <= r
    ensures k * r >= 0 && (NextRecord(k * r + w, r) - 1) * r == if w == 0 then k * r else k * r + r
  {
    Start(k + 1, r);
    if w > 0 {
      Remainder(k, r, w - 1);
      assert (k + 1) * r == k * r + r;
    } else if k > 0 {
      Remainder(k - 1, r, r - 1);
      assert (k - 1) * r + (r - 1) == k * r - 1;
      assert k * r > 0 by { AtLeastOnce(k, r); }
    }
  }

  /** The record that starts at stapos, read by SQLError. */
  lemma ExtractFacts(e: Error, k: int, stapos: int, cb: nat)
    requires Valid(e) && e.Error? && e.recsize >= 0 && k >= 0 && stapos == k * e.recsize <= |e.msg|
    ensures stapos >= 0
    ensures var r := Extract(e, stapos, cb, true, true);
      var left := |e.msg| - stapos;
      && Valid(r.error) && |r.text| + Left(r.error) <= left
      && (|r.text| + Left(r.error) == left <==> !(0 < cb - 1 < Least(left, e.recsize)))
      && r.text == e.msg[stapos..stapos + |r.text|]
      && (r.error.Error? ==> r.error.msg == e.msg && r.error.recsize == e.recsize)
  {
    Start(k + 1, e.recsize);
    var left := |e.msg| - stapos;
    var w := Written(left, Least(left, e.recsize), e.recsize, cb, true);
    var r := Extract(e, stapos, cb, true, true);
    assert |r.text| == w;
    if stapos + w < |e.msg| {
      assert r.error == e.(errorpos := stapos + w);
      if e.recsize > 0 {
        StartAfter(k, e.recsize, w);
        assert NextStartOf(r.error) == if w == 0 then stapos else stapos + e.recsize;
      }
      hide NextRecord, NextStartOf, Extract;
    }
  }

  lemma StartIs(e: Error, r: int, stapos: int)
    requires Valid(e) && e.Error? && 0 <= r < MAX_MESSAGE && (e.recsize >= 0 ==> r == e.recsize)
    requires stapos == (NextRecord(e.errorpos, r) - 1) * r
    ensures stapos == NextStartOf(e) && NextStartOf(e.(recsize := r)) == stapos
  {
  }

  /** SQLError reads the record at the next start. */
  lemma NextIs(e: Error, cb: BufferSize) returns (k: int, r: int, stapos: int)
    requires Valid(e) && e.Error?
    ensures r == RecordSize(e.recsize, cb) >= 0 && k >= 0 && stapos == k * r && stapos >= 0
    ensures Valid(e.(recsize := r)) && Next(e, cb) ==
      if stapos > MAX_MESSAGE then Reply(e.(recsize := r), Outside, "", 0)
      else Extract(e.(recsize := r), stapos, cb, true, true)
    ensures NextStartOf(e) == stapos == NextStartOf(e.(recsize := r))
    ensures Left(e) == Left(e.(recsize := r)) == if stapos <= |e.msg| then |e.msg| - stapos else 0
  {
    hide *;
    SizeValid(e, cb);
    r := RecordSize(e.recsize, cb);
    k := NextRecord(e.errorpos, r) - 1;
    Start(k + 1, r);
    stapos := k * r;
    NextIsExtract(e, cb);
    StartIs(e, r, stapos);
    LeftIs(e, stapos);
    LeftIs(e.(recsize := r), stapos);
  }

  lemma SizeValid(e: Error, cb: BufferSize)
    requires Valid(e) && e.Error?
    ensures var r := RecordSize(e.recsize, cb);
      r >= 0 && (e.recsize >= 0 ==> r == e.recsize) && Valid(e.(recsize := r))
      && (e.errorpos == 0 || (e.errorpos > 0 && r > 0)) && NextRecord(e.errorpos, r) >= 1
  {
  }

  lemma NextIsExtract(e: Error, cb: BufferSize)
    requires Valid(e) && e.Error?
    ensures var r := RecordSize(e.recsize, cb);
      && (e.errorpos == 0 || (e.errorpos > 0 && r > 0)) && r >= 0
      && var stapos := (NextRecord(e.errorpos, r) - 1) * r;
      stapos >= 0 && Next(e, cb) ==
        if stapos > MAX_MESSAGE then Reply(e.(recsize := r), Outside, "", 0)
        else Extract(e.(recsize := r), stapos, cb, true, true)
  {
    hide Extract, NextRecord, Wrap16;
    SizeValid(e, cb);
    var r := RecordSize(e.recsize, cb);
    NextStart(e.errorpos, r);
    WrapStart((NextRecord(e.errorpos, r) - 1) * r);
  }

  /** A start beyond the largest 16-bit number comes out negative. */
  lemma WrapStart(stapos: int)
    requires 0 <= stapos <= 2 * MAX_MESSAGE
    ensures if stapos > MAX_MESSAGE then Wrap16(stapos) < 0 else Wrap16(stapos) == stapos
  {
  }

  lemma LeftIs(e: Error, stapos: int)
    requires Valid(e) && e.Error? && stapos == NextStartOf(e)
    ensures Left(e) == if stapos <= |e.msg| then |e.msg| - stapos else 0
  {
  }

  lemma PastEnd(e: Error, stapos: int, cb: nat)
    requires e.Error? && stapos > |e.msg| && e.recsize >= 0
    ensures Extract(e, stapos, cb, true, true) == Reply(e, NoData, "", 0)
  {
  }

  /** One call: what comes is the text at the next start, and some of it is lost exactly if the buffer is of the bad
      size. */
  lemma NextFacts(e: Error, cb: BufferSize)
    requires Valid(e)
    ensures var r := Next(e, cb);
      && Valid(r.error) && |r.text| + Left(r.error) <= Left(e)
      && (|r.text| + Left(r.error) == Left(e) <==> !Loses(e, cb))
      && (e.Error? ==> Left(e) <= |e.msg| && r.text == e.msg[|e.msg| - Left(e)..|e.msg| - Left(e) + |r.text|])
      && (r.error.Error? ==> e.Error? && r.error.msg == e.msg && r.error.recsize == RecordSize(e.recsize, cb))
      && (e.Gone? ==> r.error.Gone? && r.ret == NoData && r.text == "")
  {
    if e.Error? {
      hide NextRecord, NextStartOf, Extract, Next, Left, Valid;
      var k, r, stapos := NextIs(e, cb);
      if stapos <= |e.msg| {
        ExtractFacts(e.(recsize := r), k, stapos, cb);
      } else if stapos <= MAX_MESSAGE {
        PastEnd(e.(recsize := r), stapos, cb);
      }
    }
  }

  /** A call reads outside the message exactly if the next start is beyond what 16 bits hold; that takes a message
      that is long together with its records. */
  lemma OutsideIff(e: Error, cb: BufferSize)
    requires Valid(e)
    ensures Next(e, cb).ret == Outside <==> e.Error? && NextStartOf(e) > MAX_MESSAGE
    ensures Next(e, cb).ret == Outside ==> |e.msg| + e.recsize > MAX_MESSAGE + 1
  {
    if e.Error? {
      hide Next, NextStartOf, Valid, NextRecord;
      var k, r, stapos := NextIs(e, cb);
      StartBound(e);
    }
  }

  lemma StartBound(e: Error)
    requires Valid(e) && e.Error?
    ensures NextStartOf(e) == 0 || (e.recsize > 0 && e.errorpos > 0 && NextStartOf(e) <= e.errorpos + e.recsize)
    ensures e.errorpos == 0 || e.errorpos < |e.msg|
  {
    if e.recsize > 0 {
      NextStart(e.errorpos, e.recsize);
    }
  }

  /** A call that loses nothing leads to a start within the message. */
  lemma StaysInside(e: Error, cb: BufferSize)
    requires Valid(e) && e.Error? && NextStartOf(e) <= |e.msg| && !Loses(e, cb)
    ensures Valid(Next(e, cb).error)
    ensures var next := Next(e, cb).error; next.Error? ==> next.msg == e.msg && NextStartOf(next) <= |next.msg|
  {
    hide NextRecord, NextStartOf, Extract, Next, Left, Valid;
    NextValid(e, cb);
    var k, r, stapos := NextIs(e, cb);
    ExtractFacts(e.(recsize := r), k, stapos, cb);
    StepInside(e.(recsize := r), k, stapos, cb);
  }

  lemma StepInside(e: Error, k: int, stapos: int, cb: nat)
    requires Valid(e) && e.Error? && e.recsize >= 0 && k >= 0 && 0 <= stapos == k * e.recsize <= |e.msg|
    requires !(0 < cb - 1 < Least(|e.msg| - stapos, e.recsize))
    ensures var next := Extract(e, stapos, cb, true, true).error;
      Valid(next) && (next.Error? ==> NextStartOf(next) <= |next.msg|)
  {
    var left := |e.msg| - stapos;
    var w := Written(left, Least(left, e.recsize), e.recsize, cb, true);
    if stapos + w < |e.msg| && e.recsize > 0 {
      StartAfter(k, e.recsize, w);
    }
  }

  /** Whether some call of the run reads outside the message. */
  predicate GoesOutside(e: Error, sizes: seq<BufferSize>)
    requires Valid(e)
    decreases |sizes|
  {
    sizes != []
    && (Next(e, sizes[0]).ret == Outside
        || (NextValid(e, sizes[0]); GoesOutside(Next(e, sizes[0]).error, sizes[1..])))
  }

  /** Only after a call that loses text. */
  lemma {:induction false} InsideUnlessLosing(e: Error, sizes: seq<BufferSize>)
    requires Valid(e) && NeverLoses(e, sizes) && (e.Error? ==> NextStartOf(e) <= |e.msg|)
    ensures !GoesOutside(e, sizes)
    decreases |sizes|
  {
    if sizes != [] {
      hide Next, Loses, NextStartOf, Valid;
      NextValid(e, sizes[0]);
      OutsideIff(e, sizes[0]);
      var next := Next(e, sizes[0]).error;
      if e.Error? {
        MessageFits(e);
        StaysInside(e, sizes[0]);
      } else {
        NextFacts(e, sizes[0]);
      }
      InsideUnlessLosing(next, sizes[1..]);
    }
  }

  lemma MessageFits(e: Error)
    requires Valid(e) && e.Error?
    ensures |e.msg| <= MAX_MESSAGE
  {
  }

  /** A message of the full length, read in part with a small buffer between large ones: the third call starts at 40000,
      which is negative in 16 bits. */
  lemma LongMessageGoesOutside(msg: string, cb: BufferSize)
    requires |msg| == MAX_MESSAGE
    ensures GoesOutside(Fresh(msg), [20001, 2, cb])
  {
    var e1, e2 := Error(msg, 20000, 20000), Error(msg, 20000, 20001);
    assert Next(Fresh(msg), 20001).error == e1;
    assert Next(e1, 2).error == e2;
    assert Next(e2, cb).ret == Outside;
    hide Next;
    OutsideStep(e2, cb, []);
    OutsideStep(e1, 2, [cb]);
    OutsideStep(Fresh(msg), 20001, [2, cb]);
    assert [2] + [cb] == [2, cb] && [20001] + [2, cb] == [20001, 2, cb];
  }

  lemma OutsideStep(e: Error, cb: BufferSize, sizes: seq<BufferSize>)
    requires Valid(e)
    ensures Valid(Next(e, cb).error)
    ensures GoesOutside(e, [cb] + sizes) <==> Next(e, cb).ret == Outside || GoesOutside(Next(e, cb).error, sizes)
  {
    NextValid(e, cb);
    assert ([cb] + sizes)[1..] == sizes;
  }

  /** No call of the run has a buffer that loses text. */
  predicate NeverLoses(e: Error, sizes: seq<BufferSize>)
    requires Valid(e)
    decreases |sizes|
  {
    sizes == [] || (!Loses(e, sizes[0]) && (NextValid(e, sizes[0]); NeverLoses(Next(e, sizes[0]).error, sizes[1..])))
  }

  lemma CallsStep(e: Error, sizes: seq<BufferSize>)
    requires Valid(e)
    ensures sizes == [] ==> Calls(e, sizes) == Run(e, "") && NeverLoses(e, sizes)
    ensures sizes != [] ==>
      var r := Next(e, sizes[0]);
      && Valid(r.error)
      && Calls(e, sizes) == Run(Calls(r.error, sizes[1..]).error, r.text + Calls(r.error, sizes[1..]).text)
      && (NeverLoses(e, sizes) <==> !Loses(e, sizes[0]) && NeverLoses(r.error, sizes[1..]))
  {
    if sizes != [] {
      NextValid(e, sizes[0]);
    }
    hide Next, Loses;
  }

  /** What a run has returned, in terms of what was left. */
  ghost predicate Returned(e: Error, run: Run, lossless: bool)
    requires Valid(e)
  {
    && Valid(run.error) && |run.text| + Left(run.error) <= Left(e)
    && (|run.text| + Left(run.error) == Left(e) <==> lossless)
    && (e.Error? && lossless ==>
        Left(e) <= |e.msg| && run.text == e.msg[|e.msg| - Left(e)..|e.msg| - Left(e) + |run.text|])
    && (e.Gone? ==> run.error.Gone? && run.text == "")
  }

  lemma ReturnedStep(e: Error, cb: BufferSize, rest: Run, lossless: bool)
    requires Valid(e) && Valid(Next(e, cb).error) && Returned(Next(e, cb).error, rest, lossless)
    ensures Returned(e, Run(rest.error, Next(e, cb).text + rest.text), !Loses(e, cb) && lossless)
  {
    hide Next, Loses, Left, Valid;
    var r := Next(e, cb);
    NextFacts(e, cb);
    LeftNonNegative(e);
    LeftNonNegative(r.error);
    LeftNonNegative(rest.error);
    if e.Error? && r.error.Error? && !Loses(e, cb) && lossless {
      Pieces(e.msg, |e.msg| - Left(e), |r.text|, |rest.text|);
    } else if r.error.Gone? {
      assert r.text + rest.text == r.text;
    }
  }

  /** A run returns consecutive text, and all of what it passed over exactly if no call loses any. */
  lemma {:induction false} RunFacts(e: Error, sizes: seq<BufferSize>)
    requires Valid(e)
    ensures Returned(e, Calls(e, sizes), NeverLoses(e, sizes))
    decreases |sizes|
  {
    hide *;
    CallsStep(e, sizes);
    if sizes != [] {
      RunFacts(Next(e, sizes[0]).error, sizes[1..]);
      var next, more := Next(e, sizes[0]).error, sizes[1..];
      ReturnedStep(e, sizes[0], Calls(next, more), NeverLoses(next, more));
    } else {
      NothingReturned(e);
    }
  }

  lemma GoneStays(e: Error, sizes: seq<BufferSize>)
    requires e.Gone?
    ensures Valid(e) && Calls(e, sizes).error.Gone?
  {
    RunFacts(e, sizes);
  }

  lemma NothingReturned(e: Error)
    requires Valid(e)
    ensures Returned(e, Run(e, ""), true)
  {
    hide Left;
    LeftNonNegative(e);
  }

  lemma LeftNonNegative(e: Error)
    requires Valid(e)
    ensures Left(e) >= 0 && (e.Error? ==> Left(e) <= |e.msg|)
  {
  }

  lemma GoneLeft(e: Error)
    requires e.Gone?
    ensures Valid(e) && Left(e) == 0
  {
  }

  lemma Pieces(msg: string, from: nat, a: nat, b: nat)
    requires from + a + b <= |msg|
    ensures msg[from..from + a] + msg[from + a..from + a + b] == msg[from..from + a + b]
  {
  }

  /** A new error. */
  function Fresh(msg: string): (e: Error)
    requires |msg| <= MAX_MESSAGE
    ensures Valid(e) && Left(e) == |msg|
  {
    Error(msg, -1, 0)
  }

  /** Once the record is gone, the calls have returned the whole message exactly once if and only if none of their
      buffers took some of a record but not all of it. */
  lemma WholeMessage(msg: string, sizes: seq<BufferSize>)
    requires |msg| <= MAX_MESSAGE && Calls(Fresh(msg), sizes).error.Gone?
    ensures Calls(Fresh(msg), sizes).text == msg <==> NeverLoses(Fresh(msg), sizes)
  {
    RunFacts(Fresh(msg), sizes);
    GoneLeft(Calls(Fresh(msg), sizes).error);
    assert msg[0..|msg|] == msg;
  }

  /** After that, every call answers that there is no data. */
  lemma ThenNoData(msg: string, sizes: seq<BufferSize>, cb: BufferSize)
    requires |msg| <= MAX_MESSAGE && Calls(Fresh(msg), sizes).error.Gone?
    ensures Next(Calls(Fresh(msg), sizes).error, cb) == Reply(Gone, NoData, "", 0)
  {
  }

  /** Buffers that fit records of r characters, or take nothing. */
  predicate Fitting(r: int, sizes: seq<BufferSize>) {
    forall k :: 0 <= k < |sizes| ==> sizes[k] <= 1 || sizes[k] >= r + 1
  }

  lemma {:induction false} FittingNeverLoses(e: Error, r: int, sizes: seq<BufferSize>)
    requires Valid(e) && Fitting(r, sizes) && (e.Error? && sizes != [] ==> RecordSize(e.recsize, sizes[0]) == r >= 0)
    ensures NeverLoses(e, sizes)
    decreases |sizes|
  {
    if sizes != [] {
      var next := Next(e, sizes[0]);
      NextFacts(e, sizes[0]);
      NextValid(e, sizes[0]);
      hide Next, Left, Valid;
      assert sizes[0] <= 1 || sizes[0] >= r + 1;
      if next.error.Error? && sizes[1..] != [] {
        assert RecordSize(next.error.recsize, sizes[1..][0]) == next.error.recsize == r;
      }
      FittingNeverLoses(next.error, r, sizes[1..]);
    }
  }

  lemma ExtractFull(e: Error, k: int, stapos: int, cb: nat)
    requires Valid(e) && e.Error? && e.recsize >= 1 && k >= 0 && 0 <= stapos == k * e.recsize <= |e.msg|
      && cb >= e.recsize + 1
    ensures var r := Extract(e, stapos, cb, true, true);
      var left := |e.msg| - stapos;
      && |r.text| == Least(left, e.recsize) && (r.error.Gone? <==> left <= e.recsize)
      && (left > e.recsize ==>
          r.error == e.(errorpos := stapos + e.recsize) && NextStartOf(r.error) == stapos + e.recsize)
  {
    StartAfter(k, e.recsize, e.recsize);
    hide NextRecord;
  }

  /** How much is left after one call with a buffer that holds a record. */
  lemma FullRecord(e: Error, r: int, cb: BufferSize)
    requires Valid(e) && e.Error? && cb >= r + 1 && r >= 1 && RecordSize(e.recsize, cb) == r
      && NextStartOf(e) <= |e.msg|
    ensures var next := Next(e, cb).error;
      && Valid(next)
      && Left(next) == (if Left(e) > r then Left(e) - r else 0)
      && (next.Gone? <==> Left(e) <= r)
      && (next.Error? ==> NextStartOf(next) <= |next.msg|)
  {
    hide *;
    NextValid(e, cb);
    var k, r', stapos := NextIs(e, cb);
    ExtractFull(e.(recsize := r), k, stapos, cb);
    FullLeft(e, r, stapos, Next(e, cb).error);
  }

  lemma FullLeft(e: Error, r: int, stapos: int, next: Error)
    requires Valid(e) && e.Error? && r >= 1 && 0 <= stapos <= |e.msg| && Valid(next)
    requires Left(e) == |e.msg| - stapos
    requires next.Gone? <==> Left(e) <= r
    requires Left(e) > r ==> next == e.(recsize := r, errorpos := stapos + r) && NextStartOf(next) == stapos + r
    ensures Left(next) == (if Left(e) > r then Left(e) - r else 0)
    ensures next.Error? ==> NextStartOf(next) <= |next.msg|
  {
    hide NextStartOf;
  }

  /** The first buffer sets the record size; if none is smaller, n calls return the first n records, and the error is
      gone as soon as they reach its end. */
  lemma {:induction false} SteadyCalls(e: Error, r: int, sizes: seq<BufferSize>)
    requires Valid(e) && e.Error? && r >= 1 && sizes != [] && (forall k :: 0 <= k < |sizes| ==> sizes[k] >= r + 1)
    requires RecordSize(e.recsize, sizes[0]) == r
    requires NextStartOf(e) <= |e.msg|
    ensures |sizes| * r >= 0 && (Calls(e, sizes).error.Gone? <==> Left(e) <= |sizes| * r)
    decreases |sizes|
  {
    hide *;
    FullRecord(e, r, sizes[0]);
    NextFacts(e, sizes[0]);
    CallsStep(e, sizes);
    var next, more := Next(e, sizes[0]).error, sizes[1..];
    CallsStep(next, more);
    OneMore(|more|, r);
    if more != [] {
      if next.Gone? {
        GoneStays(next, more);
      } else {
        SizeKept(next, more[0]);
        SteadyCalls(next, r, more);
      }
    }
  }

  lemma OneMore(n: nat, r: int)
    requires r >= 1
    ensures n * r >= 0 && (n + 1) * r == r + n * r
  {
  }

  lemma SizeKept(e: Error, cb: BufferSize)
    requires e.Error? && e.recsize >= 0
    ensures RecordSize(e.recsize, cb) == e.recsize
  {
  }

  /** A first buffer of at least two and none later smaller: after enough calls the message was returned whole. */
  lemma SteadyReading(msg: string, c: BufferSize, sizes: seq<BufferSize>)
    requires |msg| <= MAX_MESSAGE && c >= 2 && sizes != [] && sizes[0] == c
    requires forall k :: 0 <= k < |sizes| ==> sizes[k] >= c
    ensures Calls(Fresh(msg), sizes).error.Gone? <==> |msg| <= |sizes| * (c - 1)
    ensures |msg| <= |sizes| * (c - 1) ==> Calls(Fresh(msg), sizes).text == msg
  {
    SteadyCalls(Fresh(msg), c - 1, sizes);
    FittingNeverLoses(Fresh(msg), c - 1, sizes);
    if |msg| <= |sizes| * (c - 1) {
      WholeMessage(msg, sizes);
    }
  }

  /** A first buffer of one sets records of no characters: the message never comes, and never ends. */
  lemma {:induction false} SizeOneSticks(e: Error, sizes: seq<BufferSize>)
    requires Valid(e) && e.Error? && e.msg != "" && (e.recsize == 0 || (e.recsize < 0 && sizes != [] && sizes[0] == 1))
    ensures Calls(e, sizes).error.Error? && Calls(e, sizes).text == ""
    decreases |sizes|
  {
    if sizes != [] {
      var r := Next(e, sizes[0]);
      assert r.text == "" && r.error == e.(recsize := 0);
      SizeOneSticks(r.error, sizes[1..]);
    }
  }

  // ---------------------------------------------------------------- runs of any buffers

  /** How many more calls can return something. */
  function Remaining(e: Error): (n: int)
    requires Valid(e)
    ensures n >= 0
  {
    if e.Gone? || NextStartOf(e) > |e.msg| then 0 else |e.msg| - NextStartOf(e) + 1
  }

  lemma ExtractProgress(e: Error, stapos: int, cb: nat)
    requires Valid(e) && e.Error? && e.recsize >= 1 && cb >= 2 && 0 <= stapos <= |e.msg|
    ensures var next := Extract(e, stapos, cb, true, true).error;
      next.Error? ==> next.msg == e.msg && next.recsize == e.recsize && next.errorpos > stapos
  {
  }

  /** A buffer of two and up gets on, or there is nothing more to come. */
  lemma Progress(e: Error, cb: BufferSize)
    requires Valid(e) && cb >= 2 && (e.Error? ==> e.recsize != 0)
    ensures var next := Next(e, cb).error;
      && Valid(next) && (next.Error? ==> next.recsize != 0)
      && (Remaining(next) < Remaining(e) || Remaining(next) == Remaining(e) == 0)
  {
    NextValid(e, cb);
    if e.Error? {
      hide Extract, NextRecord, NextStartOf, Next, Valid;
      var k, r, stapos := NextIs(e, cb);
      if stapos <= |e.msg| {
        AtMostMessage(e);
        ExtractProgress(e.(recsize := r), stapos, cb);
      } else if stapos <= MAX_MESSAGE {
        PastEnd(e.(recsize := r), stapos, cb);
      }
    }
  }

  lemma AtMostMessage(e: Error)
    requires Valid(e) && e.Error?
    ensures |e.msg| <= MAX_MESSAGE
  {
  }

  lemma {:induction false} RunProgress(e: Error, sizes: seq<BufferSize>)
    requires Valid(e) && (e.Error? ==> e.recsize != 0) && forall k :: 0 <= k < |sizes| ==> sizes[k] >= 2
    ensures var end := Calls(e, sizes).error;
      Valid(end) && (Remaining(end) + |sizes| <= Remaining(e) || Remaining(end) == 0)
    decreases |sizes|
  {
    hide *;
    CallsStep(e, sizes);
    RemainingNat(e);
    if sizes != [] {
      Progress(e, sizes[0]);
      RunProgress(Next(e, sizes[0]).error, sizes[1..]);
    }
  }

  lemma RemainingNat(e: Error)
    requires Valid(e)
    ensures Remaining(e) >= 0
  {
  }

  /** Nothing remains: the next call says that there is no data, or would read outside. */
  lemma NothingRemains(e: Error, cb: BufferSize)
    requires Valid(e) && Remaining(e) == 0
    ensures Next(e, cb).ret in {NoData, Outside}
  {
    if e.Error? {
      hide Extract, NextRecord, NextStartOf, Next, Valid;
      var k, r, stapos := NextIs(e, cb);
      AtMostMessage(e);
      if stapos <= MAX_MESSAGE {
        PastEnd(e.(recsize := r), stapos, cb);
      }
    }
  }

  /** A first buffer other than one, and buffers of two and up from then on: after enough calls there is no data, or the
      next one would read outside.  If no call lost text, the message has been returned whole. */
  lemma AnyReadingEnds(msg: string, sizes: seq<BufferSize>, cb: BufferSize)
    requires |msg| <= MAX_MESSAGE && |sizes| >= |msg| + 2 && sizes[0] != 1
    requires forall k :: 1 <= k < |sizes| ==> sizes[k] >= 2
    ensures var run := Calls(Fresh(msg), sizes);
      && Valid(run.error) && Next(run.error, cb).ret in {NoData, Outside}
      && (NeverLoses(Fresh(msg), sizes) ==> run.error.Gone? && run.text == msg)
  {
    hide *;
    var e := Fresh(msg);
    CallsStep(e, sizes);
    FirstCall(msg, sizes[0]);
    var next, more := Next(e, sizes[0]).error, sizes[1..];
    RunProgress(next, more);
    var end := Calls(next, more).error;
    RemainingNat(end);
    NothingRemains(end, cb);
    if NeverLoses(e, sizes) {
      RunInside(e, sizes);
      InsideGone(end);
      WholeMessage(msg, sizes);
    }
  }

  lemma FirstCall(msg: string, cb: BufferSize)
    requires |msg| <= MAX_MESSAGE && cb != 1
    ensures var e := Fresh(msg); var next := Next(e, cb).error;
      && Valid(e) && (e.Error? ==> NextStartOf(e) <= |e.msg|)
      && Valid(next) && (next.Error? ==> next.recsize != 0) && Remaining(next) <= |msg| + 1
  {
    var e := Fresh(msg);
    NextValid(e, cb);
    if cb >= 2 {
      Progress(e, cb);
    } else {
      assert Next(e, cb).error == if msg == "" then Gone else Error(msg, DRVMNGRDIV, 0);
    }
  }

  /** A run that loses nothing stays at starts within the message. */
  lemma {:induction false} RunInside(e: Error, sizes: seq<BufferSize>)
    requires Valid(e) && NeverLoses(e, sizes) && (e.Error? ==> NextStartOf(e) <= |e.msg|)
    ensures var end := Calls(e, sizes).error; Valid(end) && (end.Error? ==> NextStartOf(end) <= |end.msg|)
    decreases |sizes|
  {
    hide *;
    CallsStep(e, sizes);
    if sizes != [] {
      if e.Error? {
        StaysInside(e, sizes[0]);
      } else {
        NextFacts(e, sizes[0]);
      }
      RunInside(Next(e, sizes[0]).error, sizes[1..]);
    }
  }

  lemma InsideGone(e: Error)
    requires Valid(e) && Remaining(e) == 0 && (e.Error? ==> NextStartOf(e) <= |e.msg|)
    ensures e.Gone?
  {
  }

  /** A first buffer of nothing makes records of 511 characters: enough larger ones return the message whole. */
  lemma NoFirstBuffer(msg: string, sizes: seq<BufferSize>)
    requires |msg| <= 32767 && msg != "" && forall k :: 0 <= k < |sizes| ==> sizes[k] >= 512
    ensures Next(Fresh(msg), 0) == Reply(Error(msg, 511, 0), SuccessWithInfo, "", if |msg| < 511 then |msg| else 511)
    ensures Calls(Error(msg, 511, 0), sizes).error.Gone? <==> |msg| <= |sizes| * 511
  {
    var e := Error(msg, 511, 0);
    assert Valid(e) && NextStartOf(e) == 0 && Left(e) == |msg|;
    if sizes != [] {
      hide Next, Calls, Left, NextStartOf;
      SteadyCalls(e, 511, sizes);
    }
  }
}

/** Delivering a value piece by piece: what successive SQLGetData calls on one column must add up to. */
module Delivery {
  import opened Positional

  datatype Status = NoData | Truncated | Complete

  /** One answer: its status, the bytes put into the caller's buffer, and the length reported. */
  datatype Reply = Reply(status: Status, chunk: seq<Byte>, reported: nat)

  /** data_left as the column keeps it: -1 before the first call, 0 when everything is out, -2 once the
      end has been announced. */
  predicate IsLeft(left: int, total: nat) {
    -2 <= left <= total
  }

  /** The bytes of the value that are still to come. */
  function Rest(total: seq<Byte>, left: int): (r: seq<Byte>)
    requires IsLeft(left, |total|)
  {
    if left == -1 then total else if left <= 0 then [] else total[|total| - left..]
  }

  /** data_left on entry: a probe of size zero restarts an announced end. */
  function Entry(left: int, size: nat): int {
    if left == -2 then (if size > 0 then 0 else -1) else left
  }

  /** One call.  `reserve` bytes of the caller's buffer are kept back for a terminator.  From the second call
      on, `slack` is what the driver adds to the remaining length when it decides whether this was the last
      piece: the unused end of its own buffer. */
  function Deliver(total: seq<Byte>, left: int, size: nat, reserve: nat, slack: nat): (r: (Reply, int))
    requires IsLeft(left, |total|) && reserve <= 1
    ensures IsLeft(r.1, |total|)
  {
    var now := Entry(left, size);
    if now == 0 then (Reply(NoData, [], 0), -2)
    else
      var rest := Rest(total, now);
      if size == 0 && now == -1 then (Reply(Truncated, [], |rest|), -1)
      else if size == 0 && reserve == 1 then (Reply(Complete, [], |rest|), 0)
      else
        var copied := if size == 0 then 0 else if |rest| + reserve > size then size - reserve else |rest|;
        if |rest| + (if now == -1 then reserve else slack) > size
        then (Reply(Truncated, rest[..copied], |rest|), |rest| - copied)
        else (Reply(Complete, rest[..copied], |rest|), 0)
  }

  /** A run of calls: all bytes delivered, the replies, and data_left afterwards. */
  datatype Run = Run(delivered: seq<Byte>, replies: seq<Reply>, left: int)

  function Calls(total: seq<Byte>, sizes: seq<nat>, reserve: nat, slack: nat): (r: Run)
    requires reserve <= 1
    ensures IsLeft(r.left, |total|) && |r.replies| == |sizes|
  {
    if sizes == [] then Run([], [], -1)
    else
      var before := Calls(total, sizes[..|sizes| - 1], reserve, slack);
      var (reply, left) := Deliver(total, before.left, sizes[|sizes| - 1], reserve, slack);
      Run(before.delivered + reply.chunk, before.replies + [reply], left)
  }

  /** The calls that do harm: a buffer of size zero in the middle of a text, or once the end was announced. */
  predicate Harmful(total: seq<Byte>, left: int, size: nat, reserve: nat) {
    size == 0 && ((left > 0 && reserve == 1) || (left == -2 && total != []))
  }

  /** A run without such calls.  Asking for the length before the first read is none of them. */
  predicate Safe(total: seq<Byte>, sizes: seq<nat>, reserve: nat, slack: nat)
    requires reserve <= 1
  {
    forall k :: 0 <= k < |sizes| ==> !Harmful(total, Calls(total, sizes[..k], reserve, slack).left, sizes[k], reserve)
  }

  /** What was delivered and what is left make up the value. */
  predicate Kept(total: seq<Byte>, r: Run) {
    IsLeft(r.left, |total|) && r.delivered + Rest(total, r.left) == total
  }

  /** One call with a real buffer takes its bytes off the rest, reports what was left, and moves on. */
  lemma OneCall(total: seq<Byte>, left: int, size: nat, reserve: nat, slack: nat)
    requires IsLeft(left, |total|) && reserve <= 1 && reserve <= slack && size > 0
    ensures var (reply, left') := Deliver(total, left, size, reserve, slack);
      var rest := Rest(total, left);
      && rest == reply.chunk + Rest(total, left')
      && left' != -1
      && |reply.chunk| + (if reply.status == NoData then 0 else reserve) <= size
      && (reply.status != NoData ==> reply.reported == |rest|)
      && (reply.status == NoData <==> left == 0 || left == -2)
      && (reply.status == Complete <==>
          (left == -1 && |rest| + reserve <= size) || (left > 0 && |rest| + slack <= size))
      && (reply.status != NoData && rest != [] && size > reserve ==> |reply.chunk| > 0)
      && (reply.status != Truncated ==> Rest(total, left') == [] && left' <= 0)
  {
    hide Rest;
    var rest := Rest(total, left);
    RestSplits(total, left, 0);
    RestSplits(total, left, if |rest| + reserve > size then size - reserve else |rest|);
  }

  /** A call with a buffer of size zero hands out nothing; in the middle of a text it drops what is left, and after the
      announced end it starts the value again. */
  lemma ZeroCall(total: seq<Byte>, left: int, reserve: nat, slack: nat)
    requires IsLeft(left, |total|) && reserve <= 1 && reserve <= slack
    ensures var (reply, left') := Deliver(total, left, 0, reserve, slack);
      && reply.chunk == []
      && Rest(total, left') ==
        (if left > 0 && reserve == 1 then [] else if left == -2 then total else Rest(total, left))
      && (left == -1 ==> left' == -1) && (left == 0 ==> left' == -2)
      && (reply.status != NoData ==> reply.reported == |Rest(total, Entry(left, 0))|)
      && (reply.status == NoData <==> left == 0)
      && (reply.status == Complete <==> left > 0 && reserve == 1)
  {
  }

  /** Whatever the call: it loses or repeats bytes exactly if it is one of the harmful ones. */
  lemma CallKeepsIff(total: seq<Byte>, left: int, size: nat, reserve: nat, slack: nat)
    requires IsLeft(left, |total|) && reserve <= 1 && reserve <= slack
    ensures var (reply, left') := Deliver(total, left, size, reserve, slack);
      Rest(total, left) == reply.chunk + Rest(total, left') <==> !Harmful(total, left, size, reserve)
  {
    if size > 0 {
      OneCall(total, left, size, reserve, slack);
    } else {
      ZeroCall(total, left, reserve, slack);
    }
  }

  /** A harmless call reports what was left, and ends the value only when nothing is left. */
  lemma HarmlessCall(total: seq<Byte>, left: int, size: nat, reserve: nat, slack: nat)
    requires IsLeft(left, |total|) && reserve <= 1 && reserve <= slack && !Harmful(total, left, size, reserve)
    ensures var (reply, left') := Deliver(total, left, size, reserve, slack);
      && (reply.status != NoData ==> reply.reported == |Rest(total, left)|)
      && (reply.status != Truncated ==> Rest(total, left') == [] && left' <= 0 && left' != -1)
      && (total != [] && (left == 0 || left == -2) ==> reply == Reply(NoData, [], 0) && (left' == 0 || left' == -2))
      && (total == [] ==> reply.chunk == [] && left' <= 0)
  {
    hide Rest;
    RestSplits(total, left, 0);
    NothingToRest(total, left);
    if size > 0 {
      OneCall(total, left, size, reserve, slack);
    } else {
      ZeroCall(total, left, reserve, slack);
    }
  }

  lemma NothingToRest(total: seq<Byte>, left: int)
    requires IsLeft(left, |total|)
    ensures total == [] ==> Rest(total, left) == []
  {
  }

  lemma RestSplits(total: seq<Byte>, left: int, c: nat)
    requires IsLeft(left, |total|) && c <= |Rest(total, left)|
    ensures var rest := Rest(total, left);
      rest == rest[..c] + Rest(total, |rest| - c)
    ensures Rest(total, 0) == Rest(total, -2) == []
    ensures left == 0 || left == -2 ==> Rest(total, left) == []
  {
  }

  /** At every point of a run nothing was lost, repeated or reordered, if and only if none of its calls is harmful. */
  lemma {:induction false} NothingLost(total: seq<Byte>, sizes: seq<nat>, reserve: nat, slack: nat)
    requires reserve <= 1 && reserve <= slack
    ensures (forall j :: 0 <= j <= |sizes| ==> Kept(total, Calls(total, sizes[..j], reserve, slack)))
      <==> Safe(total, sizes, reserve, slack)
  {
    hide Calls, Deliver, Rest, Harmful, Safe, Kept;
    if sizes == [] {
      NoCalls(total, reserve, slack);
      SafeStep(total, sizes, reserve, slack);
      assert sizes[..0] == sizes;
    } else {
      var n := |sizes| - 1;
      NothingLost(total, sizes[..n], reserve, slack);
      forall j | 0 <= j <= n ensures sizes[..n][..j] == sizes[..j] {}
      SafeStep(total, sizes, reserve, slack);
      KeptStep(total, sizes, reserve, slack);
      assert sizes[..n + 1] == sizes && sizes[..n][..n] == sizes[..n];
    }
  }

  lemma SafeStep(total: seq<Byte>, sizes: seq<nat>, reserve: nat, slack: nat)
    requires reserve <= 1
    ensures sizes == [] ==> Safe(total, sizes, reserve, slack)
    ensures sizes != [] ==>
      var n := |sizes| - 1;
      (Safe(total, sizes, reserve, slack) <==>
        Safe(total, sizes[..n], reserve, slack)
        && !Harmful(total, Calls(total, sizes[..n], reserve, slack).left, sizes[n], reserve))
  {
    hide Calls, Harmful;
    if sizes != [] {
      var n := |sizes| - 1;
      forall k | 0 <= k <= n ensures sizes[..n][..k] == sizes[..k] {}
    }
  }

  /** Where all was kept before the last call, it is afterwards exactly if that call is harmless. */
  lemma KeptStep(total: seq<Byte>, sizes: seq<nat>, reserve: nat, slack: nat)
    requires reserve <= 1 && reserve <= slack && sizes != []
    ensures var n := |sizes| - 1;
      var before := Calls(total, sizes[..n], reserve, slack);
      Kept(total, before) ==>
        (Kept(total, Calls(total, sizes, reserve, slack)) <==> !Harmful(total, before.left, sizes[n], reserve))
  {
    hide Calls, Deliver, Rest, Harmful;
    var n := |sizes| - 1;
    var before := Calls(total, sizes[..n], reserve, slack);
    LastCall(total, sizes, reserve, slack);
    CallKeepsIff(total, before.left, sizes[n], reserve, slack);
    var (reply, left) := Deliver(total, before.left, sizes[n], reserve, slack);
    Prefixed(before.delivered, reply.chunk, Rest(total, left), Rest(total, before.left));
  }

  lemma Prefixed(d: seq<Byte>, c: seq<Byte>, after: seq<Byte>, before: seq<Byte>)
    ensures (d + c) + after == d + before <==> before == c + after
  {
    assert (d + c) + after == d + (c + after);
    assert d + (c + after) == d + before ==> (d + (c + after))[|d|..] == (d + before)[|d|..];
    assert (d + (c + after))[|d|..] == c + after && (d + before)[|d|..] == before;
  }

  /** In such a run each reply reports exactly what was left before it. */
  lemma {:induction false} EachReports(total: seq<Byte>, sizes: seq<nat>, reserve: nat, slack: nat, k: nat)
    requires reserve <= 1 && reserve <= slack && Safe(total, sizes, reserve, slack) && k < |sizes|
    ensures var (before, reply) := (Calls(total, sizes[..k], reserve, slack),
      Calls(total, sizes, reserve, slack).replies[k]);
      reply.status == NoData || reply.reported == |total| - |before.delivered|
  {
    hide Calls, Deliver, Rest, Harmful, Safe;
    var n := |sizes| - 1;
    SafeStep(total, sizes, reserve, slack);
    LastCall(total, sizes, reserve, slack);
    if k < n {
      EachReports(total, sizes[..n], reserve, slack, k);
      assert sizes[..n][..k] == sizes[..k];
    } else {
      NothingLost(total, sizes, reserve, slack);
      HarmlessCall(total, Calls(total, sizes[..n], reserve, slack).left, sizes[n], reserve, slack);
      assert Kept(total, Calls(total, sizes[..n], reserve, slack));
    }
  }

  lemma NoCalls(total: seq<Byte>, reserve: nat, slack: nat)
    requires reserve <= 1
    ensures Calls(total, [], reserve, slack) == Run([], [], -1) && Kept(total, Run([], [], -1))
  {
  }

  lemma LastCall(total: seq<Byte>, sizes: seq<nat>, reserve: nat, slack: nat)
    requires reserve <= 1 && sizes != []
    ensures var n := |sizes| - 1;
      var before := Calls(total, sizes[..n], reserve, slack);
      var (reply, left) := Deliver(total, before.left, sizes[n], reserve, slack);
      Calls(total, sizes, reserve, slack) == Run(before.delivered + reply.chunk, before.replies + [reply], left)
  {
  }

  /** The end: at the first reply that is not a truncation, and from then on, everything has been delivered; every later
      call of a harmless run says that there is no data.  (An empty value may be asked for again; it stays empty.) */
  lemma {:induction false} EndIsFinal(total: seq<Byte>, sizes: seq<nat>, reserve: nat, slack: nat, k: nat)
    requires reserve <= 1 && reserve <= slack && Safe(total, sizes, reserve, slack) && k < |sizes|
    requires Calls(total, sizes, reserve, slack).replies[k].status != Truncated
    ensures Calls(total, sizes, reserve, slack).delivered == total
    ensures Calls(total, sizes[..k + 1], reserve, slack).delivered == total
    ensures var left := Calls(total, sizes, reserve, slack).left; left <= 0 && (total != [] ==> left != -1)
    ensures total != [] ==> forall j :: k < j < |sizes| ==>
      Calls(total, sizes, reserve, slack).replies[j] == Reply(NoData, [], 0)
  {
    hide Calls, Deliver, Rest, Harmful, Safe;
    var n := |sizes| - 1;
    SafeStep(total, sizes, reserve, slack);
    LastCall(total, sizes, reserve, slack);
    NothingLost(total, sizes, reserve, slack);
    var before := Calls(total, sizes[..n], reserve, slack);
    HarmlessCall(total, before.left, sizes[n], reserve, slack);
    assert sizes[..n + 1] == sizes;
    assert Kept(total, Calls(total, sizes[..n + 1], reserve, slack));
    if k < n {
      EndIsFinal(total, sizes[..n], reserve, slack, k);
      assert sizes[..n][..k + 1] == sizes[..k + 1];
      AfterEnd(before.delivered, total);
    }
  }

  lemma AfterEnd(d: seq<Byte>, total: seq<Byte>)
    ensures d == total ==> d + [] == total
  {
  }

  /** Enough calls finish: with buffers above the reserve, each call that is not the end delivers a byte. */
  lemma {:induction false} RunsEnd(total: seq<Byte>, sizes: seq<nat>, reserve: nat, slack: nat)
    requires reserve <= 1 && reserve <= slack && (forall k :: 0 <= k < |sizes| ==> sizes[k] > reserve)
    requires |sizes| > |total|
    ensures Calls(total, sizes, reserve, slack).delivered == total
  {
    Progress(total, sizes, reserve, slack);
    NothingLost(total, sizes, reserve, slack);
    assert sizes[..|sizes|] == sizes;
    assert Kept(total, Calls(total, sizes[..|sizes|], reserve, slack));
  }

  lemma {:induction false} Progress(total: seq<Byte>, sizes: seq<nat>, reserve: nat, slack: nat)
    requires reserve <= 1 && reserve <= slack && (forall k :: 0 <= k < |sizes| ==> sizes[k] > reserve)
    ensures var r := Calls(total, sizes, reserve, slack);
      |r.delivered| >= |sizes| || Rest(total, r.left) == []
  {
    hide Calls, Deliver;
    if sizes != [] {
      var n := |sizes| - 1;
      Progress(total, sizes[..n], reserve, slack);
      LastCall(total, sizes, reserve, slack);
      OneCall(total, Calls(total, sizes[..n], reserve, slack).left, sizes[n], reserve, slack);
    }
  }

  /** Without extra slack the first complete reply is the one that empties the value, so no call is wasted. */
  lemma ExactEnd(total: seq<Byte>, left: int, size: nat, reserve: nat)
    requires IsLeft(left, |total|) && (left == -1 || left > 0) && reserve <= 1 && size > reserve
    ensures var (reply, left') := Deliver(total, left, size, reserve, reserve);
      reply.status == Complete <==> Rest(total, left') == []
  {
  }
}

/**
 * The sequential generation loop shared by both panels
 * (`processChunksSequentially`): chunk 0 first, then chunks 1..n-1 in order,
 * one request in flight at a time; a failed chunk is skipped; the cancel flag
 * is read after chunk 0 and before every later chunk, and audio that arrives
 * once the flag reads "stop" is revoked instead of delivered.
 *
 * The outcome of every request is an input, and so is the moment the flag
 * flips: `After(t)` means it reads "stop" from the `t`-th completed await of
 * the run on. The page reader also waits 50 ms after each chunk that resolved
 * (except the last); that wait is one more await (`pause`).
 */
module Sequencer {
  import opened Common

  /** What the request for one chunk produced: an audio handle, or a
      rejection. */
  datatype Outcome = Produced(handle: string) | Failed

  /** When the cancel flag flips to "stop", counted in completed awaits. */
  datatype Cancel = Never | After(awaits: nat)

  predicate Stopped(c: Cancel, clock: nat)
  {
    c.After? && clock >= c.awaits
  }

  /** A handle together with the index of the chunk it was made for. */
  datatype Delivery = Delivery(index: nat, handle: string)

  /** Chunk indices strictly ascending, as the loop visits them. */
  predicate Ascending(ds: seq<Delivery>)
  {
    forall j, k :: 0 <= j < k < |ds| ==> ds[j].index < ds[k].index
  }

  /** The observable effect of one run: how many chunks were requested, the
      handles appended to the queue (each with its chunk index, in order), the
      handles revoked, and whether the run reached its final statement that
      clears the generating flag. */
  datatype Run = Run(requested: nat, delivered: seq<Delivery>, revoked: seq<Delivery>, cleared: bool)

  /** The handles among the first `m` outcomes, with their indices, in order. */
  function ProducedUpTo(outs: seq<Outcome>, m: nat): (r: seq<Delivery>)
    requires m <= |outs|
    ensures forall k :: 0 <= k < |r| ==> r[k].index < m && outs[r[k].index] == Produced(r[k].handle)
    ensures forall j, k :: 0 <= j < k < |r| ==> r[j].index < r[k].index
  {
    if m == 0 then []
    else
      var p := ProducedUpTo(outs, m - 1);
      if outs[m - 1].Produced? then p + [Delivery(m - 1, outs[m - 1].handle)] else p
  }

  /** Nothing produced is missing from the list. */
  lemma {:induction false} ProducedComplete(outs: seq<Outcome>, m: nat, i: nat)
    requires i < m <= |outs| && outs[i].Produced?
    ensures Delivery(i, outs[i].handle) in ProducedUpTo(outs, m)
    decreases m
  {
    if i < m - 1 {
      ProducedComplete(outs, m - 1, i);
    }
  }

  function Min(a: nat, b: nat): nat
  {
    if a <= b then a else b
  }

  function Max(a: nat, b: nat): nat
  {
    if a <= b then b else a
  }

  /** Whether the page reader waits 50 ms after chunk `j`: only with the
      pause, only after a later chunk (not chunk 0) that resolved, and not
      after the last one. */
  predicate Waits(outs: seq<Outcome>, pause: bool, j: nat)
  {
    pause && 1 <= j < |outs| - 1 && outs[j].Produced?
  }

  /** The number of completed awaits when iteration `i` (from 1) reads the
      cancel flag: chunk 0's request, one more per earlier request, and one
      per 50 ms wait. */
  function CheckClock(outs: seq<Outcome>, pause: bool, i: nat): (c: nat)
    requires 1 <= i
    ensures c >= i
    decreases i
  {
    if i == 1 then 1
    else CheckClock(outs, pause, i - 1) + 1 + (if Waits(outs, pause, i - 1) then 1 else 0)
  }

  /** The number of completed awaits when chunk `i`'s request settles: the
      moment the loop decides between delivering and revoking its audio. */
  function ArrivalClock(outs: seq<Outcome>, pause: bool, i: nat): (c: nat)
    ensures c >= 1
  {
    if i == 0 then 1 else CheckClock(outs, pause, i) + 1
  }

  /** Later checks happen later, and every chunk settles before the next
      check. */
  lemma {:induction false} ClocksAdvance(outs: seq<Outcome>, pause: bool, j: nat, i: nat)
    requires j < i
    ensures ArrivalClock(outs, pause, j) <= CheckClock(outs, pause, i)
    ensures 1 <= j ==> CheckClock(outs, pause, j) < CheckClock(outs, pause, i)
    decreases i
  {
    if j < i - 1 {
      ClocksAdvance(outs, pause, j, i - 1);
    }
  }

  /** The state of the `for` loop before iteration `i` with `clock` awaits
      done: everything produced so far was delivered or revoked, at most one
      handle was revoked, each delivered handle arrived while the flag read
      "go" and a revoked one after it read "stop", and no earlier check
      read "stop". */
  predicate LoopInv(outs: seq<Outcome>, i: nat, clock: nat, cancel: Cancel, pause: bool, acc: Run)
  {
    && 1 <= i
    && (i <= |outs| || (i == 1 && outs == []))
    && acc.requested == i
    && clock == CheckClock(outs, pause, i)
    && acc.delivered + acc.revoked == ProducedUpTo(outs, Min(i, |outs|))
    && |acc.revoked| <= 1
    && (acc.revoked != [] ==> Stopped(cancel, clock))
    && (forall k :: 0 <= k < |acc.delivered| ==> !Stopped(cancel, ArrivalClock(outs, pause, acc.delivered[k].index)))
    && (forall k :: 0 <= k < |acc.revoked| ==> Stopped(cancel, ArrivalClock(outs, pause, acc.revoked[k].index)))
    && (forall j :: 1 <= j < i ==> !Stopped(cancel, CheckClock(outs, pause, j)))
  }

  /** Iterations `i..n-1` of the loop (lines after the first chunk). */
  function Loop(outs: seq<Outcome>, i: nat, clock: nat, cancel: Cancel, pause: bool, acc: Run): (r: Run)
    requires LoopInv(outs, i, clock, cancel, pause, acc)
    ensures i <= r.requested <= Max(i, |outs|)
    ensures r.delivered + r.revoked == ProducedUpTo(outs, Min(r.requested, |outs|))
    ensures |r.revoked| <= 1
    ensures r.cleared
    ensures cancel.Never? ==> r.requested == Max(i, |outs|) && r.revoked == []
    ensures cancel.After? && clock < cancel.awaits ==> r.requested <= Max(i, cancel.awaits)
    ensures cancel.After? && clock >= cancel.awaits ==> r.requested == i && r.delivered == acc.delivered
    ensures r.requested == Max(i, |outs|) || Stopped(cancel, CheckClock(outs, pause, r.requested))
    ensures forall j :: 1 <= j < r.requested ==> !Stopped(cancel, CheckClock(outs, pause, j))
    ensures forall k :: 0 <= k < |r.delivered| ==> !Stopped(cancel, ArrivalClock(outs, pause, r.delivered[k].index))
    ensures forall k :: 0 <= k < |r.revoked| ==> Stopped(cancel, ArrivalClock(outs, pause, r.revoked[k].index))
    decreases |outs| - i
  {
    if i >= |outs| || Stopped(cancel, clock) then acc.(cleared := true)
    else
      var acc1 := Settle(outs, i, cancel, pause, acc);
      SettleKeeps(outs, i, clock, cancel, pause, acc);
      Loop(outs, i + 1, CheckClock(outs, pause, i + 1), cancel, pause, acc1)
  }

  /** Iteration `i` once its request settled: the request is counted, and a
      produced handle is revoked if the flag reads "stop" on arrival and
      delivered otherwise. */
  function Settle(outs: seq<Outcome>, i: nat, cancel: Cancel, pause: bool, acc: Run): Run
    requires i < |outs|
  {
    var acc1 := acc.(requested := i + 1);
    match outs[i]
    case Failed => acc1
    case Produced(h) =>
      if Stopped(cancel, ArrivalClock(outs, pause, i)) then acc1.(revoked := acc.revoked + [Delivery(i, h)])
      else acc1.(delivered := acc.delivered + [Delivery(i, h)])
  }

  lemma SettleKeeps(outs: seq<Outcome>, i: nat, clock: nat, cancel: Cancel, pause: bool, acc: Run)
    requires LoopInv(outs, i, clock, cancel, pause, acc)
    requires i < |outs| && !Stopped(cancel, clock)
    ensures LoopInv(outs, i + 1, CheckClock(outs, pause, i + 1), cancel, pause, Settle(outs, i, cancel, pause, acc))
  {
    var acc2 := Settle(outs, i, cancel, pause, acc);
    assert acc.revoked == [];
    if outs[i].Produced? {
      assert ProducedUpTo(outs, i + 1) == ProducedUpTo(outs, i) + [Delivery(i, outs[i].handle)];
    } else {
      assert ProducedUpTo(outs, i + 1) == ProducedUpTo(outs, i);
    }
  }

  /** `processChunksSequentially` over the outcomes of its chunks; `pause`
      selects the page reader's 50 ms wait. With no chunk at all the first
      request fails, as reading `chunks[0]` does.

      The run stops requesting at the first check that reads "stop" (or
      after the last chunk); a produced handle is delivered exactly when the
      flag still read "go" when it arrived, and revoked otherwise. */
  function Sequence(outs: seq<Outcome>, cancel: Cancel, pause: bool): (r: Run)
    ensures 1 <= r.requested <= Max(1, |outs|)
    ensures r.delivered + r.revoked == ProducedUpTo(outs, Min(r.requested, |outs|))
    ensures |r.revoked| <= 1
    ensures r.cleared <==> !Stopped(cancel, 1)
    ensures Stopped(cancel, 1) ==> r.requested == 1 && r.delivered == []
    ensures cancel.After? ==> r.requested <= Max(1, cancel.awaits)
    ensures cancel.Never? ==> r.requested == Max(1, |outs|) && r.revoked == [] && r.cleared
    ensures r.requested == Max(1, |outs|) || Stopped(cancel, CheckClock(outs, pause, r.requested))
    ensures forall j :: 1 <= j < r.requested ==> !Stopped(cancel, CheckClock(outs, pause, j))
    ensures forall k :: 0 <= k < |r.delivered| ==> !Stopped(cancel, ArrivalClock(outs, pause, r.delivered[k].index))
    ensures forall k :: 0 <= k < |r.revoked| ==> Stopped(cancel, ArrivalClock(outs, pause, r.revoked[k].index))
  {
    var first := if outs == [] then Failed else outs[0];
    var done := if first.Produced? then [Delivery(0, first.handle)] else [];
    assert outs != [] ==> ProducedUpTo(outs, 1) == done;
    if Stopped(cancel, 1) then Run(1, [], done, false)
    else
      FirstSettled(outs, cancel, pause, done);
      Loop(outs, 1, 1, cancel, pause, Run(1, done, [], false))
  }

  /** After chunk 0, with the flag still reading "go", the loop starts in
      its invariant. */
  lemma FirstSettled(outs: seq<Outcome>, cancel: Cancel, pause: bool, done: seq<Delivery>)
    requires !Stopped(cancel, 1)
    requires done == (if outs != [] && outs[0].Produced? then [Delivery(0, outs[0].handle)] else [])
    ensures LoopInv(outs, 1, 1, cancel, pause, Run(1, done, [], false))
  {
    if outs == [] {
    } else if outs[0].Produced? {
      assert ProducedUpTo(outs, 1) == ProducedUpTo(outs, 0) + [Delivery(0, outs[0].handle)];
    } else {
      assert ProducedUpTo(outs, 1) == ProducedUpTo(outs, 0);
    }
  }

  /** A stop during a later chunk: with three chunks that all produce audio
      and the flag reading "stop" from the third completed await on, the
      first two clips are delivered, the third is requested but revoked on
      arrival, and the run still reaches its end. */
  lemma StopDuringLaterChunk(a: string, b: string, c: string)
    ensures Sequence([Produced(a), Produced(b), Produced(c)], After(3), false)
      == Run(3, [Delivery(0, a), Delivery(1, b)], [Delivery(2, c)], true)
  {
    var outs := [Produced(a), Produced(b), Produced(c)];
    var d0, d1, d2 := Delivery(0, a), Delivery(1, b), Delivery(2, c);
    assert CheckClock(outs, false, 2) == 2 && CheckClock(outs, false, 3) == 3;
    assert Settle(outs, 1, After(3), false, Run(1, [d0], [], false)) == Run(2, [d0, d1], [], false);
    assert Settle(outs, 2, After(3), false, Run(2, [d0, d1], [], false)) == Run(3, [d0, d1], [d2], false);
    FirstSettled(outs, After(3), false, [d0]);
    SettleKeeps(outs, 1, 1, After(3), false, Run(1, [d0], [], false));
    SettleKeeps(outs, 2, 2, After(3), false, Run(2, [d0, d1], [], false));
    assert Sequence(outs, After(3), false) == Loop(outs, 1, 1, After(3), false, Run(1, [d0], [], false));
    assert Loop(outs, 1, 1, After(3), false, Run(1, [d0], [], false))
        == Loop(outs, 2, 2, After(3), false, Run(2, [d0, d1], [], false));
    assert Loop(outs, 2, 2, After(3), false, Run(2, [d0, d1], [], false))
        == Loop(outs, 3, 3, After(3), false, Run(3, [d0, d1], [d2], false));
  }

  /** Without cancellation every chunk is requested and every handle produced
      is delivered, in chunk order, with nothing revoked and the generating
      flag cleared. */
  lemma NoCancelDeliversAll(outs: seq<Outcome>, pause: bool)
    ensures var r := Sequence(outs, Never, pause);
      && r.delivered == ProducedUpTo(outs, |outs|)
      && (forall i :: 0 <= i < |outs| && outs[i].Produced? ==> Delivery(i, outs[i].handle) in r.delivered)
      && r.revoked == []
      && r.cleared
  {
    var r := Sequence(outs, Never, pause);
    assert Min(r.requested, |outs|) == |outs|;
    forall i | 0 <= i < |outs| && outs[i].Produced?
      ensures Delivery(i, outs[i].handle) in r.delivered
    {
      ProducedComplete(outs, |outs|, i);
    }
  }

  /** The handles the queue receives are in strictly ascending chunk order,
      each the handle its chunk produced, and at most one produced handle is
      thrown away. */
  lemma DeliveredInOrder(outs: seq<Outcome>, cancel: Cancel, pause: bool)
    ensures var r := Sequence(outs, cancel, pause);
      && Ascending(r.delivered)
      && (forall k :: 0 <= k < |r.delivered| ==>
            r.delivered[k].index < |outs| && outs[r.delivered[k].index] == Produced(r.delivered[k].handle))
  {
    var r := Sequence(outs, cancel, pause);
    var p := ProducedUpTo(outs, Min(r.requested, |outs|));
    assert forall k :: 0 <= k < |r.delivered| ==> r.delivered[k] == p[k];
  }

  /** A stretch of an ascending list is ascending. */
  lemma AscendingSlice(ds: seq<Delivery>, i: nat, j: nat)
    requires Ascending(ds) && i <= j <= |ds|
    ensures Ascending(ds[i..j])
  {
    forall a, b | 0 <= a < b < j - i
      ensures ds[i..j][a].index < ds[i..j][b].index
    {
      assert ds[i..j][a] == ds[i + a] && ds[i..j][b] == ds[i + b];
    }
  }

  /** The handles of a non-empty list: the first one, then the rest's. */
  lemma HandlesCons(ds: seq<Delivery>)
    requires ds != []
    ensures Handles(ds) == [ds[0].handle] + Handles(ds[1..])
  {
    assert Handles(ds)[1..] == Handles(ds[1..]);
  }

  /** The number the page reader shows as processed after a delivery: the
      index reached, not the number of successes. */
  function Reached(d: seq<Delivery>): nat
  {
    if d == [] then 0 else d[|d| - 1].index + 1
  }

  /** The count reaches the number of chunks exactly when the last chunk was
      delivered; a failed last chunk leaves it short. */
  lemma ReachedAllIff(outs: seq<Outcome>, cancel: Cancel, pause: bool)
    requires outs != []
    ensures var r := Sequence(outs, cancel, pause);
      Reached(r.delivered) == |outs| <==> (r.delivered != [] && r.delivered[|r.delivered| - 1].index == |outs| - 1)
    ensures var r := Sequence(outs, cancel, pause);
      Reached(r.delivered) <= |outs|
  {
    DeliveredInOrder(outs, cancel, pause);
  }

  /** The handles of a list of deliveries, in order. */
  function Handles(ds: seq<Delivery>): (r: seq<string>)
    ensures |r| == |ds|
    ensures forall k :: 0 <= k < |ds| ==> r[k] == ds[k].handle
  {
    seq(|ds|, k requires 0 <= k < |ds| => ds[k].handle)
  }

  /** Without cancellation every produced handle is delivered, and the count
      reaches the number of chunks exactly when the last chunk produced
      audio. */
  lemma NeverRun(outs: seq<Outcome>, pause: bool)
    requires outs != []
    ensures var r := Sequence(outs, Never, pause);
      && r.delivered == ProducedUpTo(outs, |outs|) && r.revoked == [] && r.cleared
      && Reached(r.delivered) <= |outs|
      && (Reached(r.delivered) == |outs| <==> outs[|outs| - 1].Produced?)
  {
    var n := |outs|;
    var p := ProducedUpTo(outs, n);
    assert Min(Max(1, n), n) == n;
    if outs[n - 1].Produced? {
      assert p == ProducedUpTo(outs, n - 1) + [Delivery(n - 1, outs[n - 1].handle)];
    } else {
      assert p == ProducedUpTo(outs, n - 1);
    }
  }

  lemma DivBounds(a: nat, b: nat, q: nat)
    requires b > 0 && q == a / b
    ensures q * b <= a < (q + 1) * b
  {
    assert a == q * b + a % b;
  }

  lemma MulCancel(a: nat, b: nat, t: nat)
    requires t > 0 && a * t < b * t
    ensures a < b
  {
  }

  /** `Math.round(reached / total * 100)`, in exact arithmetic. */
  function RoundPercent(reached: nat, total: nat): (p: nat)
    requires total > 0
    ensures reached <= total ==> p <= 100
    ensures p * (2 * total) <= 200 * reached + total < (p + 1) * (2 * total)
  {
    var p := (200 * reached + total) / (2 * total);
    DivBounds(200 * reached + total, 2 * total, p);
    RoundCap(p, reached, total);
    p
  }

  lemma RoundCap(p: nat, reached: nat, total: nat)
    requires total > 0 && p * (2 * total) <= 200 * reached + total
    ensures reached <= total ==> p <= 100
  {
    if reached <= total {
      assert p * (2 * total) < 101 * (2 * total);
      MulCancel(p, 101, 2 * total);
    }
  }

  /** The page reader shows 100% exactly when `reached` is within half a
      percent of `total`; with fewer than 200 chunks that means only when
      the last chunk was reached. */
  lemma RoundPercentFull(reached: nat, total: nat)
    requires 0 < total && reached <= total
    ensures RoundPercent(reached, total) == 100 <==> 200 * reached >= 199 * total
    ensures total < 200 ==> (RoundPercent(reached, total) == 100 <==> reached == total)
  {
    var p := RoundPercent(reached, total);
    var t := 2 * total;
    if 200 * reached >= 199 * total {
      assert 100 * t < (p + 1) * t;
      MulCancel(100, p + 1, t);
    }
  }

  /** A larger count never shows a smaller percentage. */
  lemma RoundMonotone(a: nat, b: nat, total: nat)
    requires a <= b && total > 0
    ensures RoundPercent(a, total) <= RoundPercent(b, total)
  {
    var pa := RoundPercent(a, total);
    var pb := RoundPercent(b, total);
    assert pa * (2 * total) < (pb + 1) * (2 * total);
    MulCancel(pa, pb + 1, 2 * total);
  }

  /** The percentages the page reader shows, one after each delivery. */
  function PercentTrail(ds: seq<Delivery>, total: nat): (r: seq<nat>)
    requires total > 0
    ensures |r| == |ds|
    ensures forall k :: 0 <= k < |ds| ==> r[k] == RoundPercent(ds[k].index + 1, total)
  {
    seq(|ds|, k requires 0 <= k < |ds| => RoundPercent(ds[k].index + 1, total))
  }

  /** Over one run the percentage shown never goes down and never exceeds
      100. */
  lemma ProgressTrail(outs: seq<Outcome>, cancel: Cancel, pause: bool)
    requires outs != []
    ensures var r := Sequence(outs, cancel, pause);
      var t := PercentTrail(r.delivered, |outs|);
      && (forall k :: 0 <= k < |t| ==> t[k] <= 100)
      && (forall j, k :: 0 <= j < k < |t| ==> t[j] <= t[k])
  {
    var r := Sequence(outs, cancel, pause);
    var t := PercentTrail(r.delivered, |outs|);
    DeliveredInOrder(outs, cancel, pause);
    forall j, k | 0 <= j < k < |t|
      ensures t[j] <= t[k]
    {
      RoundMonotone(r.delivered[j].index + 1, r.delivered[k].index + 1, |outs|);
    }
  }

  /** `totalChunks > 0 ? Math.floor(currentChunk / totalChunks * 100) : 0`, in
      exact arithmetic. */
  function FloorPercent(current: nat, total: nat): (p: nat)
    ensures total == 0 ==> p == 0
    ensures total > 0 ==> p * total <= 100 * current < (p + 1) * total
  {
    if total > 0 then
      var p := (100 * current) / total;
      DivBounds(100 * current, total, p);
      p
    else 0
  }

  /** The panel's progress stays within 0..100 while `current <= total` and is
      100 exactly when every chunk was reached. */
  lemma FloorPercentBounds(current: nat, total: nat)
    requires current <= total
    ensures FloorPercent(current, total) <= 100
    ensures total > 0 ==> (FloorPercent(current, total) == 100 <==> current == total)
  {
    var p := FloorPercent(current, total);
    if total > 0 {
      assert p * total < 101 * total;
      MulCancel(p, 101, total);
      if current == total {
        MulCancel(99, p, total);
      }
    }
  }
}

/**
The capture pacer (flux/crates/flux-capture/src/pacing.rs): decides when the next frame is due so
that deliveries follow a grid of one per interval.  Times and durations are integer nanoseconds.
*/
module Pacer {
  import opened Basics

  function Tolerance(interval: nat): nat { interval / 10 }

  predicate IsDue(interval: nat, due: Option<int>, now: int) {
    due.Some? ==> now + Tolerance(interval) >= due.value
  }

  /** When the frame after one delivered now is due. */
  function NextDue(interval: nat, due: Option<int>, now: int): int {
    var grid := (if due.Some? then due.value else now) + interval;
    if grid <= now then now + interval else Max(grid, now + interval / 2)
  }

  class CapturePacer {
    const interval: nat
    var nextDue: Option<int>

    constructor (interval: nat)
      ensures this.interval == interval && nextDue == None
    {
      this.interval := interval;
      nextDue := None;
    }

    /** The least wait after which a frame is due. */
    function TimeUntilDue(now: int): (wait: int)
      reads this
      ensures wait >= 0
      ensures forall t: int :: t >= now ==> (IsDue(interval, nextDue, t) <==> t >= now + wait)
    {
      if IsDue(interval, nextDue, now) then 0
      else nextDue.value - Tolerance(interval) - now
    }

    method MarkDelivered(now: int)
      modifies this
      ensures nextDue == Some(NextDue(interval, old(nextDue), now))
    {
      var grid := (if nextDue.Some? then nextDue.value else now) + interval;
      if grid <= now {
        nextDue := Some(now + interval);
      } else {
        nextDue := Some(Max(grid, now + interval / 2));
      }
    }
  }

  // ----- Runs

  /** What is due after frames delivered at these times. */
  function DueAfter(interval: nat, times: seq<int>): Option<int> {
    if times == [] then None
    else Some(NextDue(interval, DueAfter(interval, times[..|times| - 1]), times[|times| - 1]))
  }

  /** Every frame was due when it was delivered. */
  ghost predicate Paced(interval: nat, times: seq<int>) {
    forall k :: 0 <= k < |times| ==> IsDue(interval, DueAfter(interval, times[..k]), times[k])
  }

  /** The next frame is due at least half an interval from now, and at least one interval after the last one was. */
  lemma NextDueBounds(interval: nat, due: Option<int>, now: int)
    ensures var next := NextDue(interval, due, now);
            && next >= now + interval / 2
            && (due.Some? ==> next >= due.value + interval)
            && (due.None? ==> next == now + interval)
  {
  }

  /** Due times advance by at least an interval per delivery. */
  lemma {:induction false} DueAdvances(interval: nat, times: seq<int>, k: nat, n: nat)
    requires k < |times| && k + n < |times|
    ensures DueAfter(interval, times[..k + 1 + n]).value >= DueAfter(interval, times[..k + 1]).value + n * interval
    decreases n
  {
    if n == 0 {
    } else {
      DueAdvances(interval, times, k, n - 1);
      var upTo := times[..k + 1 + n];
      assert upTo[..|upTo| - 1] == times[..k + n];
      NextDueBounds(interval, DueAfter(interval, times[..k + n]), times[k + n]);
      assert (n - 1) * interval + interval == n * interval;
    }
  }

  /**
  No delivery ever runs ahead of the target rate: the n-th after the first is at most a tenth of
  an interval early.
  */
  lemma NeverAhead(interval: nat, times: seq<int>, n: nat)
    requires Paced(interval, times) && 0 < n < |times|
    ensures times[n] >= times[0] + n * interval - interval / 10
  {
    DueAdvances(interval, times, 0, n - 1);
    assert times[..1][..0] == [] && times[..1][0] == times[0];
    NextDueBounds(interval, None, times[0]);
    assert IsDue(interval, DueAfter(interval, times[..n]), times[n]);
    assert (n - 1) * interval + interval == n * interval;
  }

  /** Not even after a stall: any n + 1 consecutive deliveries take this long. */
  lemma NoBurst(interval: nat, times: seq<int>, k: nat, n: nat)
    requires Paced(interval, times) && 0 < n && k + n < |times|
    ensures times[k + n] - times[k] >= (n - 1) * interval + interval / 2 - interval / 10
  {
    var steps := (n - 1) * interval;
    var next, due := DueAfter(interval, times[..k + 1]), DueAfter(interval, times[..k + n]);
    assert next.value >= times[k] + interval / 2 by {
      var upTo := times[..k + 1];
      assert upTo[..k] == times[..k] && upTo[k] == times[k];
      NextDueBounds(interval, DueAfter(interval, times[..k]), times[k]);
    }
    assert due.value >= next.value + steps by {
      DueAdvances(interval, times, k, n - 1);
    }
    assert times[k + n] >= due.value - interval / 10 by {
      assert IsDue(interval, due, times[k + n]);
    }
  }

  /** A delivery leaves the grid alone exactly when it is not too late. */
  lemma GridKept(interval: nat, due: int, now: int)
    requires interval > 0
    ensures NextDue(interval, Some(due), now) == due + interval <==>
            now - due <= interval - interval / 2 && now - due < interval
  {
  }

  /** No frame was more than half an interval late. */
  ghost predicate Punctual(interval: nat, times: seq<int>) {
    forall k :: 0 < k < |times| ==>
                  DueAfter(interval, times[..k]).Some? &&
                  times[k] <= DueAfter(interval, times[..k]).value + interval / 2
  }

  lemma PunctualBefore(interval: nat, times: seq<int>)
    requires Punctual(interval, times) && times != []
    ensures Punctual(interval, times[..|times| - 1])
  {
    var rest := times[..|times| - 1];
    forall k | 0 < k < |rest|
      ensures DueAfter(interval, rest[..k]).Some?
      ensures rest[k] <= DueAfter(interval, rest[..k]).value + interval / 2
    {
      assert rest[..k] == times[..k];
    }
  }

  /** The time of the n-th frame on the grid. */
  function Grid(interval: nat, start: int, n: nat): int {
    if n == 0 then start else Grid(interval, start, n - 1) + interval
  }

  lemma {:induction false} GridTime(interval: nat, start: int, n: nat)
    ensures Grid(interval, start, n) == start + n * interval
  {
    if n == 0 {
    } else {
      GridTime(interval, start, n - 1);
      assert n * interval == (n - 1) * interval + interval;
    }
  }

  /** Lateness of up to half an interval never accumulates: the due times stay on the grid of the first frame. */
  lemma {:induction false} GridIsExact(interval: nat, times: seq<int>)
    requires Punctual(interval, times) && times != [] && interval > 0
    ensures DueAfter(interval, times) == Some(times[0] + |times| * interval)
  {
    GridIsKept(interval, times);
    GridTime(interval, times[0], |times|);
  }

  lemma {:induction false} GridIsKept(interval: nat, times: seq<int>)
    requires Punctual(interval, times) && times != [] && interval > 0
    ensures DueAfter(interval, times) == Some(Grid(interval, times[0], |times|))
  {
    var last := |times| - 1;
    if last > 0 {
      PunctualBefore(interval, times);
      GridIsKept(interval, times[..last]);
      GridKept(interval, DueAfter(interval, times[..last]).value, times[last]);
    } else {
      NextDueBounds(interval, None, times[0]);
    }
  }

  /** Deliveries made as soon as they are due. */
  function Eager(interval: nat, start: int, n: nat): (times: seq<int>)
    ensures |times| == n
  {
    if n == 0 then []
    else Eager(interval, start, n - 1) + [if n == 1 then start else Grid(interval, start, n - 1) - Tolerance(interval)]
  }

  lemma PacedMore(interval: nat, times: seq<int>, now: int)
    requires Paced(interval, times) && IsDue(interval, DueAfter(interval, times), now)
    ensures Paced(interval, times + [now])
    ensures DueAfter(interval, times + [now]) == Some(NextDue(interval, DueAfter(interval, times), now))
  {
    var more := times + [now];
    assert more[..|times|] == times;
    forall k | 0 <= k < |more|
      ensures IsDue(interval, DueAfter(interval, more[..k]), more[k])
    {
      assert k < |times| ==> more[..k] == times[..k];
    }
  }

  lemma {:induction false} EagerFollowsGrid(interval: nat, start: int, n: nat)
    requires interval > 0
    ensures Paced(interval, Eager(interval, start, n))
    ensures DueAfter(interval, Eager(interval, start, n)) == if n == 0 then None else Some(Grid(interval, start, n))
  {
    if n == 0 {
    } else {
      EagerFollowsGrid(interval, start, n - 1);
      var due := DueAfter(interval, Eager(interval, start, n - 1));
      var now := if n == 1 then start else Grid(interval, start, n - 1) - Tolerance(interval);
      assert NextDue(interval, due, now) == Grid(interval, start, n) && IsDue(interval, due, now) by {
        EagerNext(interval, due, start, now);
      }
      PacedMore(interval, Eager(interval, start, n - 1), now);
    }
  }

  lemma {:induction false} EagerAt(interval: nat, start: int, n: nat, k: nat)
    requires k < n
    ensures Eager(interval, start, n)[k] == if k == 0 then start else start + k * interval - interval / 10
  {
    if k == n - 1 {
      GridTime(interval, start, k);
    } else {
      EagerAt(interval, start, n - 1, k);
    }
  }

  /** Delivering as soon as a frame is due is a paced run, and meets the bound of `NeverAhead` exactly: it is tight. */
  lemma EagerIsPaced(interval: nat, start: int, n: nat)
    requires interval > 0
    ensures Paced(interval, Eager(interval, start, n))
    ensures var times := Eager(interval, start, n);
            forall k :: 0 < k < n ==> times[k] == times[0] + k * interval - interval / 10
  {
    EagerFollowsGrid(interval, start, n);
    forall k | 0 < k < n
      ensures Eager(interval, start, n)[k] == Eager(interval, start, n)[0] + k * interval - interval / 10
    {
      EagerAt(interval, start, n, 0);
      EagerAt(interval, start, n, k);
    }
  }

  lemma EagerNext(interval: nat, due: Option<int>, start: int, now: int)
    requires interval > 0 && now == if due.None? then start else due.value - Tolerance(interval)
    ensures IsDue(interval, due, now)
    ensures NextDue(interval, due, now) == (if due.None? then start else due.value) + interval
  {
  }

  /** Nor does the pacer fall behind: after a delivery the next frame is due at most an interval later than both. */
  lemma NextDueSoon(interval: nat, due: Option<int>, now: int)
    ensures NextDue(interval, due, now) <= Max(now, if due.Some? then due.value else now) + interval
    ensures due.Some? && now >= due.value + interval ==> NextDue(interval, due, now) == now + interval
  {
  }

  /** So whatever stalls there were, after each delivery a frame is due again within eleven tenths of an interval. */
  lemma NeverBehind(interval: nat, times: seq<int>)
    requires Paced(interval, times) && times != []
    ensures var last := times[|times| - 1];
            IsDue(interval, DueAfter(interval, times), last + interval + interval / 10)
    ensures DueAfter(interval, times).value <= times[|times| - 1] + interval + interval / 10
  {
    var last := |times| - 1;
    assert IsDue(interval, DueAfter(interval, times[..last]), times[last]);
    NextDueSoon(interval, DueAfter(interval, times[..last]), times[last]);
  }
}

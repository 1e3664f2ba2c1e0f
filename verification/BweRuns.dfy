/**
The whole estimator on values (flux-web/bwe.go): what its measurements make of the target, over
runs of frames, acknowledgements, transport statistics and updates.
*/
module BweRuns {
  import opened Basics
  import opened BweIndex
  import BweControl

  const QUEUE_THRESHOLD: int := 30_000_000
  const RTT_THRESHOLD: int := 50_000_000

  /** A floating-point number from the browser. */
  datatype Number = NaN | Infinite | Finite(value: real)

  function Smooth(haveQueue: bool, average: int, queue: int): int {
    if !haveQueue then queue else (3 * average + queue) / 4
  }

  predicate Congested(haveQueue: bool, average: int, inflation: int, sent: nat, lost: nat) {
    (haveQueue && average > QUEUE_THRESHOLD) || inflation > RTT_THRESHOLD || (sent > 0 && 20 * lost > sent)
  }

  predicate Usable(n: Number) { n.Finite? && n.value >= 0.0 }

  function Lookup(o: map<int, Sent>, num: int): Option<Sent> {
    if num in o then Some(o[num]) else None
  }

  /** The delay sample an acknowledgement yields, if any. */
  function TakenSample(sent: Option<Sent>, clientDoneMs: Number, at: int): seq<Sample> {
    if sent.Some? && 0 <= at - sent.value.at <= DELAY_WINDOW && Usable(clientDoneMs)
    then [Sample(at, at - sent.value.at)] else []
  }

  // ----- The estimator

  datatype Estimator = Estimator(
    control: BweControl.Control,
    outstanding: map<int, Sent>, sendOrder: seq<Entry>,
    history: seq<Sample>, average: int, haveQueue: bool, lastSampleAt: int,
    smoothedRtt: int, minRtt: int, packetsSent: nat, packetsLost: nat, haveStats: bool,
    windowSent: nat, windowLost: nat)

  datatype Event =
    | FrameSent(num: int, bytes: int, at: int)
    | FrameAcked(num: int, doneMs: Number, at: int)
    | FrameForgotten(num: int)
    | Stats(smoothed: int, min: int, sent: nat, lost: nat)
    | CeilingSet(kbps: U32)
    | Updated(now: int)

  function New(initial: int, now: int): Estimator {
    Estimator(BweControl.New(initial, now), map[], [], [], 0, false, 0, 0, 0, 0, 0, false, 0, 0)
  }

  function Awaited(e: Estimator, num: int, bytes: int, at: int): Estimator {
    var (o, order) := OnSent(e.outstanding, e.sendOrder, num, bytes, at);
    e.(outstanding := o, sendOrder := order)
  }

  function GivenUp(e: Estimator, num: int): Estimator {
    e.(outstanding := e.outstanding - {num}, sendOrder := Forgotten(e.sendOrder, num))
  }

  ghost function Acked(e: Estimator, num: int, doneMs: Number, at: int): Estimator {
    var taken := TakenSample(Lookup(e.outstanding, num), doneMs, at);
    var history := e.history + taken;
    var rest := e.(outstanding := e.outstanding - {num}, history := history);
    if taken == [] then rest
    else rest.(average := Smooth(e.haveQueue, e.average, QueueDelay(history)), haveQueue := true, lastSampleAt := at)
  }

  function Counted(e: Estimator, smoothed: int, min: int, sent: nat, lost: nat): Estimator {
    e.(smoothedRtt := smoothed, minRtt := min, packetsSent := sent, packetsLost := lost, haveStats := true,
       windowSent := e.windowSent + if e.haveStats then Max(0, sent - e.packetsSent) else 0,
       windowLost := e.windowLost + if e.haveStats then Max(0, lost - e.packetsLost) else 0)
  }

  function DoUpdate(e: Estimator, now: int): Estimator {
    if !BweControl.Due(e.control, now) then e
    else
      var recent := e.haveQueue && now - e.lastSampleAt <= SECOND;
      var congested := Congested(recent, e.average, e.smoothedRtt - e.minRtt, e.windowSent, e.windowLost);
      e.(control := BweControl.Update(e.control, now, congested), windowSent := 0, windowLost := 0,
         haveQueue := recent, average := if e.haveQueue && !recent then 0 else e.average)
  }

  ghost function Step(e: Estimator, ev: Event): Estimator {
    match ev
    case FrameSent(num, bytes, at) => Awaited(e, num, bytes, at)
    case FrameAcked(num, doneMs, at) => Acked(e, num, doneMs, at)
    case FrameForgotten(num) => GivenUp(e, num)
    case Stats(smoothed, min, sent, lost) => Counted(e, smoothed, min, sent, lost)
    case CeilingSet(kbps) => e.(control := BweControl.SetCeiling(e.control, kbps))
    case Updated(now) => DoUpdate(e, now)
  }

  ghost function Run(e: Estimator, events: seq<Event>): Estimator {
    if events == [] then e else Step(Run(e, events[..|events| - 1]), events[|events| - 1])
  }

  // ----- What an update makes of the measurements

  /**
  From a target in range and above the floor, an update that is due lowers it if and only if the
  queue average is recent and above 30 ms, the round-trip time is inflated by more than 50 ms, or
  more than one packet in twenty was lost.
  */
  lemma LoweredByMeasurement(e: Estimator, now: int)
    requires BweControl.InRange(e.control) && now - e.control.lastUpdate >= 500_000_000
    ensures DoUpdate(e, now).control.target < e.control.target ==>
              || (e.haveQueue && now - e.lastSampleAt <= 1_000_000_000 && e.average > 30_000_000)
              || e.smoothedRtt - e.minRtt > 50_000_000
              || (e.windowSent > 0 && 20 * e.windowLost > e.windowSent)
    ensures e.control.target > 1_500 ==>
              (DoUpdate(e, now).control.target < e.control.target <==>
               || (e.haveQueue && now - e.lastSampleAt <= 1_000_000_000 && e.average > 30_000_000)
               || e.smoothedRtt - e.minRtt > 50_000_000
               || (e.windowSent > 0 && 20 * e.windowLost > e.windowSent))
  {
    var recent := e.haveQueue && now - e.lastSampleAt <= SECOND;
    BweControl.UpdateInRange(e.control, now,
      Congested(recent, e.average, e.smoothedRtt - e.minRtt, e.windowSent, e.windowLost));
  }

  /** From any average, three acknowledgements in a row that waited 60 ms bring it above the threshold. */
  lemma SustainedQueueIsNoticed(haveQueue: bool, average: int, a: int, b: int, c: int)
    requires average >= 0 && a >= 60_000_000 && b >= 60_000_000 && c >= 60_000_000
    ensures Smooth(true, Smooth(true, Smooth(haveQueue, average, a), b), c) > 30_000_000
  {
  }

  /** An average never leaves the range of what it is made of, and without an old one it is the new value. */
  lemma SmoothBetween(average: int, queue: int)
    ensures Min(average, queue) <= Smooth(true, average, queue) <= Max(average, queue)
    ensures Smooth(false, average, queue) == queue
  {
  }

  // ----- A path that stays calm

  /** Every frame takes the same time to arrive. */
  ghost predicate SameDelay(history: seq<Sample>, d: int) {
    forall i :: 0 <= i < |history| ==> history[i].delay == d
  }

  /** No packet is reported lost, the round-trip time is within 50 ms of its least, and no ceiling is set. */
  predicate Calm(ev: Event, lost: nat) {
    && !ev.CeilingSet?
    && (ev.Stats? ==> ev.lost == lost && ev.smoothed - ev.min <= 50_000_000)
  }

  ghost predicate Quiet(e: Estimator, d: int, lost: nat) {
    && SameDelay(e.history, d) && e.average == 0 && e.windowLost == 0
    && e.smoothedRtt - e.minRtt <= 50_000_000 && (e.haveStats ==> e.packetsLost == lost)
  }

  lemma SameDelayNoQueue(history: seq<Sample>, d: int)
    requires SameDelay(history, d)
    ensures QueueDelay(history) == 0
  {
    if history != [] {
      QueueDelayIsExcess(history);
    }
  }

  lemma QuietStays(e: Estimator, ev: Event, d: int, lost: nat)
    requires Quiet(e, d, lost) && Calm(ev, lost) && SameDelay(Step(e, ev).history, d)
    ensures Quiet(Step(e, ev), d, lost)
    ensures Step(e, ev).control ==
            if ev.Updated? then BweControl.Update(e.control, ev.now, false) else e.control
  {
    if ev.FrameAcked? {
      SameDelayNoQueue(Step(e, ev).history, d);
    }
  }

  lemma HistoryGrows(e: Estimator, ev: Event)
    ensures e.history <= Step(e, ev).history
  {
  }

  ghost predicate AllCalm(events: seq<Event>, lost: nat) {
    forall i :: 0 <= i < |events| ==> Calm(events[i], lost)
  }

  /** Updates that are acted upon come no more than `gap` after the one before. */
  ghost predicate Frequent(e: Estimator, events: seq<Event>, gap: int) {
    forall n :: 0 <= n < |events| && events[n].Updated? ==>
                  var c := Run(e, events[..n]).control;
                  BweControl.Due(c, events[n].now) ==> events[n].now - c.lastUpdate <= gap
  }

  /** An estimator that has measured nothing yet. */
  predicate Fresh(e: Estimator) {
    && BweControl.InRange(e.control) && e.control.suppress.None?
    && e.history == [] && e.average == 0 && e.windowLost == 0 && !e.haveStats && e.smoothedRtt == e.minRtt
  }

  lemma FrequentBefore(e: Estimator, events: seq<Event>, gap: int)
    requires Frequent(e, events, gap) && events != []
    ensures Frequent(e, events[..|events| - 1], gap)
  {
    var before := events[..|events| - 1];
    forall n | 0 <= n < |before| && before[n].Updated?
      ensures var c := Run(e, before[..n]).control;
              BweControl.Due(c, before[n].now) ==> before[n].now - c.lastUpdate <= gap
    {
      assert before[..n] == events[..n];
    }
  }

  lemma {:induction false} CalmRises(e: Estimator, events: seq<Event>, d: int, lost: nat, gap: int) returns (n: nat)
    requires Fresh(e) && AllCalm(events, lost) && SameDelay(Run(e, events).history, d) && Frequent(e, events, gap)
    ensures Quiet(Run(e, events), d, lost)
    ensures BweControl.Rising(Run(e, events).control, e.control.lastUpdate, gap, n)
    ensures Run(e, events).control.ceiling == e.control.ceiling
    ensures events != [] ==>
              Run(e, events[..|events| - 1]).control.target <= Run(e, events).control.target
  {
    if events == [] {
      n := 0;
    } else {
      var before, ev := events[..|events| - 1], events[|events| - 1];
      HistoryGrows(Run(e, before), ev);
      FrequentBefore(e, events, gap);
      var m := CalmRises(e, before, d, lost, gap);
      QuietStays(Run(e, before), ev, d, lost);
      n := m;
      if ev.Updated? {
        n := BweControl.RisesInTime(Run(e, before).control, e.control.lastUpdate, gap, m, ev.now);
      }
    }
  }

  /**
  On a path where every frame takes the same time, nothing is lost and the round-trip time stays
  within 50 ms of its least, the target never falls, and it is at the ceiling once there has been
  time for thirty-one rises.
  */
  lemma CalmPathReachesCeiling(e: Estimator, events: seq<Event>, d: int, lost: nat, gap: int)
    requires Fresh(e) && AllCalm(events, lost) && SameDelay(Run(e, events).history, d)
    requires gap >= 0 && Frequent(e, events, gap)
    ensures events != [] ==> Run(e, events[..|events| - 1]).control.target <= Run(e, events).control.target
    ensures Run(e, events).control.lastUpdate >= e.control.lastUpdate + 31 * (2 * SECOND + gap) ==>
              Run(e, events).control.target == Min(e.control.ceiling, 50_000)
  {
    var n := CalmRises(e, events, d, lost, gap);
    var c := Run(e, events).control;
    if c.lastUpdate >= e.control.lastUpdate + 31 * (2 * SECOND + gap) {
      BweControl.RisenToTop(c, e.control.lastUpdate, gap, n);
    }
  }

  // ----- A path that stays inflated

  /** The number of updates acted upon. */
  ghost function Acts(e: Estimator, events: seq<Event>): nat {
    if events == [] then 0
    else
      var before, ev := events[..|events| - 1], events[|events| - 1];
      Acts(e, before) + if ev.Updated? && BweControl.Due(Run(e, before).control, ev.now) then 1 else 0
  }

  lemma {:induction false} InflatedFalls(e: Estimator, events: seq<Event>)
    requires BweControl.InRange(e.control) && e.smoothedRtt - e.minRtt > 50_000_000
    requires forall i :: 0 <= i < |events| && events[i].Stats? ==> events[i].smoothed - events[i].min > 50_000_000
    ensures var r := Run(e, events);
            && BweControl.InRange(r.control) && r.smoothedRtt - r.minRtt > 50_000_000
            && r.control.target <= BweControl.Bound(Acts(e, events))
  {
    if events == [] {
    } else {
      var before, ev := events[..|events| - 1], events[|events| - 1];
      InflatedFalls(e, before);
      InflatedStep(Run(e, before), ev, Acts(e, before));
    }
  }

  lemma InflatedStep(e: Estimator, ev: Event, n: nat)
    requires BweControl.InRange(e.control) && e.control.target <= BweControl.Bound(n)
    requires e.smoothedRtt - e.minRtt > 50_000_000 && (ev.Stats? ==> ev.smoothed - ev.min > 50_000_000)
    ensures var r := Step(e, ev);
            && BweControl.InRange(r.control) && r.smoothedRtt - r.minRtt > 50_000_000
            && r.control.target <=
               BweControl.Bound(n + if ev.Updated? && BweControl.Due(e.control, ev.now) then 1 else 0)
  {
    var c := e.control;
    if ev.CeilingSet? {
      BweControl.CeilingSetsRange(c, ev.kbps);
      BweControl.CeilingOnlyLowers(c, ev.kbps);
    } else if ev.Updated? {
      BweControl.UpdateInRange(c, ev.now, true);
      BweControl.LoweredBound(c, n);
    }
  }

  /** On a path whose round-trip time is always inflated by more than 50 ms, twenty-two updates reach the floor. */
  lemma InflatedPathReachesFloor(e: Estimator, events: seq<Event>)
    requires BweControl.InRange(e.control) && e.smoothedRtt - e.minRtt > 50_000_000
    requires forall i :: 0 <= i < |events| && events[i].Stats? ==> events[i].smoothed - events[i].min > 50_000_000
    requires Acts(e, events) >= 22
    ensures Run(e, events).control.target == 1_500
  {
    InflatedFalls(e, events);
    BweControl.BoundFalls(Acts(e, events));
  }

  // ----- What is measured

  /** An estimator that has only just been made and told its ceiling. */
  lemma NewIsFresh(initial: nat, now: int, kbps: U32)
    ensures Fresh(Step(New(initial, now), CeilingSet(kbps)))
  {
    BweControl.CeilingSetsRange(BweControl.New(initial, now), kbps);
  }

  /**
  An acknowledgement is measured if and only if the frame is awaited, it was sent no more than ten
  seconds ago and not in the future, and the browser's clock reading is a finite number that is not
  negative.  The sample is the time since the frame was sent, and the frame is awaited no more.
  */
  lemma AckMeasures(e: Estimator, num: int, doneMs: Number, at: int)
    ensures var r := Step(e, FrameAcked(num, doneMs, at));
            && num !in r.outstanding && (forall n :: n in e.outstanding && n != num ==> n in r.outstanding)
            && r.history ==
               if num in e.outstanding && 0 <= at - e.outstanding[num].at <= 10_000_000_000
                  && doneMs.Finite? && doneMs.value >= 0.0
               then e.history + [Sample(at, at - e.outstanding[num].at)] else e.history
  {
    assert e.history + [] == e.history;
  }

  /** More than one packet in twenty lost since the last report lowers the target at the next update that is due. */
  lemma LossLowersTarget(e: Estimator, smoothed: int, min: int, more: nat, gone: nat, now: int)
    requires BweControl.InRange(e.control) && e.control.target > 1_500 && now - e.control.lastUpdate >= 500_000_000
    requires e.haveStats && e.windowSent == 0 && e.windowLost == 0 && 20 * gone > more > 0
    ensures var e1 := Step(e, Stats(smoothed, min, e.packetsSent + more, e.packetsLost + gone));
            Step(e1, Updated(now)).control.target < e.control.target
  {
    LoweredByMeasurement(Step(e, Stats(smoothed, min, e.packetsSent + more, e.packetsLost + gone)), now);
  }

  /** The queueing delay of a sample is at least its excess over any sample of the ten seconds before. */
  lemma QueueAtLeast(history: seq<Sample>, k: nat)
    requires k < |history| && history[|history| - 1].at - history[k].at <= 10_000_000_000
    ensures QueueDelay(history) >= history[|history| - 1].delay - history[k].delay
  {
    QueueDelayIsExcess(history);
  }

  /** The frame is awaited since so long ago that its acknowledgement now yields this delay. */
  predicate Delayed(e: Estimator, num: int, at: int, delay: int) {
    num in e.outstanding && at - e.outstanding[num].at == delay && 0 <= delay <= 10_000_000_000
  }

  /** One acknowledgement later, with a queueing delay of `q`. */
  ghost predicate Noted(e: Estimator, r: Estimator, num: int, at: int, q: int) {
    && r.haveQueue && r.lastSampleAt == at && r.control == e.control && e.history <= r.history
    && r.outstanding == e.outstanding - {num} && r.average == Smooth(e.haveQueue, e.average, q)
  }

  /** An acknowledgement is noted with at least its excess over any sample of the ten seconds before. */
  lemma SlowAck(e: Estimator, num: int, ms: real, at: int, delay: int, k: nat) returns (q: int)
    requires Delayed(e, num, at, delay) && ms >= 0.0
    requires k < |e.history| && at - e.history[k].at <= 10_000_000_000
    ensures Noted(e, Step(e, FrameAcked(num, Finite(ms), at)), num, at, q) && q >= delay - e.history[k].delay
  {
    var r := Step(e, FrameAcked(num, Finite(ms), at));
    assert r.history == e.history + [Sample(at, delay)];
    assert r.history[k] == e.history[k];
    QueueAtLeast(r.history, k);
    q := QueueDelay(r.history);
  }

  /**
  Three acknowledgements in a row with queueing delays of 60 ms or more lower the target at the next
  update that is due, if it comes within a second of the last.
  */
  lemma SlowFramesLowerTarget(e: Estimator, e1: Estimator, e2: Estimator, e3: Estimator, nums: (int, int, int),
                              ats: (int, int, int), qs: (int, int, int), now: int)
    requires BweControl.InRange(e.control) && e.control.target > 1_500 && now - e.control.lastUpdate >= 500_000_000
    requires e.average >= 0 && Min(qs.0, Min(qs.1, qs.2)) >= 60_000_000 && now - ats.2 <= 1_000_000_000
    requires Noted(e, e1, nums.0, ats.0, qs.0) && Noted(e1, e2, nums.1, ats.1, qs.1)
    requires Noted(e2, e3, nums.2, ats.2, qs.2)
    ensures DoUpdate(e3, now).control.target < e.control.target
  {
    SustainedQueueIsNoticed(e.haveQueue, e.average, qs.0, qs.1, qs.2);
    LoweredByMeasurement(e3, now);
  }
}

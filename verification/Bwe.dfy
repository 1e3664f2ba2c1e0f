/** The bandwidth estimator and the encoder bitrate state as the relay updates them in place. */
module Bwe {
  import opened Basics
  import opened BweIndex
  import opened BweRuns
  import BweControl
  import Abr

  class DeliveryEstimator {
    var target: int
    var ceiling: int
    var lastUpdate: int
    var lastChange: int
    var suppress: Option<int>
    var outstanding: map<int, Sent>
    var sendOrder: seq<Entry>
    var delaySamples: seq<Sample>
    var queueAverage: int
    var haveQueue: bool
    var lastSampleAt: int
    var smoothedRtt: int
    var minRtt: int
    var packetsSent: nat
    var packetsLost: nat
    var haveStats: bool
    var windowSent: nat
    var windowLost: nat
    /** Every sample ever taken. */
    ghost var history: seq<Sample>

    /** Every awaited frame has its entry, and not too many are awaited. */
    ghost predicate IndexValid()
      reads `outstanding, `sendOrder
    {
      Covered(outstanding, sendOrder) && |outstanding| <= MAX_OUTSTANDING
    }

    /** The kept samples are the last ten seconds of all samples ever taken. */
    ghost predicate SamplesValid()
      reads `history, `lastSampleAt, `delaySamples
    {
      AreSamples(history, lastSampleAt) && delaySamples == Window(history, lastSampleAt)
    }

    ghost predicate AverageValid()
      reads `queueAverage
    {
      0 <= queueAverage <= DELAY_WINDOW
    }

    function Control(): BweControl.Control
      reads `target, `ceiling, `lastUpdate, `lastChange, `suppress
    {
      BweControl.Control(target, ceiling, lastUpdate, lastChange, suppress)
    }

    // This object is the code's counterpart of the specified estimator, part by part.

    ghost predicate ControlIs(e: Estimator)
      reads `target, `ceiling, `lastUpdate, `lastChange, `suppress
    {
      Control() == e.control
    }

    ghost predicate IndexIs(e: Estimator)
      reads `outstanding, `sendOrder
    {
      outstanding == e.outstanding && sendOrder == e.sendOrder
    }

    ghost predicate SamplesAre(e: Estimator)
      reads `history, `queueAverage, `haveQueue, `lastSampleAt
    {
      history == e.history && queueAverage == e.average && haveQueue == e.haveQueue && lastSampleAt == e.lastSampleAt
    }

    ghost predicate RttIs(e: Estimator)
      reads `smoothedRtt, `minRtt
    {
      smoothedRtt == e.smoothedRtt && minRtt == e.minRtt
    }

    ghost predicate CountersAre(e: Estimator)
      reads `packetsSent, `packetsLost, `haveStats
    {
      packetsSent == e.packetsSent && packetsLost == e.packetsLost && haveStats == e.haveStats
    }

    ghost predicate WindowIs(e: Estimator)
      reads `windowSent, `windowLost
    {
      windowSent == e.windowSent && windowLost == e.windowLost
    }

    ghost predicate Matches(e: Estimator)
      reads this
    {
      ControlIs(e) && IndexIs(e) && SamplesAre(e) && RttIs(e) && CountersAre(e) && WindowIs(e)
    }

    constructor (initialKbps: int, now: int)
      ensures Matches(New(initialKbps, now))
      ensures IndexValid() && SamplesValid() && AverageValid() && Control() == BweControl.New(initialKbps, now)
      ensures outstanding == map[] && history == [] && !haveQueue && !haveStats
    {
      target := if initialKbps == 0 then BweControl.INITIAL_KBPS else initialKbps;
      ceiling := BweControl.MAX_KBPS;
      lastUpdate, lastChange, suppress := now, now, None;
      outstanding, sendOrder, delaySamples, history := map[], [], [], [];
      queueAverage, haveQueue, lastSampleAt := 0, false, 0;
      smoothedRtt, minRtt, packetsSent, packetsLost, haveStats := 0, 0, 0, 0, false;
      windowSent, windowLost := 0, 0;
    }

    method OnFrameSent(num: int, bytes: int, at: int, ghost e: Estimator)
      requires IndexValid() && IndexIs(e)
      modifies `outstanding, `sendOrder
      ensures IndexValid()
      ensures (outstanding, sendOrder) == OnSent(old(outstanding), old(sendOrder), num, bytes, at)
      ensures IndexIs(Awaited(e, num, bytes, at))
      ensures num in outstanding && outstanding[num] == Sent(at, bytes)
      ensures Timed(old(sendOrder) + [Entry(num, at)]) ==>
                var gone := Evicted(old(outstanding), old(sendOrder), num, at);
                Timed(sendOrder) && forall n :: n in outstanding && gone.Some? ==> gone.value.at <= outstanding[n].at
    {
      PurgeOld(at);
      outstanding := outstanding[num := Sent(at, bytes)];
      sendOrder := sendOrder + [Entry(num, at)];
      EvictOldest();
      SentKeeps(old(outstanding), old(sendOrder), num, bytes, at);
      if Timed(old(sendOrder) + [Entry(num, at)]) {
        OldestIsEvicted(old(outstanding), old(sendOrder), num, bytes, at);
      }
    }

    /** The filter: frames no longer awaited and frames too old leave. */
    method PurgeOld(at: int)
      modifies `outstanding, `sendOrder
      ensures (outstanding, sendOrder) == Purge(old(outstanding), old(sendOrder), at)
    {
      var order, kept := sendOrder, [];
      for i := 0 to |order|
        invariant (outstanding, kept) == Purge(old(outstanding), order[..i], at)
        invariant sendOrder == order == old(sendOrder)
      {
        assert order[..i + 1][..i] == order[..i];
        var item := order[i];
        if item.num in outstanding && outstanding[item.num].at == item.at && at - item.at <= DELAY_WINDOW {
          kept := kept + [item];
        } else if item.num in outstanding && outstanding[item.num].at == item.at {
          outstanding := outstanding - {item.num};
        }
      }
      assert order[..|order|] == order;
      sendOrder := kept;
    }

    method EvictOldest()
      modifies `outstanding, `sendOrder
      ensures (outstanding, sendOrder) == Evict(old(outstanding), old(sendOrder))
    {
      ghost var goal := Evict(outstanding, sendOrder);
      while |outstanding| > MAX_OUTSTANDING && |sendOrder| > 0
        invariant Evict(outstanding, sendOrder) == goal
        decreases |sendOrder|
      {
        var oldest := sendOrder[0];
        sendOrder := sendOrder[1..];
        if oldest.num in outstanding && outstanding[oldest.num].at == oldest.at {
          outstanding := outstanding - {oldest.num};
        }
      }
    }

    method OnFrameAck(num: int, clientDoneMs: Number, at: int, ghost e: Estimator)
      requires IndexValid() && SamplesValid() && AverageValid() && IndexIs(e) && SamplesAre(e)
      requires history == [] || lastSampleAt <= at
      modifies `outstanding, `delaySamples, `lastSampleAt, `queueAverage, `haveQueue, `history
      ensures IndexIs(Acked(e, num, clientDoneMs, at)) && SamplesAre(Acked(e, num, clientDoneMs, at))
      ensures IndexValid() && outstanding == old(outstanding) - {num}
      ensures SamplesValid() && AverageValid()
      ensures var taken := TakenSample(Lookup(old(outstanding), num), clientDoneMs, at);
              && history == old(history) + taken
              && (taken == [] ==> unchanged(`delaySamples, `lastSampleAt, `queueAverage, `haveQueue))
              && (taken != [] ==> lastSampleAt == at && haveQueue)
              && (taken != [] ==> queueAverage == Smooth(old(haveQueue), old(queueAverage), QueueDelay(history)))
    {
      var sent := Lookup(outstanding, num);
      Measure(sent, clientDoneMs, at);
      TakenStaysCovered(outstanding, sendOrder, num);
      outstanding := outstanding - {num};
    }

    method Measure(sent: Option<Sent>, clientDoneMs: Number, at: int)
      requires SamplesValid() && AverageValid() && (history == [] || lastSampleAt <= at)
      modifies `delaySamples, `lastSampleAt, `queueAverage, `haveQueue, `history
      ensures SamplesValid() && AverageValid()
      ensures var taken := TakenSample(sent, clientDoneMs, at);
              && history == old(history) + taken
              && (taken == [] ==> unchanged(`delaySamples, `lastSampleAt, `queueAverage, `haveQueue))
              && (taken != [] ==> lastSampleAt == at && haveQueue)
              && (taken != [] ==> queueAverage == Smooth(old(haveQueue), old(queueAverage), QueueDelay(history)))
    {
      if sent.None? || at < sent.value.at || at - sent.value.at > DELAY_WINDOW || !Usable(clientDoneMs) {
        return;
      }
      TakeSample(Sample(at, at - sent.value.at));
    }

    method TakeSample(sample: Sample)
      requires SamplesValid() && AverageValid()
      requires (history == [] || lastSampleAt <= sample.at) && 0 <= sample.delay <= DELAY_WINDOW
      modifies `delaySamples, `lastSampleAt, `queueAverage, `haveQueue, `history
      ensures SamplesValid() && AverageValid()
      ensures history == old(history) + [sample] && lastSampleAt == sample.at && haveQueue
      ensures queueAverage == Smooth(old(haveQueue), old(queueAverage), QueueDelay(history))
    {
      ghost var before := if history == [] then sample.at else lastSampleAt;
      var kept, baseline := Prune(delaySamples, sample, history, before);
      QueueDelayBounds(history + [sample]);
      Average(Max(0, sample.delay - baseline));
      history := history + [sample];
      delaySamples := kept;
      lastSampleAt := sample.at;
    }

    method Average(queue: int)
      requires AverageValid() && 0 <= queue <= DELAY_WINDOW
      modifies `queueAverage, `haveQueue
      ensures AverageValid() && haveQueue && queueAverage == Smooth(old(haveQueue), old(queueAverage), queue)
    {
      if !haveQueue {
        queueAverage := queue;
        haveQueue := true;
      } else {
        queueAverage := (3 * queueAverage + queue) / 4;
      }
    }

    method Forget(num: int, ghost e: Estimator)
      requires IndexValid() && IndexIs(e)
      modifies `outstanding, `sendOrder
      ensures IndexValid() && IndexIs(GivenUp(e, num))
      ensures outstanding == old(outstanding) - {num} && sendOrder == Forgotten(old(sendOrder), num)
      ensures Timed(old(sendOrder)) ==> Timed(sendOrder)
    {
      TakenStaysCovered(outstanding, sendOrder, num);
      if Timed(sendOrder) {
        ForgottenTimed(sendOrder, num);
      }
      outstanding := outstanding - {num};
      var kept := [];
      for i := 0 to |sendOrder|
        invariant kept == Forgotten(sendOrder[..i], num)
      {
        assert sendOrder[..i + 1][..i] == sendOrder[..i];
        if sendOrder[i].num != num {
          kept := kept + [sendOrder[i]];
        }
      }
      assert sendOrder[..|sendOrder|] == sendOrder;
      sendOrder := kept;
    }

    method OnTransportStats(smoothed: int, min: int, sent: nat, lost: nat, ghost e: Estimator)
      requires RttIs(e) && CountersAre(e) && WindowIs(e)
      modifies `smoothedRtt, `minRtt, `packetsSent, `packetsLost, `haveStats, `windowSent, `windowLost
      ensures var r := Counted(e, smoothed, min, sent, lost); RttIs(r) && CountersAre(r) && WindowIs(r)
      ensures smoothedRtt == smoothed && minRtt == min
      ensures packetsSent == sent && packetsLost == lost && haveStats
      ensures windowSent == old(windowSent) + if old(haveStats) then Max(0, sent - old(packetsSent)) else 0
      ensures windowLost == old(windowLost) + if old(haveStats) then Max(0, lost - old(packetsLost)) else 0
    {
      smoothedRtt, minRtt := smoothed, min;
      if haveStats {
        if sent >= packetsSent {
          windowSent := windowSent + sent - packetsSent;
        }
        if lost >= packetsLost {
          windowLost := windowLost + lost - packetsLost;
        }
      }
      packetsSent, packetsLost, haveStats := sent, lost, true;
    }

    method SetCeiling(kbps: U32, ghost e: Estimator)
      requires ControlIs(e)
      modifies `target, `ceiling
      ensures ControlIs(e.(control := BweControl.SetCeiling(e.control, kbps)))
      ensures Control() == BweControl.SetCeiling(old(Control()), kbps)
    {
      var ceil: int := kbps;
      if ceil == 0 {
        ceil := BweControl.MAX_KBPS;
      }
      if ceil < BweControl.MIN_KBPS {
        ceil := BweControl.MIN_KBPS;
      }
      ceiling := ceil;
      target := BweControl.Clamp(target, ceil);
    }

    method Update(now: int, ghost e: Estimator) returns (kbps: int, changed: bool)
      requires AverageValid() && ControlIs(e) && SamplesAre(e) && RttIs(e) && WindowIs(e)
      modifies `target, `lastUpdate, `lastChange, `suppress, `windowSent, `windowLost, `haveQueue, `queueAverage
      ensures AverageValid()
      ensures ControlIs(DoUpdate(e, now)) && SamplesAre(DoUpdate(e, now)) && WindowIs(DoUpdate(e, now))
      ensures kbps == target && changed == (target != old(target))
      ensures BweControl.InRange(old(Control())) && old(target) > 1_500 && now - old(lastUpdate) >= 500_000_000 ==>
                (target < old(target) <==>
                 || (old(haveQueue) && now - lastSampleAt <= 1_000_000_000 && old(queueAverage) > 30_000_000)
                 || smoothedRtt - minRtt > 50_000_000
                 || (old(windowSent) > 0 && 20 * old(windowLost) > old(windowSent)))
    {
      if BweControl.InRange(e.control) && BweControl.Due(e.control, now) {
        LoweredByMeasurement(e, now);
      }
      if now - lastUpdate < BweControl.UPDATE_INTERVAL {
        return target, false;
      }
      var congested := Judge(now);
      kbps, changed := Apply(now, congested);
    }

    /** Closes the loss window, retires an old queue average and decides whether the path is congested. */
    method Judge(now: int) returns (congested: bool)
      requires AverageValid()
      modifies `windowSent, `windowLost, `haveQueue, `queueAverage
      ensures AverageValid() && windowSent == 0 && windowLost == 0
      ensures haveQueue == (old(haveQueue) && now - lastSampleAt <= SECOND)
      ensures queueAverage == if old(haveQueue) && !haveQueue then 0 else old(queueAverage)
      ensures congested ==
              Congested(haveQueue, old(queueAverage), smoothedRtt - minRtt, old(windowSent), old(windowLost))
    {
      var lossy := windowSent > 0 && 20 * windowLost > windowSent;
      windowSent, windowLost := 0, 0;
      if haveQueue && now - lastSampleAt > SECOND {
        haveQueue, queueAverage := false, 0;
      }
      congested := (haveQueue && queueAverage > QUEUE_THRESHOLD) || smoothedRtt - minRtt > RTT_THRESHOLD || lossy;
    }

    method Apply(now: int, congested: bool) returns (kbps: int, changed: bool)
      requires BweControl.Due(Control(), now)
      modifies `target, `lastUpdate, `lastChange, `suppress
      ensures Control() == BweControl.Update(old(Control()), now, congested)
      ensures kbps == target && changed == (target != old(target))
    {
      kbps, changed := target, false;
      lastUpdate := now;
      if congested {
        suppress := Some(now + SECOND);
        if now - lastChange < BweControl.UPDATE_INTERVAL {
          return;
        }
        var next := BweControl.Clamp((85 * target + 50) / 100, ceiling);
        if next == target {
          return;
        }
        target, lastChange := next, now;
        return next, true;
      }
      if now - lastChange < 2 * SECOND || (suppress.Some? && now < suppress.value) {
        return;
      }
      var next := BweControl.Clamp((112 * target + 50) / 100, ceiling);
      if next == target {
        return;
      }
      target, lastChange := next, now;
      return next, true;
    }
  }

  ghost function LeastOf(samples: seq<Sample>): Option<int> {
    if samples == [] then None else Some(Least(samples))
  }

  lemma LeastOfMore(samples: seq<Sample>, sample: Sample)
    ensures LeastOf(samples + [sample]) ==
            Some(if samples == [] then sample.delay else Min(Least(samples), sample.delay))
  {
    assert (samples + [sample])[..|samples|] == samples;
  }

  /** Samples as acknowledgements produce them. */
  ghost predicate AreSamples(history: seq<Sample>, now: int) {
    Ordered(history, now) && forall i :: 0 <= i < |history| ==> 0 <= history[i].delay <= DELAY_WINDOW
  }

  /** Walks the samples once: how many are stale, and the least delay of the others. */
  method Scan(samples: seq<Sample>, at: int) returns (first: nat, baseline: Option<int>)
    ensures first == Stale(samples, at) && baseline == LeastOf(Window(samples, at))
  {
    first, baseline := 0, None;
    for i := 0 to |samples|
      invariant first == Stale(samples[..i], at)
      invariant baseline == LeastOf(Window(samples[..i], at))
    {
      assert samples[..i + 1][..i] == samples[..i];
      var sample := samples[i];
      LeastOfMore(Window(samples[..i], at), sample);
      if at - sample.at <= DELAY_WINDOW {
        if baseline.None? || sample.delay < baseline.value {
          baseline := Some(sample.delay);
        }
      } else {
        assert Window(samples[..i + 1], at) == Window(samples[..i], at);
        first := first + 1;
      }
    }
    assert samples[..|samples|] == samples;
  }

  lemma MoreSamples(history: seq<Sample>, before: int, sample: Sample)
    requires AreSamples(history, before) && before <= sample.at && 0 <= sample.delay <= DELAY_WINDOW
    ensures AreSamples(history + [sample], sample.at)
    ensures Window(history + [sample], sample.at) != []
  {
    assert (history + [sample])[|history|] == sample;
  }

  /** Appends a sample, prunes the stale ones and returns the least delay still in the window. */
  method Prune(samples: seq<Sample>, sample: Sample, ghost history: seq<Sample>, ghost before: int)
    returns (kept: seq<Sample>, baseline: int)
    requires AreSamples(history, before) && before <= sample.at && 0 <= sample.delay <= DELAY_WINDOW
    requires samples == Window(history, before)
    ensures AreSamples(history + [sample], sample.at)
    ensures kept == Window(history + [sample], sample.at) != [] && baseline == Least(kept)
  {
    MoreSamples(history, before, sample);
    PruneIsWindow(history, before, sample);
    kept := samples + [sample];
    var first, least := Scan(kept, sample.at);
    if first > 0 {
      kept := kept[first..];
    }
    baseline := least.value;
  }

  class AbrState {
    var target: U32
    var ceiling: U32
    var lastEstimate: Option<int>
    /** The encoder-target gauge: the last rate that went into the command channel. */
    var encoderTarget: U32

    function Value(): Abr.State
      reads this
    {
      Abr.State(target, ceiling, lastEstimate, encoderTarget)
    }

    constructor ()
      ensures Value() == Abr.START
    {
      target, ceiling, lastEstimate, encoderTarget := 0, 0, None, 0;
    }

    /** Puts a command into the channel, or drops it when the channel has no room. */
    method SendBitrateCommand(kbps: U32, room: bool)
      modifies this`encoderTarget
      ensures encoderTarget == if room then kbps else old(encoderTarget)
    {
      if room {
        encoderTarget := kbps;
      }
    }

    method SetSenderTarget(kbps: U32, room: bool) returns (command: Option<U32>)
      modifies this
      ensures var e := Abr.SenderTarget(kbps, room);
              Abr.Step(old(Value()), e) == (Value(), Issued(command, e))
    {
      command := None;
      ceiling := kbps;
      if kbps == 0 || target <= kbps {
        return;
      }
      target, command := kbps, Some(kbps);
      SendBitrateCommand(kbps, room);
    }

    method OnEstimate(kbps: U32, now: int, room: bool) returns (command: Option<U32>)
      modifies this
      ensures var e := Abr.Estimate(kbps, now, room);
              Abr.Step(old(Value()), e) == (Value(), Issued(command, e))
    {
      command := None;
      if kbps == 0 {
        return;
      }
      var k: U32 := kbps;
      if k < Abr.MIN_KBPS {
        k := Abr.MIN_KBPS;
      }
      if ceiling != 0 && k > ceiling {
        k := ceiling;
      }
      if lastEstimate.Some? && now - lastEstimate.value < Abr.ESTIMATE_INTERVAL {
        return;
      }
      if target != 0 && !Abr.Material(target, k, ceiling) {
        return;
      }
      target, lastEstimate, command := k, Some(now), Some(k);
      SendBitrateCommand(k, room);
    }

    /** The command as it was issued. */
    function Issued(command: Option<U32>, cause: Abr.Event): seq<Abr.Command>
      reads this
    {
      if command.Some? then [Abr.Command(command.value, ceiling, cause)] else []
    }
  }
}

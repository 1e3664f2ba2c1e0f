/** What the sequencer's counters and keyframe requests mean. */
module SequencerCounts {
  import opened Basics
  import opened SequencerSpec
  import opened SequencerSafety
  import opened SequencerRuns
  import opened SequencerRecovery

  // ----- Keyframe requests

  /** The frame comes after the position the sequencer has reached. */
  predicate TooLate(a: Arith, s: State, f: Frame) { s.expected.Some? && a.Behind(f.num, s.expected.value) }

  lemma PushRequests(a: Arith, cfg: Config, s: State, f: Frame, now: int)
    requires Inv(a, cfg, s) && a.Number(f.num)
    ensures var r := Push(a, cfg, s, f, now).res;
            r.request <==> r.dropped > 0 && !f.keyframe && !TooLate(a, s, f)
  {
    if !TooLate(a, s, f) && f.keyframe {
      PushResyncs(a, cfg, s, f, now);
      var skipped := if s.expected.Some? then a.Dist(f.num, s.expected.value) else 0;
      var tail := DrainReleasesAll(a, Consume(a, ResyncStart(a, s, f, skipped, s.expected.None?), f));
    } else if !TooLate(a, s, f) && s.expected.Some? && a.Dist(f.num, s.expected.value) <= 0 {
      DistZero(a, f.num, s.expected.value);
      var tail := ExpectedComesOut(a, cfg, s, f, now);
    }
  }

  lemma LossRequests(a: Arith, cfg: Config, s: State, num: int, now: int)
    requires Inv(a, cfg, s) && a.Number(num)
    ensures var r := MarkLost(a, s, num, now).res;
            r.request <==> s.expected.None? || r.dropped > 0
  {
    if s.expected.Some? && !a.Behind(num, s.expected.value) && a.Dist(num, s.expected.value) <= 0 {
      var moved := s.(expected := Some(a.Next(s.expected.value)), waiting := true);
      WaitingDrops(a, cfg, Out(moved, NOTHING.(dropped := 1, request := true)));
    }
  }

  lemma ExpiryRequests(a: Arith, cfg: Config, s: State, now: int)
    requires Inv(a, cfg, s)
    ensures var r := Expire(a, cfg, s, now).res; r.request <==> r.dropped > 0
  {
    if s.expected.Some? && s.gapSince.Some? && now - s.gapSince.value >= cfg.gapTimeout {
      ExpiredGap(a, cfg, s, now);
      var r := Expire(a, cfg, s, now);
      var e := s.expected.value;
      if s.buffered.Keys != {} {
        var k :| IsFarthest(a, s.buffered.Keys, e, k) && r.st.expected.value == a.Next(k);
        DistNextSelf(a, k, e);
        DistAtLeastZero(a, k, e);
      } else {
        assert |s.buffered.Keys| == 0;
        assert a.Dist(e, e) == 0;
      }
    }
  }

  lemma DistAtLeastZero(a: Arith, k: int, e: int)
    requires !a.Behind(k, e)
    ensures a.Dist(k, e) >= 0
  {
  }

  /**
  A keyframe is requested exactly when frames are given up that the decoder would have needed: not
  for those that come too late, nor for those a keyframe overtakes.  A loss reported before
  the first keyframe also asks for one.
  */
  lemma RequestedWhenNeeded(a: Arith, cfg: Config, s: State, op: Op)
    requires Inv(a, cfg, s) && op.Valid(a)
    ensures var r := Step(a, cfg, s, op).res;
            r.request <==>
            match op
            case PushOp(f, _) => r.dropped > 0 && !f.keyframe && !TooLate(a, s, f)
            case LostOp(_, _) => r.dropped > 0 || s.expected.None?
            case ExpireOp(_) => r.dropped > 0
  {
    match op
    case PushOp(f, now) => PushRequests(a, cfg, s, f, now);
    case LostOp(n, now) => LossRequests(a, cfg, s, n, now);
    case ExpireOp(now) => ExpiryRequests(a, cfg, s, now);
  }

  // ----- The drop count

  /** Every position drained over is a frame released or counted. */
  lemma {:induction false} DrainAccounts(o: Out)
    requires Keyed(Unbounded, o.st.buffered) && o.st.expected.Some?
    ensures var r := DrainLoop(Unbounded, o);
            r.st.expected.value - o.st.expected.value ==
            (|r.res.ready| - |o.res.ready|) + (r.res.dropped - o.res.dropped)
    decreases |o.st.buffered|
  {
    if !ExpectedBuffered(o.st) {
    } else {
      MapMinusSize(o.st.buffered, {o.st.expected.value});
      DrainAccounts(DrainStep(Unbounded, o));
    }
  }

  /** Buffered frames at or before a keyframe. */
  function Overtaken(s: State, num: int): set<int> { set k | k in s.buffered && k <= num }

  /**
  What a call counts as dropped besides the positions it passes over: a frame that is too late, one that
  finds the buffer full, frames that waited in vain for the first keyframe, and a second time
  each buffered frame that a keyframe overtakes.
  */
  function Besides(cfg: Config, s: State, op: Op): nat {
    match op
    case PushOp(f, _) =>
      if TooLate(Unbounded, s, f) then 1
      else if f.keyframe then |Overtaken(s, f.num)|
      else if s.expected != Some(f.num) && |s.buffered| >= cfg.maxBuffered then 1
      else 0
    case LostOp(_, _) => 0
    case ExpireOp(now) => if s.expected.None? then |LateKeys(cfg, s.buffered, now)| else 0
  }

  /** How far a call moves the position; the first keyframe sets it. */
  function Moved(s: State, r: State, op: Op): int {
    if r.expected.None? then 0
    else if s.expected.Some? then r.expected.value - s.expected.value
    else if op.PushOp? then r.expected.value - op.frame.num
    else 0
  }

  lemma KeyframeAccounts(cfg: Config, s: State, f: Frame, now: int)
    requires Inv(Unbounded, cfg, s) && f.keyframe && !TooLate(Unbounded, s, f)
    ensures var r := Push(Unbounded, cfg, s, f, now);
            Moved(s, r.st, PushOp(f, now)) + |Overtaken(s, f.num)| == |r.res.ready| + r.res.dropped
  {
    var tail := KeyframeComesOut(Unbounded, cfg, s, f, now);
    KeyframeMoves(s.buffered, f, tail);
  }

  lemma KeyframeMoves(buffered: map<int, Frame>, f: Frame, tail: seq<Frame>)
    requires Keyed(Unbounded, buffered)
    requires var stale := set k | k in buffered && (k == f.num || Unbounded.Behind(k, f.num));
             Follow(Unbounded, buffered - stale, Unbounded.Next(f.num), tail)
    ensures Unbounded.Next(([f] + tail)[|tail|].num) == f.num + 1 + |tail|
    ensures (set k | k in buffered && (k == f.num || Unbounded.Behind(k, f.num))) == set k | k in buffered && k <= f.num
  {
    var stale := set k | k in buffered && (k == f.num || Unbounded.Behind(k, f.num));
    FollowCounts(buffered - stale, f.num + 1, tail);
    BeyondLast(Unbounded, f, tail);
  }

  lemma {:induction false} FollowCounts(buffered: map<int, Frame>, e: int, frames: seq<Frame>)
    requires Keyed(Unbounded, buffered) && Follow(Unbounded, buffered, e, frames)
    ensures Beyond(Unbounded, e, frames) == e + |frames|
    decreases |frames|
  {
    if frames == [] {
    } else {
      FollowCounts(buffered - {e}, e + 1, frames[1..]);
      BeyondFirst(Unbounded, frames[0], frames[1..]);
      assert [frames[0]] + frames[1..] == frames;
    }
  }

  lemma DeltaAccounts(cfg: Config, s: State, f: Frame, now: int)
    requires Inv(Unbounded, cfg, s) && !f.keyframe && !TooLate(Unbounded, s, f)
    ensures var r := Push(Unbounded, cfg, s, f, now);
            Moved(s, r.st, PushOp(f, now)) + Besides(cfg, s, PushOp(f, now)) == |r.res.ready| + r.res.dropped
  {
    if s.expected == Some(f.num) {
      PushConsumes(Unbounded, cfg, s, f, now);
      DrainAccounts(Consume(Unbounded, Out(s, NOTHING), f));
    }
  }

  lemma LossAccounts(cfg: Config, s: State, num: int, now: int)
    requires Inv(Unbounded, cfg, s)
    ensures var r := MarkLost(Unbounded, s, num, now);
            Moved(s, r.st, LostOp(num, now)) == |r.res.ready| + r.res.dropped
  {
    if s.expected == Some(num) {
      var o := Out(s.(expected := Some(num + 1), waiting := true), NOTHING.(dropped := 1, request := true));
      assert MarkLost(Unbounded, s, num, now) == Drain(Unbounded, o, now);
      DrainAccounts(o);
    } else {
      assert MarkLost(Unbounded, s, num, now).res.ready == [] && MarkLost(Unbounded, s, num, now).res.dropped == 0;
      assert MarkLost(Unbounded, s, num, now).st.expected == s.expected;
    }
  }

  /** Conservation: every position a call passes over is a frame released or one counted as dropped. */
  lemma StepAccounts(cfg: Config, s: State, op: Op)
    requires Inv(Unbounded, cfg, s)
    ensures var r := Step(Unbounded, cfg, s, op);
            Moved(s, r.st, op) + Besides(cfg, s, op) == |r.res.ready| + r.res.dropped
  {
    match op
    case PushOp(f, now) =>
      if TooLate(Unbounded, s, f) {
      } else if f.keyframe {
        KeyframeAccounts(cfg, s, f, now);
      } else {
        DeltaAccounts(cfg, s, f, now);
      }
    case LostOp(n, now) => LossAccounts(cfg, s, n, now);
    case ExpireOp(now) =>
      if s.expected.Some? && s.gapSince.Some? && now - s.gapSince.value >= cfg.gapTimeout {
        ExpiredGap(Unbounded, cfg, s, now);
      }
  }

  /** The drop counts of a run added up, and what was counted besides the positions passed over. */
  ghost function Drops(cfg: Config, s: State, ops: seq<Op>): (int, nat)
    requires Inv(Unbounded, cfg, s)
  {
    if ops == [] then (0, 0)
    else
      var last := |ops| - 1;
      var (dropped, besides) := Drops(cfg, s, ops[..last]);
      var s1 := RunFrom(Unbounded, cfg, s, ops[..last]).0;
      (dropped + Step(Unbounded, cfg, s1, ops[last]).res.dropped, besides + Besides(cfg, s1, ops[last]))
  }

  /** Over any run of a synchronised sequencer, positions passed over are frames released or counted. */
  lemma {:induction false} RunAccounts(cfg: Config, s: State, ops: seq<Op>)
    requires Inv(Unbounded, cfg, s) && s.expected.Some?
    ensures var (r, emitted) := RunFrom(Unbounded, cfg, s, ops);
            var (dropped, besides) := Drops(cfg, s, ops);
            r.expected.Some? && r.expected.value - s.expected.value + besides == |emitted| + dropped
  {
    if ops == [] {
    } else {
      var last := |ops| - 1;
      RunAccounts(cfg, s, ops[..last]);
      var s1 := RunFrom(Unbounded, cfg, s, ops[..last]).0;
      RunFromAfter(Unbounded, cfg, s, ops);
      StepAccounts(cfg, s1, ops[last]);
      StaysSynchronised(Unbounded, cfg, s1, ops[last]);
    }
  }

  lemma StaysSynchronised(a: Arith, cfg: Config, s: State, op: Op)
    requires Inv(a, cfg, s) && s.expected.Some?
    ensures Step(a, cfg, s, op).st.expected.Some?
  {
    if op.ExpireOp? && s.gapSince.Some? && op.now - s.gapSince.value >= cfg.gapTimeout {
      ExpiredGap(a, cfg, s, op.now);
    }
  }

  // ----- Drops that are due to waiting for a keyframe

  lemma KeyframeAwaiting(a: Arith, cfg: Config, s: State, f: Frame, now: int)
    requires Inv(a, cfg, s) && a.Number(f.num) && f.keyframe && !TooLate(a, s, f)
    ensures var r := Push(a, cfg, s, f, now).res; r.awaiting == if s.expected.None? then r.dropped else 0
  {
    var tail := KeyframeComesOut(a, cfg, s, f, now);
  }

  lemma PushAwaiting(a: Arith, cfg: Config, s: State, f: Frame, now: int)
    requires Inv(a, cfg, s) && a.Number(f.num)
    ensures var r := Push(a, cfg, s, f, now).res;
            r.awaiting ==
            if s.expected.None? || (s.waiting && s.expected == Some(f.num) && !f.keyframe) then r.dropped else 0
  {
    if !TooLate(a, s, f) && f.keyframe {
      KeyframeAwaiting(a, cfg, s, f, now);
    } else if !TooLate(a, s, f) && s.expected.Some? && a.Dist(f.num, s.expected.value) <= 0 {
      DistZero(a, f.num, s.expected.value);
      var tail := ExpectedComesOut(a, cfg, s, f, now);
    }
  }

  lemma LossAwaiting(a: Arith, cfg: Config, s: State, num: int, now: int)
    requires Inv(a, cfg, s) && a.Number(num)
    ensures var r := MarkLost(a, s, num, now).res; r.awaiting == Max(0, r.dropped - 1)
  {
    if s.expected.Some? && !a.Behind(num, s.expected.value) && a.Dist(num, s.expected.value) <= 0 {
      var moved := s.(expected := Some(a.Next(s.expected.value)), waiting := true);
      WaitingDrops(a, cfg, Out(moved, NOTHING.(dropped := 1, request := true)));
    }
  }

  /**
  Of the frames counted as dropped, those that were there and only lacked a keyframe are counted
  apart: all of a push before the first keyframe or of a delta whose turn it is while one is awaited, all
  but the lost frame of a loss report, and the buffered ones of a timed-out gap.
  */
  lemma AwaitingIsCountedApart(a: Arith, cfg: Config, s: State, op: Op)
    requires Inv(a, cfg, s) && op.Valid(a)
    ensures var r := Step(a, cfg, s, op).res;
            r.awaiting ==
            match op
            case PushOp(f, _) =>
              if s.expected.None? || (s.waiting && s.expected == Some(f.num) && !f.keyframe) then r.dropped else 0
            case LostOp(_, _) => Max(0, r.dropped - 1)
            case ExpireOp(_) => if s.expected.None? then r.dropped else if r.dropped > 0 then |s.buffered| else 0
  {
    match op
    case PushOp(f, now) => PushAwaiting(a, cfg, s, f, now);
    case LostOp(n, now) => LossAwaiting(a, cfg, s, n, now);
    case ExpireOp(now) =>
      ExpiryRequests(a, cfg, s, now);
      if s.expected.Some? && s.gapSince.Some? && now - s.gapSince.value >= cfg.gapTimeout {
        ExpiredGap(a, cfg, s, now);
      }
  }
}

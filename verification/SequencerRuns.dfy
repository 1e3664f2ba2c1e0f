/** What the sequencer emits over a whole run of calls. */
module SequencerRuns {
  import opened Basics
  import opened SequencerSpec
  import opened SequencerSafety

  // ----- Runs

  ghost predicate ValidOps(a: Arith, ops: seq<Op>) {
    forall i :: 0 <= i < |ops| ==> ops[i].Valid(a)
  }

  /** The state after a run from a fresh sequencer, and the `ready` lists of all its calls joined. */
  ghost function Run(a: Arith, cfg: Config, ops: seq<Op>): (r: (State, seq<Frame>))
    requires ValidOps(a, ops)
    ensures Inv(a, cfg, r.0)
  {
    if ops == [] then (INIT, [])
    else
      var last := |ops| - 1;
      var (s, emitted) := Run(a, cfg, ops[..last]);
      StepKeeps(a, cfg, s, ops[last]);
      var o := Step(a, cfg, s, ops[last]);
      (o.st, emitted + o.res.ready)
  }

  // ----- Decode-chain safety

  /** A decoder that has just taken the frame before `start` can take these frames one by one. */
  ghost predicate Chained(a: Arith, start: Option<int>, frames: seq<Frame>) {
    && (|frames| > 0 && !frames[0].keyframe ==> start == Some(frames[0].num))
    && (forall i :: 0 < i < |frames| && !frames[i].keyframe ==> frames[i].num == a.Next(frames[i - 1].num))
  }

  /** The number a delta must carry to follow these frames. */
  function ChainEnd(a: Arith, start: Option<int>, frames: seq<Frame>): Option<int> {
    if frames == [] then start else Some(a.Next(frames[|frames| - 1].num))
  }

  /** The number a delta must carry to be decodable now; none while a keyframe is awaited. */
  function Anchor(s: State): Option<int> {
    if s.waiting then None else s.expected
  }

  /** What one call has released so far chains on from `start`, up to where the sequencer now stands. */
  ghost predicate Linked(a: Arith, start: Option<int>, o: Out) {
    && Chained(a, start, o.res.ready)
    && (!o.st.waiting ==> o.st.expected.Some? && o.st.expected == ChainEnd(a, start, o.res.ready))
  }

  lemma ConsumeLinks(a: Arith, start: Option<int>, o: Out, f: Frame)
    requires Chained(a, start, o.res.ready)
    requires f.keyframe || o.st.waiting || (Linked(a, start, o) && o.st.expected == Some(f.num))
    ensures Linked(a, start, Consume(a, o, f))
  {
    var ready := o.res.ready + [f];
    if f.keyframe || !o.st.waiting {
      forall i | 0 < i < |ready| && !ready[i].keyframe ensures ready[i].num == a.Next(ready[i - 1].num) {
        assert ready[i - 1] == o.res.ready[i - 1];
        if i < |o.res.ready| { assert ready[i] == o.res.ready[i]; }
      }
    }
  }

  lemma {:induction false} DrainLoopLinks(a: Arith, start: Option<int>, o: Out)
    requires Keyed(a, o.st.buffered) && Linked(a, start, o)
    ensures Linked(a, start, DrainLoop(a, o))
    decreases |o.st.buffered|
  {
    if !ExpectedBuffered(o.st) {
    } else {
      var e := o.st.expected.value;
      MapMinusSize(o.st.buffered, {e});
      ConsumeLinks(a, start, o.(st := o.st.(buffered := o.st.buffered - {e})), o.st.buffered[e]);
      DrainLoopLinks(a, start, DrainStep(a, o));
    }
  }

  lemma ResyncLinks(a: Arith, start: Option<int>, s: State, f: Frame, now: int, skipped: int, awaiting: bool)
    requires Keyed(a, s.buffered) && f.keyframe
    ensures Linked(a, start, Resync(a, s, f, now, skipped, awaiting))
  {
    var o := ResyncStart(a, s, f, skipped, awaiting);
    ConsumeLinks(a, start, o, f);
    DrainLoopLinks(a, start, Consume(a, o, f));
  }

  lemma PushLinks(a: Arith, cfg: Config, s: State, f: Frame, now: int)
    requires Inv(a, cfg, s) && a.Number(f.num)
    ensures Linked(a, Anchor(s), Push(a, cfg, s, f, now))
  {
    if f.keyframe {
      if s.expected.None? {
        ResyncLinks(a, Anchor(s), s, f, now, 0, true);
      } else if !a.Behind(f.num, s.expected.value) {
        ResyncLinks(a, Anchor(s), s, f, now, a.Dist(f.num, s.expected.value), false);
      }
    } else if s.expected.Some? && !a.Behind(f.num, s.expected.value) && a.Dist(f.num, s.expected.value) <= 0 {
      DistZero(a, f.num, s.expected.value);
      ConsumeLinks(a, Anchor(s), Out(s, NOTHING), f);
      DrainLoopLinks(a, Anchor(s), Consume(a, Out(s, NOTHING), f));
    }
  }

  lemma MarkLostLinks(a: Arith, cfg: Config, s: State, num: int, now: int)
    requires Inv(a, cfg, s)
    ensures Linked(a, Anchor(s), MarkLost(a, s, num, now))
  {
    if s.expected.Some? && !a.Behind(num, s.expected.value) && a.Dist(num, s.expected.value) <= 0 {
      DrainLoopLinks(a, Anchor(s), Out(s.(expected := Some(a.Next(s.expected.value)), waiting := true),
                                       NOTHING.(dropped := 1, request := true)));
    }
  }

  lemma ExpireLinks(a: Arith, cfg: Config, s: State, now: int)
    requires Inv(a, cfg, s)
    ensures Linked(a, Anchor(s), Expire(a, cfg, s, now))
  {
    if s.expected.Some? && s.gapSince.Some? && now - s.gapSince.value >= cfg.gapTimeout {
      ExpiredGap(a, cfg, s, now);
      assert s.buffered.Keys != {} ==> |s.buffered.Keys| > 0;
    }
  }

  lemma StepLinks(a: Arith, cfg: Config, s: State, op: Op)
    requires Inv(a, cfg, s) && op.Valid(a)
    ensures Linked(a, Anchor(s), Step(a, cfg, s, op))
  {
    match op
    case PushOp(f, now) => PushLinks(a, cfg, s, f, now);
    case LostOp(n, now) => MarkLostLinks(a, cfg, s, n, now);
    case ExpireOp(now) => ExpireLinks(a, cfg, s, now);
  }

  lemma ChainedJoin(a: Arith, first: seq<Frame>, second: seq<Frame>, anchor: Option<int>)
    requires Chained(a, None, first) && Chained(a, anchor, second)
    requires anchor.Some? ==> anchor == ChainEnd(a, None, first)
    ensures Chained(a, None, first + second)
  {
    var both := first + second;
    forall i | 0 < i < |both| && !both[i].keyframe ensures both[i].num == a.Next(both[i - 1].num) {
      if i < |first| {
        assert both[i] == first[i] && both[i - 1] == first[i - 1];
      } else if i == |first| {
        assert both[i] == second[0] && both[i - 1] == first[|first| - 1];
      } else {
        assert both[i] == second[i - |first|] && both[i - 1] == second[i - 1 - |first|];
      }
    }
  }

  /**
  Decode-chain safety: whatever is pushed, lost or expired and in whatever order, the
  frames handed to the decoder start with a keyframe, and every delta among them carries
  exactly the number after its predecessor's.
  */
  lemma {:induction false} EmittedIsDecodable(a: Arith, cfg: Config, ops: seq<Op>)
    requires ValidOps(a, ops)
    ensures var (s, emitted) := Run(a, cfg, ops);
            && (emitted != [] ==> emitted[0].keyframe)
            && (forall i :: 0 < i < |emitted| && !emitted[i].keyframe ==> emitted[i].num == a.Next(emitted[i - 1].num))
            && (!s.waiting ==> emitted != [] && s.expected == Some(a.Next(emitted[|emitted| - 1].num)))
  {
    RunLinks(a, cfg, ops);
  }

  lemma {:induction false} RunLinks(a: Arith, cfg: Config, ops: seq<Op>)
    requires ValidOps(a, ops)
    ensures var (s, emitted) := Run(a, cfg, ops);
            Chained(a, None, emitted) && (!s.waiting ==> s.expected.Some? && s.expected == ChainEnd(a, None, emitted))
  {
    if ops == [] {
    } else {
      var last := |ops| - 1;
      var (s, emitted) := Run(a, cfg, ops[..last]);
      RunLinks(a, cfg, ops[..last]);
      var o := Step(a, cfg, s, ops[last]);
      assert Linked(a, Anchor(s), o) by {
        StepLinks(a, cfg, s, ops[last]);
      }
      LinkedJoin(a, s, emitted, o);
      RunNext(a, cfg, ops);
    }
  }

  /** A run is its beginning and one more call. */
  lemma RunNext(a: Arith, cfg: Config, ops: seq<Op>)
    requires ValidOps(a, ops) && ops != []
    ensures var last := |ops| - 1;
            var (s, emitted) := Run(a, cfg, ops[..last]);
            var o := Step(a, cfg, s, ops[last]);
            Run(a, cfg, ops) == (o.st, emitted + o.res.ready)
  {
  }

  lemma LinkedJoin(a: Arith, s: State, emitted: seq<Frame>, o: Out)
    requires Chained(a, None, emitted) && Linked(a, Anchor(s), o)
    requires !s.waiting ==> s.expected.Some? && s.expected == ChainEnd(a, None, emitted)
    ensures Chained(a, None, emitted + o.res.ready)
    ensures !o.st.waiting ==> o.st.expected.Some? && o.st.expected == ChainEnd(a, None, emitted + o.res.ready)
  {
    ChainedJoin(a, emitted, o.res.ready, Anchor(s));
  }

  // ----- Order on unbounded indices

  ghost predicate Increasing(frames: seq<Frame>) {
    forall i, j :: 0 <= i < j < |frames| ==> frames[i].num < frames[j].num
  }

  ghost predicate Within(frames: seq<Frame>, lo: int, hi: int) {
    forall i :: 0 <= i < |frames| ==> lo <= frames[i].num < hi
  }

  /** What one call has released so far lies in order between `lo` and the expected index. */
  ghost predicate InOrder(lo: int, o: Out) {
    && o.st.expected.Some? && lo <= o.st.expected.value
    && Increasing(o.res.ready) && Within(o.res.ready, lo, o.st.expected.value)
  }

  lemma ConsumeOrders(lo: int, o: Out, f: Frame)
    requires Increasing(o.res.ready) && Within(o.res.ready, lo, f.num) && lo <= f.num
    ensures InOrder(lo, Consume(Unbounded, o, f))
  {
  }

  lemma {:induction false} DrainLoopOrders(lo: int, o: Out)
    requires Keyed(Unbounded, o.st.buffered) && InOrder(lo, o)
    ensures InOrder(lo, DrainLoop(Unbounded, o))
    decreases |o.st.buffered|
  {
    if !ExpectedBuffered(o.st) {
    } else {
      var e := o.st.expected.value;
      MapMinusSize(o.st.buffered, {e});
      ConsumeOrders(lo, o.(st := o.st.(buffered := o.st.buffered - {e})), o.st.buffered[e]);
      DrainLoopOrders(lo, DrainStep(Unbounded, o));
    }
  }

  lemma ResyncOrders(lo: int, s: State, f: Frame, now: int, skipped: int, awaiting: bool)
    requires Keyed(Unbounded, s.buffered) && lo <= f.num
    ensures InOrder(lo, Resync(Unbounded, s, f, now, skipped, awaiting))
  {
    var o := ResyncStart(Unbounded, s, f, skipped, awaiting);
    ConsumeOrders(lo, o, f);
    DrainLoopOrders(lo, Consume(Unbounded, o, f));
  }

  /** One call on unbounded indices: it never moves back, and releases only from the old expected index on. */
  ghost predicate Advances(s: State, o: Out) {
    match s.expected
    case Some(lo) => InOrder(lo, o)
    case None => Increasing(o.res.ready) && (o.res.ready != [] ==> InOrder(o.res.ready[0].num, o))
  }

  lemma StartAdvances(s: State, f: Frame, now: int)
    requires Keyed(Unbounded, s.buffered) && s.expected.None?
    ensures Advances(s, Resync(Unbounded, s, f, now, 0, true))
  {
    ResyncOrders(f.num, s, f, now, 0, true);
    var r := Resync(Unbounded, s, f, now, 0, true);
    if r.res.ready != [] {
      assert Within(r.res.ready, r.res.ready[0].num, r.st.expected.value);
    }
  }

  lemma PushAdvances(cfg: Config, s: State, f: Frame, now: int)
    requires Inv(Unbounded, cfg, s)
    ensures Advances(s, Push(Unbounded, cfg, s, f, now))
  {
    if s.expected.None? {
      if f.keyframe { StartAdvances(s, f, now); }
    } else if f.keyframe {
      if f.num >= s.expected.value {
        ResyncOrders(s.expected.value, s, f, now, f.num - s.expected.value, false);
      }
    } else if s.expected == Some(f.num) {
      ConsumeOrders(f.num, Out(s, NOTHING), f);
      DrainLoopOrders(f.num, Consume(Unbounded, Out(s, NOTHING), f));
    }
  }

  lemma MarkLostAdvances(s: State, num: int, now: int)
    requires Keyed(Unbounded, s.buffered)
    ensures Advances(s, MarkLost(Unbounded, s, num, now))
  {
    if s.expected == Some(num) {
      var moved := s.(expected := Some(num + 1), waiting := true);
      DrainLoopOrders(num, Out(moved, NOTHING.(dropped := 1, request := true)));
    }
  }

  lemma ExpireAdvances(cfg: Config, s: State, now: int)
    requires Inv(Unbounded, cfg, s)
    ensures Advances(s, Expire(Unbounded, cfg, s, now))
  {
    if s.expected.Some? && s.gapSince.Some? && now - s.gapSince.value >= cfg.gapTimeout {
      ExpiredGap(Unbounded, cfg, s, now);
      assert Expire(Unbounded, cfg, s, now).st.expected.value >= s.expected.value;
    }
  }

  lemma StepAdvances(cfg: Config, s: State, op: Op)
    requires Inv(Unbounded, cfg, s)
    ensures Advances(s, Step(Unbounded, cfg, s, op))
  {
    match op
    case PushOp(f, now) => PushAdvances(cfg, s, f, now);
    case LostOp(n, now) => MarkLostAdvances(s, n, now);
    case ExpireOp(now) => ExpireAdvances(cfg, s, now);
  }

  lemma IncreasingJoin(first: seq<Frame>, second: seq<Frame>, mid: int)
    requires Increasing(first) && Increasing(second)
    requires forall i :: 0 <= i < |first| ==> first[i].num < mid
    requires forall i :: 0 <= i < |second| ==> mid <= second[i].num
    ensures Increasing(first + second)
  {
  }

  /** On unbounded indices the emitted frames strictly increase, so none is emitted twice. */
  lemma {:induction false} EmittedIncreases(cfg: Config, ops: seq<Op>)
    ensures var (s, emitted) := Run(Unbounded, cfg, ops);
            && Increasing(emitted)
            && (emitted != [] ==> s.expected.Some?)
            && (s.expected.Some? ==> forall i :: 0 <= i < |emitted| ==> emitted[i].num < s.expected.value)
  {
    if ops == [] {
    } else {
      var last := |ops| - 1;
      EmittedIncreases(cfg, ops[..last]);
      var (s, emitted) := Run(Unbounded, cfg, ops[..last]);
      StepAdvances(cfg, s, ops[last]);
      var o := Step(Unbounded, cfg, s, ops[last]);
      if s.expected.Some? {
        IncreasingJoin(emitted, o.res.ready, s.expected.value);
      } else {
        assert emitted + o.res.ready == o.res.ready;
      }
    }
  }
}

/**
What the sequencer is for: a stream that starts with a keyframe and then runs on deltas, of
any length, comes out complete and in order, however its frames were repeated on the way and
reordered within the buffer's limits of number and time.
*/
module SequencerOrder {
  import opened Basics
  import opened SequencerSpec
  import opened SequencerSafety
  import opened SequencerRuns
  import opened SequencerWrap

  /** A keyframe followed by deltas, numbered consecutively from `base`. */
  ghost predicate IsStream(fr: seq<Frame>, base: int) {
    && |fr| > 0 && fr[0].keyframe
    && (forall i :: 0 <= i < |fr| ==> fr[i].num == base + i)
    && (forall i :: 0 < i < |fr| ==> !fr[i].keyframe)
  }

  ghost predicate IsArrival(fr: seq<Frame>, base: int, op: Op) {
    op.PushOp? ==> 0 <= op.frame.num - base < |fr| && op.frame == fr[op.frame.num - base]
  }

  /** Every push is of a frame of the stream. */
  ghost predicate AreArrivals(fr: seq<Frame>, base: int, ops: seq<Op>) {
    forall i :: 0 <= i < |ops| ==> IsArrival(fr, base, ops[i])
  }

  /** The indices that have arrived. */
  function Arrived(ops: seq<Op>): set<int> {
    set i | 0 <= i < |ops| && ops[i].PushOp? :: ops[i].frame.num
  }

  /** No frame overtakes one that is `limit` or more places before it in the stream. */
  ghost predicate Punctual(base: int, limit: int, ops: seq<Op>) {
    forall i, m :: 0 <= i < |ops| && ops[i].PushOp? && base <= m <= ops[i].frame.num - limit ==> m in Arrived(ops[..i])
  }

  /** Nothing is missing before anything that has arrived. */
  ghost predicate Whole(base: int, got: set<int>) {
    forall k, m :: k in got && base <= m < k ==> m in got
  }

  /** All calls since the first `i` were made less than the timeout before `now`. */
  ghost predicate WithinTimeout(cfg: Config, ops: seq<Op>, i: nat, now: int) {
    forall k :: i <= k < |ops| ==> now - ops[k].now < cfg.gapTimeout
  }

  /**
  What may come after the calls `ops`.  The timer may fire if no early frame is older than the
  timeout while the keyframe is missing, and if after it nothing was missing at some moment
  within the timeout.  A loss may be reported of a frame all frames up to which have arrived.
  */
  ghost predicate Harmless(cfg: Config, base: int, ops: seq<Op>, op: Op) {
    match op
    case PushOp(_, _) => true
    case LostOp(n, _) => base in Arrived(ops) && forall m :: base <= m <= n ==> m in Arrived(ops)
    case ExpireOp(now) =>
      if base !in Arrived(ops) then forall i :: 0 <= i < |ops| && ops[i].PushOp? ==> !Late(cfg, ops[i].frame, now)
      else exists i: nat :: i <= |ops| && Whole(base, Arrived(ops[..i])) && WithinTimeout(cfg, ops, i, now)
  }

  ghost predicate Undisturbed(cfg: Config, base: int, ops: seq<Op>) {
    forall i :: 0 <= i < |ops| ==> Harmless(cfg, base, ops[..i], ops[i])
  }

  /** No index lies `limit` or more beyond the first one still missing. */
  ghost predicate Near(got: set<int>, missing: int, limit: int) {
    forall k :: k in got ==> k < missing + limit
  }

  /** What is buffered are frames of the stream. */
  ghost predicate OfStream(fr: seq<Frame>, base: int, buffered: map<int, Frame>) {
    forall k :: k in buffered ==> 0 <= k - base < |fr| && buffered[k] == fr[k - base]
  }

  /** The buffer holds exactly the indices of `got` from `lo` on. */
  ghost predicate HoldsFrom(buffered: map<int, Frame>, got: set<int>, lo: int) {
    forall k :: k in buffered <==> k in got && k >= lo
  }

  /** Frames `from` up to the expected one have been released, and the expected one is not at hand. */
  ghost predicate Released(fr: seq<Frame>, base: int, from: nat, o: Out) {
    && o.st.expected.Some? && from <= o.st.expected.value - base <= |fr| && !o.st.waiting
    && o.res.ready == fr[from..o.st.expected.value - base]
  }

  lemma ReleaseNext(fr: seq<Frame>, base: int, from: nat, o: Out)
    requires IsStream(fr, base) && Released(fr, base, from, o) && o.st.expected.value - base < |fr|
    ensures Released(fr, base, from, Consume(Unbounded, o, fr[o.st.expected.value - base]))
  {
    var m := o.st.expected.value - base;
    assert fr[from..m] + [fr[m]] == fr[from..m + 1];
  }

  lemma {:induction false} DrainReleases(fr: seq<Frame>, base: int, from: nat, o: Out)
    requires IsStream(fr, base) && Released(fr, base, from, o)
    requires Keyed(Unbounded, o.st.buffered) && OfStream(fr, base, o.st.buffered)
    ensures Released(fr, base, from, DrainLoop(Unbounded, o))
    decreases |o.st.buffered|
  {
    if !ExpectedBuffered(o.st) {
    } else {
      var e := o.st.expected.value;
      MapMinusSize(o.st.buffered, {e});
      ReleaseNext(fr, base, from, o.(st := o.st.(buffered := o.st.buffered - {e})));
      DrainReleases(fr, base, from, DrainStep(Unbounded, o));
    }
  }

  /** From `b` exactly the frames numbered `e` up to `e1` are taken out, and the next one is not there. */
  ghost predicate Takes(b: map<int, Frame>, e: int, b1: map<int, Frame>, e1: int) {
    && e <= e1 && e1 !in b
    && (forall k :: e <= k < e1 ==> k in b)
    && (forall k :: k in b1 <==> k in b && !(e <= k < e1))
    && (forall k :: k in b1 ==> b1[k] == b[k])
  }

  lemma TakesMore(b: map<int, Frame>, e: int, b1: map<int, Frame>, e1: int)
    requires e in b && Takes(b - {e}, e + 1, b1, e1)
    ensures Takes(b, e, b1, e1)
  {
    forall k | e <= k < e1
      ensures k in b
    {
      if k > e { assert k in b - {e}; }
    }
  }

  lemma DrainNext(o: Out)
    requires Keyed(Unbounded, o.st.buffered) && ExpectedBuffered(o.st)
    ensures var e, o1 := o.st.expected.value, DrainStep(Unbounded, o);
            && o1.st.buffered == o.st.buffered - {e} && o1.st.expected == Some(e + 1)
            && Keyed(Unbounded, o1.st.buffered) && |o1.st.buffered| < |o.st.buffered|
            && DrainLoop(Unbounded, o) == DrainLoop(Unbounded, o1)
  {
    MapMinusSize(o.st.buffered, {o.st.expected.value});
  }

  /** Draining takes out exactly the buffered frames that follow on from the expected one. */
  lemma {:induction false} DrainTakes(o: Out)
    requires Keyed(Unbounded, o.st.buffered) && o.st.expected.Some?
    ensures var r := DrainLoop(Unbounded, o).st;
            r.expected.Some? && Takes(o.st.buffered, o.st.expected.value, r.buffered, r.expected.value)
    decreases |o.st.buffered|
  {
    if !ExpectedBuffered(o.st) {
    } else {
      DrainNext(o);
      DrainTakes(DrainStep(Unbounded, o));
      var r := DrainLoop(Unbounded, o).st;
      TakesMore(o.st.buffered, o.st.expected.value, r.buffered, r.expected.value);
    }
  }

  /** What has come out after the indices in `got` have arrived, in whatever order. */
  ghost predicate Delivered(fr: seq<Frame>, base: int, got: set<int>, s: State, emitted: seq<Frame>) {
    if base !in got then
      s.expected.None? && emitted == [] && OfStream(fr, base, s.buffered) && HoldsFrom(s.buffered, got, base)
    else
      && s.expected.Some? && !s.waiting && 1 <= s.expected.value - base <= |fr|
      && emitted == fr[..s.expected.value - base]
      && (forall k :: base <= k < s.expected.value ==> k in got) && s.expected.value !in got
      && OfStream(fr, base, s.buffered) && HoldsFrom(s.buffered, got, s.expected.value)
  }

  lemma {:induction false} RangeBound(keys: set<int>, base: int, n: nat)
    requires forall k :: k in keys ==> base <= k < base + n
    ensures |keys| <= n
    decreases n
  {
    if n == 0 {
      if keys != {} { var k := Pick(keys); }
    } else {
      RangeBound(keys - {base + n - 1}, base, n - 1);
    }
  }

  /** With nothing too far beyond the missing frame, the buffer has room for one more. */
  lemma RoomLeft(keys: set<int>, missing: int, limit: int)
    requires forall k :: k in keys ==> missing < k < missing + limit
    ensures |keys| < limit || keys == {}
  {
    if keys != {} {
      var k := Pick(keys);
      RangeBound(keys, missing + 1, limit - 1);
    }
  }

  lemma DrainDelivers(fr: seq<Frame>, base: int, got: set<int>, o: Out, now: int, emitted: seq<Frame>)
    requires IsStream(fr, base) && Keyed(Unbounded, o.st.buffered) && o.st.expected.Some?
    requires base in got && o.st.expected.value > base
    requires Released(fr, base, |emitted|, o) && emitted == fr[..|emitted|]
    requires forall k :: base <= k < o.st.expected.value ==> k in got
    requires OfStream(fr, base, o.st.buffered) && HoldsFrom(o.st.buffered, got, o.st.expected.value)
    ensures var r := Drain(Unbounded, o, now); Delivered(fr, base, got, r.st, emitted + r.res.ready)
  {
    DrainReleases(fr, base, |emitted|, o);
    DrainTakes(o);
  }

  lemma FirstDelivers(fr: seq<Frame>, base: int, cfg: Config, got: set<int>, s: State, f: Frame, now: int)
    requires IsStream(fr, base) && Inv(Unbounded, cfg, s)
    requires base !in got && Delivered(fr, base, got, s, []) && IsArrival(fr, base, PushOp(f, now))
    requires Near(got, base, cfg.maxBuffered) && f.num < base + cfg.maxBuffered
    requires forall k :: k in got ==> base <= k
    ensures var r := Push(Unbounded, cfg, s, f, now); Delivered(fr, base, got + {f.num}, r.st, r.res.ready)
  {
    if f.num == base {
      assert StaleKeys(Unbounded, s.buffered, base) == {};
      assert s.buffered - {} == s.buffered;
      var o := Consume(Unbounded, ResyncStart(Unbounded, s, f, 0, true), f);
      assert o.res.ready == fr[0..1];
      DrainDelivers(fr, base, got + {base}, o, now, []);
      assert [] + Drain(Unbounded, o, now).res.ready == Drain(Unbounded, o, now).res.ready;
    } else {
      RoomLeft(s.buffered.Keys, base, cfg.maxBuffered);
    }
  }

  lemma GapDelivers(fr: seq<Frame>, base: int, cfg: Config, got: set<int>, s: State, emitted: seq<Frame>, f: Frame,
                    now: int)
    requires IsStream(fr, base) && Inv(Unbounded, cfg, s)
    requires base in got && Delivered(fr, base, got, s, emitted) && IsArrival(fr, base, PushOp(f, now))
    requires s.expected.value < f.num && |s.buffered| < cfg.maxBuffered
    ensures var r := Push(Unbounded, cfg, s, f, now); Delivered(fr, base, got + {f.num}, r.st, emitted + r.res.ready)
  {
    assert emitted + [] == emitted;
  }

  lemma ExpectedDelivers(fr: seq<Frame>, base: int, cfg: Config, got: set<int>, s: State, emitted: seq<Frame>,
                         f: Frame, now: int)
    requires IsStream(fr, base) && Inv(Unbounded, cfg, s)
    requires base in got && Delivered(fr, base, got, s, emitted) && IsArrival(fr, base, PushOp(f, now))
    requires f.num == s.expected.value
    ensures var r := Push(Unbounded, cfg, s, f, now); Delivered(fr, base, got + {f.num}, r.st, emitted + r.res.ready)
  {
    var m := f.num - base;
    var o := Consume(Unbounded, Out(s, NOTHING), f);
    assert o.res.ready == fr[m..m + 1];
    DrainDelivers(fr, base, got + {f.num}, o, now, emitted);
  }

  lemma NextDelivers(fr: seq<Frame>, base: int, cfg: Config, got: set<int>, s: State, emitted: seq<Frame>, f: Frame,
                     now: int)
    requires IsStream(fr, base) && Inv(Unbounded, cfg, s)
    requires base in got && Delivered(fr, base, got, s, emitted) && IsArrival(fr, base, PushOp(f, now))
    requires f.num > s.expected.value ==> |s.buffered| < cfg.maxBuffered
    ensures var r := Push(Unbounded, cfg, s, f, now); Delivered(fr, base, got + {f.num}, r.st, emitted + r.res.ready)
  {
    if f.num < s.expected.value {
      assert emitted + [] == emitted;
      assert got + {f.num} == got;
    } else if f.num == s.expected.value {
      ExpectedDelivers(fr, base, cfg, got, s, emitted, f, now);
    } else {
      GapDelivers(fr, base, cfg, got, s, emitted, f, now);
    }
  }

  lemma ArrivedSplit(ops: seq<Op>)
    requires ops != []
    ensures var last := |ops| - 1;
            Arrived(ops) ==
            if ops[last].PushOp? then Arrived(ops[..last]) + {ops[last].frame.num} else Arrived(ops[..last])
  {
    var last := |ops| - 1;
    var more := if ops[last].PushOp? then {ops[last].frame.num} else {};
    forall k | k in Arrived(ops) ensures k in Arrived(ops[..last]) + more {
      var i :| 0 <= i < |ops| && ops[i].PushOp? && ops[i].frame.num == k;
      if i < last { assert ops[..last][i].frame.num == k; }
    }
    forall k | k in Arrived(ops[..last]) ensures k in Arrived(ops) {
      var i :| 0 <= i < last && ops[..last][i].PushOp? && ops[..last][i].frame.num == k;
      assert ops[i].frame.num == k;
    }
  }

  /** The first index still missing. */
  function Missing(s: State, base: int): int { if s.expected.Some? then s.expected.value else base }

  /** A punctual arrival is not too far beyond the first missing index, and leaves the others so. */
  lemma StaysNear(base: int, limit: int, got: set<int>, missing: int, num: int, later: int)
    requires Near(got, missing, limit) && base <= missing <= later && missing !in got && missing <= num
    requires forall m :: base <= m <= num - limit ==> m in got
    ensures (num < missing + limit) && Near(got + {num}, later, limit)
  {
    assert missing <= num - limit ==> missing in got;
  }

  lemma PunctualBefore(base: int, limit: int, ops: seq<Op>)
    requires Punctual(base, limit, ops) && ops != []
    ensures Punctual(base, limit, ops[..|ops| - 1])
  {
    var before := ops[..|ops| - 1];
    forall i, m | 0 <= i < |before| && before[i].PushOp? && base <= m <= before[i].frame.num - limit
      ensures m in Arrived(before[..i])
    {
      assert before[..i] == ops[..i];
    }
  }

  lemma UndisturbedBefore(cfg: Config, base: int, ops: seq<Op>)
    requires Undisturbed(cfg, base, ops) && ops != []
    ensures Undisturbed(cfg, base, ops[..|ops| - 1]) && Harmless(cfg, base, ops[..|ops| - 1], ops[|ops| - 1])
  {
    var before := ops[..|ops| - 1];
    forall i | 0 <= i < |before|
      ensures Harmless(cfg, base, before[..i], before[i])
    {
      assert before[..i] == ops[..i];
    }
  }

  lemma PrefixesAlike(fr: seq<Frame>, base: int, cfg: Config, ops: seq<Op>, n: nat)
    requires AreArrivals(fr, base, ops) && Punctual(base, cfg.maxBuffered, ops) && Undisturbed(cfg, base, ops)
    requires n <= |ops|
    ensures var p := ops[..n];
            AreArrivals(fr, base, p) && Punctual(base, cfg.maxBuffered, p) && Undisturbed(cfg, base, p)
    decreases |ops|
  {
    if n == |ops| {
      assert ops[..n] == ops;
    } else {
      PunctualBefore(base, cfg.maxBuffered, ops);
      UndisturbedBefore(cfg, base, ops);
      PrefixesAlike(fr, base, cfg, ops[..|ops| - 1], n);
      assert ops[..|ops| - 1][..n] == ops[..n];
    }
  }

  // ----- The timer

  /** A gap is timed only while something is buffered. */
  predicate TimedIfHeld(s: State) { |s.buffered| == 0 ==> s.gapSince.None? }

  lemma PushTimes(cfg: Config, s: State, f: Frame, now: int)
    requires Inv(Unbounded, cfg, s) && TimedIfHeld(s)
    ensures TimedIfHeld(Push(Unbounded, cfg, s, f, now).st)
  {
  }

  lemma {:induction false} DrainKeepsGap(o: Out)
    requires Keyed(Unbounded, o.st.buffered)
    ensures DrainLoop(Unbounded, o).st.gapSince == o.st.gapSince
    decreases |o.st.buffered|
  {
    if !ExpectedBuffered(o.st) {
    } else {
      MapMinusSize(o.st.buffered, {o.st.expected.value});
      DrainKeepsGap(DrainStep(Unbounded, o));
    }
  }

  /** The start of a gap stays, is cleared, or is set to the time of the call. */
  predicate GapFollows(before: Option<int>, after: Option<int>, now: int) {
    after == None || after == before || after == Some(now)
  }

  lemma PushMovesGap(cfg: Config, s: State, f: Frame, now: int)
    requires Inv(Unbounded, cfg, s)
    ensures GapFollows(s.gapSince, Push(Unbounded, cfg, s, f, now).st.gapSince, now)
  {
    if f.keyframe {
      DrainKeepsGap(Consume(Unbounded, ResyncStart(Unbounded, s, f, 0, true), f));
      if s.expected.Some? {
        var skipped := Unbounded.Dist(f.num, s.expected.value);
        DrainKeepsGap(Consume(Unbounded, ResyncStart(Unbounded, s, f, skipped, false), f));
      }
    } else {
      DrainKeepsGap(Consume(Unbounded, Out(s, NOTHING), f));
    }
  }

  lemma StepMovesGap(cfg: Config, s: State, op: Op)
    requires Inv(Unbounded, cfg, s)
    ensures GapFollows(s.gapSince, Step(Unbounded, cfg, s, op).st.gapSince, op.now)
  {
    if op.PushOp? {
      PushMovesGap(cfg, s, op.frame, op.now);
    } else if op.LostOp? && s.expected.Some? {
      DrainKeepsGap(Out(s.(expected := Some(s.expected.value + 1), waiting := true),
                        NOTHING.(dropped := 1, request := true)));
    }
  }

  lemma RunMovesGap(cfg: Config, ops: seq<Op>)
    requires ops != []
    ensures var last := |ops| - 1;
            GapFollows(Run(Unbounded, cfg, ops[..last]).0.gapSince, Run(Unbounded, cfg, ops).0.gapSince, ops[last].now)
  {
    StepMovesGap(cfg, Run(Unbounded, cfg, ops[..|ops| - 1]).0, ops[|ops| - 1]);
  }

  ghost predicate StartedSince(ops: seq<Op>, i: nat, n: nat, gap: Option<int>)
    requires n <= |ops|
  {
    gap.Some? ==> exists k :: i <= k < n && ops[k].now == gap.value
  }

  lemma {:induction false} GapsFollow(ops: seq<Op>, gaps: seq<Option<int>>, i: nat, j: nat, n: nat)
    requires |gaps| == |ops| + 1 && i <= j <= n <= |ops| && StartedSince(ops, i, j, gaps[j])
    requires forall k :: 0 <= k < |ops| ==> GapFollows(gaps[k], gaps[k + 1], ops[k].now)
    ensures StartedSince(ops, i, n, gaps[n])
    decreases n
  {
    if n == j {
    } else {
      GapsFollow(ops, gaps, i, j, n - 1);
      assert GapFollows(gaps[n - 1], gaps[n], ops[n - 1].now);
    }
  }

  /** If no gap was timed after the first `i` calls, one that is timed now was started by a later call. */
  lemma GapIsYoung(cfg: Config, ops: seq<Op>, i: nat)
    requires i <= |ops| && Run(Unbounded, cfg, ops[..i]).0.gapSince.None?
    ensures StartedSince(ops, i, |ops|, Run(Unbounded, cfg, ops).0.gapSince)
  {
    var gaps := seq(|ops| + 1, n requires 0 <= n <= |ops| => Run(Unbounded, cfg, ops[..n]).0.gapSince);
    forall k | 0 <= k < |ops|
      ensures GapFollows(gaps[k], gaps[k + 1], ops[k].now)
    {
      assert ops[..k + 1][..k] == ops[..k];
      RunMovesGap(cfg, ops[..k + 1]);
    }
    GapsFollow(ops, gaps, i, i, |ops|);
    assert ops[..|ops|] == ops;
  }

  /** With nothing missing nothing is held back, so no gap is timed. */
  lemma WholeIsUntimed(fr: seq<Frame>, base: int, cfg: Config, got: set<int>, s: State, emitted: seq<Frame>)
    requires Inv(Unbounded, cfg, s) && Delivered(fr, base, got, s, emitted) && TimedIfHeld(s) && Whole(base, got)
    ensures s.gapSince.None?
  {
    if base in got {
      var e := s.expected.value;
      forall k
        ensures k !in s.buffered
      {
        assert k in got && k > e ==> e in got;
      }
      assert s.buffered == map[];
    }
  }

  lemma NoneLate(fr: seq<Frame>, base: int, cfg: Config, ops: seq<Op>, s: State, now: int)
    requires AreArrivals(fr, base, ops) && OfStream(fr, base, s.buffered) && HoldsFrom(s.buffered, Arrived(ops), base)
    requires forall i :: 0 <= i < |ops| && ops[i].PushOp? ==> !Late(cfg, ops[i].frame, now)
    ensures LateKeys(cfg, s.buffered, now) == {}
  {
    forall k | k in s.buffered
      ensures !Late(cfg, s.buffered[k], now)
    {
      var i :| 0 <= i < |ops| && ops[i].PushOp? && ops[i].frame.num == k;
      assert IsArrival(fr, base, ops[i]);
    }
  }

  /** What is harmless by the calls so far does nothing. */
  lemma HarmlessIsIdle(fr: seq<Frame>, base: int, cfg: Config, ops: seq<Op>, op: Op)
    requires IsStream(fr, base) && AreArrivals(fr, base, ops) && Punctual(base, cfg.maxBuffered, ops)
    requires Undisturbed(cfg, base, ops) && Harmless(cfg, base, ops, op) && !op.PushOp?
    ensures var s := Run(Unbounded, cfg, ops).0;
            Step(Unbounded, cfg, s, op).st == s && Step(Unbounded, cfg, s, op).res.ready == []
    decreases |ops|, 2
  {
    ArrivalsDelivered(fr, base, cfg, ops);
    var (s, emitted) := Run(Unbounded, cfg, ops);
    if op.LostOp? {
      LossIsIdle(fr, base, Arrived(ops), s, emitted, op.num, op.now);
    } else if base !in Arrived(ops) {
      NoneLate(fr, base, cfg, ops, s, op.now);
      EarlyTimerIsIdle(cfg, s, op.now);
    } else {
      var i: nat :| i <= |ops| && Whole(base, Arrived(ops[..i])) && WithinTimeout(cfg, ops, i, op.now);
      PrefixesAlike(fr, base, cfg, ops, i);
      UntimedAfter(fr, base, cfg, ops[..i]);
      GapIsYoung(cfg, ops, i);
      YoungTimerIsIdle(cfg, ops, i, s, op.now);
    }
  }

  lemma UntimedAfter(fr: seq<Frame>, base: int, cfg: Config, ops: seq<Op>)
    requires IsStream(fr, base) && AreArrivals(fr, base, ops) && Punctual(base, cfg.maxBuffered, ops)
    requires Undisturbed(cfg, base, ops) && Whole(base, Arrived(ops))
    ensures Run(Unbounded, cfg, ops).0.gapSince.None?
    decreases |ops|, 1
  {
    ArrivalsDelivered(fr, base, cfg, ops);
    var (s, emitted) := Run(Unbounded, cfg, ops);
    WholeIsUntimed(fr, base, cfg, Arrived(ops), s, emitted);
  }

  lemma LossIsIdle(fr: seq<Frame>, base: int, got: set<int>, s: State, emitted: seq<Frame>, num: int, now: int)
    requires Keyed(Unbounded, s.buffered) && Delivered(fr, base, got, s, emitted)
    requires base in got && forall m :: base <= m <= num ==> m in got
    ensures MarkLost(Unbounded, s, num, now) == Out(s, NOTHING)
  {
  }

  lemma EarlyTimerIsIdle(cfg: Config, s: State, now: int)
    requires Keyed(Unbounded, s.buffered) && s.expected.None? && LateKeys(cfg, s.buffered, now) == {}
    ensures Expire(Unbounded, cfg, s, now) == Out(s, NOTHING)
  {
    assert s.buffered - {} == s.buffered;
  }

  lemma YoungTimerIsIdle(cfg: Config, ops: seq<Op>, i: nat, s: State, now: int)
    requires Keyed(Unbounded, s.buffered) && s.expected.Some?
    requires StartedSince(ops, i, |ops|, s.gapSince) && WithinTimeout(cfg, ops, i, now)
    ensures Expire(Unbounded, cfg, s, now) == Out(s, NOTHING)
  {
  }

  lemma {:induction false} ArrivalsDelivered(fr: seq<Frame>, base: int, cfg: Config, ops: seq<Op>)
    requires IsStream(fr, base) && AreArrivals(fr, base, ops) && Punctual(base, cfg.maxBuffered, ops)
    requires Undisturbed(cfg, base, ops)
    ensures var (s, emitted) := Run(Unbounded, cfg, ops);
            && Delivered(fr, base, Arrived(ops), s, emitted) && TimedIfHeld(s)
            && Near(Arrived(ops), Missing(s, base), cfg.maxBuffered)
    decreases |ops|, 0
  {
    if ops == [] {
    } else {
      var last := |ops| - 1;
      var got := Arrived(ops[..last]);
      PunctualBefore(base, cfg.maxBuffered, ops);
      UndisturbedBefore(cfg, base, ops);
      ArrivalsDelivered(fr, base, cfg, ops[..last]);
      ArrivedSplit(ops);
      var (s, emitted) := Run(Unbounded, cfg, ops[..last]);
      if ops[last].PushOp? {
        ArrivalDelivered(fr, base, cfg, got, s, emitted, ops[last].frame, ops[last].now);
        PushTimes(cfg, s, ops[last].frame, ops[last].now);
      } else {
        HarmlessIsIdle(fr, base, cfg, ops[..last], ops[last]);
        assert emitted + Step(Unbounded, cfg, s, ops[last]).res.ready == emitted;
      }
    }
  }

  lemma ArrivalDelivered(fr: seq<Frame>, base: int, cfg: Config, got: set<int>, s: State, emitted: seq<Frame>,
                         f: Frame, now: int)
    requires IsStream(fr, base) && Inv(Unbounded, cfg, s)
    requires Delivered(fr, base, got, s, emitted) && Near(got, Missing(s, base), cfg.maxBuffered)
    requires IsArrival(fr, base, PushOp(f, now)) && forall k :: k in got ==> base <= k
    requires forall m :: base <= m <= f.num - cfg.maxBuffered ==> m in got
    ensures InLine(fr, base, cfg, got + {f.num}, Push(Unbounded, cfg, s, f, now), emitted)
  {
    if base !in got {
      EarlyDelivered(fr, base, cfg, got, s, emitted, f, now);
    } else {
      LaterDelivered(fr, base, cfg, got, s, emitted, f, now);
    }
  }

  /** All is in order after a call. */
  ghost predicate InLine(fr: seq<Frame>, base: int, cfg: Config, got: set<int>, r: Out, emitted: seq<Frame>) {
    && Delivered(fr, base, got, r.st, emitted + r.res.ready)
    && Near(got, Missing(r.st, base), cfg.maxBuffered)
  }

  lemma EarlyDelivered(fr: seq<Frame>, base: int, cfg: Config, got: set<int>, s: State, emitted: seq<Frame>, f: Frame,
                       now: int)
    requires IsStream(fr, base) && Inv(Unbounded, cfg, s) && base !in got
    requires Delivered(fr, base, got, s, emitted) && Near(got, base, cfg.maxBuffered)
    requires IsArrival(fr, base, PushOp(f, now)) && forall k :: k in got ==> base <= k
    requires forall m :: base <= m <= f.num - cfg.maxBuffered ==> m in got
    ensures InLine(fr, base, cfg, got + {f.num}, Push(Unbounded, cfg, s, f, now), emitted)
  {
    assert f.num < base + cfg.maxBuffered by { StaysNear(base, cfg.maxBuffered, got, base, f.num, base); }
    FirstDelivers(fr, base, cfg, got, s, f, now);
    FirstInLine(fr, base, cfg, got, f.num, Push(Unbounded, cfg, s, f, now), emitted);
  }

  lemma FirstInLine(fr: seq<Frame>, base: int, cfg: Config, got: set<int>, num: int, r: Out, emitted: seq<Frame>)
    requires Delivered(fr, base, got + {num}, r.st, r.res.ready) && emitted == []
    requires Near(got, base, cfg.maxBuffered) && num < base + cfg.maxBuffered
    ensures InLine(fr, base, cfg, got + {num}, r, emitted)
  {
    assert emitted + r.res.ready == r.res.ready;
  }

  lemma LaterDelivered(fr: seq<Frame>, base: int, cfg: Config, got: set<int>, s: State, emitted: seq<Frame>,
                       f: Frame, now: int)
    requires IsStream(fr, base) && Inv(Unbounded, cfg, s) && base in got
    requires Delivered(fr, base, got, s, emitted) && Near(got, s.expected.value, cfg.maxBuffered)
    requires IsArrival(fr, base, PushOp(f, now))
    requires forall m :: base <= m <= f.num - cfg.maxBuffered ==> m in got
    ensures InLine(fr, base, cfg, got + {f.num}, Push(Unbounded, cfg, s, f, now), emitted)
  {
    if f.num >= s.expected.value {
      StaysNear(base, cfg.maxBuffered, got, s.expected.value, f.num, s.expected.value);
      RoomLeft(s.buffered.Keys, s.expected.value, cfg.maxBuffered);
    }
    NextDelivers(fr, base, cfg, got, s, emitted, f, now);
  }

  ghost predicate AllArrived(fr: seq<Frame>, base: int, ops: seq<Op>) {
    forall k :: base <= k < base + |fr| ==> k in Arrived(ops)
  }

  /**
  Once every frame of the stream has arrived, the whole stream has come out, in order, if no
  frame overtook one that was as many places before it as the buffer holds frames, and
  no gap was left open until the timer found it too old.
  */
  lemma ReorderedStreamComesOutWhole(fr: seq<Frame>, base: int, cfg: Config, ops: seq<Op>)
    requires IsStream(fr, base) && AreArrivals(fr, base, ops) && Punctual(base, cfg.maxBuffered, ops)
    requires Undisturbed(cfg, base, ops) && AllArrived(fr, base, ops)
    ensures Run(Unbounded, cfg, ops).1 == fr
  {
    ArrivalsDelivered(fr, base, cfg, ops);
    var (s, emitted) := Run(Unbounded, cfg, ops);
    assert base in Arrived(ops);
    assert s.expected.value == base + |fr|;
    assert fr[..|fr|] == fr;
  }

  /** A stream no longer than the buffer's limit may arrive in any order at all. */
  lemma ShortStreamIsPunctual(fr: seq<Frame>, base: int, limit: int, ops: seq<Op>)
    requires IsStream(fr, base) && AreArrivals(fr, base, ops) && |fr| <= limit
    ensures Punctual(base, limit, ops)
  {
    forall i | 0 <= i < |ops| && ops[i].PushOp?
      ensures ops[i].frame.num - limit < base
    {
      assert IsArrival(fr, base, ops[i]);
    }
  }

  /** The index a call names, if it names one. */
  function Named(op: Op): Option<int> {
    match op
    case PushOp(f, _) => Some(f.num)
    case LostOp(n, _) => Some(n)
    case ExpireOp(_) => None
  }

  /** No call names a frame 2^31 or more places before the one that arrived farthest on. */
  ghost predicate Recent(ops: seq<Op>) {
    forall i, k :: 0 <= i < |ops| && Named(ops[i]).Some? && k in Arrived(ops[..i]) ==> k - Named(ops[i]).value < HALF
  }

  lemma RecentBefore(ops: seq<Op>)
    requires Recent(ops) && ops != []
    ensures Recent(ops[..|ops| - 1])
  {
    var before := ops[..|ops| - 1];
    forall i, k | 0 <= i < |before| && Named(before[i]).Some? && k in Arrived(before[..i])
      ensures k - Named(before[i]).value < HALF
    {
      assert before[..i] == ops[..i];
    }
  }

  lemma {:induction false} ArrivalsInWindow(fr: seq<Frame>, base: int, cfg: Config, ops: seq<Op>)
    requires IsStream(fr, base) && AreArrivals(fr, base, ops) && Punctual(base, cfg.maxBuffered, ops)
    requires Undisturbed(cfg, base, ops) && cfg.maxBuffered <= HALF && Recent(ops)
    ensures RunInWindow(cfg, ops)
  {
    if ops == [] {
    } else {
      var last := |ops| - 1;
      PunctualBefore(base, cfg.maxBuffered, ops);
      UndisturbedBefore(cfg, base, ops);
      RecentBefore(ops);
      ArrivalsInWindow(fr, base, cfg, ops[..last]);
      ArrivalsDelivered(fr, base, cfg, ops[..last]);
      var (s, emitted) := Run(Unbounded, cfg, ops[..last]);
      if ops[last].PushOp? {
        ArrivalInWindow(fr, base, cfg.maxBuffered, Arrived(ops[..last]), s, emitted, ops[last]);
      } else if ops[last].LostOp? {
        LossInWindow(fr, base, Arrived(ops[..last]), s, emitted, ops[last]);
      }
    }
  }

  lemma LossInWindow(fr: seq<Frame>, base: int, got: set<int>, s: State, emitted: seq<Frame>, op: Op)
    requires op.LostOp? && base in got && Delivered(fr, base, got, s, emitted)
    requires forall m :: base <= m <= op.num ==> m in got
    requires forall k :: k in got ==> k - op.num < HALF
    ensures OpInWindow(s, op)
  {
    assert s.expected.value - 1 in got;
  }

  lemma ArrivalInWindow(fr: seq<Frame>, base: int, limit: int, got: set<int>, s: State, emitted: seq<Frame>, op: Op)
    requires op.PushOp? && IsArrival(fr, base, op) && Delivered(fr, base, got, s, emitted)
    requires Near(got, Missing(s, base), limit) && limit <= HALF
    requires forall m :: base <= m <= op.frame.num - limit ==> m in got
    requires forall k :: k in got ==> k - op.frame.num < HALF
    ensures OpInWindow(s, op)
  {
    var num := op.frame.num;
    if base in got {
      var e := s.expected.value;
      assert e - 1 in got;
      if num >= e {
        StaysNear(base, limit, got, e, num, e);
      }
    } else {
      StaysNear(base, limit, got, base, num, base);
    }
  }

  /**
  The same on the wire: a stream of any length, its 32-bit numbers starting anywhere and
  wrapping as often as they like, comes out whole and in order.
  */
  lemma WrappedStreamComesOutWhole(fr: seq<Frame>, base: int, cfg: Config, ops: seq<Op>)
    requires IsStream(fr, base) && AreArrivals(fr, base, ops) && Punctual(base, cfg.maxBuffered, ops)
    requires Undisturbed(cfg, base, ops) && cfg.maxBuffered <= HALF && Recent(ops) && AllArrived(fr, base, ops)
    ensures ValidOps(Wrapping, LowOps(ops)) && Run(Wrapping, cfg, LowOps(ops)).1 == LowFrames(fr)
  {
    ArrivalsInWindow(fr, base, cfg, ops);
    WrappingRefinesUnbounded(cfg, ops);
    ReorderedStreamComesOutWhole(fr, base, cfg, ops);
  }
}

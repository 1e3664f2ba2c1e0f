/**
Keyframes: one that is not behind always gets through, in both arithmetics, and a stream that starts
with it comes out whole from any state the sequencer can be in.
*/
module SequencerRecovery {
  import opened Basics
  import opened SequencerSpec
  import opened SequencerSafety
  import opened SequencerRuns
  import opened SequencerWrap
  import opened SequencerOrder

  // ----- What a keyframe releases

  /** These are the buffered frames with the numbers `e`, the one after it, and so on. */
  ghost predicate Follow(a: Arith, buffered: map<int, Frame>, e: int, frames: seq<Frame>)
    decreases |frames|
  {
    frames == [] ||
    (e in buffered && frames[0] == buffered[e] && Follow(a, buffered - {e}, a.Next(e), frames[1..]))
  }

  /** The number that comes after these frames. */
  function Beyond(a: Arith, e: int, frames: seq<Frame>): int {
    if frames == [] then e else a.Next(frames[|frames| - 1].num)
  }

  function Numbers(frames: seq<Frame>): set<int> { set f | f in frames :: f.num }

  lemma NumbersFirst(f: Frame, rest: seq<Frame>)
    ensures Numbers([f] + rest) == {f.num} + Numbers(rest)
  {
  }

  lemma BeyondFirst(a: Arith, f: Frame, rest: seq<Frame>)
    ensures Beyond(a, f.num, [f] + rest) == Beyond(a, a.Next(f.num), rest)
  {
  }

  /** From buffered frames and the expected number `e`: `tail` is released, `rest` stays, `next` is expected. */
  ghost predicate Splits(a: Arith, buffered: map<int, Frame>, e: int, tail: seq<Frame>, rest: map<int, Frame>,
                         next: int) {
    && Follow(a, buffered, e, tail) && rest == buffered - Numbers(tail)
    && next == Beyond(a, e, tail) && next !in rest
  }

  lemma SplitsNone(a: Arith, buffered: map<int, Frame>, e: int)
    requires e !in buffered
    ensures Splits(a, buffered, e, [], buffered, e)
  {
    assert Numbers([]) == {};
    assert buffered - {} == buffered;
  }

  lemma SplitsMore(a: Arith, buffered: map<int, Frame>, e: int, tail: seq<Frame>, rest: map<int, Frame>, next: int)
    requires e in buffered && buffered[e].num == e
    requires Splits(a, buffered - {e}, a.Next(e), tail, rest, next)
    ensures Splits(a, buffered, e, [buffered[e]] + tail, rest, next)
  {
    var f := buffered[e];
    assert ([f] + tail)[1..] == tail;
    NumbersFirst(f, tail);
    BeyondFirst(a, f, tail);
    assert (buffered - {e}) - Numbers(tail) == buffered - ({e} + Numbers(tail));
  }

  /** What draining does while nothing is awaited. */
  ghost predicate Drained(a: Arith, o: Out, tail: seq<Frame>, r: Out)
    requires o.st.expected.Some?
  {
    && r.res == o.res.(ready := o.res.ready + tail) && !r.st.waiting && r.st.expected.Some?
    && Splits(a, o.st.buffered, o.st.expected.value, tail, r.st.buffered, r.st.expected.value)
  }

  lemma DrainOnce(a: Arith, o: Out)
    requires Keyed(a, o.st.buffered) && ExpectedBuffered(o.st) && !o.st.waiting
    ensures var e, o1 := o.st.expected.value, DrainStep(a, o);
            && o1.st.buffered == o.st.buffered - {e} && o1.st.expected == Some(a.Next(e)) && !o1.st.waiting
            && o1.res == o.res.(ready := o.res.ready + [o.st.buffered[e]])
            && Keyed(a, o1.st.buffered) && DrainLoop(a, o) == DrainLoop(a, o1)
            && |o1.st.buffered| < |o.st.buffered|
  {
    MapMinusSize(o.st.buffered, {o.st.expected.value});
  }

  lemma DrainedMore(a: Arith, o: Out, o1: Out, tail: seq<Frame>, r: Out)
    requires Keyed(a, o.st.buffered) && ExpectedBuffered(o.st) && o1.st.expected == Some(a.Next(o.st.expected.value))
    requires o1.st.buffered == o.st.buffered - {o.st.expected.value}
    requires o1.res == o.res.(ready := o.res.ready + [o.st.buffered[o.st.expected.value]])
    requires Drained(a, o1, tail, r)
    ensures Drained(a, o, [o.st.buffered[o.st.expected.value]] + tail, r)
  {
    var e := o.st.expected.value;
    SplitsMore(a, o.st.buffered, e, tail, r.st.buffered, r.st.expected.value);
    assert (o.res.ready + [o.st.buffered[e]]) + tail == o.res.ready + ([o.st.buffered[e]] + tail);
  }

  /** Draining while nothing is awaited releases all buffered frames that follow on, and only those. */
  lemma {:induction false} DrainReleasesAll(a: Arith, o: Out) returns (tail: seq<Frame>)
    requires Keyed(a, o.st.buffered) && o.st.expected.Some? && !o.st.waiting
    ensures Drained(a, o, tail, DrainLoop(a, o))
    decreases |o.st.buffered|
  {
    var e := o.st.expected.value;
    if e !in o.st.buffered {
      tail := [];
      SplitsNone(a, o.st.buffered, e);
      assert o.res.ready + [] == o.res.ready;
    } else {
      DrainOnce(a, o);
      var rest := DrainReleasesAll(a, DrainStep(a, o));
      tail := [o.st.buffered[e]] + rest;
      DrainedMore(a, o, DrainStep(a, o), rest, DrainLoop(a, DrainStep(a, o)));
    }
  }

  lemma PushResyncs(a: Arith, cfg: Config, s: State, f: Frame, now: int)
    requires Inv(a, cfg, s) && f.keyframe && (s.expected.Some? ==> !a.Behind(f.num, s.expected.value))
    ensures var skipped := if s.expected.Some? then a.Dist(f.num, s.expected.value) else 0;
            var o := Consume(a, ResyncStart(a, s, f, skipped, s.expected.None?), f);
            && Push(a, cfg, s, f, now) == Drain(a, o, now)
            && o.st.buffered == s.buffered - (set k | k in s.buffered && (k == f.num || a.Behind(k, f.num)))
            && o.st.expected == Some(a.Next(f.num)) && !o.st.waiting && o.res.ready == [f] && o.st.gapSince.None?
            && o.res.dropped == |set k | k in s.buffered && (k == f.num || a.Behind(k, f.num))| + skipped
            && o.res.awaiting == (if s.expected.Some? then 0 else o.res.dropped)
  {
    assert StaleKeys(a, s.buffered, f.num) == set k | k in s.buffered && (k == f.num || a.Behind(k, f.num));
  }

  /**
  A keyframe that is not behind comes out at once, with all buffered frames that follow on from it.
  The sequencer is then synchronised one past the last of them; what was buffered before the
  keyframe is gone, and everything else stays.  The frames it overtook are counted as dropped.
  */
  lemma KeyframeComesOut(a: Arith, cfg: Config, s: State, f: Frame, now: int) returns (tail: seq<Frame>)
    requires Inv(a, cfg, s) && a.Number(f.num) && f.keyframe
    requires s.expected.Some? ==> !a.Behind(f.num, s.expected.value)
    ensures var r := Push(a, cfg, s, f, now);
            var stale := set k | k in s.buffered && (k == f.num || a.Behind(k, f.num));
            && r.res.ready == [f] + tail
            && Follow(a, s.buffered - stale, a.Next(f.num), tail)
            && !r.st.waiting && r.st.expected == Some(a.Next(r.res.ready[|tail|].num))
            && r.st.expected.value !in r.st.buffered
            && r.st.buffered == s.buffered - stale - Numbers(tail)
            && r.res.dropped == |stale| + (if s.expected.Some? then a.Dist(f.num, s.expected.value) else 0)
            && r.res.awaiting == if s.expected.Some? then 0 else |stale|
  {
    var skipped := if s.expected.Some? then a.Dist(f.num, s.expected.value) else 0;
    var o := ResyncStart(a, s, f, skipped, s.expected.None?);
    var o1 := Consume(a, o, f);
    PushResyncs(a, cfg, s, f, now);
    tail := DrainReleasesAll(a, o1);
    BeyondLast(a, f, tail);
  }

  lemma BeyondLast(a: Arith, f: Frame, tail: seq<Frame>)
    ensures Beyond(a, a.Next(f.num), tail) == a.Next(([f] + tail)[|tail|].num)
  {
  }

  /** The expected frame comes out at once too, unless a keyframe is awaited; then it is counted as dropped. */
  lemma ExpectedComesOut(a: Arith, cfg: Config, s: State, f: Frame, now: int) returns (tail: seq<Frame>)
    requires Inv(a, cfg, s) && s.expected == Some(f.num) && !f.keyframe
    ensures var r := Push(a, cfg, s, f, now);
            if s.waiting then
              && r.res.ready == [] && r.st.waiting && r.res.request && r.res.dropped >= 1
              && r.res.awaiting == r.res.dropped
            else
              && r.res.ready == [f] + tail && r.res.dropped == 0 && r.res.awaiting == 0 && !r.res.request
              && Follow(a, s.buffered, a.Next(f.num), tail)
              && !r.st.waiting && r.st.expected == Some(a.Next(r.res.ready[|tail|].num))
              && r.st.buffered == s.buffered - Numbers(tail)
  {
    tail := [];
    var o1 := Consume(a, Out(s, NOTHING), f);
    PushConsumes(a, cfg, s, f, now);
    if s.waiting {
      WaitingDrops(a, cfg, o1);
    } else {
      tail := DrainReleasesAll(a, o1);
      BeyondLast(a, f, tail);
    }
  }

  lemma PushConsumes(a: Arith, cfg: Config, s: State, f: Frame, now: int)
    requires Inv(a, cfg, s) && s.expected == Some(f.num) && !f.keyframe
    ensures var o := Consume(a, Out(s, NOTHING), f);
            && Push(a, cfg, s, f, now) == Drain(a, o, now)
            && o.st.buffered == s.buffered && o.st.expected == Some(a.Next(f.num)) && o.st.waiting == s.waiting
            && (if s.waiting then o.res == Result([], 1, 1, true) else o.res == Result([f], 0, 0, false))
  {
    assert a.Dist(f.num, f.num) == 0 && !a.Behind(f.num, f.num);
    assert [] + [f] == [f];
  }

  /** While a keyframe is awaited, draining buffered deltas only counts them. */
  lemma {:induction false} WaitingDrops(a: Arith, cfg: Config, o: Out)
    requires BufferOk(a, cfg, o.st.buffered) && o.st.waiting
    ensures var r := DrainLoop(a, o);
            && r.st.waiting && r.res.ready == o.res.ready && r.res.dropped >= o.res.dropped
            && r.res.dropped - o.res.dropped == r.res.awaiting - o.res.awaiting
            && (o.res.request ==> r.res.request)
    decreases |o.st.buffered|
  {
    if !ExpectedBuffered(o.st) {
    } else {
      MapMinusSize(o.st.buffered, {o.st.expected.value});
      ShrinkBuffer(a, cfg, o.st.buffered, {o.st.expected.value});
      WaitingDrops(a, cfg, DrainStep(a, o));
    }
  }

  // ----- Runs from any state

  ghost function RunFrom(a: Arith, cfg: Config, s: State, ops: seq<Op>): (r: (State, seq<Frame>))
    requires Inv(a, cfg, s) && ValidOps(a, ops)
    ensures Inv(a, cfg, r.0)
  {
    if ops == [] then (s, [])
    else
      var last := |ops| - 1;
      var (s1, emitted) := RunFrom(a, cfg, s, ops[..last]);
      StepKeeps(a, cfg, s1, ops[last]);
      var o := Step(a, cfg, s1, ops[last]);
      (o.st, emitted + o.res.ready)
  }

  /** One more call. */
  ghost function After(a: Arith, cfg: Config, r: (State, seq<Frame>), op: Op): (State, seq<Frame>)
    requires Inv(a, cfg, r.0)
  {
    (Step(a, cfg, r.0, op).st, r.1 + Step(a, cfg, r.0, op).res.ready)
  }

  lemma RunAfter(a: Arith, cfg: Config, ops: seq<Op>)
    requires ValidOps(a, ops) && ops != []
    ensures Run(a, cfg, ops) == After(a, cfg, Run(a, cfg, ops[..|ops| - 1]), ops[|ops| - 1])
  {
  }

  lemma RunFromAfter(a: Arith, cfg: Config, s: State, ops: seq<Op>)
    requires Inv(a, cfg, s) && ValidOps(a, ops) && ops != []
    ensures RunFrom(a, cfg, s, ops) == After(a, cfg, RunFrom(a, cfg, s, ops[..|ops| - 1]), ops[|ops| - 1])
  {
  }

  lemma AfterJoins(a: Arith, cfg: Config, s: State, done: seq<Frame>, emitted: seq<Frame>, op: Op)
    requires Inv(a, cfg, s)
    ensures After(a, cfg, (s, done + emitted), op) ==
            (After(a, cfg, (s, emitted), op).0, done + After(a, cfg, (s, emitted), op).1)
  {
    var ready := Step(a, cfg, s, op).res.ready;
    assert (done + emitted) + ready == done + (emitted + ready);
  }

  /** A run goes on from where its first part ended. */
  lemma {:induction false} RunGoesOn(a: Arith, cfg: Config, before: seq<Op>, ops: seq<Op>)
    requires ValidOps(a, before) && ValidOps(a, ops)
    ensures GoesOn(a, cfg, before, ops)
    decreases |ops|
  {
    if ops == [] {
      assert before + [] == before && Run(a, cfg, before).1 + [] == Run(a, cfg, before).1;
    } else {
      var front, op := ops[..|ops| - 1], ops[|ops| - 1];
      RunGoesOn(a, cfg, before, front);
      assert ops == front + [op];
      GoesOnStep(a, cfg, before, front, op);
    }
  }

  ghost predicate GoesOn(a: Arith, cfg: Config, before: seq<Op>, ops: seq<Op>)
    requires ValidOps(a, before) && ValidOps(a, ops)
  {
    && ValidOps(a, before + ops)
    && var (s, done) := Run(a, cfg, before);
       var (r, emitted) := RunFrom(a, cfg, s, ops);
       Run(a, cfg, before + ops) == (r, done + emitted)
  }

  lemma GoesOnStep(a: Arith, cfg: Config, before: seq<Op>, front: seq<Op>, op: Op)
    requires ValidOps(a, before) && ValidOps(a, front) && ValidOps(a, front + [op]) && GoesOn(a, cfg, before, front)
    ensures GoesOn(a, cfg, before, front + [op])
  {
    var (s, done) := Run(a, cfg, before);
    var (r, emitted) := RunFrom(a, cfg, s, front);
    assert (before + front) + [op] == before + (front + [op]);
    RunJoins(a, cfg, before + front, op, r, done, emitted);
    assert RunFrom(a, cfg, s, front + [op]) == After(a, cfg, (r, emitted), op) by {
      RunFromOneMore(a, cfg, s, front, op);
    }
  }

  lemma RunFromOneMore(a: Arith, cfg: Config, s: State, front: seq<Op>, op: Op)
    requires Inv(a, cfg, s) && ValidOps(a, front) && ValidOps(a, front + [op])
    ensures RunFrom(a, cfg, s, front + [op]) == After(a, cfg, RunFrom(a, cfg, s, front), op)
  {
    assert (front + [op])[..|front|] == front;
    RunFromAfter(a, cfg, s, front + [op]);
  }

  lemma RunOneMore(a: Arith, cfg: Config, before: seq<Op>, op: Op, r: (State, seq<Frame>))
    requires ValidOps(a, before + [op]) && ValidOps(a, before) && Run(a, cfg, before) == r
    ensures Run(a, cfg, before + [op]) == After(a, cfg, r, op)
  {
    assert (before + [op])[..|before|] == before;
    RunAfter(a, cfg, before + [op]);
  }

  lemma RunJoins(a: Arith, cfg: Config, before: seq<Op>, op: Op, r: State, done: seq<Frame>, emitted: seq<Frame>)
    requires ValidOps(a, before + [op]) && ValidOps(a, before) && Inv(a, cfg, r)
    requires Run(a, cfg, before) == (r, done + emitted)
    ensures Run(a, cfg, before + [op]) ==
            (After(a, cfg, (r, emitted), op).0, done + After(a, cfg, (r, emitted), op).1)
  {
    RunOneMore(a, cfg, before, op, (r, done + emitted));
    AfterJoins(a, cfg, r, done, emitted, op);
  }

  /** When the gap started that is timed after the first `n` calls. */
  ghost function Gap(cfg: Config, s: State, ops: seq<Op>, n: nat): Option<int>
    requires Inv(Unbounded, cfg, s) && n <= |ops|
  {
    RunFrom(Unbounded, cfg, s, ops[..n]).0.gapSince
  }

  lemma GapNext(cfg: Config, s: State, ops: seq<Op>, k: nat)
    requires Inv(Unbounded, cfg, s) && k < |ops|
    ensures GapFollows(Gap(cfg, s, ops, k), Gap(cfg, s, ops, k + 1), ops[k].now)
  {
    RunFromAfter(Unbounded, cfg, s, ops[..k + 1]);
    assert ops[..k + 1][..k] == ops[..k];
    StepMovesGap(cfg, RunFrom(Unbounded, cfg, s, ops[..k]).0, ops[k]);
  }

  /** A gap timed after the first `j` calls by one from the `i`th on, or by none, is timed so at the end. */
  lemma GapStaysYoung(cfg: Config, s: State, ops: seq<Op>, i: nat, j: nat)
    requires Inv(Unbounded, cfg, s) && i <= j <= |ops| && StartedSince(ops, i, j, Gap(cfg, s, ops, j))
    ensures StartedSince(ops, i, |ops|, Gap(cfg, s, ops, |ops|))
  {
    var gaps := seq(|ops| + 1, n requires 0 <= n <= |ops| => Gap(cfg, s, ops, n));
    forall k | 0 <= k < |ops|
      ensures GapFollows(gaps[k], gaps[k + 1], ops[k].now)
    {
      GapNext(cfg, s, ops, k);
    }
    GapsFollow(ops, gaps, i, j, |ops|);
  }

  // ----- The stream and what was buffered before it

  /** The indices buffered beyond the keyframe when it arrives. */
  function Held(s: State, base: int): set<int> { set k | k in s.buffered && k > base }

  /** What is buffered of the stream are its frames. */
  ghost predicate Agrees(fr: seq<Frame>, base: int, s: State) {
    forall k :: k in s.buffered && base < k < base + |fr| ==> s.buffered[k] == fr[k - base]
  }

  /** The stream, drawn out over all that is buffered beyond it. */
  function Extended(fr: seq<Frame>, base: int, s: State, n: nat): (r: seq<Frame>)
    requires n >= |fr|
    ensures |r| == n
  {
    seq(n, i requires 0 <= i < n =>
      if i < |fr| then fr[i]
      else if base + i in s.buffered then s.buffered[base + i]
      else Frame(base + i, false, 0, []))
  }

  lemma {:induction false} Ceiling(keys: set<int>, least: int) returns (n: int)
    ensures n >= least && forall k :: k in keys ==> k < n
    decreases keys
  {
    if keys == {} {
      n := least;
    } else {
      var k := Pick(keys);
      var m := Ceiling(keys - {k}, least);
      n := Max(m, k + 1);
      assert forall j :: j in keys ==> j == k || j in keys - {k};
    }
  }

  lemma ExtendedIsStream(fr: seq<Frame>, base: int, cfg: Config, s: State, n: nat)
    requires IsStream(fr, base) && Inv(Unbounded, cfg, s) && n >= |fr|
    ensures IsStream(Extended(fr, base, s, n), base) && fr == Extended(fr, base, s, n)[..|fr|]
  {
    var r := Extended(fr, base, s, n);
    assert r[0] == fr[0];
    forall i | 0 <= i < n
      ensures r[i].num == base + i && (i > 0 ==> !r[i].keyframe)
    {
      if i < |fr| { assert r[i] == fr[i]; }
    }
  }

  /** No frame overtakes one that is `limit` or more places before it, unless that one was buffered already. */
  ghost predicate PunctualWith(base: int, limit: int, held: set<int>, ops: seq<Op>) {
    forall i, m :: 0 <= i < |ops| && ops[i].PushOp? && base <= m <= ops[i].frame.num - limit ==>
                     m in held || m in Arrived(ops[..i])
  }

  /**
  What may come after the keyframe and the calls behind it, `ops`: a loss report of a frame all frames
  up to which are there, and the timer while nothing was missing at some moment within the timeout
  or while the keyframe itself came within it.
  */
  ghost predicate HarmlessAfter(cfg: Config, base: int, held: set<int>, ops: seq<Op>, op: Op) {
    match op
    case PushOp(_, _) => true
    case LostOp(n, _) => forall m :: base <= m <= n ==> m in held + Arrived(ops)
    case ExpireOp(now) =>
      exists i: nat :: i <= |ops| && WithinTimeout(cfg, ops, i, now) &&
                       (i == 0 || Whole(base, held + Arrived(ops[..i])))
  }

  ghost predicate UndisturbedAfter(cfg: Config, base: int, held: set<int>, ops: seq<Op>) {
    forall i :: 0 < i < |ops| ==> HarmlessAfter(cfg, base, held, ops[..i], ops[i])
  }

  /** The calls that follow a keyframe: its stream arrives, in time and without disturbance. */
  ghost predicate Resumes(fr: seq<Frame>, base: int, cfg: Config, held: set<int>, ops: seq<Op>) {
    && ops != [] && ops[0].PushOp? && ops[0].frame.num == base && AreArrivals(fr, base, ops)
    && PunctualWith(base, cfg.maxBuffered - |held|, held, ops) && UndisturbedAfter(cfg, base, held, ops)
  }

  lemma ResumesBefore(fr: seq<Frame>, base: int, cfg: Config, held: set<int>, ops: seq<Op>)
    requires Resumes(fr, base, cfg, held, ops) && |ops| > 1
    ensures Resumes(fr, base, cfg, held, ops[..|ops| - 1])
    ensures HarmlessAfter(cfg, base, held, ops[..|ops| - 1], ops[|ops| - 1])
  {
    var p := ops[..|ops| - 1];
    forall i, m | 0 <= i < |p| && p[i].PushOp? && base <= m <= p[i].frame.num - (cfg.maxBuffered - |held|)
      ensures m in held || m in Arrived(p[..i])
    {
      assert p[..i] == ops[..i];
    }
    forall i | 0 < i < |p|
      ensures HarmlessAfter(cfg, base, held, p[..i], p[i])
    {
      assert p[..i] == ops[..i];
    }
  }

  lemma {:induction false} ResumesPrefix(fr: seq<Frame>, base: int, cfg: Config, held: set<int>, ops: seq<Op>, n: nat)
    requires Resumes(fr, base, cfg, held, ops) && 0 < n <= |ops|
    ensures Resumes(fr, base, cfg, held, ops[..n])
    decreases |ops|
  {
    if n == |ops| {
      assert ops[..n] == ops;
    } else {
      ResumesBefore(fr, base, cfg, held, ops);
      ResumesPrefix(fr, base, cfg, held, ops[..|ops| - 1], n);
      assert ops[..|ops| - 1][..n] == ops[..n];
    }
  }

  // ----- The keyframe arrives

  lemma KeyframeDelivers(fr: seq<Frame>, base: int, cfg: Config, s: State, now: int)
    requires IsStream(fr, base) && Inv(Unbounded, cfg, s) && (s.expected.Some? ==> s.expected.value <= base)
    requires forall k :: k in s.buffered && k > base ==> k < base + |fr| && s.buffered[k] == fr[k - base]
    ensures var r := Push(Unbounded, cfg, s, fr[0], now);
            && Delivered(fr, base, Held(s, base) + {base}, r.st, r.res.ready) && TimedIfHeld(r.st)
            && (r.st.gapSince == None || r.st.gapSince == Some(now))
  {
    PushRestarts(cfg, s, fr[0], now);
    RestartState(s, fr[0]);
    RestartDelivers(fr, base, Held(s, base), s.buffered, Restarted(s, fr[0]), now);
  }

  /** The keyframe taken, nothing drained yet. */
  function Restarted(s: State, f: Frame): Out {
    var skipped := if s.expected.Some? then f.num - s.expected.value else 0;
    Consume(Unbounded, ResyncStart(Unbounded, s, f, skipped, s.expected.None?), f)
  }

  lemma PushRestarts(cfg: Config, s: State, f: Frame, now: int)
    requires Inv(Unbounded, cfg, s) && f.keyframe && (s.expected.Some? ==> s.expected.value <= f.num)
    ensures Keyed(Unbounded, Restarted(s, f).st.buffered)
    ensures Push(Unbounded, cfg, s, f, now) == Drain(Unbounded, Restarted(s, f), now)
  {
    PushResyncs(Unbounded, cfg, s, f, now);
  }

  lemma RestartState(s: State, f: Frame)
    requires f.keyframe
    ensures var o := Restarted(s, f);
            && o.st.expected == Some(f.num + 1) && !o.st.waiting && o.res.ready == [f] && o.st.gapSince.None?
            && (forall k :: k in o.st.buffered <==> k in s.buffered && k > f.num)
            && (forall k :: k in o.st.buffered ==> o.st.buffered[k] == s.buffered[k])
  {
  }

  lemma RestartDelivers(fr: seq<Frame>, base: int, held: set<int>, buffered: map<int, Frame>, o: Out, now: int)
    requires IsStream(fr, base) && Keyed(Unbounded, buffered) && held == set k | k in buffered && k > base
    requires forall k :: k in buffered && k > base ==> k < base + |fr| && buffered[k] == fr[k - base]
    requires forall k :: k in o.st.buffered <==> k in buffered && k > base
    requires forall k :: k in o.st.buffered ==> o.st.buffered[k] == buffered[k]
    requires o.st.expected == Some(base + 1) && !o.st.waiting && o.res.ready == [fr[0]] && o.st.gapSince.None?
    ensures var r := Drain(Unbounded, o, now);
            && Delivered(fr, base, held + {base}, r.st, r.res.ready) && TimedIfHeld(r.st)
            && (r.st.gapSince == None || r.st.gapSince == Some(now))
  {
    assert o.res.ready == fr[0..1];
    DrainDelivers(fr, base, held + {base}, o, now, []);
    DrainKeepsGap(o);
    assert [] + Drain(Unbounded, o, now).res.ready == Drain(Unbounded, o, now).res.ready;
  }

  // ----- The stream behind it

  /** No index lies `limit` or more beyond the expected one. */
  ghost predicate Close(got: set<int>, e: int, limit: int) {
    forall k :: k in got && k > e ==> k < e + limit
  }

  /** All is well after these calls: in order so far, and nothing that arrived lies too far ahead. */
  ghost predicate OnTrack(fr: seq<Frame>, base: int, cfg: Config, held: set<int>, ops: seq<Op>, s: State,
                          emitted: seq<Frame>) {
    && base in Arrived(ops) && Delivered(fr, base, held + Arrived(ops), s, emitted) && TimedIfHeld(s)
    && Close(Arrived(ops), s.expected.value, cfg.maxBuffered - |held|)
  }

  /** There is room for a punctual frame that is early. */
  lemma RoomForEarly(fr: seq<Frame>, base: int, cfg: Config, held: set<int>, got: set<int>, s: State,
                     emitted: seq<Frame>, num: int)
    requires Delivered(fr, base, held + got, s, emitted) && base in got
    requires Close(got, s.expected.value, cfg.maxBuffered - |held|)
    requires num > s.expected.value
    requires forall m :: base <= m <= num - (cfg.maxBuffered - |held|) ==> m in held || m in got
    ensures |s.buffered| < cfg.maxBuffered && num < s.expected.value + (cfg.maxBuffered - |held|)
  {
    var e, limit := s.expected.value, cfg.maxBuffered - |held|;
    assert e !in held + got;
    var late := set k | k in s.buffered.Keys && k in got;
    RoomLeft(late, e, limit);
    forall k | k in s.buffered.Keys
      ensures k in late + held
    {
      assert k in s.buffered;
    }
    SubsetSize(s.buffered.Keys, late + held);
    UnionSize(late, held);
    assert |s.buffered| == |s.buffered.Keys|;
  }

  lemma UnionSize(a: set<int>, b: set<int>)
    ensures |a + b| <= |a| + |b|
  {
    assert a + b == (a - b) + b;
    SubsetSize(a - b, a);
  }

  lemma PushOnTrack(fr: seq<Frame>, base: int, cfg: Config, held: set<int>, got: set<int>, s: State,
                    emitted: seq<Frame>, f: Frame, now: int)
    requires IsStream(fr, base) && Inv(Unbounded, cfg, s) && base in got
    requires Delivered(fr, base, held + got, s, emitted) && TimedIfHeld(s)
    requires Close(got, s.expected.value, cfg.maxBuffered - |held|) && IsArrival(fr, base, PushOp(f, now))
    requires forall m :: base <= m <= f.num - (cfg.maxBuffered - |held|) ==> m in held || m in got
    ensures var r := Push(Unbounded, cfg, s, f, now);
            && Delivered(fr, base, held + (got + {f.num}), r.st, emitted + r.res.ready) && TimedIfHeld(r.st)
            && Close(got + {f.num}, r.st.expected.value, cfg.maxBuffered - |held|)
  {
    var r := Push(Unbounded, cfg, s, f, now);
    if f.num > s.expected.value {
      RoomForEarly(fr, base, cfg, held, got, s, emitted, f.num);
    }
    NextDelivers(fr, base, cfg, held + got, s, emitted, f, now);
    assert (held + got) + {f.num} == held + (got + {f.num});
    PushTimes(cfg, s, f, now);
    assert r.st.expected.value - base == |emitted + r.res.ready| >= |emitted| == s.expected.value - base;
  }

  /** A harmless call does nothing. */
  lemma IdleAfter(fr: seq<Frame>, base: int, cfg: Config, s0: State, held: set<int>, ops: seq<Op>, op: Op)
    requires Starts(fr, base, cfg, s0, held) && Resumes(fr, base, cfg, held, ops)
    requires HarmlessAfter(cfg, base, held, ops, op) && !op.PushOp?
    ensures var s := RunFrom(Unbounded, cfg, s0, ops).0;
            Step(Unbounded, cfg, s, op).st == s && Step(Unbounded, cfg, s, op).res.ready == []
    decreases |ops|, 2
  {
    StreamResumes(fr, base, cfg, s0, held, ops);
    var (s, emitted) := RunFrom(Unbounded, cfg, s0, ops);
    if op.LostOp? {
      LossIsIdle(fr, base, held + Arrived(ops), s, emitted, op.num, op.now);
    } else {
      var i: nat :| i <= |ops| && WithinTimeout(cfg, ops, i, op.now) &&
                    (i == 0 || Whole(base, held + Arrived(ops[..i])));
      if i == 0 {
        FirstTimes(fr, base, cfg, s0, held, ops);
        GapStaysYoung(cfg, s0, ops, 0, 1);
      } else {
        ResumesPrefix(fr, base, cfg, held, ops, i);
        UntimedThere(fr, base, cfg, s0, held, ops[..i]);
        GapStaysYoung(cfg, s0, ops, i, i);
      }
      assert ops[..|ops|] == ops;
      YoungTimerIsIdle(cfg, ops, i, s, op.now);
    }
  }

  /** A state in which the keyframe at `base` may arrive, and what is buffered beyond it. */
  ghost predicate Starts(fr: seq<Frame>, base: int, cfg: Config, s: State, held: set<int>) {
    && IsStream(fr, base) && Inv(Unbounded, cfg, s) && (s.expected.Some? ==> s.expected.value <= base)
    && held == Held(s, base)
    && forall k :: k in s.buffered && k > base ==> k < base + |fr| && s.buffered[k] == fr[k - base]
  }

  lemma FirstCall(fr: seq<Frame>, base: int, cfg: Config, s: State, held: set<int>, ops: seq<Op>)
    requires Starts(fr, base, cfg, s, held) && Resumes(fr, base, cfg, held, ops)
    ensures RunFrom(Unbounded, cfg, s, ops[..1]) ==
            (Push(Unbounded, cfg, s, fr[0], ops[0].now).st, Push(Unbounded, cfg, s, fr[0], ops[0].now).res.ready)
  {
    assert IsArrival(fr, base, ops[0]);
    assert [] + [ops[0]] == ops[..1];
    assert RunFrom(Unbounded, cfg, s, []) == (s, []);
    RunFromOneMore(Unbounded, cfg, s, [], ops[0]);
    var ready := Push(Unbounded, cfg, s, fr[0], ops[0].now).res.ready;
    assert [] + ready == ready;
  }

  lemma FirstTimes(fr: seq<Frame>, base: int, cfg: Config, s: State, held: set<int>, ops: seq<Op>)
    requires Starts(fr, base, cfg, s, held) && Resumes(fr, base, cfg, held, ops)
    ensures StartedSince(ops, 0, 1, Gap(cfg, s, ops, 1))
  {
    FirstCall(fr, base, cfg, s, held, ops);
    KeyframeDelivers(fr, base, cfg, s, ops[0].now);
  }

  lemma UntimedThere(fr: seq<Frame>, base: int, cfg: Config, s0: State, held: set<int>, ops: seq<Op>)
    requires Starts(fr, base, cfg, s0, held) && Resumes(fr, base, cfg, held, ops)
    requires Whole(base, held + Arrived(ops))
    ensures RunFrom(Unbounded, cfg, s0, ops).0.gapSince.None?
    decreases |ops|, 1
  {
    StreamResumes(fr, base, cfg, s0, held, ops);
    var (s, emitted) := RunFrom(Unbounded, cfg, s0, ops);
    WholeIsUntimed(fr, base, cfg, held + Arrived(ops), s, emitted);
  }

  lemma KeyframeOnTrack(fr: seq<Frame>, base: int, cfg: Config, s: State, held: set<int>, ops: seq<Op>)
    requires Starts(fr, base, cfg, s, held) && Resumes(fr, base, cfg, held, ops) && |ops| == 1
    ensures OnTrack(fr, base, cfg, held, ops, RunFrom(Unbounded, cfg, s, ops).0, RunFrom(Unbounded, cfg, s, ops).1)
  {
    assert ops[..1] == ops && ops[..0] == [];
    var r := Push(Unbounded, cfg, s, fr[0], ops[0].now);
    assert RunFrom(Unbounded, cfg, s, ops) == (r.st, r.res.ready) by { FirstCall(fr, base, cfg, s, held, ops); }
    assert Arrived(ops) == {base} by { ArrivedSplit(ops); }
    KeyframeDelivers(fr, base, cfg, s, ops[0].now);
  }

  lemma {:induction false} StreamResumes(fr: seq<Frame>, base: int, cfg: Config, s0: State, held: set<int>,
                                         ops: seq<Op>)
    requires Starts(fr, base, cfg, s0, held) && Resumes(fr, base, cfg, held, ops)
    ensures OnTrack(fr, base, cfg, held, ops, RunFrom(Unbounded, cfg, s0, ops).0, RunFrom(Unbounded, cfg, s0, ops).1)
    decreases |ops|, 0
  {
    if |ops| == 1 {
      KeyframeOnTrack(fr, base, cfg, s0, held, ops);
    } else {
      var last := |ops| - 1;
      ResumesBefore(fr, base, cfg, held, ops);
      StreamResumes(fr, base, cfg, s0, held, ops[..last]);
      var (s, emitted) := RunFrom(Unbounded, cfg, s0, ops[..last]);
      RunFromAfter(Unbounded, cfg, s0, ops);
      if ops[last].PushOp? {
        PushGoesOn(fr, base, cfg, held, ops, s, emitted);
      } else {
        IdleAfter(fr, base, cfg, s0, held, ops[..last], ops[last]);
        IdleGoesOn(fr, base, cfg, held, ops, s, emitted);
      }
    }
  }

  lemma PushGoesOn(fr: seq<Frame>, base: int, cfg: Config, held: set<int>, ops: seq<Op>, s: State, emitted: seq<Frame>)
    requires IsStream(fr, base) && Inv(Unbounded, cfg, s) && Resumes(fr, base, cfg, held, ops)
    requires ops[|ops| - 1].PushOp? && OnTrack(fr, base, cfg, held, ops[..|ops| - 1], s, emitted)
    ensures var next := After(Unbounded, cfg, (s, emitted), ops[|ops| - 1]);
            OnTrack(fr, base, cfg, held, ops, next.0, next.1)
  {
    var last := |ops| - 1;
    ArrivedSplit(ops);
    PushOnTrack(fr, base, cfg, held, Arrived(ops[..last]), s, emitted, ops[last].frame, ops[last].now);
  }

  lemma IdleGoesOn(fr: seq<Frame>, base: int, cfg: Config, held: set<int>, ops: seq<Op>, s: State, emitted: seq<Frame>)
    requires Inv(Unbounded, cfg, s) && ops != [] && !ops[|ops| - 1].PushOp?
    requires OnTrack(fr, base, cfg, held, ops[..|ops| - 1], s, emitted)
    requires Step(Unbounded, cfg, s, ops[|ops| - 1]).st == s && Step(Unbounded, cfg, s, ops[|ops| - 1]).res.ready == []
    ensures var next := After(Unbounded, cfg, (s, emitted), ops[|ops| - 1]);
            OnTrack(fr, base, cfg, held, ops, next.0, next.1)
  {
    ArrivedSplit(ops);
    assert emitted + [] == emitted;
  }

  lemma ExtendedArrivals(fr: seq<Frame>, base: int, s: State, n: nat, cfg: Config, held: set<int>, ops: seq<Op>)
    requires IsStream(fr, base) && n >= |fr| && Resumes(fr, base, cfg, held, ops)
    ensures Resumes(Extended(fr, base, s, n), base, cfg, held, ops)
  {
    var r := Extended(fr, base, s, n);
    forall i | 0 <= i < |ops|
      ensures IsArrival(r, base, ops[i])
    {
      assert IsArrival(fr, base, ops[i]);
    }
  }

  /**
  Recovery: whatever has happened to the sequencer, a stream whose keyframe is not behind comes out
  whole and in order once its keyframe arrives, if its other frames arrive in time, each no more than
  the free part of the buffer ahead of what is still missing.  Frames buffered already count as arrived.
  */
  lemma RecoveredStreamComesOutWhole(fr: seq<Frame>, base: int, cfg: Config, before: seq<Op>, ops: seq<Op>)
    requires var s := Run(Unbounded, cfg, before).0;
             && IsStream(fr, base) && (s.expected.Some? ==> s.expected.value <= base) && Agrees(fr, base, s)
             && Resumes(fr, base, cfg, Held(s, base), ops)
             && forall k :: base <= k < base + |fr| ==> k in Held(s, base) || k in Arrived(ops)
    ensures Run(Unbounded, cfg, before).1 + fr <= Run(Unbounded, cfg, before + ops).1
  {
    var (s, done) := Run(Unbounded, cfg, before);
    var emitted := ResumedStream(fr, base, cfg, s, ops);
    RunGoesOn(Unbounded, cfg, before, ops);
    assert Run(Unbounded, cfg, before + ops).1 == done + emitted;
    assert (done + emitted)[..|done| + |fr|] == done + emitted[..|fr|];
  }

  lemma ResumedStream(fr: seq<Frame>, base: int, cfg: Config, s: State, ops: seq<Op>) returns (emitted: seq<Frame>)
    requires Inv(Unbounded, cfg, s)
    requires IsStream(fr, base) && (s.expected.Some? ==> s.expected.value <= base) && Agrees(fr, base, s)
    requires Resumes(fr, base, cfg, Held(s, base), ops)
    requires forall k :: base <= k < base + |fr| ==> k in Held(s, base) || k in Arrived(ops)
    ensures emitted == RunFrom(Unbounded, cfg, s, ops).1 && |fr| <= |emitted| && emitted[..|fr|] == fr
  {
    emitted := RunFrom(Unbounded, cfg, s, ops).1;
    var longer := LongerResumes(fr, base, cfg, s, ops);
    WholeIsOut(fr, longer, base, Held(s, base) + Arrived(ops), RunFrom(Unbounded, cfg, s, ops).0, emitted);
  }

  lemma LongerResumes(fr: seq<Frame>, base: int, cfg: Config, s: State, ops: seq<Op>) returns (longer: seq<Frame>)
    requires Inv(Unbounded, cfg, s)
    requires IsStream(fr, base) && (s.expected.Some? ==> s.expected.value <= base) && Agrees(fr, base, s)
    requires Resumes(fr, base, cfg, Held(s, base), ops)
    ensures |fr| <= |longer| && fr == longer[..|fr|]
    ensures var (r, emitted) := RunFrom(Unbounded, cfg, s, ops);
            base in Arrived(ops) && Delivered(longer, base, Held(s, base) + Arrived(ops), r, emitted)
  {
    var held := Held(s, base);
    var top := Ceiling(held, base + |fr|);
    longer := Extended(fr, base, s, top - base);
    assert fr == longer[..|fr|] by { ExtendedIsStream(fr, base, cfg, s, top - base); }
    assert Resumes(longer, base, cfg, held, ops) by { ExtendedArrivals(fr, base, s, top - base, cfg, held, ops); }
    assert Starts(longer, base, cfg, s, held) by { ExtendedStarts(fr, base, cfg, s, top - base); }
    StreamResumes(longer, base, cfg, s, held, ops);
  }

  lemma WholeIsOut(fr: seq<Frame>, longer: seq<Frame>, base: int, got: set<int>, s: State, emitted: seq<Frame>)
    requires |fr| <= |longer| && fr == longer[..|fr|] && base in got && Delivered(longer, base, got, s, emitted)
    requires forall k :: base <= k < base + |fr| ==> k in got
    ensures |fr| <= |emitted| && emitted[..|fr|] == fr
  {
    var e := s.expected.value;
    assert e - base >= |fr|;
    assert longer[..e - base][..|fr|] == longer[..|fr|];
  }

  lemma ExtendedStarts(fr: seq<Frame>, base: int, cfg: Config, s: State, n: nat)
    requires IsStream(fr, base) && Inv(Unbounded, cfg, s) && n >= |fr| && Agrees(fr, base, s)
    requires (s.expected.Some? ==> s.expected.value <= base) && forall k :: k in Held(s, base) ==> k < base + n
    ensures Starts(Extended(fr, base, s, n), base, cfg, s, Held(s, base))
  {
    ExtendedIsStream(fr, base, cfg, s, n);
    var r := Extended(fr, base, s, n);
    forall k | k in s.buffered && k > base
      ensures k < base + |r| && s.buffered[k] == r[k - base]
    {
      assert k in Held(s, base);
      ExtendedAt(fr, base, s, n, k);
    }
  }

  lemma ExtendedAt(fr: seq<Frame>, base: int, s: State, n: nat, k: int)
    requires |fr| <= n && k in s.buffered && base < k < base + n && Agrees(fr, base, s)
    ensures Extended(fr, base, s, n)[k - base] == s.buffered[k]
  {
  }

  /** The same on the wire, while all numbers stay within half the number space of the expected one. */
  lemma RecoveredOnTheWire(fr: seq<Frame>, base: int, cfg: Config, before: seq<Op>, ops: seq<Op>)
    requires var s := Run(Unbounded, cfg, before).0;
             && IsStream(fr, base) && (s.expected.Some? ==> s.expected.value <= base) && Agrees(fr, base, s)
             && Resumes(fr, base, cfg, Held(s, base), ops)
             && forall k :: base <= k < base + |fr| ==> k in Held(s, base) || k in Arrived(ops)
    requires RunInWindow(cfg, before) && RunInWindow(cfg, before + ops)
    ensures ValidOps(Wrapping, LowOps(before)) && ValidOps(Wrapping, LowOps(before + ops))
    ensures Run(Wrapping, cfg, LowOps(before)).1 + LowFrames(fr) <= Run(Wrapping, cfg, LowOps(before + ops)).1
  {
    LowRun(cfg, before);
    LowRun(cfg, before + ops);
    RecoveredStreamComesOutWhole(fr, base, cfg, before, ops);
    LowPrefix(Run(Unbounded, cfg, before).1, fr, Run(Unbounded, cfg, before + ops).1);
  }

  lemma LowRun(cfg: Config, ops: seq<Op>)
    requires RunInWindow(cfg, ops)
    ensures ValidOps(Wrapping, LowOps(ops))
    ensures Run(Wrapping, cfg, LowOps(ops)).1 == LowFrames(Run(Unbounded, cfg, ops).1)
  {
    WrappingRefinesUnbounded(cfg, ops);
  }

  lemma LowPrefix(done: seq<Frame>, fr: seq<Frame>, all: seq<Frame>)
    requires done + fr <= all
    ensures LowFrames(done) + LowFrames(fr) <= LowFrames(all)
  {
    forall i | 0 <= i < |done| + |fr|
      ensures (LowFrames(done) + LowFrames(fr))[i] == LowFrames(all)[i]
    {
      assert (done + fr)[i] == all[i];
    }
  }
}

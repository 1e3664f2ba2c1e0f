/**
The sequencer on wrapping 32-bit numbers decides exactly as it would on unbounded frame
indices, as long as every number that arrives is within half the number space of where
the sequencer stands.
*/
module SequencerWrap {
  import opened Basics
  import opened SequencerSpec
  import opened SequencerSafety
  import opened SequencerRuns

  // ----- What the wire keeps of a frame index

  function Low(n: int): int { n % WRAP }

  function LowOption(n: Option<int>): Option<int> {
    match n
    case None => None
    case Some(e) => Some(Low(e))
  }

  function LowFrame(f: Frame): Frame { f.(num := Low(f.num)) }

  function LowFrames(fs: seq<Frame>): (r: seq<Frame>)
    ensures |r| == |fs|
  {
    seq(|fs|, i requires 0 <= i < |fs| => LowFrame(fs[i]))
  }

  function LowKeys(keys: set<int>): set<int> { set k | k in keys :: Low(k) }

  function LowOp(op: Op): Op {
    match op
    case PushOp(f, now) => PushOp(LowFrame(f), now)
    case LostOp(n, now) => LostOp(Low(n), now)
    case ExpireOp(now) => op
  }

  function LowOps(ops: seq<Op>): (r: seq<Op>)
    ensures |r| == |ops|
  {
    seq(|ops|, i requires 0 <= i < |ops| => LowOp(ops[i]))
  }

  lemma LowDist(x: int, e: int)
    requires -HALF <= x - e < HALF
    ensures Wrapping.Behind(Low(x), Low(e)) <==> x < e
    ensures x >= e ==> Wrapping.Dist(Low(x), Low(e)) == x - e
  {
    assert (Low(x) - Low(e)) % WRAP == (x - e) % WRAP;
  }

  lemma LowAhead(x: int, e: int)
    requires 0 <= x - e < WRAP
    ensures Wrapping.Dist(Low(x), Low(e)) == x - e
  {
    assert (Low(x) - Low(e)) % WRAP == (x - e) % WRAP;
  }

  lemma LowInjective(x: int, y: int)
    requires -WRAP < x - y < WRAP && Low(x) == Low(y)
    ensures x == y
  {
  }

  lemma LowNext(x: int)
    ensures Wrapping.Next(Low(x)) == Low(Unbounded.Next(x))
  {
  }

  // ----- The two states side by side

  /** The indices lie in one half of the number space, from `lo` on. */
  ghost predicate Band(keys: set<int>, lo: int) {
    forall k :: k in keys ==> lo <= k < lo + HALF
  }

  ghost predicate SimBuffer(b: map<int, Frame>, w: map<int, Frame>) {
    && w.Keys == LowKeys(b.Keys)
    && forall k {:trigger b[k]} :: k in b ==> w[Low(k)] == LowFrame(b[k])
  }

  ghost predicate SimState(u: State, w: State) {
    && w.expected == LowOption(u.expected)
    && w.waiting == u.waiting && w.gapSince == u.gapSince
    && SimBuffer(u.buffered, w.buffered)
  }

  /** The same decisions: the same frames released and the same counts and request. */
  ghost predicate SimResult(u: Result, w: Result) {
    && w.ready == LowFrames(u.ready)
    && w.dropped == u.dropped && w.awaiting == u.awaiting && w.request == u.request
  }

  ghost predicate SimOut(u: Out, w: Out) {
    SimState(u.st, w.st) && SimResult(u.res, w.res)
  }

  /** The lowest live index: the expected one, or before the first keyframe the lowest buffered one. */
  ghost function Base(s: State): int {
    if s.expected.Some? then s.expected.value
    else if s.buffered.Keys == {} then 0
    else Nearest(Unbounded, s.buffered.Keys, 0)
  }

  /** All live indices are within half the number space of each other. */
  ghost predicate Spread(s: State) {
    Band(s.buffered.Keys, Base(s))
  }

  /** An arriving index is within half the number space of where the sequencer stands. */
  ghost predicate InWindow(s: State, num: int) {
    match s.expected
    case Some(e) => -HALF <= num - e < HALF
    case None => forall k :: k in s.buffered ==> -HALF < num - k < HALF
  }

  ghost predicate OpInWindow(s: State, op: Op) {
    match op
    case PushOp(f, _) => InWindow(s, f.num)
    case LostOp(n, _) => s.expected.Some? ==> InWindow(s, n)
    case ExpireOp(_) => true
  }

  lemma {:induction false} LowKeysSize(keys: set<int>, lo: int)
    requires Band(keys, lo)
    ensures |LowKeys(keys)| == |keys|
    decreases keys
  {
    if keys == {} {
      assert LowKeys(keys) == {};
    } else {
      var k := Pick(keys);
      LowKeysSize(keys - {k}, lo);
      LowKeysMinus(keys, {k}, lo);
      assert Low(k) in LowKeys(keys);
      assert LowKeys({k}) == {Low(k)};
    }
  }

  lemma LowKeysMinus(keys: set<int>, gone: set<int>, lo: int)
    requires Band(keys, lo) && gone <= keys
    ensures LowKeys(keys - gone) == LowKeys(keys) - LowKeys(gone)
  {
    forall j | j in LowKeys(keys - gone) ensures j !in LowKeys(gone) {
      var k :| k in keys - gone && Low(k) == j;
      if j in LowKeys(gone) {
        var g :| g in gone && Low(g) == j;
        LowInjective(k, g);
      }
    }
  }

  lemma SimSize(b: map<int, Frame>, w: map<int, Frame>, lo: int)
    requires SimBuffer(b, w) && Band(b.Keys, lo)
    ensures |b| == |w|
  {
    LowKeysSize(b.Keys, lo);
  }

  lemma SimMember(b: map<int, Frame>, w: map<int, Frame>, e: int)
    requires SimBuffer(b, w) && forall k :: k in b ==> -WRAP < k - e < WRAP
    ensures e in b <==> Low(e) in w
    ensures e in b ==> w[Low(e)] == LowFrame(b[e])
  {
    if Low(e) in w {
      var k :| k in b.Keys && Low(k) == Low(e);
      LowInjective(k, e);
    }
  }

  lemma SimMinus(b: map<int, Frame>, w: map<int, Frame>, gone: set<int>, lo: int)
    requires SimBuffer(b, w) && Band(b.Keys, lo) && gone <= b.Keys
    ensures SimBuffer(b - gone, w - LowKeys(gone))
  {
    LowKeysMinus(b.Keys, gone, lo);
    assert (b - gone).Keys == b.Keys - gone;
    assert (w - LowKeys(gone)).Keys == w.Keys - LowKeys(gone);
    forall k | k in b - gone ensures (w - LowKeys(gone))[Low(k)] == LowFrame((b - gone)[k]) {
      assert Low(k) in LowKeys(b.Keys - gone);
    }
  }

  lemma SimInsert(b: map<int, Frame>, w: map<int, Frame>, f: Frame)
    requires SimBuffer(b, w) && forall k :: k in b ==> -WRAP < f.num - k < WRAP
    ensures SimBuffer(b[f.num := f], w[Low(f.num) := LowFrame(f)])
  {
    var b1, w1 := b[f.num := f], w[Low(f.num) := LowFrame(f)];
    assert b1.Keys == b.Keys + {f.num};
    assert LowKeys(b1.Keys) == LowKeys(b.Keys) + {Low(f.num)};
    forall k | k in b1 ensures w1[Low(k)] == LowFrame(b1[k]) {
      if k != f.num && Low(k) == Low(f.num) { LowInjective(k, f.num); }
    }
  }

  // ----- Operation by operation

  lemma ConsumeSim(u: Out, w: Out, f: Frame)
    requires SimOut(u, w)
    ensures SimOut(Consume(Unbounded, u, f), Consume(Wrapping, w, LowFrame(f)))
  {
    LowNext(f.num);
    assert LowFrames(u.res.ready + [f]) == LowFrames(u.res.ready) + [LowFrame(f)];
  }

  lemma DrainStepSim(u: Out, w: Out)
    requires SimOut(u, w) && Spread(u.st) && ExpectedBuffered(u.st) && ExpectedBuffered(w.st)
    requires Keyed(Unbounded, u.st.buffered)
    ensures SimOut(DrainStep(Unbounded, u), DrainStep(Wrapping, w)) && Spread(DrainStep(Unbounded, u).st)
  {
    var e := u.st.expected.value;
    SimMinus(u.st.buffered, w.st.buffered, {e}, e);
    assert LowKeys({e}) == {Low(e)};
    ConsumeSim(u.(st := u.st.(buffered := u.st.buffered - {e})),
               w.(st := w.st.(buffered := w.st.buffered - {Low(e)})), u.st.buffered[e]);
  }

  lemma {:induction false} DrainLoopSim(u: Out, w: Out)
    requires SimOut(u, w) && Spread(u.st) && u.st.expected.Some?
    requires Keyed(Unbounded, u.st.buffered) && Keyed(Wrapping, w.st.buffered)
    ensures SimOut(DrainLoop(Unbounded, u), DrainLoop(Wrapping, w)) && Spread(DrainLoop(Unbounded, u).st)
    decreases |u.st.buffered|
  {
    SimMember(u.st.buffered, w.st.buffered, u.st.expected.value);
    if !ExpectedBuffered(u.st) {
    } else {
      MapMinusSize(u.st.buffered, {u.st.expected.value});
      DrainStepSim(u, w);
      DrainLoopSim(DrainStep(Unbounded, u), DrainStep(Wrapping, w));
    }
  }

  lemma DrainSim(u: Out, w: Out, now: int)
    requires SimOut(u, w) && Spread(u.st) && u.st.expected.Some?
    requires Keyed(Unbounded, u.st.buffered) && Keyed(Wrapping, w.st.buffered)
    ensures SimOut(Drain(Unbounded, u, now), Drain(Wrapping, w, now)) && Spread(Drain(Unbounded, u, now).st)
  {
    DrainLoopSim(u, w);
    var u1, w1 := DrainLoop(Unbounded, u), DrainLoop(Wrapping, w);
    SimSize(u1.st.buffered, w1.st.buffered, u1.st.expected.value);
  }

  lemma StaleSim(b: map<int, Frame>, w: map<int, Frame>, num: int)
    requires SimBuffer(b, w) && forall k :: k in b ==> -HALF <= k - num < HALF
    ensures StaleKeys(Wrapping, w, Low(num)) == LowKeys(StaleKeys(Unbounded, b, num))
  {
    forall k | k in b ensures Stale(Wrapping, Low(k), Low(num)) <==> Stale(Unbounded, k, num) {
      LowDist(k, num);
      if Low(k) == Low(num) { LowInjective(k, num); }
    }
  }

  lemma ResyncSim(u: State, w: State, f: Frame, now: int, skipped: int, awaiting: bool, lo: int)
    requires SimState(u, w) && Keyed(Unbounded, u.buffered) && Keyed(Wrapping, w.buffered)
    requires Band(u.buffered.Keys, lo) && forall k :: k in u.buffered ==> -HALF <= k - f.num < HALF
    ensures var r := Resync(Unbounded, u, f, now, skipped, awaiting);
            SimOut(r, Resync(Wrapping, w, LowFrame(f), now, skipped, awaiting)) && Spread(r.st)
  {
    var stale := StaleKeys(Unbounded, u.buffered, f.num);
    StaleSim(u.buffered, w.buffered, f.num);
    SimMinus(u.buffered, w.buffered, stale, lo);
    LowKeysSize(stale, lo);
    var ou := ResyncStart(Unbounded, u, f, skipped, awaiting);
    var ow := ResyncStart(Wrapping, w, LowFrame(f), skipped, awaiting);
    assert SimOut(ou, ow);
    ConsumeSim(ou, ow, f);
    DrainSim(Consume(Unbounded, ou, f), Consume(Wrapping, ow, LowFrame(f)), now);
  }

  lemma SpreadInsert(s: State, f: Frame)
    requires Spread(s) && InWindow(s, f.num) && (s.expected.Some? ==> f.num >= s.expected.value)
    ensures Spread(s.(buffered := s.buffered[f.num := f]))
  {
    assert s.buffered[f.num := f].Keys == s.buffered.Keys + {f.num};
  }

  lemma FirstPushSim(cfg: Config, u: State, w: State, f: Frame, now: int)
    requires Inv(Unbounded, cfg, u) && Inv(Wrapping, cfg, w) && u.expected.None?
    requires SimState(u, w) && Spread(u) && InWindow(u, f.num)
    ensures var r := Push(Unbounded, cfg, u, f, now);
            SimOut(r, Push(Wrapping, cfg, w, LowFrame(f), now)) && Spread(r.st)
  {
    var lo := Base(u);
    SimSize(u.buffered, w.buffered, lo);
    if f.keyframe {
      ResyncSim(u, w, f, now, 0, true, lo);
    } else {
      SimInsert(u.buffered, w.buffered, f);
      SpreadInsert(u, f);
    }
  }

  lemma PushJumps(a: Arith, cfg: Config, s: State, f: Frame, now: int, skipped: int)
    requires Keyed(a, s.buffered) && s.expected.Some? && f.keyframe
    requires !a.Behind(f.num, s.expected.value) && skipped == a.Dist(f.num, s.expected.value)
    ensures Push(a, cfg, s, f, now) == Resync(a, s, f, now, skipped, false)
  {
  }

  lemma KeyframeSim(cfg: Config, u: State, w: State, f: Frame, now: int)
    requires Inv(Unbounded, cfg, u) && Inv(Wrapping, cfg, w) && u.expected.Some?
    requires SimState(u, w) && Spread(u) && InWindow(u, f.num)
    requires f.keyframe && f.num >= u.expected.value
    ensures var r := Push(Unbounded, cfg, u, f, now);
            SimOut(r, Push(Wrapping, cfg, w, LowFrame(f), now)) && Spread(r.st)
  {
    var e := u.expected.value;
    LowDist(f.num, e);
    var skipped := f.num - e;
    PushJumps(Unbounded, cfg, u, f, now, skipped);
    PushJumps(Wrapping, cfg, w, LowFrame(f), now, skipped);
    ResyncSim(u, w, f, now, skipped, false, e);
  }

  lemma GapSim(cfg: Config, u: State, w: State, f: Frame, now: int)
    requires Inv(Unbounded, cfg, u) && Inv(Wrapping, cfg, w) && u.expected.Some?
    requires SimState(u, w) && Spread(u) && InWindow(u, f.num)
    requires !f.keyframe && f.num > u.expected.value
    ensures var r := Push(Unbounded, cfg, u, f, now);
            SimOut(r, Push(Wrapping, cfg, w, LowFrame(f), now)) && Spread(r.st)
  {
    LowDist(f.num, u.expected.value);
    SimSize(u.buffered, w.buffered, u.expected.value);
    SimInsert(u.buffered, w.buffered, f);
    SpreadInsert(u, f);
  }

  lemma NextSim(cfg: Config, u: State, w: State, f: Frame, now: int)
    requires Inv(Unbounded, cfg, u) && Inv(Wrapping, cfg, w) && u.expected.Some?
    requires SimState(u, w) && Spread(u) && InWindow(u, f.num)
    requires !f.keyframe && f.num == u.expected.value
    ensures var r := Push(Unbounded, cfg, u, f, now);
            SimOut(r, Push(Wrapping, cfg, w, LowFrame(f), now)) && Spread(r.st)
  {
    LowDist(f.num, u.expected.value);
    var u1, w1 := Consume(Unbounded, Out(u, NOTHING), f), Consume(Wrapping, Out(w, NOTHING), LowFrame(f));
    ConsumeSim(Out(u, NOTHING), Out(w, NOTHING), f);
    DrainSim(u1, w1, now);
    assert Push(Unbounded, cfg, u, f, now) == Drain(Unbounded, u1, now);
    assert Push(Wrapping, cfg, w, LowFrame(f), now) == Drain(Wrapping, w1, now);
  }

  lemma PushSim(cfg: Config, u: State, w: State, f: Frame, now: int)
    requires Inv(Unbounded, cfg, u) && Inv(Wrapping, cfg, w) && u.expected.Some?
    requires SimState(u, w) && Spread(u) && InWindow(u, f.num)
    ensures var r := Push(Unbounded, cfg, u, f, now);
            SimOut(r, Push(Wrapping, cfg, w, LowFrame(f), now)) && Spread(r.st)
  {
    if f.num < u.expected.value {
      LowDist(f.num, u.expected.value);
    } else if f.keyframe {
      KeyframeSim(cfg, u, w, f, now);
    } else if f.num > u.expected.value {
      GapSim(cfg, u, w, f, now);
    } else {
      NextSim(cfg, u, w, f, now);
    }
  }

  lemma MarkLostSim(cfg: Config, u: State, w: State, num: int, now: int)
    requires Inv(Unbounded, cfg, u) && Inv(Wrapping, cfg, w)
    requires SimState(u, w) && Spread(u) && (u.expected.Some? ==> InWindow(u, num))
    ensures var r := MarkLost(Unbounded, u, num, now);
            SimOut(r, MarkLost(Wrapping, w, Low(num), now)) && Spread(r.st)
  {
    if u.expected.Some? {
      var e := u.expected.value;
      LowDist(num, e);
      if num == e {
        LostNextSim(cfg, u, w, now);
      }
    }
  }

  /** The expected frame itself is lost: both sides move on by one and drain. */
  lemma LostNextSim(cfg: Config, u: State, w: State, now: int)
    requires Inv(Unbounded, cfg, u) && Inv(Wrapping, cfg, w)
    requires SimState(u, w) && Spread(u) && u.expected.Some?
    ensures var e := u.expected.value;
            var r := MarkLost(Unbounded, u, e, now);
            SimOut(r, MarkLost(Wrapping, w, Low(e), now)) && Spread(r.st)
  {
    var mu, mw := Moved(Unbounded, u), Moved(Wrapping, w);
    assert SimOut(Drain(Unbounded, mu, now), Drain(Wrapping, mw, now)) && Spread(Drain(Unbounded, mu, now).st) by {
      MovedSim(u, w);
      DrainSim(mu, mw, now);
    }
    LostNext(Unbounded, u, now);
    LostNext(Wrapping, w, now);
  }

  lemma MovedSim(u: State, w: State)
    requires SimState(u, w) && Spread(u) && u.expected.Some? && w.expected.Some? && u.expected.value !in u.buffered
    ensures SimOut(Moved(Unbounded, u), Moved(Wrapping, w)) && Spread(Moved(Unbounded, u).st)
  {
    LowNext(u.expected.value);
  }

  /** The state behind a lost frame, before it is drained. */
  function Moved(a: Arith, s: State): Out
    requires s.expected.Some?
  {
    Out(s.(expected := Some(a.Next(s.expected.value)), waiting := true), NOTHING.(dropped := 1, request := true))
  }

  lemma LostNext(a: Arith, s: State, now: int)
    requires Keyed(a, s.buffered) && s.expected.Some? && a.Number(s.expected.value)
    ensures MarkLost(a, s, s.expected.value, now) == Drain(a, Moved(a, s), now)
  {
  }

  lemma LateSim(cfg: Config, b: map<int, Frame>, w: map<int, Frame>, now: int)
    requires SimBuffer(b, w)
    ensures LateKeys(cfg, w, now) == LowKeys(LateKeys(cfg, b, now))
  {
  }

  /** Both sides skip past the same farthest frame. */
  lemma PastAllSim(b: map<int, Frame>, w: map<int, Frame>, e: int, e1: int, e2: int)
    requires SimBuffer(b, w) && Band(b.Keys, e)
    requires PastAll(Unbounded, b, e, e1) && PastAll(Wrapping, w, Low(e), e2)
    ensures e2 == Low(e1) && Wrapping.Dist(e2, Low(e)) == e1 - e
  {
    if b.Keys == {} {
      assert w.Keys == {};
    } else {
      var k :| IsFarthest(Unbounded, b.Keys, e, k) && e1 == k + 1;
      var j :| IsFarthest(Wrapping, w.Keys, Low(e), j) && e2 == Wrapping.Next(j);
      FarthestSim(b.Keys, e, k, j);
      LowNext(k);
      LowAhead(k + 1, e);
    }
  }

  lemma FarthestSim(keys: set<int>, e: int, k: int, j: int)
    requires Band(keys, e) && IsFarthest(Unbounded, keys, e, k) && IsFarthest(Wrapping, LowKeys(keys), Low(e), j)
    ensures j == Low(k)
  {
    assert Low(k) in LowKeys(keys);
    var k' :| k' in keys && Low(k') == j;
    LowDist(k, e);
    LowDist(k', e);
    assert Wrapping.Dist(Low(k), Low(e)) <= Wrapping.Dist(j, Low(e));
  }

  lemma FlushSim(cfg: Config, u: State, w: State, now: int)
    requires Inv(Unbounded, cfg, u) && Inv(Wrapping, cfg, w) && u.expected.Some?
    requires SimState(u, w) && Spread(u)
    requires u.gapSince.Some? && now - u.gapSince.value >= cfg.gapTimeout
    ensures var r := Expire(Unbounded, cfg, u, now); SimOut(r, Expire(Wrapping, cfg, w, now)) && Spread(r.st)
  {
    var r1, r2 := Expire(Unbounded, cfg, u, now), Expire(Wrapping, cfg, w, now);
    ExpiredGap(Unbounded, cfg, u, now);
    ExpiredGap(Wrapping, cfg, w, now);
    SimSize(u.buffered, w.buffered, u.expected.value);
    PastAllSim(u.buffered, w.buffered, u.expected.value, r1.st.expected.value, r2.st.expected.value);
  }

  lemma LateStepSim(cfg: Config, u: State, w: State, now: int)
    requires Inv(Unbounded, cfg, u) && Inv(Wrapping, cfg, w) && u.expected.None?
    requires SimState(u, w) && Spread(u)
    ensures var r := Expire(Unbounded, cfg, u, now); SimOut(r, Expire(Wrapping, cfg, w, now)) && Spread(r.st)
  {
    var lo := Base(u);
    var late := LateKeys(cfg, u.buffered, now);
    LateSim(cfg, u.buffered, w.buffered, now);
    SimMinus(u.buffered, w.buffered, late, lo);
    LowKeysSize(late, lo);
    var kept := (u.buffered - late).Keys;
    assert kept <= u.buffered.Keys;
    if kept != {} {
      var base := Nearest(Unbounded, kept, 0);
      assert Band(kept, base);
    }
  }

  lemma ExpireSim(cfg: Config, u: State, w: State, now: int)
    requires Inv(Unbounded, cfg, u) && Inv(Wrapping, cfg, w)
    requires SimState(u, w) && Spread(u)
    ensures var r := Expire(Unbounded, cfg, u, now); SimOut(r, Expire(Wrapping, cfg, w, now)) && Spread(r.st)
  {
    if u.expected.None? {
      LateStepSim(cfg, u, w, now);
    } else if u.gapSince.Some? && now - u.gapSince.value >= cfg.gapTimeout {
      FlushSim(cfg, u, w, now);
    }
  }

  lemma StepSim(cfg: Config, u: State, w: State, op: Op)
    requires Inv(Unbounded, cfg, u) && Inv(Wrapping, cfg, w)
    requires SimState(u, w) && Spread(u) && OpInWindow(u, op)
    ensures var r := Step(Unbounded, cfg, u, op);
            SimOut(r, Step(Wrapping, cfg, w, LowOp(op))) && Spread(r.st)
  {
    match op
    case PushOp(f, now) =>
      if u.expected.None? { FirstPushSim(cfg, u, w, f, now); } else { PushSim(cfg, u, w, f, now); }
    case LostOp(n, now) => MarkLostSim(cfg, u, w, n, now);
    case ExpireOp(now) => ExpireSim(cfg, u, w, now);
  }

  // ----- Whole runs

  /** Every call of the run carries an index within reach of where the sequencer then stands. */
  ghost predicate RunInWindow(cfg: Config, ops: seq<Op>) {
    ops != [] ==>
      var last := |ops| - 1;
      RunInWindow(cfg, ops[..last]) && OpInWindow(Run(Unbounded, cfg, ops[..last]).0, ops[last])
  }

  /**
  Wrapping changes nothing: a run on 32-bit numbers releases exactly the frames the same
  run on unbounded indices releases, in the same order, and ends in the same state.
  */
  lemma {:induction false} WrappingRefinesUnbounded(cfg: Config, ops: seq<Op>)
    requires RunInWindow(cfg, ops)
    ensures ValidOps(Wrapping, LowOps(ops))
    ensures var (u, emitted) := Run(Unbounded, cfg, ops);
            && SimState(u, Run(Wrapping, cfg, LowOps(ops)).0) && Spread(u)
            && Run(Wrapping, cfg, LowOps(ops)).1 == LowFrames(emitted)
  {
    LowOpsValid(ops);
    if ops == [] {
    } else {
      WrappingRefinesUnbounded(cfg, ops[..|ops| - 1]);
      RefineNext(cfg, ops);
    }
  }

  lemma LowOpsValid(ops: seq<Op>)
    ensures ValidOps(Wrapping, LowOps(ops))
  {
  }

  /** The two runs agree: same state, same frames released. */
  ghost predicate Refines(cfg: Config, ops: seq<Op>) {
    LowOpsValid(ops);
    var (u, emitted) := Run(Unbounded, cfg, ops);
    var (w, wrapped) := Run(Wrapping, cfg, LowOps(ops));
    SimState(u, w) && Spread(u) && wrapped == LowFrames(emitted)
  }

  lemma RefineNext(cfg: Config, ops: seq<Op>)
    requires RunInWindow(cfg, ops) && ops != [] && Refines(cfg, ops[..|ops| - 1])
    ensures Refines(cfg, ops)
  {
    var last := |ops| - 1;
    var before, low := ops[..last], LowOps(ops);
    LowOpsValid(ops);
    assert low[..last] == LowOps(before) && low[last] == LowOp(ops[last]);
    var (u, emitted) := Run(Unbounded, cfg, before);
    var (w, wrapped) := Run(Wrapping, cfg, low[..last]);
    var ru, rw := Step(Unbounded, cfg, u, ops[last]), Step(Wrapping, cfg, w, low[last]);
    assert SimState(ru.st, rw.st) && Spread(ru.st) && rw.res.ready == LowFrames(ru.res.ready) by {
      StepSim(cfg, u, w, ops[last]);
    }
    RunNext(Unbounded, cfg, ops);
    RunNext(Wrapping, cfg, low);
    LowJoin(emitted, ru.res.ready);
  }

  lemma LowJoin(x: seq<Frame>, y: seq<Frame>)
    ensures LowFrames(x + y) == LowFrames(x) + LowFrames(y)
  {
  }

  /** So on the wire too: what is emitted are distinct frames in the order of their true indices. */
  lemma WrappedEmissionsIncrease(cfg: Config, ops: seq<Op>)
    requires RunInWindow(cfg, ops)
    ensures ValidOps(Wrapping, LowOps(ops))
    ensures Run(Wrapping, cfg, LowOps(ops)).1 == LowFrames(Run(Unbounded, cfg, ops).1)
    ensures Increasing(Run(Unbounded, cfg, ops).1)
  {
    WrappingRefinesUnbounded(cfg, ops);
    EmittedIncreases(cfg, ops);
  }
}

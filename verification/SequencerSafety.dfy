/** What every call of the sequencer keeps, and what the calls of a whole run emit. */
module SequencerSafety {
  import opened Basics
  import opened SequencerSpec

  // ----- The invariant of every reachable state

  /** Everything buffered lies at or ahead of `e`. */
  ghost predicate Ahead(a: Arith, buffered: map<int, Frame>, e: int) {
    forall k :: k in buffered ==> !a.Behind(k, e)
  }

  ghost predicate BufferOk(a: Arith, cfg: Config, buffered: map<int, Frame>) {
    && Keyed(a, buffered)
    && (forall k :: k in buffered ==> !buffered[k].keyframe)
    && |buffered| <= Max(0, cfg.maxBuffered)
  }

  ghost predicate Inv(a: Arith, cfg: Config, s: State) {
    && BufferOk(a, cfg, s.buffered)
    && match s.expected
       case None => s.waiting && s.gapSince.None?
       case Some(e) =>
         && a.Number(e)
         && Ahead(a, s.buffered, e) && e !in s.buffered
         && (|s.buffered| > 0 ==> s.gapSince.Some?)
  }

  /** The state between consuming a frame and draining: the expected frame may itself be buffered. */
  ghost predicate Midway(a: Arith, cfg: Config, s: State) {
    && BufferOk(a, cfg, s.buffered)
    && s.expected.Some? && a.Number(s.expected.value)
    && Ahead(a, s.buffered, s.expected.value)
  }

  lemma DistToNext(a: Arith, k: int, e: int)
    requires a.Number(k) && a.Number(e) && k != e && !a.Behind(k, e)
    ensures !a.Behind(k, a.Next(e)) && a.Dist(k, a.Next(e)) == a.Dist(k, e) - 1
    ensures a.Number(a.Next(e))
  {
    if a.Wrapping? {
      assert (k - e) % WRAP == if k >= e then k - e else k - e + WRAP;
      var n := a.Next(e);
      assert n == if e + 1 == WRAP then 0 else e + 1;
      assert (k - n) % WRAP == if k >= n then k - n else k - n + WRAP;
    }
  }

  lemma ShrinkBuffer(a: Arith, cfg: Config, buffered: map<int, Frame>, gone: set<int>)
    requires BufferOk(a, cfg, buffered)
    ensures BufferOk(a, cfg, buffered - gone)
  {
    MapMinusSize(buffered, gone);
  }

  /** Consuming the frame the buffer is aligned to moves the alignment one on. */
  lemma ConsumeMidway(a: Arith, cfg: Config, o: Out, f: Frame)
    requires BufferOk(a, cfg, o.st.buffered) && a.Number(f.num)
    requires Ahead(a, o.st.buffered, f.num) && f.num !in o.st.buffered
    ensures Midway(a, cfg, Consume(a, o, f).st)
  {
    forall k | k in o.st.buffered ensures !a.Behind(k, a.Next(f.num)) {
      DistToNext(a, k, f.num);
    }
  }

  lemma {:induction false} DrainLoopSettles(a: Arith, cfg: Config, o: Out)
    requires Midway(a, cfg, o.st)
    ensures var r := DrainLoop(a, o); Midway(a, cfg, r.st) && r.st.expected.value !in r.st.buffered
    decreases |o.st.buffered|
  {
    var e := o.st.expected.value;
    if e !in o.st.buffered {
    } else {
      ShrinkBuffer(a, cfg, o.st.buffered, {e});
      MapMinusSize(o.st.buffered, {e});
      ConsumeMidway(a, cfg, o.(st := o.st.(buffered := o.st.buffered - {e})), o.st.buffered[e]);
      DrainLoopSettles(a, cfg, DrainStep(a, o));
    }
  }

  lemma DrainKeeps(a: Arith, cfg: Config, o: Out, now: int)
    requires Midway(a, cfg, o.st)
    ensures Inv(a, cfg, Drain(a, o, now).st)
  {
    DrainLoopSettles(a, cfg, o);
  }

  lemma ResyncKeeps(a: Arith, cfg: Config, s: State, f: Frame, now: int, skipped: int, awaiting: bool)
    requires BufferOk(a, cfg, s.buffered) && a.Number(f.num)
    ensures Inv(a, cfg, Resync(a, s, f, now, skipped, awaiting).st)
  {
    var o := ResyncStart(a, s, f, skipped, awaiting);
    ShrinkBuffer(a, cfg, s.buffered, StaleKeys(a, s.buffered, f.num));
    assert Ahead(a, o.st.buffered, f.num);
    ConsumeMidway(a, cfg, o, f);
    DrainKeeps(a, cfg, Consume(a, o, f), now);
  }

  lemma InsertBuffer(a: Arith, cfg: Config, buffered: map<int, Frame>, f: Frame)
    requires BufferOk(a, cfg, buffered) && a.Number(f.num) && !f.keyframe && |buffered| < cfg.maxBuffered
    ensures BufferOk(a, cfg, buffered[f.num := f]) && |buffered[f.num := f]| > 0
  {
    var b := buffered[f.num := f];
    assert b.Keys == buffered.Keys + {f.num};
    assert |b| == |b.Keys| && |buffered| == |buffered.Keys|;
    assert f.num in b.Keys;
  }

  lemma DistZero(a: Arith, x: int, e: int)
    requires a.Number(x) && a.Number(e) && !a.Behind(x, e) && a.Dist(x, e) <= 0
    ensures x == e
  {
    if a.Wrapping? {
      assert (x - e) % WRAP == if x >= e then x - e else x - e + WRAP;
    }
  }

  lemma PushKeeps(a: Arith, cfg: Config, s: State, f: Frame, now: int)
    requires Inv(a, cfg, s) && a.Number(f.num)
    ensures Inv(a, cfg, Push(a, cfg, s, f, now).st)
  {
    if f.keyframe {
      if s.expected.None? {
        ResyncKeeps(a, cfg, s, f, now, 0, true);
      } else if !a.Behind(f.num, s.expected.value) {
        ResyncKeeps(a, cfg, s, f, now, a.Dist(f.num, s.expected.value), false);
      }
    } else if s.expected.None? || a.Dist(f.num, s.expected.value) > 0 {
      if |s.buffered| < cfg.maxBuffered { InsertBuffer(a, cfg, s.buffered, f); }
    } else if !a.Behind(f.num, s.expected.value) {
      DistZero(a, f.num, s.expected.value);
      ConsumeMidway(a, cfg, Out(s, NOTHING), f);
      DrainKeeps(a, cfg, Consume(a, Out(s, NOTHING), f), now);
    }
  }

  lemma MarkLostKeeps(a: Arith, cfg: Config, s: State, num: int, now: int)
    requires Inv(a, cfg, s) && a.Number(num)
    ensures Inv(a, cfg, MarkLost(a, s, num, now).st)
  {
    if s.expected.Some? && !a.Behind(num, s.expected.value) && a.Dist(num, s.expected.value) <= 0 {
      var e := s.expected.value;
      assert a.Number(a.Next(e));
      forall k | k in s.buffered ensures !a.Behind(k, a.Next(e)) { DistToNext(a, k, e); }
      var moved := s.(expected := Some(a.Next(e)), waiting := true);
      DrainKeeps(a, cfg, Out(moved, NOTHING.(dropped := 1, request := true)), now);
    }
  }

  // ----- A gap that timed out

  lemma DistNextSelf(a: Arith, k: int, e: int)
    requires a.Number(k) && a.Number(e) && !a.Behind(k, e)
    ensures a.Number(a.Next(k)) && a.Dist(a.Next(k), e) == a.Dist(k, e) + 1
  {
    if a.Wrapping? {
      assert (k - e) % WRAP == if k >= e then k - e else k - e + WRAP;
      assert a.Next(k) == if k + 1 == WRAP then 0 else k + 1;
      var n := a.Next(k);
      assert (n - e) % WRAP == if n >= e then n - e else n - e + WRAP;
    }
  }

  /** Stepping past the nearest frame leaves the others ahead, each closer by the distance stepped. */
  lemma StepPast(a: Arith, k: int, j: int, e: int)
    requires a.Number(k) && a.Number(j) && a.Number(e) && j != k
    requires !a.Behind(k, e) && !a.Behind(j, e) && a.Dist(k, e) <= a.Dist(j, e)
    ensures !a.Behind(j, a.Next(k)) && a.Dist(j, a.Next(k)) == a.Dist(j, e) - a.Dist(k, e) - 1
  {
    if a.Wrapping? {
      assert (k - e) % WRAP == if k >= e then k - e else k - e + WRAP;
      assert (j - e) % WRAP == if j >= e then j - e else j - e + WRAP;
      var n := a.Next(k);
      assert n == if k + 1 == WRAP then 0 else k + 1;
      assert (j - n) % WRAP == if j >= n then j - n else j - n + WRAP;
    }
  }

  ghost predicate IsFarthest(a: Arith, keys: set<int>, e: int, k: int) {
    k in keys && forall j :: j in keys ==> a.Dist(j, e) <= a.Dist(k, e)
  }

  /** `e1` is one past the frame of `buffered` farthest from `e`, or `e` itself when there is none. */
  ghost predicate PastAll(a: Arith, buffered: map<int, Frame>, e: int, e1: int) {
    && (buffered.Keys == {} ==> e1 == e)
    && (buffered.Keys != {} ==> exists k :: IsFarthest(a, buffered.Keys, e, k) && e1 == a.Next(k))
  }

  /** What the loop of a timed-out `expire` does to a state it can meet. */
  ghost predicate Flushed(a: Arith, o: Out, r: Out)
    requires o.st.expected.Some?
  {
    && r.st.buffered == map[]
    && r.st.expected.Some? && a.Number(r.st.expected.value)
    && PastAll(a, o.st.buffered, o.st.expected.value, r.st.expected.value)
    && r.st.waiting == (o.st.waiting || o.st.buffered.Keys != {})
    && r.st.gapSince == o.st.gapSince
    && r.res.ready == o.res.ready
    && r.res.dropped == o.res.dropped + a.Dist(r.st.expected.value, o.st.expected.value)
    && r.res.awaiting == o.res.awaiting + |o.st.buffered|
    && r.res.request == (o.res.request || o.st.buffered.Keys != {})
  }

  /** The nearest frame is skipped to and thrown away, because it is a delta and the chain is broken. */
  lemma SkipNearest(a: Arith, cfg: Config, o: Out, k: int)
    requires Midway(a, cfg, o.st)
    requires o.st.waiting || o.st.expected.value !in o.st.buffered
    requires IsNearest(a, o.st.buffered.Keys, o.st.expected.value, k)
    ensures var o1 := Consume(a, SkipTo(a, o, k), o.st.buffered[k]);
            && SkipTo(a, o, k).st.waiting
            && o1.st == o.st.(expected := Some(a.Next(k)), waiting := true, buffered := o.st.buffered - {k})
            && o1.res == o.res.(dropped := o.res.dropped + a.Dist(k, o.st.expected.value) + 1,
                                awaiting := o.res.awaiting + 1, request := true)
            && Midway(a, cfg, o1.st)
  {
    var e := o.st.expected.value;
    if a.Dist(k, e) <= 0 { DistZero(a, k, e); }
    ShrinkBuffer(a, cfg, o.st.buffered, {k});
    DistNextSelf(a, k, e);
    forall j | j in o.st.buffered && j != k ensures !a.Behind(j, a.Next(k)) {
      StepPast(a, k, j, e);
    }
  }

  /** Where the expected number ends up when the rest of the buffer is flushed after `k`. */
  lemma PastAllStep(a: Arith, buffered: map<int, Frame>, e: int, k: int, e1: int)
    requires Keyed(a, buffered) && a.Number(e) && Ahead(a, buffered, e)
    requires IsNearest(a, buffered.Keys, e, k)
    requires PastAll(a, buffered - {k}, a.Next(k), e1)
    ensures PastAll(a, buffered, e, e1) && a.Dist(e1, e) == a.Dist(e1, a.Next(k)) + a.Dist(k, e) + 1
  {
    var rest := buffered - {k};
    DistNextSelf(a, k, e);
    forall j | j in rest
      ensures !a.Behind(j, a.Next(k)) && a.Dist(j, a.Next(k)) == a.Dist(j, e) - a.Dist(k, e) - 1
    {
      StepPast(a, k, j, e);
    }
    if rest.Keys == {} {
      assert forall j :: j in buffered ==> j == k || j in rest.Keys;
      assert IsFarthest(a, buffered.Keys, e, k);
    } else {
      var m :| IsFarthest(a, rest.Keys, a.Next(k), m) && e1 == a.Next(m);
      assert forall j :: j in buffered ==> j == k || j in rest.Keys;
      assert IsFarthest(a, buffered.Keys, e, m);
      DistNextSelf(a, m, e);
      DistNextSelf(a, m, a.Next(k));
    }
  }

  /** Flushing the rest after the nearest frame has been thrown away flushes all. */
  lemma FlushAfter(a: Arith, cfg: Config, o: Out, k: int, o1: Out, r: Out)
    requires Midway(a, cfg, o.st) && IsNearest(a, o.st.buffered.Keys, o.st.expected.value, k)
    requires o1.st == o.st.(expected := Some(a.Next(k)), waiting := true, buffered := o.st.buffered - {k})
    requires o1.res == o.res.(dropped := o.res.dropped + a.Dist(k, o.st.expected.value) + 1,
                              awaiting := o.res.awaiting + 1, request := true)
    requires Flushed(a, o1, r)
    ensures Flushed(a, o, r)
  {
    PastAllStep(a, o.st.buffered, o.st.expected.value, k, r.st.expected.value);
    MapMinusSize(o.st.buffered, {k});
    assert |o.st.buffered.Keys| == |o.st.buffered.Keys - {k}| + 1;
  }

  lemma {:induction false} ExpireLoopFlushes(a: Arith, cfg: Config, o: Out, now: int)
    requires Midway(a, cfg, o.st)
    requires o.st.waiting || o.st.expected.value !in o.st.buffered
    ensures Flushed(a, o, ExpireLoop(a, o, now))
    decreases |o.st.buffered|
  {
    if o.st.buffered.Keys == {} {
      assert o.st.buffered == map[];
    } else {
      var k := Nearest(a, o.st.buffered.Keys, o.st.expected.value);
      SkipNearest(a, cfg, o, k);
      MapMinusSize(o.st.buffered, {k});
      var o1 := Consume(a, SkipTo(a, o, k), o.st.buffered[k]);
      ExpireLoopFlushes(a, cfg, o1, now);
      assert ExpireLoop(a, o, now) == ExpireLoop(a, o1, now);
      FlushAfter(a, cfg, o, k, o1, ExpireLoop(a, o1, now));
    }
  }

  /**
  A timed-out gap in a reachable synchronised state: the buffer is emptied, nothing is
  released, the expected number moves one past the farthest buffered frame, and the
  drop count is exactly the distance it moved.
  */
  lemma ExpiredGap(a: Arith, cfg: Config, s: State, now: int)
    requires Inv(a, cfg, s) && s.expected.Some?
    requires s.gapSince.Some? && now - s.gapSince.value >= cfg.gapTimeout
    ensures var r := Expire(a, cfg, s, now);
            && r.st.buffered == map[] && r.st.gapSince.None? && r.res.ready == []
            && r.st.expected.Some? && PastAll(a, s.buffered, s.expected.value, r.st.expected.value)
            && r.res.dropped == a.Dist(r.st.expected.value, s.expected.value)
            && r.res.awaiting == |s.buffered|
            && r.st.waiting == (s.waiting || |s.buffered| > 0)
            && r.res.request == (|s.buffered| > 0)
            && Inv(a, cfg, r.st)
  {
    ExpireLoopFlushes(a, cfg, Out(s, NOTHING), now);
    assert |s.buffered| == |s.buffered.Keys|;
    if s.buffered.Keys == {} {
      assert a.Dist(s.expected.value, s.expected.value) == 0;
    }
  }

  lemma ExpireKeeps(a: Arith, cfg: Config, s: State, now: int)
    requires Inv(a, cfg, s)
    ensures Inv(a, cfg, Expire(a, cfg, s, now).st)
  {
    if s.expected.None? {
      ShrinkBuffer(a, cfg, s.buffered, LateKeys(cfg, s.buffered, now));
    } else if s.gapSince.Some? && now - s.gapSince.value >= cfg.gapTimeout {
      ExpiredGap(a, cfg, s, now);
    }
  }

  lemma StepKeeps(a: Arith, cfg: Config, s: State, op: Op)
    requires Inv(a, cfg, s) && op.Valid(a)
    ensures Inv(a, cfg, Step(a, cfg, s, op).st)
  {
    match op
    case PushOp(f, now) => PushKeeps(a, cfg, s, f, now);
    case LostOp(n, now) => MarkLostKeeps(a, cfg, s, n, now);
    case ExpireOp(now) => ExpireKeeps(a, cfg, s, now);
  }
}

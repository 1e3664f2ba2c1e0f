/**
The frame sequencer of the browser client (flux-web/ui/lib/frame-sequencer.ts) as
functions on values.

Every function takes the arithmetic it runs on.  `Wrapping` is what the code does:
32-bit sequence numbers compared by wrapping distance.  `Unbounded` is the same
algorithm on mathematical frame indices that never wrap.
*/
module SequencerSpec {
  import opened Basics

  const WRAP: int := 0x1_0000_0000
  const HALF: int := 0x8000_0000
  const FARTHEST: int := 0xffff_ffff

  datatype Arith = Wrapping | Unbounded {

    /** `sequenceDistance`: how far `a` is ahead of `b`. */
    function Dist(a: int, b: int): int {
      if Wrapping? then (a - b) % WRAP else a - b
    }

    /** The test the code writes as `distance >= 0x80000000`. */
    predicate Behind(a: int, b: int) {
      if Wrapping? then Dist(a, b) >= HALF else a < b
    }

    function Next(a: int): int {
      if Wrapping? then (a + 1) % WRAP else a + 1
    }

    predicate Number(a: int) {
      Wrapping? ==> 0 <= a < WRAP
    }
  }

  datatype Frame = Frame(num: int, keyframe: bool, receivedAt: int, data: seq<Byte>)

  datatype Result = Result(ready: seq<Frame>, dropped: int, awaiting: int, request: bool)

  datatype Config = Config(gapTimeout: int, maxBuffered: int)

  datatype State = State(expected: Option<int>, waiting: bool, gapSince: Option<int>, buffered: map<int, Frame>)

  /** A sequencer state together with the result the current call has built so far. */
  datatype Out = Out(st: State, res: Result)

  const INIT: State := State(None, true, None, map[])
  const NOTHING: Result := Result([], 0, 0, false)

  /** Frames are stored under their own sequence number. */
  ghost predicate Keyed(a: Arith, buffered: map<int, Frame>) {
    forall k :: k in buffered ==> buffered[k].num == k && a.Number(k)
  }

  predicate Stale(a: Arith, k: int, num: int) {
    k == num || a.Behind(k, num)
  }

  function StaleKeys(a: Arith, buffered: map<int, Frame>, num: int): set<int> {
    set k | k in buffered && Stale(a, k, num)
  }

  function Consume(a: Arith, o: Out, f: Frame): Out {
    var next := Some(a.Next(f.num));
    if o.st.waiting && !f.keyframe then
      Out(o.st.(expected := next),
          o.res.(dropped := o.res.dropped + 1, awaiting := o.res.awaiting + 1, request := true))
    else
      Out(o.st.(expected := next, waiting := if f.keyframe then false else o.st.waiting),
          o.res.(ready := o.res.ready + [f]))
  }

  predicate ExpectedBuffered(s: State) {
    s.expected.Some? && s.expected.value in s.buffered
  }

  /** Take the expected frame out of the buffer and consume it. */
  function DrainStep(a: Arith, o: Out): Out
    requires ExpectedBuffered(o.st)
  {
    var e := o.st.expected.value;
    Consume(a, o.(st := o.st.(buffered := o.st.buffered - {e})), o.st.buffered[e])
  }

  /** Consume buffered frames for as long as the expected one is there. */
  function DrainLoop(a: Arith, o: Out): (r: Out)
    requires Keyed(a, o.st.buffered)
    ensures Keyed(a, r.st.buffered) && r.st.buffered.Keys <= o.st.buffered.Keys
    ensures r.st.expected.Some? <==> o.st.expected.Some?
    ensures |r.st.buffered| <= |o.st.buffered|
    decreases |o.st.buffered|
  {
    if ExpectedBuffered(o.st) then
      MapMinusSize(o.st.buffered, {o.st.expected.value});
      DrainLoop(a, DrainStep(a, o))
    else o
  }

  function SettleGap(o: Out, now: int): Out {
    o.(st := o.st.(gapSince :=
      if |o.st.buffered| == 0 then None
      else if o.st.gapSince.None? then Some(now)
      else o.st.gapSince))
  }

  function Drain(a: Arith, o: Out, now: int): Out
    requires Keyed(a, o.st.buffered)
  {
    SettleGap(DrainLoop(a, o), now)
  }

  /** A keyframe arrived: what it overtakes is dropped and the stream restarts at it. */
  function ResyncStart(a: Arith, s: State, f: Frame, skipped: int, awaiting: bool): Out {
    var stale := StaleKeys(a, s.buffered, f.num);
    Out(State(Some(f.num), false, None, s.buffered - stale),
        Result([], |stale| + skipped, if awaiting then |stale| else 0, false))
  }

  function Resync(a: Arith, s: State, f: Frame, now: int, skipped: int, awaiting: bool): Out
    requires Keyed(a, s.buffered)
  {
    Drain(a, Consume(a, ResyncStart(a, s, f, skipped, awaiting), f), now)
  }

  function Push(a: Arith, cfg: Config, s: State, f: Frame, now: int): Out
    requires Keyed(a, s.buffered)
  {
    if s.expected.None? then
      if f.keyframe then
        Resync(a, s, f, now, 0, true)
      else if |s.buffered| >= cfg.maxBuffered then
        Out(s, Result([], 1, 1, true))
      else
        Out(s.(buffered := s.buffered[f.num := f]), NOTHING)
    else
      var e := s.expected.value;
      if a.Behind(f.num, e) then
        Out(s, NOTHING.(dropped := 1))
      else if f.keyframe then
        Resync(a, s, f, now, a.Dist(f.num, e), false)
      else if a.Dist(f.num, e) > 0 then
        if |s.buffered| >= cfg.maxBuffered then
          Out(s, NOTHING.(dropped := 1, request := true))
        else
          Out(s.(buffered := s.buffered[f.num := f],
                 gapSince := if s.gapSince.None? then Some(now) else s.gapSince), NOTHING)
      else
        Drain(a, Consume(a, Out(s, NOTHING), f), now)
  }

  function MarkLost(a: Arith, s: State, num: int, now: int): Out
    requires Keyed(a, s.buffered)
  {
    if s.expected.None? then
      Out(s, NOTHING.(request := true))
    else
      var e := s.expected.value;
      if a.Behind(num, e) then
        Out(s, NOTHING)
      else if a.Dist(num, e) > 0 then
        Out(s.(gapSince := if s.gapSince.None? then Some(now) else s.gapSince), NOTHING)
      else
        Drain(a, Out(s.(expected := Some(a.Next(e)), waiting := true),
                     NOTHING.(dropped := 1, request := true)), now)
  }

  ghost predicate IsNearest(a: Arith, keys: set<int>, e: int, k: int) {
    k in keys && forall j :: j in keys ==> a.Dist(k, e) <= a.Dist(j, e)
  }

  lemma {:induction false} NearestExists(a: Arith, keys: set<int>, e: int)
    requires keys != {}
    ensures exists k :: IsNearest(a, keys, e, k)
    decreases keys
  {
    var k := Pick(keys);
    if keys == {k} {
      assert IsNearest(a, keys, e, k);
    } else {
      NearestExists(a, keys - {k}, e);
      var m :| IsNearest(a, keys - {k}, e, m);
      assert IsNearest(a, keys, e, if a.Dist(m, e) < a.Dist(k, e) then m else k);
    }
  }

  ghost function Nearest(a: Arith, keys: set<int>, e: int): (k: int)
    requires keys != {}
    ensures IsNearest(a, keys, e, k)
  {
    NearestExists(a, keys, e);
    var k :| IsNearest(a, keys, e, k);
    k
  }

  /** `nextBuffered`: its search starts from the sentinel 0xffffffff, so a frame that far away is not found. */
  ghost function NextBuffered(a: Arith, buffered: map<int, Frame>, e: int): (r: Option<int>)
    ensures r.Some? ==> r.value in buffered
  {
    if buffered.Keys == {} then None
    else
      var k := Nearest(a, buffered.Keys, e);
      if a.Wrapping? && a.Dist(k, e) >= FARTHEST then None else Some(k)
  }

  /** Give up on the gap in front of the nearest buffered frame and take that frame out. */
  function SkipTo(a: Arith, o: Out, k: int): Out
    requires o.st.expected.Some? && k in o.st.buffered
  {
    var e := o.st.expected.value;
    var d := a.Dist(k, e);
    var st := o.st.(buffered := o.st.buffered - {k});
    if !a.Behind(k, e) && d > 0 then
      Out(st.(expected := Some(k), waiting := true), o.res.(dropped := o.res.dropped + d, request := true))
    else
      Out(st, o.res)
  }

  ghost function ExpireLoop(a: Arith, o: Out, now: int): (r: Out)
    requires Keyed(a, o.st.buffered) && o.st.expected.Some?
    decreases |o.st.buffered|
  {
    var next := NextBuffered(a, o.st.buffered, o.st.expected.value);
    if next.None? then o
    else
      var f := o.st.buffered[next.value];
      var o1 := SkipTo(a, o, next.value);
      MapMinusSize(o.st.buffered, {next.value});
      if o1.st.waiting && !f.keyframe then
        ExpireLoop(a, Consume(a, o1, f), now)
      else
        ExpireLoop(a, Drain(a, Consume(a, o1, f), now), now)
  }

  predicate Late(cfg: Config, f: Frame, now: int) {
    now - f.receivedAt > cfg.gapTimeout
  }

  function LateKeys(cfg: Config, buffered: map<int, Frame>, now: int): set<int> {
    set k | k in buffered && Late(cfg, buffered[k], now)
  }

  ghost function Expire(a: Arith, cfg: Config, s: State, now: int): Out
    requires Keyed(a, s.buffered)
  {
    if s.expected.None? then
      var late := LateKeys(cfg, s.buffered, now);
      Out(s.(buffered := s.buffered - late), Result([], |late|, |late|, |late| > 0))
    else if s.gapSince.None? || now - s.gapSince.value < cfg.gapTimeout then
      Out(s, NOTHING)
    else
      var o := ExpireLoop(a, Out(s, NOTHING), now);
      Out(o.st.(gapSince := if |o.st.buffered| == 0 then None else Some(now)),
          o.res.(request := o.res.request || o.res.dropped != 0))
  }

  // ----- Whole runs

  datatype Op = PushOp(frame: Frame, now: int) | LostOp(num: int, now: int) | ExpireOp(now: int) {
    /** The sequence number the call carries is one the arithmetic has. */
    predicate Valid(a: Arith) {
      match this
      case PushOp(f, _) => a.Number(f.num)
      case LostOp(n, _) => a.Number(n)
      case ExpireOp(_) => true
    }
  }

  ghost function Step(a: Arith, cfg: Config, s: State, op: Op): Out
    requires Keyed(a, s.buffered)
  {
    match op
    case PushOp(f, now) => Push(a, cfg, s, f, now)
    case LostOp(n, now) => MarkLost(a, s, n, now)
    case ExpireOp(now) => Expire(a, cfg, s, now)
  }
}

/**
The browser's audio sink (flux-web/ui/public/audio-worklet.js): a stereo ring buffer between
decoded packets and the sound card, with a priming gate and a cap on latency.
*/
module AudioRing {
  import opened Basics

  const CAPACITY: nat := 48_000
  const PRIME: nat := 1_920
  const TARGET: nat := 2_880
  const HIGH_WATER: nat := 9_600

  /** A sample is passed on unchanged: its bit pattern, where silence is zero. */
  type Sample = int

  /** A left and a right sample. */
  datatype Pair = Pair(left: Sample, right: Sample)

  // ----- The sink as a sequence

  datatype Sink = Sink(buffered: seq<Pair>, priming: bool, underruns: nat, dropped: nat)

  /** What is buffered after a push: everything, or the newest 60 ms of it when that is over 200 ms. */
  function Pushed(c: seq<Pair>, samples: seq<Pair>): seq<Pair> {
    if |c + samples| > HIGH_WATER then Newest(c + samples, TARGET) else c + samples
  }

  function Push(s: Sink, samples: seq<Pair>): Sink {
    var held := Min(|s.buffered| + |samples|, CAPACITY - 1);
    s.(buffered := Pushed(s.buffered, samples), dropped := s.dropped + if held > HIGH_WATER then held - TARGET else 0)
  }

  /** How many samples the next quantum plays. */
  function Playable(s: Sink, frames: nat): nat {
    if s.priming && |s.buffered| < PRIME then 0 else Min(frames, |s.buffered|)
  }

  function Process(s: Sink, frames: nat): Sink {
    if s.priming && |s.buffered| < PRIME then s
    else if |s.buffered| < frames then Sink([], true, s.underruns + 1, s.dropped)
    else s.(buffered := s.buffered[frames..], priming := false)
  }

  // ----- Runs between resets

  datatype Op = Feed(samples: seq<Pair>) | Quantum(frames: nat)

  datatype Trace = Trace(sink: Sink, fed: seq<Pair>, played: nat, overrun: nat)

  /** Samples lost because one push was larger than the ring. */
  function Overrun(s: Sink, samples: seq<Pair>): nat {
    Max(0, |s.buffered| + |samples| - (CAPACITY - 1))
  }

  function Step(t: Trace, op: Op): Trace {
    match op
    case Feed(samples) =>
      Trace(Push(t.sink, samples), t.fed + samples, t.played, t.overrun + Overrun(t.sink, samples))
    case Quantum(frames) =>
      Trace(Process(t.sink, frames), t.fed, t.played + Playable(t.sink, frames), t.overrun)
  }

  function Run(t: Trace, ops: seq<Op>): Trace {
    if ops == [] then t else Step(Run(t, ops[..|ops| - 1]), ops[|ops| - 1])
  }

  function Start(s: Sink): Trace { Trace(s.(buffered := [], priming := true, dropped := 0), [], 0, 0) }

  /** The buffer always holds the newest samples, never more than 200 ms of them, and every sample is accounted for. */
  ghost predicate Inv(t: Trace) {
    && |t.sink.buffered| <= Min(HIGH_WATER, |t.fed|)
    && t.sink.buffered == t.fed[|t.fed| - |t.sink.buffered|..]
    && |t.fed| == t.played + t.sink.dropped + t.overrun + |t.sink.buffered|
  }

  lemma FeedKeeps(t: Trace, samples: seq<Pair>)
    requires Inv(t)
    ensures Inv(Step(t, Feed(samples)))
  {
    var c, fed := t.sink.buffered, t.fed + samples;
    assert c + samples == fed[|fed| - |c + samples|..];
    var now := Pushed(c, samples);
    assert now == fed[|fed| - |now|..];
  }

  lemma QuantumKeeps(t: Trace, frames: nat)
    requires Inv(t)
    ensures Inv(Step(t, Quantum(frames)))
  {
    var c, now := t.sink.buffered, Process(t.sink, frames).buffered;
    assert now == t.fed[|t.fed| - |now|..];
  }

  lemma {:induction false} RunKeeps(s: Sink, ops: seq<Op>)
    ensures Inv(Run(Start(s), ops))
  {
    if ops == [] {
    } else {
      RunKeeps(s, ops[..|ops| - 1]);
      var t := Run(Start(s), ops[..|ops| - 1]);
      match ops[|ops| - 1] {
        case Feed(samples) => FeedKeeps(t, samples);
        case Quantum(frames) => QuantumKeeps(t, frames);
      }
    }
  }

  /** What a quantum plays is the oldest buffered samples: the ones that follow everything played or dropped before. */
  lemma PlaysInOrder(s: Sink, ops: seq<Op>, frames: nat)
    ensures var t := Run(Start(s), ops);
            var from := t.played + t.sink.dropped + t.overrun;
            var k := Playable(t.sink, frames);
            && k <= |t.sink.buffered| && from + k <= |t.fed|
            && t.sink.buffered[..k] == t.fed[from..from + k]
            && Process(t.sink, frames).buffered == t.sink.buffered[k..]
  {
    RunKeeps(s, ops);
    var t := Run(Start(s), ops);
    var from := t.played + t.sink.dropped + t.overrun;
    var k := Playable(t.sink, frames);
    assert t.fed[from..][..k] == t.fed[from..from + k];
  }

  /** No push is larger than what always fits. */
  predicate Modest(ops: seq<Op>) {
    forall i :: 0 <= i < |ops| && ops[i].Feed? ==> |ops[i].samples| <= CAPACITY - 1 - HIGH_WATER
  }

  /** Conservation: with pushes of at most CAPACITY - 1 - HIGH_WATER samples, the counters account for every sample. */
  lemma {:induction false} Conservation(s: Sink, ops: seq<Op>)
    requires Modest(ops)
    ensures var t := Run(Start(s), ops);
            t.overrun == 0 && |t.fed| == t.played + t.sink.dropped + |t.sink.buffered|
  {
    RunKeeps(s, ops);
    if ops == [] {
    } else {
      Conservation(s, ops[..|ops| - 1]);
      RunKeeps(s, ops[..|ops| - 1]);
    }
  }

  /** One push is fully accounted for exactly when the ring could hold it. */
  lemma DroppedIsExact(s: Sink, samples: seq<Pair>)
    ensures |s.buffered| + |samples| == (Push(s, samples).dropped - s.dropped) + |Push(s, samples).buffered| <==>
            |s.buffered| + |samples| <= CAPACITY - 1
  {
  }

  /** It is not for a push larger than the ring: of 48,000 samples one is overwritten and never counted. */
  lemma OverwrittenIsNotCounted(s: Sink, samples: seq<Pair>)
    requires |samples| == CAPACITY
    ensures var t := Run(Start(s), [Feed(samples)]);
            && t.played == 0 && |t.sink.buffered| == TARGET
            && t.sink.dropped + |t.sink.buffered| == |t.fed| - 1
  {
    assert [Feed(samples)][..0] == [];
    assert [] + samples == samples;
  }

  // ----- When sound is heard

  /** Up to 200 ms everything pushed is kept; beyond that the newest 60 ms are. */
  lemma PushKeepsUpToHighWater(s: Sink, samples: seq<Pair>)
    ensures var all, after := s.buffered + samples, Push(s, samples);
            if |all| <= 9_600 then after == s.(buffered := all)
            else |after.buffered| == 2_880 && after.buffered == all[|all| - 2_880..] && after.dropped > s.dropped
  {
  }

  /**
  Nothing is heard before 40 ms are buffered.  From then on every quantum is played in full for as
  long as there is enough, and only a quantum that runs short is an underrun and starts over.
  */
  lemma QuantumPlays(s: Sink, frames: nat)
    ensures var k, after := Playable(s, frames), Process(s, frames);
            if s.priming && |s.buffered| < 1_920 then k == 0 && after == s
            else if frames <= |s.buffered| then
              k == frames && !after.priming && after.underruns == s.underruns && after.dropped == s.dropped
            else
              k == |s.buffered| && after == Sink([], true, s.underruns + 1, s.dropped)
  {
  }

  /** A sink that is playing goes on without a gap through any quanta that together need no more than it holds. */
  lemma {:induction false} PlaysOn(s: Sink, quanta: seq<nat>)
    requires !s.priming && Total(quanta) <= |s.buffered|
    ensures var t := Run(Trace(s, s.buffered, 0, 0), Quanta(quanta));
            && !t.sink.priming && t.sink.underruns == s.underruns
            && t.played == Total(quanta) && t.sink.buffered == s.buffered[Total(quanta)..]
  {
    if quanta == [] {
    } else {
      var last := |quanta| - 1;
      PlaysOn(s, quanta[..last]);
      assert Quanta(quanta)[..last] == Quanta(quanta[..last]);
      assert s.buffered[Total(quanta[..last])..][quanta[last]..] == s.buffered[Total(quanta)..];
    }
  }

  function Total(quanta: seq<nat>): nat {
    if quanta == [] then 0 else Total(quanta[..|quanta| - 1]) + quanta[|quanta| - 1]
  }

  function Quanta(quanta: seq<nat>): (ops: seq<Op>)
    ensures |ops| == |quanta|
  {
    seq(|quanta|, i requires 0 <= i < |quanta| => Quantum(quanta[i]))
  }
}

/** `FrameSequencer` as the client runs it: fields updated in place, maps walked in loops. */
module Sequencer {
  import opened Basics
  import opened SequencerSpec
  import opened SequencerSafety

  /** `sequenceDistance`: unsigned 32-bit subtraction. */
  function SequenceDistance(num: int, expected: int): (d: int)
    ensures 0 <= d < WRAP && (expected + d - num) % WRAP == 0
  {
    Wrapping.Dist(num, expected)
  }

  lemma NearestUnique(keys: set<int>, e: int, j: int, k: int)
    requires forall n :: n in keys ==> 0 <= n < WRAP
    requires 0 <= e < WRAP && IsNearest(Wrapping, keys, e, j) && IsNearest(Wrapping, keys, e, k)
    ensures j == k
  {
    assert (j - e) % WRAP == if j >= e then j - e else j - e + WRAP;
    assert (k - e) % WRAP == if k >= e then k - e else k - e + WRAP;
  }

  class FrameSequencer {
    var expected: Option<int>
    var waitingForKeyframe: bool
    var gapSince: Option<int>
    var buffered: map<int, Frame>
    const gapTimeoutMs: int
    const maxBufferedFrames: int

    constructor (gapTimeoutMs: int, maxBufferedFrames: int)
      ensures Valid() && Abs() == INIT
      ensures Cfg() == Config(gapTimeoutMs, maxBufferedFrames)
    {
      this.gapTimeoutMs, this.maxBufferedFrames := gapTimeoutMs, maxBufferedFrames;
      expected, waitingForKeyframe, gapSince, buffered := None, true, None, map[];
    }

    function Cfg(): Config { Config(gapTimeoutMs, maxBufferedFrames) }

    ghost function Abs(): State
      reads this
    {
      State(expected, waitingForKeyframe, gapSince, buffered)
    }

    ghost predicate Valid()
      reads this
    {
      Inv(Wrapping, Cfg(), Abs())
    }

    method Push(frame: Frame, now: int) returns (result: Result)
      requires Valid() && Wrapping.Number(frame.num)
      modifies this
      ensures Valid()
      ensures Out(Abs(), result) == SequencerSpec.Push(Wrapping, Cfg(), old(Abs()), frame, now)
    {
      PushKeeps(Wrapping, Cfg(), Abs(), frame, now);
      result := NOTHING;
      if expected.None? {
        if !frame.keyframe {
          if |buffered| >= maxBufferedFrames {
            result := result.(dropped := 1, awaiting := 1, request := true);
          } else {
            buffered := buffered[frame.num := frame];
          }
          return;
        }
        result := RestartAt(frame, now, 0, true);
        return;
      }
      var distance := SequenceDistance(frame.num, expected.value);
      if distance >= HALF {
        result := result.(dropped := 1);
        return;
      }
      if frame.keyframe {
        result := RestartAt(frame, now, distance, false);
        return;
      }
      if distance > 0 {
        if |buffered| >= maxBufferedFrames {
          result := result.(dropped := 1, request := true);
          return;
        }
        buffered := buffered[frame.num := frame];
        if gapSince.None? { gapSince := Some(now); }
        return;
      }
      result := ConsumeFrame(frame, result);
      result := DrainBuffered(result, now);
    }

    /** The keyframe branches of `push`: drop what the keyframe overtakes and restart the stream at it. */
    method RestartAt(frame: Frame, now: int, skipped: int, awaiting: bool) returns (result: Result)
      requires Keyed(Wrapping, buffered) && Wrapping.Number(frame.num) && frame.keyframe
      modifies this
      ensures Out(Abs(), result) == Resync(Wrapping, old(Abs()), frame, now, skipped, awaiting)
    {
      ghost var before := Abs();
      var gone := DropStale(frame.num);
      result := Result([], gone + skipped, if awaiting then gone else 0, false);
      expected, gapSince, waitingForKeyframe := Some(frame.num), None, false;
      assert Out(Abs(), result) == ResyncStart(Wrapping, before, frame, skipped, awaiting);
      result := ConsumeFrame(frame, result);
      result := DrainBuffered(result, now);
    }

    method MarkLost(num: int, now: int) returns (result: Result)
      requires Valid() && Wrapping.Number(num)
      modifies this
      ensures Valid()
      ensures Out(Abs(), result) == SequencerSpec.MarkLost(Wrapping, old(Abs()), num, now)
    {
      MarkLostKeeps(Wrapping, Cfg(), Abs(), num, now);
      result := NOTHING;
      if expected.None? {
        result := result.(request := true);
        return;
      }
      var distance := SequenceDistance(num, expected.value);
      if distance >= HALF { return; }
      if distance > 0 {
        if gapSince.None? { gapSince := Some(now); }
        return;
      }
      expected := Some((expected.value + 1) % WRAP);
      result := result.(dropped := 1, request := true);
      waitingForKeyframe := true;
      result := DrainBuffered(result, now);
    }

    method Expire(now: int) returns (result: Result)
      requires Valid()
      modifies this
      ensures Valid()
      ensures Out(Abs(), result) == SequencerSpec.Expire(Wrapping, Cfg(), old(Abs()), now)
    {
      ExpireKeeps(Wrapping, Cfg(), Abs(), now);
      result := NOTHING;
      if expected.None? {
        result := DropLate(now);
        return;
      }
      if gapSince.None? || now - gapSince.value < gapTimeoutMs { return; }
      result := ExpireGap(now);
      gapSince := if |buffered| > 0 then Some(now) else None;
      if result.dropped != 0 { result := result.(request := true); }
    }

    /** The loop of `expire`: skip to the nearest buffered frame until none is left. */
    method ExpireGap(now: int) returns (result: Result)
      requires Valid() && expected.Some?
      modifies this
      ensures Out(Abs(), result) == ExpireLoop(Wrapping, Out(old(Abs()), NOTHING), now)
    {
      result := NOTHING;
      ghost var goal := ExpireLoop(Wrapping, Out(Abs(), NOTHING), now);
      while |buffered| > 0
        invariant Keyed(Wrapping, buffered) && expected.Some? && Wrapping.Number(expected.value)
        invariant ExpireLoop(Wrapping, Out(Abs(), result), now) == goal
        decreases |buffered|
      {
        var next := FindNext();
        if next.None? { break; }
        result := ExpireNext(next.value, result, now);
      }
      assert |buffered| == 0 ==> |buffered.Keys| == 0;
    }

    /** One round of that loop. */
    method ExpireNext(next: int, r: Result, now: int) returns (result: Result)
      requires Keyed(Wrapping, buffered) && expected.Some? && Wrapping.Number(expected.value)
      requires NextBuffered(Wrapping, buffered, expected.value) == Some(next)
      modifies this
      ensures Keyed(Wrapping, buffered) && expected.Some? && Wrapping.Number(expected.value)
      ensures |buffered| < old(|buffered|)
      ensures ExpireLoop(Wrapping, Out(Abs(), result), now) == ExpireLoop(Wrapping, Out(old(Abs()), r), now)
    {
      result := r;
      ghost var before := Out(Abs(), r);
      var frame := buffered[next];
      MapMinusSize(buffered, {next});
      var distance := SequenceDistance(frame.num, expected.value);
      if distance < HALF && distance > 0 {
        result := result.(dropped := result.dropped + distance, request := true);
        expected, waitingForKeyframe := Some(frame.num), true;
      }
      buffered := buffered - {next};
      assert Out(Abs(), result) == SkipTo(Wrapping, before, next);
      if waitingForKeyframe && !frame.keyframe {
        result := result.(dropped := result.dropped + 1, awaiting := result.awaiting + 1, request := true);
        expected := Some((frame.num + 1) % WRAP);
        assert Out(Abs(), result) == Consume(Wrapping, SkipTo(Wrapping, before, next), frame);
        return;
      }
      result := ConsumeFrame(frame, result);
      result := DrainBuffered(result, now);
    }

    method ConsumeFrame(frame: Frame, r: Result) returns (result: Result)
      requires Wrapping.Number(frame.num)
      modifies this
      ensures Out(Abs(), result) == Consume(Wrapping, Out(old(Abs()), r), frame)
    {
      result := r;
      if waitingForKeyframe && !frame.keyframe {
        result := result.(dropped := result.dropped + 1, awaiting := result.awaiting + 1, request := true);
      } else {
        if frame.keyframe { waitingForKeyframe := false; }
        result := result.(ready := result.ready + [frame]);
      }
      expected := Some((frame.num + 1) % WRAP);
    }

    /** One turn of the drain loop. */
    method DrainNext(r: Result) returns (result: Result)
      requires Keyed(Wrapping, buffered) && expected.Some? && Wrapping.Number(expected.value)
      requires expected.value in buffered
      modifies this
      ensures Out(Abs(), result) == DrainStep(Wrapping, Out(old(Abs()), r))
      ensures expected.Some? && Wrapping.Number(expected.value)
      ensures Keyed(Wrapping, buffered) && |buffered| < old(|buffered|)
    {
      var next := buffered[expected.value];
      MapMinusSize(buffered, {expected.value});
      buffered := buffered - {expected.value};
      result := ConsumeFrame(next, r);
    }

    method DrainBuffered(r: Result, now: int) returns (result: Result)
      requires Keyed(Wrapping, buffered) && expected.Some? && Wrapping.Number(expected.value)
      modifies this
      ensures Out(Abs(), result) == Drain(Wrapping, Out(old(Abs()), r), now)
      ensures expected.Some? && Wrapping.Number(expected.value)
      ensures Keyed(Wrapping, buffered) && |buffered| <= old(|buffered|)
    {
      result := r;
      ghost var goal := DrainLoop(Wrapping, Out(Abs(), r));
      ghost var size := |buffered|;
      while expected.value in buffered
        invariant Keyed(Wrapping, buffered) && expected.Some? && Wrapping.Number(expected.value)
        invariant |buffered| <= size
        invariant DrainLoop(Wrapping, Out(Abs(), result)) == goal
        decreases |buffered|
      {
        ghost var after := DrainStep(Wrapping, Out(Abs(), result));
        assert DrainLoop(Wrapping, after) == goal;
        result := DrainNext(result);
      }
      gapSince := if |buffered| > 0 then (if gapSince.Some? then gapSince else Some(now)) else None;
    }

    /** `nextBuffered`: a scan for the smallest wrapping distance. */
    method FindNext() returns (next: Option<int>)
      requires Keyed(Wrapping, buffered) && expected.Some? && Wrapping.Number(expected.value)
      ensures next == NextBuffered(Wrapping, buffered, expected.value)
    {
      var e := expected.value;
      var nearest := FARTHEST;
      next := None;
      var unseen := buffered.Keys;
      while unseen != {}
        invariant unseen <= buffered.Keys && nearest <= FARTHEST
        invariant next.None? ==> nearest == FARTHEST
        invariant next.Some? ==> next.value in buffered && nearest == Wrapping.Dist(next.value, e) < FARTHEST
        invariant forall k :: k in buffered && k !in unseen ==> nearest <= Wrapping.Dist(k, e)
        decreases unseen
      {
        ghost var some := Pick(unseen);
        var k :| k in unseen;
        unseen := unseen - {k};
        var distance := SequenceDistance(k, e);
        if distance < nearest {
          nearest, next := distance, Some(k);
        }
      }
      if next.Some? {
        assert IsNearest(Wrapping, buffered.Keys, e, next.value);
        NearestUnique(buffered.Keys, e, next.value, Nearest(Wrapping, buffered.Keys, e));
      }
    }

    /** Delete the buffered frames that a keyframe overtakes and count them. */
    method DropStale(num: int) returns (gone: int)
      modifies this`buffered
      ensures buffered == old(buffered) - StaleKeys(Wrapping, old(buffered), num)
      ensures gone == |StaleKeys(Wrapping, old(buffered), num)|
    {
      gone := 0;
      ghost var before := buffered;
      var unseen := buffered.Keys;
      ghost var dropped: set<int> := {};
      while unseen != {}
        invariant unseen <= before.Keys && dropped <= before.Keys && dropped !! unseen
        invariant buffered == before - dropped && gone == |dropped|
        invariant forall k :: k in before && k !in unseen ==> (k in dropped <==> Stale(Wrapping, k, num))
        decreases unseen
      {
        ghost var some := Pick(unseen);
        var k :| k in unseen;
        unseen := unseen - {k};
        if k == num || SequenceDistance(k, num) >= HALF {
          buffered := buffered - {k};
          dropped := dropped + {k};
          gone := gone + 1;
        }
      }
      assert dropped == StaleKeys(Wrapping, before, num);
    }

    /** Before the first keyframe: delete the frames that have waited too long. */
    method DropLate(now: int) returns (result: Result)
      modifies this`buffered
      ensures buffered == old(buffered) - LateKeys(Cfg(), old(buffered), now)
      ensures var n := |LateKeys(Cfg(), old(buffered), now)|; result == Result([], n, n, n > 0)
    {
      result := NOTHING;
      ghost var before := buffered;
      var unseen := buffered.Keys;
      ghost var dropped: set<int> := {};
      while unseen != {}
        invariant unseen <= before.Keys && dropped <= before.Keys && dropped !! unseen
        invariant buffered == before - dropped && result == Result([], |dropped|, |dropped|, |dropped| > 0)
        invariant forall k :: k in before && k !in unseen ==> (k in dropped <==> Late(Cfg(), before[k], now))
        decreases unseen
      {
        ghost var some := Pick(unseen);
        var k :| k in unseen;
        unseen := unseen - {k};
        assert buffered[k] == before[k];
        if now - buffered[k].receivedAt > gapTimeoutMs {
          buffered := buffered - {k};
          dropped := dropped + {k};
          result := result.(dropped := result.dropped + 1, awaiting := result.awaiting + 1, request := true);
        }
      }
      forall k | k in before ensures k in dropped <==> k in LateKeys(Cfg(), before, now) {
        assert k !in unseen;
      }
      assert dropped == LateKeys(Cfg(), before, now);
    }
  }
}

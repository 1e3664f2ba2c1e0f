/**
The audio framer (flux/crates/flux-audio/src/framer.rs): cuts capture buffers of any size into
frames of one exact size, each stamped with the time of its first sample.  Times are seconds.
*/
module AudioFramer {
  import opened Basics

  /** One interleaved sample and the capture time it stands for. */
  datatype Stamped = Stamped(value: real, time: real)

  datatype AudioSamples = AudioSamples(data: seq<real>, sampleRate: nat, channels: nat, num: nat, timestamp: real)

  function DurationOfSamples(frames: nat, sampleRate: nat): real {
    frames as real / Max(sampleRate, 1) as real
  }

  /** The capture time of the sample at an offset into a buffer. */
  function TimeAt(timestamp: real, offset: nat, channels: nat, sampleRate: nat): real
    requires channels > 0
  {
    timestamp + DurationOfSamples(offset / channels, sampleRate)
  }

  ghost function Stamp(data: seq<real>, timestamp: real, channels: nat, sampleRate: nat): (s: seq<Stamped>)
    requires channels > 0
    ensures |s| == |data|
    ensures forall i :: 0 <= i < |s| ==> s[i] == Stamped(data[i], TimeAt(timestamp, i, channels, sampleRate))
  {
    seq(|data|, i requires 0 <= i < |data| => Stamped(data[i], TimeAt(timestamp, i, channels, sampleRate)))
  }

  ghost function Values(s: seq<Stamped>): (v: seq<real>)
    ensures |v| == |s| && forall i :: 0 <= i < |s| ==> v[i] == s[i].value
  {
    seq(|s|, i requires 0 <= i < |s| => s[i].value)
  }

  // ----- Cutting a stream

  ghost function Chunks<T>(s: seq<T>, len: nat): seq<seq<T>>
    requires len > 0
  {
    if |s| < len then [] else [s[..len]] + Chunks(s[len..], len)
  }

  ghost function Rest<T>(s: seq<T>, len: nat): seq<T>
    requires len > 0
  {
    if |s| < len then s else Rest(s[len..], len)
  }

  lemma {:induction false} FlattenFirst<T>(first: seq<T>, rows: seq<seq<T>>)
    ensures Flatten([first] + rows) == first + Flatten(rows)
  {
    if rows == [] {
      assert ([first] + rows)[..0] == [];
    } else {
      FlattenFirst(first, rows[..|rows| - 1]);
      assert ([first] + rows)[..|rows|] == [first] + rows[..|rows| - 1];
    }
  }

  /** Nothing is lost, added or reordered. */
  lemma {:induction false} CutLosesNothing<T>(s: seq<T>, len: nat)
    requires len > 0
    ensures Flatten(Chunks(s, len)) + Rest(s, len) == s
  {
    if |s| < len {
    } else {
      CutLosesNothing(s[len..], len);
      GlueFirst(s, len, Chunks(s[len..], len), Rest(s[len..], len));
    }
  }

  lemma GlueFirst<T>(s: seq<T>, len: nat, chunks: seq<seq<T>>, rest: seq<T>)
    requires len <= |s| && Flatten(chunks) + rest == s[len..]
    ensures Flatten([s[..len]] + chunks) + rest == s
  {
    FlattenFirst(s[..len], chunks);
    assert s[..len] + (Flatten(chunks) + rest) == s;
  }

  /** Frames are exact, and the rest is too short for one. */
  lemma {:induction false} CutIsExact<T>(s: seq<T>, len: nat)
    requires len > 0
    ensures AllLength(Chunks(s, len), len) && |Rest(s, len)| < len
  {
    if |s| < len {
    } else {
      CutIsExact(s[len..], len);
    }
  }

  /** Cutting what arrived first, and then the rest of it together with what came later, cuts the whole. */
  lemma {:induction false} CutInParts<T>(a: seq<T>, b: seq<T>, len: nat)
    requires len > 0
    ensures Chunks(a + b, len) == Chunks(a, len) + Chunks(Rest(a, len) + b, len)
    ensures Rest(a + b, len) == Rest(Rest(a, len) + b, len)
  {
    if |a| < len {
    } else {
      CutInParts(a[len..], b, len);
      assert (a + b)[..len] == a[..len] && (a + b)[len..] == a[len..] + b;
    }
  }

  /** The frames that a sequence of pushes emits, and what stays pending. */
  ghost function Fed<T>(pushes: seq<seq<T>>, len: nat): (seq<seq<T>>, seq<T>)
    requires len > 0
  {
    if pushes == [] then ([], [])
    else
      var (frames, pending) := Fed(pushes[..|pushes| - 1], len);
      var more := pending + pushes[|pushes| - 1];
      (frames + Chunks(more, len), Rest(more, len))
  }

  /**
  Over any run the frames are those of the whole stream cut at once: how it was split into
  pushes does not matter.
  */
  lemma {:induction false} SplitDoesNotMatter<T>(pushes: seq<seq<T>>, len: nat)
    requires len > 0
    ensures Fed(pushes, len) == (Chunks(Flatten(pushes), len), Rest(Flatten(pushes), len))
  {
    if pushes == [] {
    } else {
      SplitDoesNotMatter(pushes[..|pushes| - 1], len);
      CutInParts(Flatten(pushes[..|pushes| - 1]), pushes[|pushes| - 1], len);
    }
  }

  // ----- The framer

  /** The frame made of these samples. */
  ghost function FrameOf(chunk: seq<Stamped>, sampleRate: nat, channels: nat, num: nat): AudioSamples
    requires chunk != []
  {
    AudioSamples(Values(chunk), sampleRate, channels, num, chunk[0].time)
  }

  /** The frames emitted are these chunks, numbered on from a count. */
  ghost predicate AreFrames(frames: seq<AudioSamples>, chunks: seq<seq<Stamped>>, sampleRate: nat, channels: nat,
                            count: nat) {
    && |frames| == |chunks|
    && forall k :: 0 <= k < |frames| ==>
                     chunks[k] != [] && frames[k] == FrameOf(chunks[k], sampleRate, channels, count + k + 1)
  }

  lemma FramesMore(frames: seq<AudioSamples>, chunks: seq<seq<Stamped>>, frame: AudioSamples, chunk: seq<Stamped>,
                   sampleRate: nat, channels: nat, count: nat)
    requires AreFrames(frames, chunks, sampleRate, channels, count)
    requires chunk != [] && frame == FrameOf(chunk, sampleRate, channels, count + |frames| + 1)
    ensures AreFrames(frames + [frame], chunks + [chunk], sampleRate, channels, count)
  {
  }

  /** What the pending fields say about the samples they stand for. */
  ghost predicate Pending(pending: seq<real>, start: Option<real>, samples: seq<Stamped>) {
    && pending == Values(samples)
    && start == if samples == [] then None else Some(samples[0].time)
  }

  class Framer {
    const frameSamples: nat
    const channels: nat
    const sampleRate: nat
    var pending: seq<real>
    var pendingStart: Option<real>
    var num: nat
    /** Every sample pushed so far. */
    ghost var fed: seq<Stamped>

    ghost function FrameLen(): nat { frameSamples * channels }

    ghost predicate Valid()
      reads this
    {
      && channels > 0 && FrameLen() > 0
      && Pending(pending, pendingStart, Rest(fed, FrameLen()))
      && num == |Chunks(fed, FrameLen())|
    }

    constructor (frameSamples: nat, channels: nat, sampleRate: nat)
      requires frameSamples > 0 && channels > 0
      ensures Valid() && fed == []
      ensures this.frameSamples == frameSamples && this.channels == channels && this.sampleRate == sampleRate
    {
      this.frameSamples, this.channels, this.sampleRate := frameSamples, channels, sampleRate;
      pending, pendingStart, num, fed := [], None, 0, [];
      new;
      MulMono(1, frameSamples, channels);
    }

    /** Emits the chunks that complete with this buffer, and holds back the rest. */
    method Push(samples: AudioSamples) returns (out: seq<AudioSamples>)
      requires Valid()
      modifies this
      ensures Valid() && fed == old(fed) + Stamp(samples.data, samples.timestamp, channels, sampleRate)
      ensures var input := Stamp(samples.data, samples.timestamp, channels, sampleRate);
              AreFrames(out, Chunks(Rest(old(fed), FrameLen()) + input, FrameLen()), sampleRate, channels, old(num))
    {
      ghost var input := Stamp(samples.data, samples.timestamp, channels, sampleRate);
      ghost var held := Rest(fed, FrameLen());
      CutInParts(fed, input, FrameLen());
      CutIsExact(fed, FrameLen());
      var frameLen := frameSamples * channels;
      var offset;
      out, offset, pending, pendingStart, held := Fill(samples, frameLen, pending, pendingStart, held);
      if offset < |samples.data| {
        Leftover(held, pending, pendingStart, samples, offset);
        if |pending| == 0 {
          pendingStart := Some(TimeAt(samples.timestamp, offset, channels, sampleRate));
        }
        pending := pending + samples.data[offset..];
      }
      fed := fed + input;
      num := num + |out|;
    }

    /** The loop of `push`: completes frames while the samples last. */
    method Fill(samples: AudioSamples, frameLen: nat, pending0: seq<real>, start0: Option<real>,
                ghost held0: seq<Stamped>)
      returns (out: seq<AudioSamples>, offset: nat, pending1: seq<real>, start1: Option<real>, ghost held: seq<Stamped>)
      requires channels > 0 && 0 < frameLen && |held0| < frameLen && Pending(pending0, start0, held0)
      ensures offset <= |samples.data| && Pending(pending1, start1, held)
      ensures var input := Stamp(samples.data, samples.timestamp, channels, sampleRate);
              && AreFrames(out, Chunks(held0 + input, frameLen), sampleRate, channels, num)
              && held + input[offset..] == Rest(held0 + input, frameLen)
    {
      ghost var input := Stamp(samples.data, samples.timestamp, channels, sampleRate);
      ghost var made: seq<seq<Stamped>> := [];
      out, offset, pending1, start1, held := [], 0, pending0, start0, held0;
      ghost var goal, rest := Chunks(held0 + input, frameLen), Rest(held0 + input, frameLen);
      assert input[0..] == input;
      while |pending1| + (|samples.data| - offset) >= frameLen
        invariant offset <= |samples.data| && |held| < frameLen && Pending(pending1, start1, held)
        invariant goal == made + Chunks(held + input[offset..], frameLen)
        invariant rest == Rest(held + input[offset..], frameLen)
        invariant AreFrames(out, made, sampleRate, channels, num)
        decreases |pending1| + |samples.data| - offset
      {
        var start := if start1.Some? then start1.value else TimeAt(samples.timestamp, offset, channels, sampleRate);
        var take := frameLen - |pending1|;
        var data := pending1 + samples.data[offset..offset + take];
        ghost var chunk := held + input[offset..offset + take];
        OneChunk(held, input, offset, frameLen);
        var frame := AudioSamples(data, sampleRate, channels, num + |out| + 1, start);
        Completes(held, pending1, start1, samples, offset, take, num + |out| + 1);
        FramesMore(out, made, frame, chunk, sampleRate, channels, num);
        offset := offset + take;
        pending1, start1, held := [], None, [];
        out := out + [frame];
        made := made + [chunk];
      }
    }

    /** The samples held and those taken make the frame. */
    lemma Completes(held: seq<Stamped>, pending0: seq<real>, start0: Option<real>, samples: AudioSamples,
                    offset: nat, take: nat, n: nat)
      requires channels > 0 && Pending(pending0, start0, held) && 0 < take && offset + take <= |samples.data|
      ensures var chunk := held + Stamp(samples.data, samples.timestamp, channels, sampleRate)[offset..offset + take];
              FrameOf(chunk, sampleRate, channels, n) ==
              AudioSamples(pending0 + samples.data[offset..offset + take], sampleRate, channels, n,
                           if start0.Some? then start0.value
                           else TimeAt(samples.timestamp, offset, channels, sampleRate))
    {
      var chunk := held + Stamp(samples.data, samples.timestamp, channels, sampleRate)[offset..offset + take];
      assert Values(chunk) == pending0 + samples.data[offset..offset + take];
    }

    lemma Leftover(held: seq<Stamped>, pending0: seq<real>, start0: Option<real>, samples: AudioSamples, offset: nat)
      requires channels > 0 && Pending(pending0, start0, held) && offset < |samples.data|
      ensures Pending(pending0 + samples.data[offset..],
                      if |pending0| == 0 then Some(TimeAt(samples.timestamp, offset, channels, sampleRate)) else start0,
                      held + Stamp(samples.data, samples.timestamp, channels, sampleRate)[offset..])
    {
      var input := Stamp(samples.data, samples.timestamp, channels, sampleRate);
      assert Values(held + input[offset..]) == pending0 + samples.data[offset..];
    }
  }

  /** The next chunk is what is held and as much of the input as completes it. */
  lemma OneChunk<T>(held: seq<T>, input: seq<T>, offset: nat, len: nat)
    requires |held| < len && offset <= |input| && |held| + |input| - offset >= len
    ensures var next := offset + len - |held|;
            && Chunks(held + input[offset..], len) == [held + input[offset..next]] + Chunks([] + input[next..], len)
            && Rest(held + input[offset..], len) == Rest([] + input[next..], len)
  {
    var next := offset + len - |held|;
    var s := held + input[offset..];
    assert s[..len] == held + input[offset..next];
    assert s[len..] == [] + input[next..];
  }

  // ----- Times

  /** Samples of one instant share a time, and one instant lasts the inverse of the sample rate. */
  lemma TimesAreEven(timestamp: real, offset: nat, channels: nat, sampleRate: nat)
    requires channels > 0 && sampleRate > 0
    ensures offset < channels ==> TimeAt(timestamp, offset, channels, sampleRate) == timestamp
    ensures var t, u := TimeAt(timestamp, offset, channels, sampleRate),
                        TimeAt(timestamp, offset + channels, channels, sampleRate);
            (u - t) * sampleRate as real == 1.0
  {
    InstantAfter(offset, channels);
    var q, r := offset / channels, sampleRate as real;
    QuotientStep(q as real, r);
    assert (q + 1) as real == q as real + 1.0;
  }

  lemma InstantAfter(offset: nat, channels: nat)
    requires channels > 0
    ensures (offset + channels) / channels == offset / channels + 1
    ensures offset < channels ==> offset / channels == 0
  {
    var q := offset / channels;
    assert (q + 1) * channels == q * channels + channels;
    QuotientIs(offset + channels, channels, q + 1);
  }

  lemma QuotientIs(x: nat, d: nat, k: nat)
    requires d > 0 && k * d <= x < k * d + d
    ensures x / d == k
  {
    var p := x / d;
    assert (p + 1) * d == p * d + d && (k + 1) * d == k * d + d;
    if p < k {
      MulMono(p + 1, k, d);
    } else if p > k {
      MulMono(k + 1, p, d);
    }
  }

  lemma QuotientStep(x: real, r: real)
    requires r > 0.0
    ensures ((x + 1.0) / r - x / r) * r == 1.0
  {
    assert (x + 1.0) / r == x / r + 1.0 / r;
  }
}

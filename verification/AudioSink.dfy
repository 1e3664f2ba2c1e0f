/** The audio sink's ring buffer, updated in place sample by sample. */
module AudioSink {
  import opened Basics
  import opened AudioRing

  /** The slot so many places after another, around the ring. */
  function Slot(from: nat, i: nat): (slot: nat)
    requires from < CAPACITY && i <= CAPACITY
    ensures slot < CAPACITY
  {
    if from + i < CAPACITY then from + i else from + i - CAPACITY
  }

  lemma SlotIsRemainder(from: nat, i: nat)
    requires from < CAPACITY && i <= CAPACITY
    ensures Slot(from, i) == (from + i) % CAPACITY
  {
  }

  /** The sample so many places after the read index. */
  function Cell(left: seq<Sample>, right: seq<Sample>, read: nat, i: nat): Pair
    requires |left| == |right| == CAPACITY && read < CAPACITY && i < CAPACITY
  {
    Pair(left[Slot(read, i)], right[Slot(read, i)])
  }

  /** In the ring of these two channels, the slots from `read` on hold these samples. */
  ghost predicate Holds(left: seq<Sample>, right: seq<Sample>, read: nat, contents: seq<Pair>) {
    && |left| == |right| == CAPACITY && read < CAPACITY && |contents| < CAPACITY
    && forall i {:trigger Cell(left, right, read, i)} ::
         0 <= i < |contents| ==> Cell(left, right, read, i) == contents[i]
  }

  /** Distinct offsets below the capacity are distinct slots. */
  lemma SlotsDiffer(read: nat, i: nat, j: nat)
    requires read < CAPACITY && i < j < CAPACITY
    ensures Slot(read, i) != Slot(read, j)
  {
  }

  lemma HoldsMore(left: seq<Sample>, right: seq<Sample>, read: nat, contents: seq<Pair>, p: Pair)
    requires Holds(left, right, read, contents) && |contents| + 1 < CAPACITY
    ensures var w := Slot(read, |contents|); Holds(left[w := p.left], right[w := p.right], read, contents + [p])
  {
    var w := Slot(read, |contents|);
    forall i | 0 <= i < |contents|
      ensures Cell(left[w := p.left], right[w := p.right], read, i) == contents[i]
    {
      SlotsDiffer(read, i, |contents|);
      assert Cell(left, right, read, i) == contents[i];
    }
  }

  lemma HoldsLess(left: seq<Sample>, right: seq<Sample>, read: nat, contents: seq<Pair>, n: nat)
    requires Holds(left, right, read, contents) && n <= |contents|
    ensures Holds(left, right, Slot(read, n), contents[n..])
  {
    forall i | 0 <= i < |contents| - n
      ensures Cell(left, right, Slot(read, n), i) == contents[n..][i]
    {
      assert Cell(left, right, read, n + i) == contents[n + i];
    }
  }

  lemma NewestStep<T>(s: seq<T>, x: T, n: nat)
    requires n > 0
    ensures Newest(Newest(s, n) + [x], n) == Newest(s + [x], n)
    ensures |Newest(s, n)| == n ==> Newest(s + [x], n) == Newest(s, n)[1..] + [x]
  {
  }

  /** Writing into a full ring gives up the oldest sample. */
  lemma HoldsNewest(left: seq<Sample>, right: seq<Sample>, read: nat, contents: seq<Pair>, p: Pair)
    requires Holds(left, right, read, contents) && |contents| == CAPACITY - 1
    ensures var w := Slot(read, |contents|);
            && Holds(left[w := p.left], right[w := p.right], Slot(read, 1), contents[1..] + [p])
            && Slot(w, 1) == read
  {
    HoldsLess(left, right, read, contents, 1);
    HoldsMore(left, right, Slot(read, 1), contents[1..], p);
  }

  /** One write into the ring, as the code does it. */
  lemma Put(left: seq<Sample>, right: seq<Sample>, read: nat, contents: seq<Pair>, p: Pair)
    requires Holds(left, right, read, contents)
    ensures var w := Slot(read, |contents|);
            var read1 := if Slot(w, 1) == read then Slot(read, 1) else read;
            var contents1 := Newest(contents + [p], CAPACITY - 1);
            && Holds(left[w := p.left], right[w := p.right], read1, contents1)
            && Slot(w, 1) == Slot(read1, |contents1|)
  {
    if |contents| < CAPACITY - 1 {
      HoldsMore(left, right, read, contents, p);
    } else {
      HoldsNewest(left, right, read, contents, p);
      assert Newest(contents + [p], CAPACITY - 1) == contents[1..] + [p];
    }
  }

  class FluxAudioSink {
    const left: array<Sample>
    const right: array<Sample>
    var read: nat
    var write: nat
    var priming: bool
    var muted: bool
    var underruns: nat
    var dropped: nat
    /** The buffered samples, oldest first. */
    ghost var contents: seq<Pair>

    ghost predicate Valid()
      reads this, left, right
    {
      && left != right && left.Length == right.Length == CAPACITY
      && Holds(left[..], right[..], read, contents) && write == Slot(read, |contents|)
    }

    ghost function Value(): Sink
      reads this
    {
      Sink(contents, priming, underruns, dropped)
    }

    constructor ()
      ensures Valid() && fresh(left) && fresh(right) && !muted && Value() == Sink([], true, 0, 0)
    {
      left, right := new Sample[CAPACITY](_ => 0), new Sample[CAPACITY](_ => 0);
      read, write, priming, muted, underruns, dropped, contents := 0, 0, true, false, 0, 0, [];
    }

    method Reset()
      requires Valid()
      modifies this
      ensures Valid() && Value() == Sink([], true, old(underruns), old(dropped)) && muted == old(muted)
    {
      read, write, contents := 0, 0, [];
      priming := true;
    }

    function Buffered(): (n: nat)
      requires Valid()
      reads this, left, right
      ensures n == |contents|
    {
      (write - read + CAPACITY) % CAPACITY
    }

    method PutSample(p: Pair)
      requires Valid()
      modifies `read, `write, `contents, left, right
      ensures Valid() && contents == Newest(old(contents) + [p], CAPACITY - 1)
    {
      ghost var l, r := left[..][write := p.left], right[..][write := p.right];
      ghost var newRead := if Slot(write, 1) == read then Slot(read, 1) else read;
      ghost var newContents := Newest(contents + [p], CAPACITY - 1);
      assert Holds(l, r, newRead, newContents) && Slot(write, 1) == Slot(newRead, |newContents|) by {
        Put(left[..], right[..], read, contents, p);
      }
      left[write] := p.left;
      right[write] := p.right;
      assert left[..] == l && right[..] == r;
      Advance();
      contents := newContents;
    }

    /** The indices after a write: a ring that became full gives up its oldest slot. */
    method Advance()
      requires write < CAPACITY && read < CAPACITY
      modifies `read, `write
      ensures write == Slot(old(write), 1) && read == if write == old(read) then Slot(old(read), 1) else old(read)
    {
      SlotIsRemainder(write, 1);
      SlotIsRemainder(read, 1);
      write := (write + 1) % CAPACITY;
      if write == read {
        read := (read + 1) % CAPACITY;
      }
    }

    method Push(l: seq<Sample>, r: seq<Sample>)
      requires Valid()
      modifies `read, `write, `contents, `dropped, left, right
      ensures Valid() && Value() == AudioRing.Push(old(Value()), Paired(l, r))
    {
      ghost var total := contents + Paired(l, r);
      RolledIsNewest(contents, Paired(l, r), |Paired(l, r)|);
      assert Paired(l, r)[..|Paired(l, r)|] == Paired(l, r);
      Append(l, r);
      Trim(total);
    }

    /** Writes the samples one by one; a full ring gives up its oldest. */
    method Append(l: seq<Sample>, r: seq<Sample>)
      requires Valid()
      modifies `read, `write, `contents, left, right
      ensures Valid() && contents == Rolled(old(contents), Paired(l, r), |Paired(l, r)|)
    {
      ghost var samples, was := Paired(l, r), contents;
      var n := Min(|l|, |r|);
      for i := 0 to n
        invariant Valid() && contents == Rolled(was, samples, i)
      {
        ghost var next := Rolled(was, samples, i + 1);
        assert next == Newest(contents + [Pair(l[i], r[i])], CAPACITY - 1);
        PutSample(Pair(l[i], r[i]));
        assert contents == next;
      }
    }

    /** Latency control: past the high-water mark only the newest 60 ms stay. */
    method Trim(ghost total: seq<Pair>)
      requires Valid() && contents == Newest(total, CAPACITY - 1)
      modifies `read, `contents, `dropped
      ensures Valid() && contents == if |total| > HIGH_WATER then Newest(total, TARGET) else total
      ensures var held := Min(|total|, CAPACITY - 1);
              dropped == old(dropped) + if held > HIGH_WATER then held - TARGET else 0
    {
      var buffered := Buffered();
      if buffered > HIGH_WATER {
        var drop := buffered - TARGET;
        HoldsLess(left[..], right[..], read, contents, drop);
        SlotAdd(read, drop, |contents| - drop);
        SlotIsRemainder(read, drop);
        read := (read + drop) % CAPACITY;
        dropped := dropped + drop;
        contents := contents[drop..];
      }
    }

    /** Fills one quantum of output; a mono output has no right channel. */
    method Process(outLeft: array<Sample>, outRight: array?<Sample>)
      requires Valid() && outLeft !in {left, right} && outRight !in {left, right} && outLeft != outRight
      requires outRight != null ==> outRight.Length == outLeft.Length
      modifies `read, `priming, `underruns, `contents, outLeft, outRight
      ensures Valid() && Value() == AudioRing.Process(old(Value()), outLeft.Length)
      ensures var k := Playable(old(Value()), outLeft.Length);
              && outLeft[..] == Played(old(outLeft[..]), Lefts(old(contents)), k, muted)
              && (outRight != null ==> outRight[..] == Played(old(outRight[..]), Rights(old(contents)), k, muted))
    {
      if priming {
        if Buffered() < PRIME {
          FillBoth(outLeft, outRight, 0);
          return;
        }
        priming := false;
      }
      Play(outLeft, outRight);
    }

    method Play(outLeft: array<Sample>, outRight: array?<Sample>)
      requires Valid() && !priming && outLeft !in {left, right} && outRight !in {left, right} && outLeft != outRight
      requires outRight != null ==> outRight.Length == outLeft.Length
      modifies `read, `priming, `underruns, `contents, outLeft, outRight
      ensures Valid() && priming == (|old(contents)| < outLeft.Length)
      ensures underruns == old(underruns) + if priming then 1 else 0
      ensures var k := Min(outLeft.Length, |old(contents)|);
              && contents == old(contents)[k..]
              && outLeft[..] == Played(old(outLeft[..]), Lefts(old(contents)), k, muted)
              && (outRight != null ==> outRight[..] == Played(old(outRight[..]), Rights(old(contents)), k, muted))
    {
      ghost var all, l := contents, outLeft[..];
      ghost var r := if outRight != null then outRight[..] else [];
      ghost var lefts, rights := Lefts(all), Rights(all);
      SoundingEnds(l, lefts, muted);
      SoundingEnds(r, rights, muted);
      var i, more := 0, true;
      while i < outLeft.Length
        invariant 0 <= i <= Min(outLeft.Length, |all|) && Valid() && contents == all[i..]
        invariant !priming && underruns == old(underruns)
        invariant outLeft[..] == Sounding(l, lefts, i, muted)
        invariant outRight != null ==> outRight[..] == Sounding(r, rights, i, muted)
      {
        more := PlayOne(outLeft, outRight, i, l, r, all);
        if !more {
          return;
        }
        i := i + 1;
      }
    }

    /** One turn of the playing loop: a sample, or silence for the rest of the quantum. */
    method PlayOne(outLeft: array<Sample>, outRight: array?<Sample>, i: nat,
                   ghost l: seq<Sample>, ghost r: seq<Sample>, ghost all: seq<Pair>)
      returns (more: bool)
      requires Valid() && !priming && outLeft !in {left, right} && outRight !in {left, right} && outLeft != outRight
      requires i < outLeft.Length == |l| && i <= |all| && contents == all[i..]
      requires outRight != null ==> outRight.Length == outLeft.Length == |r|
      requires outLeft[..] == Sounding(l, Lefts(all), i, muted)
      requires outRight != null ==> outRight[..] == Sounding(r, Rights(all), i, muted)
      modifies `read, `priming, `underruns, `contents, outLeft, outRight
      ensures Valid() && more == (i < |all|) && priming == !more
      ensures more ==> underruns == old(underruns) && contents == all[i + 1..]
      ensures more ==> outLeft[..] == Sounding(l, Lefts(all), i + 1, muted)
      ensures more && outRight != null ==> outRight[..] == Sounding(r, Rights(all), i + 1, muted)
      ensures !more ==> underruns == old(underruns) + 1 && contents == []
      ensures !more ==> outLeft[..] == Played(l, Lefts(all), i, muted)
      ensures !more && outRight != null ==> outRight[..] == Played(r, Rights(all), i, muted)
    {
      more := !IsEmpty();
      if !more {
        underruns, priming := underruns + 1, true;
        FillBoth(outLeft, outRight, i);
        return;
      }
      var p := GetSample();
      if !muted {
        WriteBoth(outLeft, outRight, i, p, l, r, all);
      }
    }

    predicate IsEmpty()
      requires Valid()
      reads this, left, right
      ensures IsEmpty() <==> contents == []
    {
      First(left[..], right[..], read, write, contents);
      read == write
    }

    method GetSample() returns (p: Pair)
      requires Valid() && contents != []
      modifies `read, `contents
      ensures Valid() && |old(contents)| > 0 && p == old(contents)[0] && contents == old(contents)[1..]
    {
      First(left[..], right[..], read, write, contents);
      p := Pair(left[read], right[read]);
      HoldsLess(left[..], right[..], read, contents, 1);
      SlotAdd(read, 1, |contents| - 1);
      SlotIsRemainder(read, 1);
      read := (read + 1) % CAPACITY;
      contents := contents[1..];
    }
  }

  ghost function Lefts(s: seq<Pair>): (v: seq<Sample>)
    ensures |v| == |s| && forall i :: 0 <= i < |s| ==> v[i] == s[i].left
  {
    seq(|s|, i requires 0 <= i < |s| => s[i].left)
  }

  ghost function Rights(s: seq<Pair>): (v: seq<Sample>)
    ensures |v| == |s| && forall i :: 0 <= i < |s| ==> v[i] == s[i].right
  {
    seq(|s|, i requires 0 <= i < |s| => s[i].right)
  }

  /** An output after so many samples of a source went into it; a muted sink writes none. */
  ghost function Sounding(was: seq<Sample>, source: seq<Sample>, i: nat, muted: bool): (s: seq<Sample>)
    requires i <= |was| && i <= |source|
    ensures |s| == |was|
  {
    if muted then was else source[..i] + was[i..]
  }

  lemma SoundingEnds(was: seq<Sample>, source: seq<Sample>, muted: bool)
    ensures Sounding(was, source, 0, muted) == was
    ensures |was| <= |source| ==> Played(was, source, |was|, muted) == Sounding(was, source, |was|, muted)
  {
  }

  /** An output after a quantum that played so many samples: those, and then silence. */
  ghost function Played(was: seq<Sample>, source: seq<Sample>, k: nat, muted: bool): seq<Sample>
    requires k <= |was| && k <= |source|
  {
    Sounding(was, source, k, muted)[..k] + seq(|was| - k, _ => 0)
  }

  method WriteSample(output: array<Sample>, i: nat, v: Sample, ghost was: seq<Sample>, ghost source: seq<Sample>)
    requires i < output.Length == |was| && i < |source| && v == source[i]
    requires output[..] == Sounding(was, source, i, false)
    modifies output
    ensures output[..] == Sounding(was, source, i + 1, false)
  {
    ghost var before := output[..];
    output[i] := v;
    assert output[..] == before[i := v];
  }

  /** `fill(0, from)` */
  method FillSilence(output: array<Sample>, from: nat)
    requires from <= output.Length
    modifies output
    ensures output[..] == old(output[..from]) + seq(output.Length - from, _ => 0)
  {
    ghost var was := output[..from];
    for j := from to output.Length
      invariant output[..from] == was && forall k :: from <= k < j ==> output[k] == 0
    {
      output[j] := 0;
    }
  }

  method FillBoth(outLeft: array<Sample>, outRight: array?<Sample>, from: nat)
    requires from <= outLeft.Length && outLeft != outRight && (outRight != null ==> outRight.Length == outLeft.Length)
    modifies outLeft, outRight
    ensures outLeft[..] == old(outLeft[..from]) + seq(outLeft.Length - from, _ => 0)
    ensures outRight != null ==> outRight[..] == old(outRight[..from]) + seq(outLeft.Length - from, _ => 0)
  {
    FillSilence(outLeft, from);
    if outRight != null {
      FillSilence(outRight, from);
    }
  }

  method WriteBoth(outLeft: array<Sample>, outRight: array?<Sample>, i: nat, p: Pair,
                   ghost l: seq<Sample>, ghost r: seq<Sample>, ghost all: seq<Pair>)
    requires outLeft != outRight && i < outLeft.Length == |l| && i < |all| && p == all[i]
    requires outRight != null ==> outRight.Length == outLeft.Length == |r|
    requires outLeft[..] == Sounding(l, Lefts(all), i, false)
    requires outRight != null ==> outRight[..] == Sounding(r, Rights(all), i, false)
    modifies outLeft, outRight
    ensures outLeft[..] == Sounding(l, Lefts(all), i + 1, false)
    ensures outRight != null ==> outRight[..] == Sounding(r, Rights(all), i + 1, false)
  {
    WriteSample(outLeft, i, p.left, l, Lefts(all));
    if outRight != null {
      WriteSample(outRight, i, p.right, r, Rights(all));
    }
  }

  /** An output that was silent before holds the played samples, or nothing when muted, and silence. */
  lemma SilenceAround(was: seq<Sample>, source: seq<Sample>, k: nat, muted: bool, i: nat)
    requires k <= |was| && k <= |source| && i < |was| && was[i] == 0
    ensures Played(was, source, k, muted)[i] == if i < k && !muted then source[i] else 0
  {
  }

  /** The stereo samples of two planes, as many as both have. */
  ghost function Paired(l: seq<Sample>, r: seq<Sample>): (p: seq<Pair>)
    ensures |p| == Min(|l|, |r|) && forall i :: 0 <= i < |p| ==> p[i] == Pair(l[i], r[i])
  {
    seq(Min(|l|, |r|), i requires 0 <= i < Min(|l|, |r|) => Pair(l[i], r[i]))
  }

  /** The ring is empty exactly when both indices meet; otherwise the first sample is at the read index. */
  lemma First(left: seq<Sample>, right: seq<Sample>, read: nat, write: nat, contents: seq<Pair>)
    requires Holds(left, right, read, contents) && write == Slot(read, |contents|)
    ensures read == write <==> contents == []
    ensures contents != [] ==> contents[0] == Pair(left[read], right[read])
  {
    assert contents != [] ==> Cell(left, right, read, 0) == contents[0];
  }

  lemma SlotAdd(read: nat, i: nat, j: nat)
    requires read < CAPACITY && i + j <= CAPACITY
    ensures Slot(Slot(read, i), j) == Slot(read, i + j)
  {
  }

  /** The ring after some of the samples have been written. */
  ghost function Rolled(c: seq<Pair>, samples: seq<Pair>, i: nat): seq<Pair>
    requires i <= |samples|
  {
    if i == 0 then c else Newest(Rolled(c, samples, i - 1) + [samples[i - 1]], CAPACITY - 1)
  }

  lemma {:induction false} RolledIsNewest(c: seq<Pair>, samples: seq<Pair>, i: nat)
    requires |c| < CAPACITY && i <= |samples|
    ensures Rolled(c, samples, i) == Newest(c + samples[..i], CAPACITY - 1)
  {
    if i == 0 {
      assert c + samples[..0] == c;
    } else {
      RolledIsNewest(c, samples, i - 1);
      assert c + samples[..i] == (c + samples[..i - 1]) + [samples[i - 1]];
      NewestStep(c + samples[..i - 1], samples[i - 1], CAPACITY - 1);
    }
  }
}

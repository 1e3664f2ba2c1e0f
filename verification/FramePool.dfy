/**
The relay's frame buffers and frame queue (flux-web/upstream.go, flux-web/frame.go): a small pool
of reusable buffers, a bounded queue of video frames, and the rules that move a buffer from one
owner to the next.  A backing array is known by the number of its allocation.
*/
module FramePool {
  import opened Basics

  const MAX_PAYLOAD: nat := 10 * 1024 * 1024
  const MAX_CACHED: nat := 4
  const QUEUE_CAPACITY: nat := 120
  const MAX_BACKLOG: int := 150_000_000

  datatype Buffer = Buffer(id: nat, cap: nat)

  /** A video frame: its number in order of arrival, its buffer, and when it was received (zero time: None). */
  datatype Frame = Frame(num: nat, buffer: Buffer, idr: bool, receivedAt: Option<int>)

  // ----- The pool

  /** The scan for the best fit among the first slots: the smallest that is large enough, if any. */
  function BestFit(slots: seq<Buffer>, size: nat, n: nat): (best: Option<nat>)
    requires n <= |slots|
    ensures best.Some? ==> best.value < n
  {
    if n == 0 then None
    else
      var best := BestFit(slots, size, n - 1);
      if slots[n - 1].cap >= size && (best.None? || slots[n - 1].cap < slots[best.value].cap) then Some(n - 1) else best
  }

  /** It finds a large enough buffer exactly when there is one, and no smaller one would do. */
  lemma {:induction false} BestFitIsBest(slots: seq<Buffer>, size: nat, n: nat)
    requires n <= |slots|
    ensures var best := BestFit(slots, size, n);
            && (best.Some? <==> exists i :: 0 <= i < n && slots[i].cap >= size)
            && (best.Some? ==> slots[best.value].cap >= size)
            && (best.Some? ==> forall i :: 0 <= i < n && slots[i].cap >= size ==> slots[best.value].cap <= slots[i].cap)
  {
    if n == 0 {
    } else {
      BestFitIsBest(slots, size, n - 1);
    }
  }

  /** The slot `get` empties: the best fit, or else the last. */
  function Victim(slots: seq<Buffer>, size: nat): (i: nat)
    requires slots != []
    ensures i < |slots|
  {
    var best := BestFit(slots, size, |slots|);
    if best.Some? then best.value else |slots| - 1
  }

  /** Moves the last buffer into the place of the one taken. */
  function SwapRemove<T>(s: seq<T>, i: nat): seq<T>
    requires i < |s|
  {
    s[i := s[|s| - 1]][..|s| - 1]
  }

  /** A buffer of the size asked for: from the pool if one fits, otherwise a new allocation. */
  function Get(slots: seq<Buffer>, size: nat, next: nat): (seq<Buffer>, Buffer) {
    if slots == [] then ([], Buffer(next, size))
    else
      var i := Victim(slots, size);
      (SwapRemove(slots, i), if slots[i].cap >= size then slots[i] else Buffer(next, size))
  }

  function Put(slots: seq<Buffer>, b: Buffer): seq<Buffer> {
    if b.cap == 0 || b.cap > MAX_PAYLOAD || |slots| >= MAX_CACHED then slots else slots + [b]
  }

  // ----- Counting owners

  /** How many of these buffers have this number. */
  function Cached(slots: seq<Buffer>, id: nat): nat {
    if slots == [] then 0
    else Cached(slots[..|slots| - 1], id) + if slots[|slots| - 1].id == id then 1 else 0
  }

  datatype Which = ByBuffer | ByNumber

  function Key(f: Frame, w: Which): nat { if w.ByBuffer? then f.buffer.id else f.num }

  /** Is this the key? */
  function One(f: Frame, w: Which, k: nat): nat { if Key(f, w) == k then 1 else 0 }

  /** How many of these frames have this key. */
  function Count(frames: seq<Frame>, w: Which, k: nat): nat {
    if frames == [] then 0 else Count(frames[..|frames| - 1], w, k) + One(frames[|frames| - 1], w, k)
  }

  lemma {:induction false} CountJoin(a: seq<Frame>, b: seq<Frame>, w: Which, k: nat)
    ensures Count(a + b, w, k) == Count(a, w, k) + Count(b, w, k)
  {
    if b == [] {
      assert a + b == a;
    } else {
      CountJoin(a, b[..|b| - 1], w, k);
      assert (a + b)[..|a + b| - 1] == a + b[..|b| - 1];
    }
  }

  function Without<T>(s: seq<T>, i: nat): seq<T>
    requires i < |s|
  {
    s[..i] + s[i + 1..]
  }

  lemma CountMore(s: seq<Frame>, f: Frame, w: Which, k: nat)
    ensures Count(s + [f], w, k) == Count(s, w, k) + One(f, w, k)
  {
    assert (s + [f])[..|s|] == s;
  }

  lemma CountWithout(s: seq<Frame>, i: nat, w: Which, k: nat)
    requires i < |s|
    ensures Count(s, w, k) == Count(Without(s, i), w, k) + One(s[i], w, k)
  {
    assert s == (s[..i] + [s[i]]) + s[i + 1..];
    CountJoin(s[..i] + [s[i]], s[i + 1..], w, k);
    CountMore(s[..i], s[i], w, k);
    CountJoin(s[..i], s[i + 1..], w, k);
  }

  lemma {:induction false} CachedReplace(s: seq<Buffer>, i: nat, b: Buffer, id: nat)
    requires i < |s|
    ensures Cached(s[i := b], id) == Cached(s, id) - (if s[i].id == id then 1 else 0) + if b.id == id then 1 else 0
  {
    var last := |s| - 1;
    if i == last {
      assert s[i := b][..last] == s[..last];
    } else {
      CachedReplace(s[..last], i, b, id);
      assert s[i := b][..last] == s[..last][i := b];
    }
  }

  /** Taking a buffer from the pool takes exactly that buffer. */
  lemma CachedSwapRemove(s: seq<Buffer>, i: nat, id: nat)
    requires i < |s|
    ensures Cached(s, id) == Cached(SwapRemove(s, i), id) + if s[i].id == id then 1 else 0
  {
    var last := |s| - 1;
    CachedReplace(s, i, s[last], id);
    assert s[i := s[last]][last] == s[last];
  }

  /** Putting a buffer back adds at most that buffer. */
  lemma CachedPut(slots: seq<Buffer>, b: Buffer, id: nat)
    ensures Cached(Put(slots, b), id) <= Cached(slots, id) + if b.id == id then 1 else 0
    ensures |Put(slots, b)| <= Max(|slots|, MAX_CACHED)
  {
    assert (slots + [b])[..|slots|] == slots;
  }

  /** A buffer handed out is no longer in the pool, or is a new allocation; the pool keeps no buffer it did not have. */
  lemma CachedGet(slots: seq<Buffer>, size: nat, next: nat, id: nat)
    ensures var (rest, b) := Get(slots, size, next);
            && |rest| <= |slots| && b.cap >= size
            && Cached(rest, id) + (if b.id == id then 1 else 0) <= Cached(slots, id) + (if id == next then 1 else 0)
  {
    if slots != [] {
      CachedSwapRemove(slots, Victim(slots, size), id);
    }
  }

  // ----- Selection

  /** Of a frame in hand and a newer one: which is kept, and which is released. */
  function Better(current: Frame, newer: Frame): Frame {
    if newer.idr || !current.idr then newer else current
  }

  function Worse(current: Frame, newer: Frame): Frame {
    if newer.idr || !current.idr then current else newer
  }

  /** What the draining loop keeps of a frame and those queued behind it. */
  function Latest(current: Frame, queue: seq<Frame>): Frame
    decreases |queue|
  {
    if queue == [] then current else Latest(Better(current, queue[0]), queue[1..])
  }

  /** What it releases, in order. */
  function Losers(current: Frame, queue: seq<Frame>): seq<Frame>
    decreases |queue|
  {
    if queue == [] then [] else [Worse(current, queue[0])] + Losers(Better(current, queue[0]), queue[1..])
  }

  /** The position of the last IDR frame, or of the last frame when there is none. */
  ghost predicate IsLatest(all: seq<Frame>, i: nat) {
    && i < |all| && (forall j :: i < j < |all| ==> !all[j].idr)
    && (all[i].idr || (i == |all| - 1 && forall j :: 0 <= j < |all| ==> !all[j].idr))
  }

  /** The loop keeps the last IDR frame if there is one, and otherwise the last frame. */
  lemma {:induction false} LatestIsLastIdr(current: Frame, queue: seq<Frame>) returns (i: nat)
    ensures IsLatest([current] + queue, i) && ([current] + queue)[i] == Latest(current, queue)
    decreases |queue|
  {
    var all := [current] + queue;
    if queue == [] {
      i := 0;
    } else {
      var rest := [Better(current, queue[0])] + queue[1..];
      var r := LatestIsLastIdr(Better(current, queue[0]), queue[1..]);
      assert forall j :: 0 < j < |rest| ==> rest[j] == all[j + 1];
      i := if r > 0 then r + 1 else if queue[0].idr || !current.idr then 1 else 0;
      assert forall j :: 2 <= j < |all| ==> all[j] == rest[j - 1];
      assert !rest[0].idr ==> !all[0].idr && !all[1].idr;
    }
  }

  /** The pool after several buffers are put back. */
  function PutAll(slots: seq<Buffer>, frames: seq<Frame>): seq<Buffer>
    decreases |frames|
  {
    if frames == [] then slots else PutAll(Put(slots, frames[0].buffer), frames[1..])
  }

  // ----- Buffers are reused

  /** If some cached buffer is large enough, the smallest such one is handed out and leaves the pool. */
  lemma GetReuses(slots: seq<Buffer>, size: nat, next: nat)
    requires exists i :: 0 <= i < |slots| && slots[i].cap >= size
    ensures var (rest, b) := Get(slots, size, next);
            && b in slots && b.cap >= size && |rest| == |slots| - 1
            && (forall i :: 0 <= i < |slots| && slots[i].cap >= size ==> b.cap <= slots[i].cap)
  {
    BestFitIsBest(slots, size, |slots|);
  }

  /** If none is, a new one of exactly the size asked for is made, and one too small gives up its place. */
  lemma GetAllocates(slots: seq<Buffer>, size: nat, next: nat)
    requires forall i :: 0 <= i < |slots| ==> slots[i].cap < size
    ensures var (rest, b) := Get(slots, size, next);
            b == Buffer(next, size) && |rest| == Max(0, |slots| - 1)
  {
    BestFitIsBest(slots, size, |slots|);
  }

  /** A buffer given back while there is room is handed out again to whoever asks for no more than it holds. */
  lemma PutIsReused(slots: seq<Buffer>, b: Buffer, size: nat, next: nat)
    requires |slots| < 4 && 0 < b.cap <= 10_485_760 && size <= b.cap
    ensures Put(slots, b) == slots + [b]
    ensures var (rest, c) := Get(Put(slots, b), size, next); c in slots + [b] && size <= c.cap <= b.cap
  {
    assert (slots + [b])[|slots|] == b;
    GetReuses(slots + [b], size, next);
  }
}

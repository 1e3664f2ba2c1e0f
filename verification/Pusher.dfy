/**
One turn of the relay's pusher (flux-web/upstream.go): it receives a frame, skips ahead when that
one is stale, and writes the frame to the viewer's session, drops it, or has no session to write to.
*/
module Pusher {
  import opened Basics
  import opened FramePool
  import FrameQueue

  // ----- What a turn does to the frames

  /** Has the frame in hand waited too long while newer ones are queued? */
  predicate Stale(first: Frame, queue: seq<Frame>, now: int) {
    queue != [] && first.receivedAt.Some? && now - first.receivedAt.value > MAX_BACKLOG
  }

  /** The frame a turn ends up with. */
  function Chosen(first: Frame, queue: seq<Frame>, now: int): Frame {
    if Stale(first, queue, now) then Latest(first, queue) else first
  }

  /** A received frame, possibly after skipping ahead; it is the last one in hand. */
  function Picked(s: FrameQueue.State, now: int): FrameQueue.State
    requires s.queue != []
  {
    var received := FrameQueue.Do(s, FrameQueue.Dequeue);
    if Stale(s.queue[0], s.queue[1..], now) then FrameQueue.Skips(received, |s.hand|) else received
  }

  lemma PickedHand(s: FrameQueue.State, now: int)
    requires s.queue != []
    ensures Picked(s, now).hand == s.hand + [Chosen(s.queue[0], s.queue[1..], now)]
    ensures Picked(s, now).queue == if Stale(s.queue[0], s.queue[1..], now) then [] else s.queue[1..]
  {
    var received := FrameQueue.Do(s, FrameQueue.Dequeue);
    assert received.hand[|s.hand|] == s.queue[0];
    assert Without(received.hand, |s.hand|) == s.hand;
    FrameQueue.SkipsKeepLatest(received, |s.hand|);
  }

  /** A whole turn: whatever becomes of the frame picked, its buffer is given back. */
  function Turn(s: FrameQueue.State, now: int): FrameQueue.State
    requires s.queue != []
  {
    PickedHand(s, now);
    FrameQueue.DoRelease(Picked(s, now), |s.hand|)
  }

  /** The frames a turn takes from the queue. */
  function Taken(s: FrameQueue.State, now: int): seq<Frame>
    requires s.queue != []
  {
    if Stale(s.queue[0], s.queue[1..], now) then s.queue else s.queue[..1]
  }

  /** The frame kept and those given up are the ones there were. */
  lemma {:induction false} LosersAndLatest(current: Frame, queue: seq<Frame>, k: nat)
    ensures Count(Losers(current, queue), ByNumber, k) + One(Latest(current, queue), ByNumber, k) ==
            One(current, ByNumber, k) + Count(queue, ByNumber, k)
    decreases |queue|
  {
    if queue == [] {
    } else {
      var kept, lost := Better(current, queue[0]), Worse(current, queue[0]);
      LosersAndLatest(kept, queue[1..], k);
      FrameQueue.HeadCount(queue, ByNumber, k);
      CountJoin([lost], Losers(kept, queue[1..]), ByNumber, k);
      FrameQueue.HeldCount(lost, ByNumber, k);
    }
  }

  /** A turn releases exactly the frames it takes from the queue, each once, and leaves none of them in hand. */
  lemma TurnReleases(s: FrameQueue.State, now: int, k: nat)
    requires s.queue != []
    ensures var t := Turn(s, now);
            && t.hand == s.hand && t.sender == s.sender && s.queue == Taken(s, now) + t.queue
            && s.released <= t.released
            && Count(t.released[|s.released|..], ByNumber, k) == Count(Taken(s, now), ByNumber, k)
  {
    var t := Turn(s, now);
    PickedHand(s, now);
    assert Without(Picked(s, now).hand, |s.hand|) == s.hand;
    PickedKeepsSender(s, now);
    TurnReleased(s, now);
    ReleasedAreTaken(s, now, k);
    assert t.released[|s.released|..] == Given(s, now);
  }

  /** What a turn releases, in order. */
  function Given(s: FrameQueue.State, now: int): seq<Frame>
    requires s.queue != []
  {
    var first, queue := s.queue[0], s.queue[1..];
    if Stale(first, queue, now) then Losers(first, queue) + [Latest(first, queue)] else [first]
  }

  lemma TurnReleased(s: FrameQueue.State, now: int)
    requires s.queue != []
    ensures Turn(s, now).released == s.released + Given(s, now)
  {
    var first, queue := s.queue[0], s.queue[1..];
    var received := FrameQueue.Do(s, FrameQueue.Dequeue);
    PickedHand(s, now);
    assert received.hand[|s.hand|] == first;
    if Stale(first, queue, now) {
      FrameQueue.SkipsReleaseOthers(received, |s.hand|);
      var losers, last := Losers(first, queue), [Latest(first, queue)];
      assert (s.released + losers) + last == s.released + (losers + last);
    }
  }

  lemma ReleasedAreTaken(s: FrameQueue.State, now: int, k: nat)
    requires s.queue != []
    ensures Count(Given(s, now), ByNumber, k) == Count(Taken(s, now), ByNumber, k)
  {
    var first, queue := s.queue[0], s.queue[1..];
    if Stale(first, queue, now) {
      LosersAndLatest(first, queue, k);
      CountMore(Losers(first, queue), Latest(first, queue), ByNumber, k);
      FrameQueue.HeadCount(s.queue, ByNumber, k);
    } else {
      assert s.queue[..1] == [first];
    }
  }

  lemma PickedKeepsSender(s: FrameQueue.State, now: int)
    requires s.queue != []
    ensures Picked(s, now).sender == s.sender
  {
    SkipsKeepSender(FrameQueue.Do(s, FrameQueue.Dequeue), |s.hand|);
  }

  lemma {:induction false} SkipsKeepSender(s: FrameQueue.State, i: nat)
    requires i < |s.hand|
    ensures FrameQueue.Skips(s, i).sender == s.sender
    decreases |s.queue|
  {
    if s.queue == [] {
    } else {
      SkipsKeepSender(FrameQueue.DoSkip(s, i), |s.hand| - 1);
    }
  }

  // ----- What a turn does to the session

  datatype Session = Session(needsIdr: bool, hasStarted: bool)

  datatype WriteResult = Written | Reset | Failed

  /** A turn as a session sees it; `lost`: a keyframe was asked for since the turn before, or this one skipped ahead. */
  datatype Visit = Visit(idr: bool, lost: bool, result: WriteResult)

  /** Is the frame written at all? */
  predicate Writes(p: Session, v: Visit) { v.idr || !(p.needsIdr || v.lost) }

  function Visited(p: Session, v: Visit): Session {
    if !Writes(p, v) then p.(needsIdr := true)
    else Session(!v.result.Written?, p.hasStarted || v.idr)
  }

  /** A session is bound before its first keyframe is asked for. */
  const NEW := Session(false, false)

  function After(visits: seq<Visit>): Session {
    if visits == [] then NEW else Visited(After(visits[..|visits| - 1]), visits[|visits| - 1])
  }

  /** Was the frame of this turn written in full? */
  predicate Complete(visits: seq<Visit>, k: nat)
    requires k < |visits|
  {
    Writes(After(visits[..k]), visits[k]) && visits[k].result.Written?
  }

  /** From turn `i` on every frame was written in full and nothing was lost in between. */
  ghost predicate Unbroken(visits: seq<Visit>, i: nat, j: nat)
    requires j <= |visits|
  {
    (forall k :: i <= k < j ==> Complete(visits, k)) && forall k :: i < k < j ==> !visits[k].lost
  }

  /** Nothing was lost in the first turns, and each wrote its frame in full. */
  ghost predicate NeverAsked(visits: seq<Visit>, n: nat)
    requires n <= |visits|
  {
    forall k :: 0 <= k < n ==> Complete(visits, k) && !visits[k].lost
  }

  /** A turn after which no keyframe is needed was complete, and a keyframe's own or one that lost nothing. */
  lemma SettledTurn(visits: seq<Visit>, n: nat)
    requires n < |visits| && !After(visits[..n + 1]).needsIdr
    ensures Complete(visits, n)
    ensures visits[n].idr || (!visits[n].lost && !After(visits[..n]).needsIdr)
  {
    assert visits[..n + 1][..n] == visits[..n];
  }

  /** While a session needs no keyframe, all turns since some keyframe, or since the session began, were complete. */
  lemma {:induction false} SettledSince(visits: seq<Visit>, n: nat) returns (i: nat)
    requires n <= |visits| && !After(visits[..n]).needsIdr
    ensures i <= n
    ensures if i < n then visits[i].idr && Unbroken(visits, i, n) else NeverAsked(visits, n)
    decreases n
  {
    if n == 0 {
      i := 0;
    } else {
      SettledTurn(visits, n - 1);
      if visits[n - 1].idr {
        i := n - 1;
      } else {
        i := SettledSince(visits, n - 1);
        if i == n - 1 {
          i := n;
        }
      }
    }
  }

  /**
  A viewer that was promised a keyframe gets no delta without what the pusher had before it: when
  one is written, every turn since some keyframe has written its frame in full and none has lost
  any, unless no keyframe was ever asked for in this session.
  */
  lemma DeltaFollowsKeyframe(visits: seq<Visit>, j: nat) returns (i: nat)
    requires j < |visits| && Writes(After(visits[..j]), visits[j]) && !visits[j].idr
    ensures i <= j && !visits[j].lost
    ensures if i < j then visits[i].idr && Unbroken(visits, i, j) else NeverAsked(visits, j)
  {
    i := SettledSince(visits, j);
  }

  /** The first frame of a session is written if and only if it is a keyframe or none was asked for in time. */
  lemma FirstFrame(visits: seq<Visit>)
    requires visits != []
    ensures Writes(After(visits[..0]), visits[0]) <==> visits[0].idr || !visits[0].lost
  {
  }
}

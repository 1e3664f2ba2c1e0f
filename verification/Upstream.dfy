/**
The buffer pool and the frame queue as the relay updates them in place.  Every method is tied to
the steps of FrameQueue: called on the code's counterpart of a state it ends in that of the next.
*/
module Upstream {
  import opened Basics
  import opened FramePool
  import FrameQueue
  import Pusher

  class FrameBufferPool {
    const buffers: array<Option<Buffer>>
    var count: nat
    /** The cached buffers, in slot order. */
    ghost var slots: seq<Buffer>

    ghost predicate Valid()
      reads this, buffers
    {
      buffers.Length == MAX_CACHED && Stores(buffers[..], count, slots)
    }

    constructor ()
      ensures Valid() && slots == [] && fresh(buffers)
    {
      buffers := new Option<Buffer>[MAX_CACHED](_ => None);
      count, slots := 0, [];
    }

    method Get(size: nat, next: nat) returns (data: Buffer)
      requires Valid()
      modifies this, buffers
      ensures Valid() && (slots, data) == FramePool.Get(old(slots), size, next)
    {
      var best := FindBest(size);
      if best.None? && count > 0 {
        best := Some(count - 1);
      }
      if best.None? {
        return Buffer(next, size);
      }
      ghost var rest, stored := SwapRemove(slots, best.value), buffers[..];
      StoresLess(stored, count, slots, best.value);
      data := buffers[best.value].value;
      if data.cap < size {
        data := Buffer(next, size);
      }
      count := count - 1;
      buffers[best.value] := buffers[count];
      buffers[count] := None;
      slots := rest;
      assert buffers[..] == stored[best.value := stored[count]][count := None];
    }

    method FindBest(size: nat) returns (best: Option<nat>)
      requires Valid()
      ensures best == BestFit(slots, size, |slots|)
    {
      best := None;
      for i := 0 to count
        invariant best == BestFit(slots, size, i)
      {
        assert buffers[..][i] == Some(slots[i]);
        if best.Some? {
          assert buffers[..][best.value] == Some(slots[best.value]);
        }
        if buffers[i].value.cap >= size && (best.None? || buffers[i].value.cap < buffers[best.value].value.cap) {
          best := Some(i);
        }
      }
    }

    method Put(data: Buffer)
      requires Valid()
      modifies this, buffers
      ensures Valid() && slots == FramePool.Put(old(slots), data)
    {
      if data.cap == 0 || data.cap > MAX_PAYLOAD {
        return;
      }
      if count < buffers.Length {
        ghost var stored := buffers[..];
        buffers[count] := Some(data);
        assert buffers[..] == stored[count := Some(data)];
        count := count + 1;
        slots := slots + [data];
      }
    }
  }

  /** The first slots hold these buffers and the others are empty. */
  ghost predicate Stores(buffers: seq<Option<Buffer>>, count: nat, slots: seq<Buffer>) {
    && |slots| == count <= |buffers|
    && forall i :: 0 <= i < |buffers| ==> buffers[i] == if i < count then Some(slots[i]) else None
  }

  lemma StoresLess(buffers: seq<Option<Buffer>>, count: nat, slots: seq<Buffer>, i: nat)
    requires Stores(buffers, count, slots) && i < count
    ensures Stores(buffers[i := buffers[count - 1]][count - 1 := None], count - 1, SwapRemove(slots, i))
    ensures buffers[i] == Some(slots[i])
  {
  }

  class MachineUpstream {
    const pool: FrameBufferPool
    var frameChan: seq<Frame>
    var stopping: bool
    /** Allocations and frames so far; they only give each a number. */
    var nextBuffer: nat
    var nextNum: nat

    ghost predicate Valid()
      reads this, pool, pool.buffers
    {
      pool.Valid() && |frameChan| <= QUEUE_CAPACITY
    }

    /** This object is the code's counterpart of a state of the queue. */
    ghost predicate Matches(s: FrameQueue.State)
      reads this, pool
    {
      && pool.slots == s.slots && frameChan == s.queue && stopping == s.stopping
      && nextBuffer == s.nextBuffer && nextNum == s.nextNum
    }

    constructor ()
      ensures Valid() && Matches(FrameQueue.START) && fresh(pool) && fresh(pool.buffers)
    {
      pool := new FrameBufferPool();
      frameChan, stopping, nextBuffer, nextNum := [], false, 0, 0;
    }

    /** Reads one video payload into a buffer from the pool; a failed read gives the buffer back. */
    method ReadPayload(size: nat, idr: bool, at: Option<int>, ok: bool, ghost s: FrameQueue.State)
      returns (frame: Option<Frame>)
      requires Valid() && Matches(s)
      modifies `nextBuffer, `nextNum, pool, pool.buffers
      ensures Valid() && Matches(FrameQueue.DoRead(s, size, idr, at, ok)) && frame.Some? == ok
      ensures ok ==> FrameQueue.DoRead(s, size, idr, at, ok).hand == s.hand + [frame.value]
    {
      var b := pool.Get(size, nextBuffer);
      frame := Some(Frame(nextNum, b, idr, at));
      nextBuffer, nextNum := nextBuffer + 1, nextNum + 1;
      if !ok {
        pool.Put(b);
        frame := None;
      }
    }

    /** Gives the buffer of a frame in hand back. */
    method ReleaseFrame(frame: Frame, ghost s: FrameQueue.State, ghost i: nat)
      requires Valid() && Matches(s) && i < |s.hand| && s.hand[i] == frame
      modifies pool, pool.buffers
      ensures Valid() && Matches(FrameQueue.DoRelease(s, i))
    {
      pool.Put(frame.buffer);
    }

    /** The pusher's receive. */
    method Receive(ghost s: FrameQueue.State) returns (frame: Frame)
      requires Valid() && Matches(s) && frameChan != []
      modifies `frameChan
      ensures Valid() && Matches(FrameQueue.Do(s, FrameQueue.Dequeue)) && frame == old(frameChan)[0]
    {
      frame := frameChan[0];
      frameChan := frameChan[1..];
    }

    method TrySend(frame: Frame, ghost s: FrameQueue.State) returns (sent: bool)
      requires Valid() && Matches(s) && s.sender == FrameQueue.Offering(frame)
      modifies `frameChan
      ensures Valid() && Matches(FrameQueue.DoTrySend(s)) && sent == FrameQueue.DoTrySend(s).sender.Idle?
    {
      sent := |frameChan| < QUEUE_CAPACITY;
      if sent {
        frameChan := frameChan + [frame];
      }
    }

    method MakeRoom(ghost s: FrameQueue.State) returns (dropped: bool)
      requires Valid() && Matches(s) && s.sender.Full?
      modifies `frameChan, pool, pool.buffers
      ensures Valid() && Matches(FrameQueue.DoMakeRoom(s)) && dropped == FrameQueue.DoMakeRoom(s).sender.dropped
      ensures |frameChan| < QUEUE_CAPACITY
    {
      dropped := |frameChan| > 0;
      if dropped {
        var oldest := frameChan[0];
        frameChan := frameChan[1..];
        pool.Put(oldest.buffer);
      }
    }

    /** Queues a frame, evicting the oldest when full; once stopping it only releases it. */
    method QueueFrame(frame: Frame, ghost s: FrameQueue.State, ghost i: nat) returns (dropped: bool)
      requires Valid() && Matches(s) && s.sender.Idle? && i < |s.hand| && s.hand[i] == frame
      modifies `frameChan, pool, pool.buffers
      ensures Valid() && Matches(FrameQueue.Enqueue(s, i))
      ensures dropped == (!stopping && |old(frameChan)| == QUEUE_CAPACITY)
    {
      if stopping {
        ReleaseFrame(frame, s, i);
        return false;
      }
      ghost var offered := FrameQueue.DoOffer(s, i);
      var sent := TrySend(frame, offered);
      if sent {
        return false;
      }
      dropped := MakeRoom(FrameQueue.DoTrySend(offered));
      frameChan := frameChan + [frame];
    }

    /** Marks the upstream as stopping and gives every queued buffer back. */
    method Stop(ghost s: FrameQueue.State)
      requires Valid() && Matches(s) && s.sender.Idle?
      modifies `stopping, `frameChan, pool, pool.buffers
      ensures Valid() && stopping && frameChan == []
      ensures Matches(FrameQueue.Drain(FrameQueue.Do(s, FrameQueue.Stop)))
    {
      stopping := true;
      ghost var now := FrameQueue.Do(s, FrameQueue.Stop);
      ghost var end := FrameQueue.Drain(now);
      while |frameChan| > 0
        invariant Valid() && stopping && Matches(now) && now.sender.Idle? && FrameQueue.Drain(now) == end
        decreases |frameChan|
      {
        var frame := frameChan[0];
        now := FrameQueue.Do(now, FrameQueue.DrainOne);
        frameChan := frameChan[1..];
        pool.Put(frame.buffer);
      }
    }

    /** Drains the queue: keeps the last IDR frame, or else the last frame, and releases all others. */
    method LatestFrame(first: Frame, ghost s: FrameQueue.State, ghost i: nat)
      returns (current: Frame, idr: bool, dropped: bool)
      requires Valid() && Matches(s) && i < |s.hand| && s.hand[i] == first
      modifies `frameChan, pool, pool.buffers
      ensures Valid() && Matches(FrameQueue.Skips(s, i)) && frameChan == []
      ensures current == Latest(first, old(frameChan)) && idr == current.idr && dropped == (old(frameChan) != [])
    {
      current, dropped := first, false;
      ghost var now, at: nat := s, i;
      while |frameChan| > 0
        invariant Valid() && Matches(now) && at < |now.hand| && now.hand[at] == current
        invariant FrameQueue.Skips(now, at) == FrameQueue.Skips(s, i)
        invariant Latest(current, frameChan) == Latest(first, old(frameChan))
        invariant dropped == (|frameChan| < |old(frameChan)|)
        decreases |frameChan|
      {
        var newer := frameChan[0];
        now, at := FrameQueue.DoSkip(now, at), |now.hand| - 1;
        frameChan := frameChan[1..];
        dropped := true;
        if newer.idr || !current.idr {
          pool.Put(current.buffer);
          current := newer;
        } else {
          pool.Put(newer.buffer);
        }
      }
      idr := current.idr;
    }

    /** Sends frames in order unless the one in hand has waited too long and newer ones are queued. */
    method NextFrame(first: Frame, now: int, ghost s: FrameQueue.State, ghost i: nat)
      returns (current: Frame, idr: bool, dropped: bool)
      requires Valid() && Matches(s) && i < |s.hand| && s.hand[i] == first
      modifies `frameChan, pool, pool.buffers
      ensures Valid() && idr == current.idr
      ensures dropped == (old(frameChan) != [] && first.receivedAt.Some? && now - first.receivedAt.value > MAX_BACKLOG)
      ensures Matches(if dropped then FrameQueue.Skips(s, i) else s)
      ensures current == if dropped then Latest(first, old(frameChan)) else first
    {
      if |frameChan| == 0 || first.receivedAt.None? || now - first.receivedAt.value <= MAX_BACKLOG {
        return first, first.idr, false;
      }
      current, idr, dropped := LatestFrame(first, s, i);
    }

    /** The pusher's receive, skipping ahead if the frame has waited too long. */
    method PickFrame(now: int, ghost s: FrameQueue.State) returns (frame: Frame, dropped: bool)
      requires Valid() && Matches(s) && frameChan != []
      modifies `frameChan, pool, pool.buffers
      ensures Valid() && Matches(Pusher.Picked(s, now)) && Pusher.Picked(s, now).hand == s.hand + [frame]
      ensures dropped == Pusher.Stale(old(frameChan)[0], old(frameChan)[1..], now)
      ensures frame == Pusher.Chosen(old(frameChan)[0], old(frameChan)[1..], now)
    {
      var first := Receive(s);
      ghost var received := FrameQueue.Do(s, FrameQueue.Dequeue);
      assert received.hand[|s.hand|] == first;
      var idr;
      frame, idr, dropped := NextFrame(first, now, received, |s.hand|);
      Pusher.PickedHand(s, now);
    }

    /** One turn of the pusher.  On every path the frame it picked is given back. */
    method PushFrame(session: Option<ViewerSession>, now: int, lost: bool, result: Pusher.WriteResult,
                     ghost s: FrameQueue.State)
      requires Valid() && Matches(s) && frameChan != []
      modifies `frameChan, pool, pool.buffers, if session.Some? then {session.value} else {}
      ensures Valid() && Matches(Pusher.Turn(s, now))
      ensures session.Some? ==>
                var first, rest := old(frameChan)[0], old(frameChan)[1..];
                var skips := Pusher.Stale(first, rest, now);
                var visit := Pusher.Visit(Pusher.Chosen(first, rest, now).idr, lost || skips, result);
                session.value.Value() == Pusher.Visited(old(session.value.Value()), visit)
    {
      ghost var picked, turned := Pusher.Picked(s, now), Pusher.Turn(s, now);
      var frame, dropped := PickFrame(now, s);
      assert picked.hand[|s.hand|] == frame && turned == FrameQueue.DoRelease(picked, |s.hand|);
      if session.None? {
        ReleaseFrame(frame, picked, |s.hand|);
      } else {
        session.value.Visit(frame.idr, lost || dropped, result);
        ReleaseFrame(frame, picked, |s.hand|);
      }
    }
  }

  /** The part of a viewer's session that the pusher keeps. */
  class ViewerSession {
    var needsIdr: bool
    var hasStarted: bool

    function Value(): Pusher.Session
      reads this
    {
      Pusher.Session(needsIdr, hasStarted)
    }

    constructor ()
      ensures Value() == Pusher.NEW
    {
      needsIdr, hasStarted := false, false;
    }

    /** Decides whether a frame is written; until a keyframe comes, deltas are not. */
    method Admit(idr: bool, lost: bool) returns (writes: bool)
      modifies this
      ensures writes <==> idr || !(old(needsIdr) || lost)
      ensures needsIdr == !writes && hasStarted == (old(hasStarted) || idr)
    {
      if lost {
        needsIdr := true;
      }
      if needsIdr {
        if !idr {
          return false;
        }
        needsIdr := false;
      }
      if idr {
        hasStarted := true;
      }
      return true;
    }

    /** A turn of the pusher that ends with this result if the frame is written. */
    method Visit(idr: bool, lost: bool, result: Pusher.WriteResult)
      modifies this
      ensures Value() == Pusher.Visited(old(Value()), Pusher.Visit(idr, lost, result))
    {
      var writes := Admit(idr, lost);
      if writes {
        NoteResult(result);
      }
    }

    /** A write that was abandoned or failed makes a keyframe necessary. */
    method NoteResult(result: Pusher.WriteResult)
      modifies `needsIdr
      ensures needsIdr == (old(needsIdr) || !result.Written?)
    {
      if !result.Written? {
        needsIdr := true;
      }
    }
  }
}

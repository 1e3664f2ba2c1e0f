/**
Who owns each frame buffer, under every interleaving of the reader, the pusher and `stop`.
A step is one operation on the channel or the pool.  `queueFrame` is four of them: the queue's
lock keeps other senders and `stop`'s draining away, but not the pusher, which may receive in between.
*/
module FrameQueue {
  import opened Basics
  import opened FramePool

  /** How far the `queueFrame` that holds the lock has come, with the frame it was given. */
  datatype Sender =
    | Idle
    | Offering(frame: Frame)               // not stopping; about to try the channel
    | Full(frame: Frame)                   // the channel was full; about to evict
    | Room(frame: Frame, dropped: bool)    // about to send for good

  datatype State = State(
    slots: seq<Buffer>,     // the pool
    queue: seq<Frame>,      // the bounded channel
    sender: Sender,
    hand: seq<Frame>,       // frames in the hands of some goroutine
    released: seq<Frame>,   // every release so far
    stopping: bool, drained: bool, nextBuffer: nat, nextNum: nat)

  const START := State([], [], Idle, [], [], false, false, 0, 0)

  datatype Step =
    | Read(size: nat, idr: bool, at: Option<int>, ok: bool)  // a payload arrives, or fails to
    | Offer(i: nat)                                          // `queueFrame` of a frame in hand gets the lock
    | TrySend
    | MakeRoom
    | Send
    | Dequeue                                                // the pusher receives
    | Skip(i: nat)                                           // one turn of `latestFrame`, holding a frame
    | Release(i: nat)                                        // a frame in hand is finished with
    | Stop                                                   // the stop channel closes
    | DrainOne                                               // `stop`, with the lock, receives a frame
    | DrainEnd                                               // `stop` finds the channel empty

  predicate Enabled(s: State, step: Step) {
    match step
    case Read(size, _, _, _) => 0 < size <= MAX_PAYLOAD
    case Offer(i) => s.sender.Idle? && i < |s.hand|
    case TrySend => s.sender.Offering?
    case MakeRoom => s.sender.Full?
    case Send => s.sender.Room? && |s.queue| < QUEUE_CAPACITY
    case Dequeue => s.queue != []
    case Skip(i) => i < |s.hand| && s.queue != []
    case Release(i) => i < |s.hand|
    case Stop => true
    case DrainOne => s.stopping && s.sender.Idle? && s.queue != []
    case DrainEnd => s.stopping && s.sender.Idle? && s.queue == []
  }

  function DoRead(s: State, size: nat, idr: bool, at: Option<int>, ok: bool): State {
    var (rest, b) := Get(s.slots, size, s.nextBuffer);
    var f := Frame(s.nextNum, b, idr, at);
    var t := s.(nextBuffer := s.nextBuffer + 1, nextNum := s.nextNum + 1);
    if ok then t.(slots := rest, hand := s.hand + [f]) else t.(slots := Put(rest, b), released := s.released + [f])
  }

  function DoRelease(s: State, i: nat): State
    requires i < |s.hand|
  {
    s.(slots := Put(s.slots, s.hand[i].buffer), released := s.released + [s.hand[i]], hand := Without(s.hand, i))
  }

  function DoOffer(s: State, i: nat): State
    requires i < |s.hand|
  {
    if s.stopping then DoRelease(s, i) else s.(sender := Offering(s.hand[i]), hand := Without(s.hand, i))
  }

  function DoTrySend(s: State): State
    requires s.sender.Offering?
  {
    if |s.queue| < QUEUE_CAPACITY then s.(sender := Idle, queue := s.queue + [s.sender.frame])
    else s.(sender := Full(s.sender.frame))
  }

  function DoMakeRoom(s: State): State
    requires s.sender.Full?
  {
    if s.queue == [] then s.(sender := Room(s.sender.frame, false))
    else ReleaseHead(s).(sender := Room(s.sender.frame, true))
  }

  function ReleaseHead(s: State): State
    requires s.queue != []
  {
    s.(slots := Put(s.slots, s.queue[0].buffer), released := s.released + [s.queue[0]], queue := s.queue[1..])
  }

  function DoSkip(s: State, i: nat): State
    requires i < |s.hand| && s.queue != []
  {
    var current, newer := s.hand[i], s.queue[0];
    var kept, lost := Better(current, newer), Worse(current, newer);
    s.(slots := Put(s.slots, lost.buffer), released := s.released + [lost],
       queue := s.queue[1..], hand := Without(s.hand, i) + [kept])
  }

  function Do(s: State, step: Step): State
    requires Enabled(s, step)
  {
    match step
    case Read(size, idr, at, ok) => DoRead(s, size, idr, at, ok)
    case Offer(i) => DoOffer(s, i)
    case TrySend => DoTrySend(s)
    case MakeRoom => DoMakeRoom(s)
    case Send => s.(sender := Idle, queue := s.queue + [s.sender.frame])
    case Dequeue => s.(queue := s.queue[1..], hand := s.hand + [s.queue[0]])
    case Skip(i) => DoSkip(s, i)
    case Release(i) => DoRelease(s, i)
    case Stop => s.(stopping := true)
    case DrainOne => ReleaseHead(s)
    case DrainEnd => s.(drained := true)
  }

  // ----- The invariant, one buffer and one frame at a time

  /** The frame a `queueFrame` in progress holds. */
  function Held(s: Sender): seq<Frame> { if s.Idle? then [] else [s.frame] }

  /** How many owners a buffer has: a pool slot, a queued frame or a frame somebody holds. */
  function Owners(s: State, id: nat): nat {
    Cached(s.slots, id) + Count(s.queue, ByBuffer, id) + Count(Held(s.sender), ByBuffer, id) +
    Count(s.hand, ByBuffer, id)
  }

  predicate BufferOk(s: State, id: nat) {
    Owners(s, id) <= if id < s.nextBuffer then 1 else 0
  }

  /** How often a frame is queued, held or released. */
  function Places(s: State, num: nat): nat {
    Count(s.queue, ByNumber, num) + Count(Held(s.sender), ByNumber, num) + Count(s.hand, ByNumber, num) +
    Count(s.released, ByNumber, num)
  }

  predicate FrameOk(s: State, num: nat) {
    Places(s, num) == if num < s.nextNum then 1 else 0
  }

  /**
  The pool and the queue are within their bounds, there is room for whoever is about to send,
  and a drained queue is empty.
  */
  predicate Bounded(s: State) {
    && |s.slots| <= MAX_CACHED && |s.queue| <= QUEUE_CAPACITY
    && (s.sender.Room? ==> |s.queue| < QUEUE_CAPACITY)
    && (s.drained ==> s.stopping && s.queue == [] && s.sender.Idle?)
  }

  ghost predicate Inv(s: State) {
    && Bounded(s)
    && (forall id: nat :: BufferOk(s, id))
    && (forall num: nat :: FrameOk(s, num))
  }

  lemma HeadCount(queue: seq<Frame>, w: Which, k: nat)
    requires queue != []
    ensures Count(queue, w, k) == Count(queue[1..], w, k) + One(queue[0], w, k)
  {
    CountWithout(queue, 0, w, k);
    assert Without(queue, 0) == queue[1..];
  }

  lemma HeldCount(f: Frame, w: Which, k: nat)
    ensures Count([f], w, k) == One(f, w, k)
  {
    CountMore([], f, w, k);
    assert [] + [f] == [f];
  }

  lemma ReadKeepsBuffer(s: State, size: nat, idr: bool, at: Option<int>, ok: bool, id: nat)
    requires BufferOk(s, id)
    ensures BufferOk(DoRead(s, size, idr, at, ok), id)
  {
    var (rest, b) := Get(s.slots, size, s.nextBuffer);
    CachedGet(s.slots, size, s.nextBuffer, id);
    CachedPut(rest, b, id);
    CountMore(s.hand, Frame(s.nextNum, b, idr, at), ByBuffer, id);
  }

  lemma ReadKeepsFrame(s: State, size: nat, idr: bool, at: Option<int>, ok: bool, num: nat)
    requires FrameOk(s, num)
    ensures FrameOk(DoRead(s, size, idr, at, ok), num)
  {
    var f := Frame(s.nextNum, Get(s.slots, size, s.nextBuffer).1, idr, at);
    CountMore(s.hand, f, ByNumber, num);
    CountMore(s.released, f, ByNumber, num);
  }

  lemma ReleaseKeeps(s: State, i: nat, k: nat)
    requires i < |s.hand| && BufferOk(s, k) && FrameOk(s, k)
    ensures var t := DoRelease(s, i); BufferOk(t, k) && FrameOk(t, k)
  {
    CachedPut(s.slots, s.hand[i].buffer, k);
    CountWithout(s.hand, i, ByBuffer, k);
    CountWithout(s.hand, i, ByNumber, k);
    CountMore(s.released, s.hand[i], ByNumber, k);
  }

  lemma OfferKeeps(s: State, i: nat, k: nat)
    requires i < |s.hand| && s.sender.Idle? && !s.stopping && BufferOk(s, k) && FrameOk(s, k)
    ensures var t := DoOffer(s, i); BufferOk(t, k) && FrameOk(t, k)
  {
    CountWithout(s.hand, i, ByBuffer, k);
    CountWithout(s.hand, i, ByNumber, k);
    HeldCount(s.hand[i], ByBuffer, k);
    HeldCount(s.hand[i], ByNumber, k);
  }

  /** A frame moves from the sender's hands to the end of the queue. */
  lemma SentKeeps(s: State, t: State, k: nat)
    requires !s.sender.Idle? && BufferOk(s, k) && FrameOk(s, k)
    requires t == s.(sender := Idle, queue := s.queue + [s.sender.frame])
    ensures BufferOk(t, k) && FrameOk(t, k)
  {
    var f := s.sender.frame;
    HeldCount(f, ByBuffer, k);
    HeldCount(f, ByNumber, k);
    CountMore(s.queue, f, ByBuffer, k);
    CountMore(s.queue, f, ByNumber, k);
  }

  lemma ReleaseHeadKeeps(s: State, k: nat)
    requires s.queue != [] && BufferOk(s, k) && FrameOk(s, k)
    ensures BufferOk(ReleaseHead(s), k) && FrameOk(ReleaseHead(s), k)
  {
    HeadCount(s.queue, ByBuffer, k);
    HeadCount(s.queue, ByNumber, k);
    CachedPut(s.slots, s.queue[0].buffer, k);
    CountMore(s.released, s.queue[0], ByNumber, k);
  }

  lemma DequeueKeeps(s: State, k: nat)
    requires s.queue != [] && BufferOk(s, k) && FrameOk(s, k)
    ensures var t := Do(s, Dequeue); BufferOk(t, k) && FrameOk(t, k)
  {
    HeadCount(s.queue, ByBuffer, k);
    HeadCount(s.queue, ByNumber, k);
    CountMore(s.hand, s.queue[0], ByBuffer, k);
    CountMore(s.hand, s.queue[0], ByNumber, k);
  }

  lemma SkipKeepsBuffer(s: State, i: nat, id: nat)
    requires i < |s.hand| && s.queue != [] && BufferOk(s, id)
    ensures BufferOk(DoSkip(s, i), id)
  {
    var current, newer := s.hand[i], s.queue[0];
    CachedPut(s.slots, Worse(current, newer).buffer, id);
    CountWithout(s.hand, i, ByBuffer, id);
    HeadCount(s.queue, ByBuffer, id);
    CountMore(Without(s.hand, i), Better(current, newer), ByBuffer, id);
  }

  lemma SkipKeepsFrame(s: State, i: nat, num: nat)
    requires i < |s.hand| && s.queue != [] && FrameOk(s, num)
    ensures FrameOk(DoSkip(s, i), num)
  {
    var current, newer := s.hand[i], s.queue[0];
    CountWithout(s.hand, i, ByNumber, num);
    HeadCount(s.queue, ByNumber, num);
    CountMore(Without(s.hand, i), Better(current, newer), ByNumber, num);
    CountMore(s.released, Worse(current, newer), ByNumber, num);
  }

  lemma SendStepKeeps(s: State, step: Step, k: nat)
    requires Enabled(s, step) && (step.TrySend? || step.MakeRoom? || step.Send?) && BufferOk(s, k) && FrameOk(s, k)
    ensures var t := Do(s, step); BufferOk(t, k) && FrameOk(t, k)
  {
    if step.MakeRoom? {
      MakeRoomKeeps(s, k);
    } else if |s.queue| < QUEUE_CAPACITY {
      SentKeeps(s, Do(s, step), k);
    } else {
      SameCounts(s, Do(s, step), k);
    }
  }

  lemma MakeRoomKeeps(s: State, k: nat)
    requires s.sender.Full? && BufferOk(s, k) && FrameOk(s, k)
    ensures BufferOk(DoMakeRoom(s), k) && FrameOk(DoMakeRoom(s), k)
  {
    if s.queue == [] {
      SameCounts(s, DoMakeRoom(s), k);
    } else {
      ReleaseHeadKeeps(s, k);
      SameCounts(ReleaseHead(s), DoMakeRoom(s), k);
    }
  }

  /** Only the sender's progress changed, not what it holds. */
  lemma SameCounts(s: State, t: State, k: nat)
    requires BufferOk(s, k) && FrameOk(s, k) && t == s.(sender := t.sender) && Held(t.sender) == Held(s.sender)
    ensures BufferOk(t, k) && FrameOk(t, k)
  {
  }

  /** Every step keeps one owner per buffer and one place per frame. */
  lemma StepKeepsOne(s: State, step: Step, k: nat)
    requires Enabled(s, step) && BufferOk(s, k) && FrameOk(s, k)
    ensures var t := Do(s, step); BufferOk(t, k) && FrameOk(t, k)
  {
    match step
    case Read(size, idr, at, ok) =>
      ReadKeepsBuffer(s, size, idr, at, ok, k);
      ReadKeepsFrame(s, size, idr, at, ok, k);
    case Offer(i) =>
      if s.stopping {
        ReleaseKeeps(s, i, k);
      } else {
        OfferKeeps(s, i, k);
      }
    case TrySend => SendStepKeeps(s, step, k);
    case MakeRoom => SendStepKeeps(s, step, k);
    case Send => SendStepKeeps(s, step, k);
    case Skip(i) =>
      SkipKeepsBuffer(s, i, k);
      SkipKeepsFrame(s, i, k);
    case Release(i) => ReleaseKeeps(s, i, k);
    case Dequeue => DequeueKeeps(s, k);
    case DrainOne => ReleaseHeadKeeps(s, k);
    case Stop =>
    case DrainEnd =>
  }

  /** Every step keeps the bounds, and nothing enters the queue once `stop` has drained it. */
  lemma StepKeepsBounds(s: State, step: Step)
    requires Enabled(s, step) && Bounded(s)
    ensures Bounded(Do(s, step))
  {
    if step.Read? {
      CachedGet(s.slots, step.size, s.nextBuffer, 0);
    }
  }

  lemma StepKeeps(s: State, step: Step)
    requires Inv(s) && Enabled(s, step)
    ensures Inv(Do(s, step))
  {
    StepKeepsBounds(s, step);
    forall k: nat
      ensures BufferOk(Do(s, step), k) && FrameOk(Do(s, step), k)
    {
      StepKeepsOne(s, step, k);
    }
  }

  // ----- Runs

  /** A run: the states it goes through. */
  ghost predicate IsRun(steps: seq<Step>, states: seq<State>) {
    && |states| == |steps| + 1 && states[0] == START
    && forall i :: 0 <= i < |steps| ==> Enabled(states[i], steps[i]) && states[i + 1] == Do(states[i], steps[i])
  }

  lemma {:induction false} RunInv(steps: seq<Step>, states: seq<State>, n: nat)
    requires IsRun(steps, states) && n < |states|
    ensures Inv(states[n])
  {
    if n == 0 {
    } else {
      RunInv(steps, states, n - 1);
      StepKeeps(states[n - 1], steps[n - 1]);
    }
  }

  /** At every step of every run a backing array has at most one owner, and a frame is released at most once. */
  lemma OneOwner(steps: seq<Step>, states: seq<State>, n: nat, k: nat)
    requires IsRun(steps, states) && n < |states|
    ensures Owners(states[n], k) <= 1 && Count(states[n].released, ByNumber, k) <= 1
    ensures |states[n].queue| <= QUEUE_CAPACITY && |states[n].slots| <= MAX_CACHED
  {
    RunInv(steps, states, n);
    assert BufferOk(states[n], k) && FrameOk(states[n], k);
  }

  /** The final send of `queueFrame` never blocks, whatever the pusher received in the meantime. */
  lemma SendNeverBlocks(steps: seq<Step>, states: seq<State>, n: nat)
    requires IsRun(steps, states) && n < |states| && states[n].sender.Room?
    ensures Enabled(states[n], Send)
  {
    RunInv(steps, states, n);
  }

  lemma {:induction false} DrainedStays(steps: seq<Step>, states: seq<State>, m: nat, n: nat)
    requires IsRun(steps, states) && m <= n < |states| && states[m].drained
    ensures states[n].drained && states[n].queue == [] && states[n].sender.Idle?
    decreases n
  {
    RunInv(steps, states, n);
    if m == n {
    } else {
      DrainedStays(steps, states, m, n - 1);
    }
  }

  /**
  Once `stop` has drained the queue and no frame is in hand, every frame ever read has been
  released exactly once.
  */
  lemma AllReleased(steps: seq<Step>, states: seq<State>, m: nat, n: nat, num: nat)
    requires IsRun(steps, states) && m <= n < |states| && states[m].drained && states[n].hand == []
    ensures Count(states[n].released, ByNumber, num) == if num < states[n].nextNum then 1 else 0
  {
    RunInv(steps, states, n);
    DrainedStays(steps, states, m, n);
    assert FrameOk(states[n], num);
  }

  // ----- Calls that run undisturbed

  /** `queueFrame` of a frame in hand. */
  function Enqueue(s: State, i: nat): State
    requires i < |s.hand| && s.sender.Idle?
  {
    var offered := DoOffer(s, i);
    if offered.sender.Idle? then offered
    else
      var tried := DoTrySend(offered);
      if tried.sender.Idle? then tried
      else
        var roomy := DoMakeRoom(tried);
        if |roomy.queue| < QUEUE_CAPACITY then Do(roomy, Send) else roomy
  }

  /** It always gives the frame up: to the queue, or when stopping to the pool. */
  lemma EnqueueHandsOver(s: State, i: nat)
    requires i < |s.hand| && s.sender.Idle? && Bounded(s)
    ensures var t := Enqueue(s, i);
            && t.sender.Idle? && t.hand == Without(s.hand, i)
            && t.queue == (if s.stopping then s.queue
                           else if |s.queue| == QUEUE_CAPACITY then s.queue[1..] + [s.hand[i]]
                           else s.queue + [s.hand[i]])
            && t.released == s.released + (if s.stopping then [s.hand[i]]
                                           else if |s.queue| == QUEUE_CAPACITY then s.queue[..1] else [])
  {
  }

  /** `stop`: turns of the draining loop until the queue is empty. */
  function Drain(s: State): State
    requires s.stopping && s.sender.Idle?
    decreases |s.queue|
  {
    if s.queue == [] then Do(s, DrainEnd) else Drain(Do(s, DrainOne))
  }

  /** `latestFrame`: one turn after another until the queue is empty. */
  function Skips(s: State, i: nat): State
    requires i < |s.hand|
    decreases |s.queue|
  {
    if s.queue == [] then s else Skips(DoSkip(s, i), |s.hand| - 1)
  }

  /** It empties the queue and ends with the last IDR frame, or else the last frame, in hand. */
  lemma {:induction false} SkipsKeepLatest(s: State, i: nat)
    requires i < |s.hand|
    ensures var t := Skips(s, i);
            t.queue == [] && (s.queue != [] ==> t.hand == Without(s.hand, i) + [Latest(s.hand[i], s.queue)])
    decreases |s.queue|
  {
    if s.queue == [] {
    } else {
      var t, last := DoSkip(s, i), |s.hand| - 1;
      assert t.hand[last] == Better(s.hand[i], s.queue[0]) && t.queue == s.queue[1..];
      assert Without(t.hand, last) == Without(s.hand, i);
      SkipsKeepLatest(t, last);
    }
  }

  /** It has released every other, each to the pool. */
  lemma {:induction false} SkipsReleaseOthers(s: State, i: nat)
    requires i < |s.hand|
    ensures Skips(s, i).released == s.released + Losers(s.hand[i], s.queue)
    ensures Skips(s, i).slots == PutAll(s.slots, Losers(s.hand[i], s.queue))
    decreases |s.queue|
  {
    if s.queue == [] {
    } else {
      var t, last := DoSkip(s, i), |s.hand| - 1;
      var worse, losers := Worse(s.hand[i], s.queue[0]), Losers(t.hand[last], t.queue);
      assert t.hand[last] == Better(s.hand[i], s.queue[0]) && t.queue == s.queue[1..];
      assert Losers(s.hand[i], s.queue) == [worse] + losers && ([worse] + losers)[1..] == losers;
      calc {
        Skips(s, i).released;
        Skips(t, last).released;
        { SkipsReleaseOthers(t, last); }
        (s.released + [worse]) + losers;
        s.released + ([worse] + losers);
      }
      calc {
        Skips(s, i).slots;
        Skips(t, last).slots;
        { SkipsReleaseOthers(t, last); }
        PutAll(Put(s.slots, worse.buffer), losers);
        PutAll(s.slots, [worse] + losers);
      }
    }
  }
}

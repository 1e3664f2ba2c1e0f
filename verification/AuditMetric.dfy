/** Which events the forwarder gives up on, and when its dropped-events metric tells the truth about them. */
module AuditMetric {
  import opened Basics
  import opened AuditSpec
  import opened AuditRelay
  import opened AuditProtocol
  import opened AuditSafety
  import opened AuditRecovery

  /** Dropped events that no one will count any more. */
  function Forgotten(s: Sys, step: Step): nat { if step.Crash? then s.uncounted else 0 }

  // ----- One step

  function Entering(step: Step): set<string> { if step.Persist? then {step.p.id} else {} }

  /** The ids whose rows a step deletes. */
  function Leaving(c: Config, s: Sys, step: Step): set<string> {
    if step.DeleteFinished? then IdSet(s.finishing) else GivenUp(c, s, step)
  }

  /** Which events the table gains and loses from one state to another. */
  ghost predicate Flows(s: Sys, r: Sys, into: set<string>, out: set<string>) {
    && out <= IdSet(All(s))
    && IdSet(All(r)) == IdSet(All(s)) + into - out
    && r.known.Keys == s.known.Keys + into
  }

  lemma FlowOut(s: Sys, r: Sys, out: set<string>)
    requires IdSet(All(r)) == IdSet(All(s)) - out && out <= IdSet(All(s)) && r.known == s.known
    ensures Flows(s, r, {}, out)
  {
    assert IdSet(All(s)) + {} == IdSet(All(s)) && s.known.Keys + {} == s.known.Keys;
  }

  lemma AllKnown(s: Sys)
    requires Genuine(s.known, All(s))
    ensures IdSet(All(s)) <= s.known.Keys
  {
    forall id | id in IdSet(All(s))
      ensures id in s.known
    {
      var i := IdSetIndex(All(s), id);
    }
  }

  lemma PartsKnown(s: Sys)
    ensures IdSet(s.queue) <= IdSet(All(s)) && IdSet(s.inflight) <= IdSet(All(s)) && IdSet(s.finishing) <= IdSet(All(s))
  {
    IdSetJoin(s.queue, Arriving(s.arriving));
    IdSetJoin(s.inflight, s.queue + Arriving(s.arriving));
    IdSetJoin(s.finishing, Pending(s));
  }

  lemma DropQueuedFlows(s: Sys, ids: set<string>, n: nat)
    requires InOrder(s.order, All(s)) && ids <= IdSet(s.queue)
    ensures Flows(s, DropQueued(s, ids, n), {}, ids)
  {
    PartsKnown(s);
    QueueWithout(s.order, s.finishing, s.inflight, s.queue, Arriving(s.arriving), ids);
    WithoutMembers(All(s), ids);
    FlowOut(s, DropQueued(s, ids, n), ids);
  }

  lemma EvictFlows(s: Sys)
    requires Inv(s) && Enabled(s, Evict)
    ensures Flows(s, DoEvict(s), {}, {s.queue[0].p.id})
  {
    QueueInOrder(s);
    WithoutFirst(s.order, s.queue);
    IdSetAt(s.queue, 0);
    DropQueuedFlows(s, {s.queue[0].p.id}, 1);
  }

  lemma ExpireFlows(c: Config, s: Sys, now: int)
    requires Inv(s) && Enabled(s, Expire(now))
    ensures var gone := ExpiredIds(s.queue, now, c.retention);
            Flows(s, DoExpire(c, s, now), {}, ToSet(gone)) && |ToSet(gone)| == |gone|
  {
    QueueInOrder(s);
    ExpiryIsDeletion(s.order, s.queue, now, c.retention);
    var gone := ExpiredIds(s.queue, now, c.retention);
    DropQueuedFlows(s, ToSet(gone), |gone|);
  }

  lemma DeleteFlows(s: Sys)
    requires Inv(s) && Enabled(s, DeleteFinished)
    ensures Flows(s, DoDelete(s), {}, IdSet(s.finishing)) && |IdSet(s.finishing)| == |s.finishing|
  {
    PartsKnown(s);
    QueueInOrder(s);
    IdSetSize(s.order, s.finishing);
    DeleteParts(s.order, s.finishing, Pending(s));
    WithoutMembers(All(s), IdSet(s.finishing));
    FlowOut(s, DoDelete(s), IdSet(s.finishing));
  }

  lemma LoadSets(order: map<string, nat>, q: seq<Event>, now: int, retention: int)
    requires InOrder(order, q)
    ensures var back := Loaded(RowsOf(q), QUEUE_LIMIT, now, retention);
            && IdSet(back) == IdSet(q) - (IdSet(q) - IdSet(back))
            && |IdSet(q) - IdSet(back)| == |q| - |back|
  {
    var back := Loaded(RowsOf(q), QUEUE_LIMIT, now, retention);
    LoadIsDeletion(order, q, now, retention);
    RestoredInOrder(order, q);
    WithoutInOrder(order, RestoredAll(q), IdSet(q) - IdSet(back));
    IdSetSize(order, q);
    IdSetSize(order, back);
    assert IdSet(q) == (IdSet(q) - IdSet(back)) + IdSet(back);
  }

  lemma LoadFlows(c: Config, s: Sys, now: int)
    requires Inv(s) && Enabled(s, Load(now))
    ensures Flows(s, DoLoad(c, s, now), {}, Lost(c, s, now))
    ensures |Lost(c, s, now)| == DoLoad(c, s, now).uncounted
  {
    CrashParts(s.queue);
    CrashParts(Loaded(s.table, QUEUE_LIMIT, now, c.retention));
    LoadSets(s.order, s.queue, now, c.retention);
    FlowOut(s, DoLoad(c, s, now), Lost(c, s, now));
  }

  lemma PersistFlows(s: Sys, p: Payload, now: int)
    requires Enabled(s, Persist(p, now))
    ensures Flows(s, DoPersist(s, p, now), {p.id}, {})
  {
    PersistParts(s.finishing, s.inflight, s.queue, Event(p, now));
    IdSetJoin(All(s), [Event(p, now)]);
    IdSetOne(Event(p, now));
  }

  lemma CrashFlows(s: Sys)
    ensures Flows(s, DoCrash(s), {}, {})
  {
    CrashParts(RestoredAll(All(s)));
    RestoredIds(All(s));
  }

  /** Steps that only move events about within memory. */
  lemma SameFlows(s: Sys, r: Sys)
    requires All(r) == All(s) && r.known == s.known
    ensures Flows(s, r, {}, {})
  {
  }

  lemma AppendFlows(s: Sys)
    requires Enabled(s, Append)
    ensures Flows(s, DoAppend(s), {}, {})
  {
    assert s.queue + [s.arriving.value] == (s.queue + [s.arriving.value]) + [];
    SameFlows(s, DoAppend(s));
  }

  lemma CutFlows(c: Config, s: Sys)
    requires Enabled(s, Cut)
    ensures Flows(s, DoCut(c, s), {}, {})
  {
    CutParts(s.queue, BatchLen(c.overhead, s.queue, 0));
    SameFlows(s, DoCut(c, s));
  }

  lemma FinishFlows(s: Sys)
    requires Enabled(s, Reject)
    ensures Flows(s, DoReject(s), {}, {}) && Flows(s, DoAck(s), {}, {})
  {
    FinishParts(s.inflight, s.queue);
    SameFlows(s, DoReject(s));
    SameFlows(s, DoAck(s));
  }

  lemma RetryFlows(s: Sys)
    requires Enabled(s, Retry)
    ensures Flows(s, DoRetry(s), {}, {})
  {
    assert s.inflight + (s.queue + []) == [] + ((s.inflight + s.queue) + []);
    SameFlows(s, DoRetry(s));
  }

  predicate Deletes(step: Step) { step.Evict? || step.Expire? || step.DeleteFinished? || step.Load? }

  lemma QuietFlows(c: Config, s: Sys, step: Step)
    requires Inv(s) && Enabled(s, step) && !Deletes(step)
    ensures Flows(s, Do(c, s, step), Entering(step), Leaving(c, s, step))
  {
    match step
    case Persist(p, now) => PersistFlows(s, p, now);
    case Append => AppendFlows(s);
    case Cut => CutFlows(c, s);
    case Deliver(batch, env) => SameFlows(s, DoDeliver(c, s, batch, env));
    case Ack => FinishFlows(s);
    case Reject => FinishFlows(s);
    case Retry => RetryFlows(s);
    case Count(n) => SameFlows(s, DoCount(s, n));
    case Crash => CrashFlows(s);
  }

  lemma DeletionFlows(c: Config, s: Sys, step: Step)
    requires Inv(s) && Enabled(s, step) && Deletes(step)
    ensures Flows(s, Do(c, s, step), Entering(step), Leaving(c, s, step))
    ensures Do(c, s, step).dropCount == s.dropCount && Do(c, s, step).acked == s.acked
    ensures Do(c, s, step).uncounted == s.uncounted + |GivenUp(c, s, step)|
  {
    match step
    case Evict => EvictFlows(s);
    case Expire(now) => ExpireFlows(c, s, now);
    case DeleteFinished => DeleteFlows(s);
    case Load(now) => LoadFlows(c, s, now);
  }

  lemma StepFlows(c: Config, s: Sys, step: Step)
    requires Inv(s) && Enabled(s, step)
    ensures Flows(s, Do(c, s, step), Entering(step), Leaving(c, s, step))
  {
    if Deletes(step) {
      DeletionFlows(c, s, step);
    } else {
      QuietFlows(c, s, step);
    }
  }

  lemma QuietCounts(c: Config, s: Sys, step: Step)
    requires Enabled(s, step) && !Deletes(step)
    ensures Do(c, s, step).acked == if step.Ack? then s.acked + IdSet(s.inflight) else s.acked
    ensures Do(c, s, step).dropCount == s.dropCount + if step.Count? then step.n else 0
    ensures Do(c, s, step).dropCount + Do(c, s, step).uncounted == s.dropCount + s.uncounted - Forgotten(s, step)
  {
  }

  /** Every event given up on is to be counted, and only acknowledged batches are noted as such. */
  lemma StepCounts(c: Config, s: Sys, step: Step)
    requires Inv(s) && Enabled(s, step)
    ensures Do(c, s, step).acked == if step.Ack? then s.acked + IdSet(s.inflight) else s.acked
    ensures Do(c, s, step).dropCount == s.dropCount + if step.Count? then step.n else 0
    ensures Do(c, s, step).dropCount + Do(c, s, step).uncounted ==
            s.dropCount + s.uncounted + |GivenUp(c, s, step)| - Forgotten(s, step)
  {
    if Deletes(step) {
      DeletionFlows(c, s, step);
    } else {
      QuietCounts(c, s, step);
    }
  }

  lemma FlowDrops(s: Sys, r: Sys, out: set<string>)
    requires Flows(s, r, {}, out) && IdSet(All(s)) <= s.known.Keys && r.acked == s.acked
    ensures Dropped(r) == Dropped(s) + (out - s.acked)
  {
  }

  lemma PersistDrops(s: Sys, r: Sys, id: string)
    requires Flows(s, r, {id}, {}) && IdSet(All(s)) <= s.known.Keys && r.acked == s.acked && id !in s.known
    ensures Dropped(r) == Dropped(s) + ({} - s.acked)
  {
  }

  lemma AckDrops(s: Sys, r: Sys)
    requires Flows(s, r, {}, {}) && r.acked == s.acked + IdSet(s.inflight)
    ensures Dropped(r) == Dropped(s) + ({} - s.acked)
  {
    PartsKnown(s);
  }

  lemma DeleteDrops(s: Sys, r: Sys)
    requires Flows(s, r, {}, IdSet(s.finishing)) && IdSet(s.finishing) <= s.acked && r.acked == s.acked
    ensures Dropped(r) == Dropped(s) + ({} - s.acked)
  {
  }

  lemma FlowsDrop(c: Config, s: Sys, step: Step, r: Sys)
    requires Flows(s, r, Entering(step), Leaving(c, s, step)) && IdSet(All(s)) <= s.known.Keys
    requires r.acked == if step.Ack? then s.acked + IdSet(s.inflight) else s.acked
    requires step.Persist? ==> step.p.id !in s.known
    requires step.DeleteFinished? && !s.rejected ==> IdSet(s.finishing) <= s.acked
    ensures Dropped(r) == Dropped(s) + (GivenUp(c, s, step) - s.acked)
  {
    if step.Persist? {
      PersistDrops(s, r, step.p.id);
    } else if step.Ack? {
      AckDrops(s, r);
    } else if step.DeleteFinished? && !s.rejected {
      DeleteDrops(s, r);
    } else {
      FlowDrops(s, r, Leaving(c, s, step));
    }
  }

  /**
  The dropped events change in no other way than by a step giving up on some: the oldest
  queued one, expired ones, a rejected batch, or what a reload leaves behind.
  */
  lemma StepDrops(c: Config, s: Sys, step: Step)
    requires Inv(s) && Enabled(s, step)
    ensures GivenUp(c, s, step) <= IdSet(All(s))
    ensures Dropped(Do(c, s, step)) == Dropped(s) + (GivenUp(c, s, step) - s.acked)
  {
    StepFlows(c, s, step);
    StepCounts(c, s, step);
    AllKnown(s);
    FlowsDrop(c, s, step, Do(c, s, step));
  }

  // ----- The metric

  /** Events counted as dropped although the relay acknowledged them. */
  function Overcounted(c: Config, s: Sys, step: Step): nat { |GivenUp(c, s, step) * s.acked| }

  lemma GivenSizes(dropped: set<string>, given: set<string>, acked: set<string>)
    requires given !! dropped
    ensures |dropped + (given - acked)| == |dropped| + |given| - |given * acked|
    ensures |dropped + (given - acked)| == |dropped| + |given - acked|
  {
    assert given == (given - acked) + given * acked;
    assert (given - acked) !! (given * acked) && dropped !! (given - acked);
  }

  /**
  How one step moves the metric against the number of dropped events.  With what is about to be
  counted, the metric gains on the truth exactly when a step gives up on acknowledged events,
  and falls behind exactly when a crash comes between deleting rows and counting them.
  */
  lemma GapChanges(c: Config, s: Sys, step: Step)
    requires Inv(s) && Enabled(s, step)
    ensures Gap(Do(c, s, step)) == Gap(s) + Overcounted(c, s, step) - Forgotten(s, step)
    ensures Gap(Do(c, s, step)) != Gap(s) <==>
            (step.Crash? && s.uncounted > 0) || GivenUp(c, s, step) * s.acked != {}
  {
    StepDrops(c, s, step);
    StepCounts(c, s, step);
    GivenSizes(Dropped(s), GivenUp(c, s, step), s.acked);
  }

  /** The same for the metric alone: it moves against the truth exactly when a step drops events or counts some. */
  lemma MetricMoves(c: Config, s: Sys, step: Step)
    requires Inv(s) && Enabled(s, step)
    ensures var r := Do(c, s, step);
            && r.dropCount - |Dropped(r)| ==
               s.dropCount - |Dropped(s)| + (if step.Count? then step.n else 0) - |GivenUp(c, s, step) - s.acked|
            && (r.dropCount - |Dropped(r)| != s.dropCount - |Dropped(s)| <==>
                step.Count? || GivenUp(c, s, step) - s.acked != {})
  {
    StepDrops(c, s, step);
    StepCounts(c, s, step);
    GivenSizes(Dropped(s), GivenUp(c, s, step), s.acked);
  }

  // ----- Whole runs

  function Total(c: Config, states: seq<Sys>, steps: seq<Step>, n: nat): (t: int)
    requires n <= |states| && n <= |steps|
  {
    if n == 0 then 0
    else Total(c, states, steps, n - 1) + Overcounted(c, states[n - 1], steps[n - 1]) -
         Forgotten(states[n - 1], steps[n - 1])
  }

  /** Dropped are exactly the events some earlier step gave up on before they were acknowledged. */
  lemma {:induction false} DroppedByAStep(c: Config, relay: Tables, states: seq<Sys>, steps: seq<Step>, n: nat,
                                          id: string)
    requires UniqueIds(relay) && IsRun(c, states, steps) && states[0] == Start(relay) && n < |states|
    ensures id in Dropped(states[n]) <==> GivenUpBefore(c, states, steps, n, id)
    decreases n
  {
    if n == 0 {
    } else {
      DroppedByAStep(c, relay, states, steps, n - 1, id);
      RunInv(c, relay, states, steps, n - 1);
      StepDrops(c, states[n - 1], steps[n - 1]);
    }
  }

  ghost predicate GivenUpBefore(c: Config, states: seq<Sys>, steps: seq<Step>, n: nat, id: string)
    requires n <= |steps| && n <= |states|
  {
    exists i :: 0 <= i < n && id in GivenUp(c, states[i], steps[i]) && id !in states[i].acked
  }

  /**
  In every state of every run each event ever persisted is in the table, or was acknowledged,
  or some step gave up on it.  The table holds the events in the order they arrived and
  never more than 1051 of them, of which at most 1000 are queued or in flight.
  */
  lemma NothingLost(c: Config, relay: Tables, states: seq<Sys>, steps: seq<Step>, n: nat)
    requires UniqueIds(relay) && IsRun(c, states, steps) && states[0] == Start(relay) && n < |states|
    ensures var s := states[n];
            && s.table == RowsOf(All(s)) && InOrder(s.order, All(s)) && |s.table| <= TABLE_LIMIT
            && (s.up ==> |s.inflight| + |s.queue| <= QUEUE_LIMIT)
            && forall id :: id in s.known ==>
                 id in IdSet(All(s)) || id in s.acked || GivenUpBefore(c, states, steps, n, id)
  {
    RunInv(c, relay, states, steps, n);
    var s := states[n];
    forall id | id in s.known && id !in IdSet(All(s)) && id !in s.acked
      ensures GivenUpBefore(c, states, steps, n, id)
    {
      DroppedByAStep(c, relay, states, steps, n, id);
    }
  }

  /** The metric at any point of any run is off by what was counted wrongly less what crashes kept it from counting. */
  lemma {:induction false} MetricOverRun(c: Config, relay: Tables, states: seq<Sys>, steps: seq<Step>, n: nat)
    requires UniqueIds(relay) && IsRun(c, states, steps) && states[0] == Start(relay) && n < |states|
    ensures states[n].dropCount + states[n].uncounted == |Dropped(states[n])| + Total(c, states, steps, n)
    decreases n
  {
    if n == 0 {
      assert Dropped(states[0]) == {};
    } else {
      MetricOverRun(c, relay, states, steps, n - 1);
      RunInv(c, relay, states, steps, n - 1);
      GapChanges(c, states[n - 1], steps[n - 1]);
    }
  }

  // ----- When the metric is exact

  /** A crash now would lose a count, or bring back events that were acknowledged. */
  predicate Fragile(s: Sys) { s.uncounted > 0 || (s.finishing != [] && !s.rejected) }

  /** No event is waiting that the relay has acknowledged. */
  ghost predicate NoneTwice(s: Sys) {
    IdSet(All(s)) * s.acked <= if s.rejected then {} else IdSet(s.finishing)
  }

  lemma TwiceKept(s: Sys, r: Sys, into: set<string>, out: set<string>)
    requires NoneTwice(s) && Flows(s, r, into, out) && r.acked == s.acked && into !! s.acked
    requires r.rejected == s.rejected && r.finishing == s.finishing
    ensures NoneTwice(r)
  {
  }

  lemma TwiceFinish(s: Sys)
    requires NoneTwice(s) && Enabled(s, Reject)
    ensures NoneTwice(DoAck(s)) && NoneTwice(DoReject(s))
  {
    FinishFlows(s);
  }

  lemma TwiceGone(s: Sys, r: Sys)
    requires NoneTwice(s) && Flows(s, r, {}, IdSet(s.finishing)) && r.acked == s.acked
    ensures NoneTwice(r)
  {
  }

  lemma TwiceFlows(c: Config, s: Sys, step: Step, r: Sys)
    requires NoneTwice(s) && Flows(s, r, Entering(step), Leaving(c, s, step))
    requires r.acked == s.acked && Entering(step) !! s.acked
    requires if step.DeleteFinished? then r.finishing == [] else r.finishing == s.finishing && r.rejected == s.rejected
    ensures NoneTwice(r)
  {
    if step.DeleteFinished? {
      TwiceGone(s, r);
    } else {
      TwiceKept(s, r, Entering(step), Leaving(c, s, step));
    }
  }

  lemma KeepsFinishing(c: Config, s: Sys, step: Step)
    requires Enabled(s, step) && !step.Ack? && !step.Reject? && !step.Crash?
    ensures var r := Do(c, s, step);
            if step.DeleteFinished? then r.finishing == [] else r.finishing == s.finishing && r.rejected == s.rejected
  {
  }

  lemma EntersUnacked(s: Sys, step: Step)
    requires Inv(s) && Enabled(s, step)
    ensures Entering(step) !! s.acked
  {
  }

  lemma TwiceCrash(s: Sys)
    requires NoneTwice(s) && !Fragile(s)
    ensures NoneTwice(DoCrash(s))
  {
    CrashFlows(s);
  }

  /** An acknowledged event can come back only through a crash before its row is deleted. */
  lemma TwiceOnlyByCrash(c: Config, s: Sys, step: Step)
    requires Inv(s) && Enabled(s, step) && NoneTwice(s) && (step.Crash? ==> !Fragile(s))
    ensures NoneTwice(Do(c, s, step))
  {
    if step.Ack? || step.Reject? {
      TwiceFinish(s);
    } else if step.Crash? {
      TwiceCrash(s);
    } else {
      StepFlows(c, s, step);
      StepCounts(c, s, step);
      KeepsFinishing(c, s, step);
      EntersUnacked(s, step);
      TwiceFlows(c, s, step, Do(c, s, step));
    }
  }

  lemma GivenFromQueue(s: Sys, ids: set<string>)
    requires InOrder(s.order, All(s)) && NoneTwice(s) && ids <= IdSet(s.queue)
    ensures ids * s.acked == {}
  {
    PartsKnown(s);
    SplitParts(s.order, s.finishing, s.inflight, s.queue + Arriving(s.arriving));
    IdSetJoin(s.queue, Arriving(s.arriving));
  }

  lemma GivenOnce(c: Config, s: Sys, step: Step)
    requires Inv(s) && Enabled(s, step) && NoneTwice(s)
    ensures GivenUp(c, s, step) * s.acked == {}
  {
    match step
    case Evict => IdSetAt(s.queue, 0); GivenFromQueue(s, GivenUp(c, s, step));
    case Expire(now) =>
      QueueInOrder(s);
      ExpiryIsDeletion(s.order, s.queue, now, c.retention);
      GivenFromQueue(s, GivenUp(c, s, step));
    case DeleteFinished => PartsKnown(s);
    case Load(now) => GivenFromQueue(s, GivenUp(c, s, step));
    case _ =>
  }

  lemma {:induction false} NoneTwiceOverRun(c: Config, relay: Tables, states: seq<Sys>, steps: seq<Step>, n: nat)
    requires UniqueIds(relay) && IsRun(c, states, steps) && states[0] == Start(relay) && n < |states|
    requires forall i :: 0 <= i < n && steps[i].Crash? ==> !Fragile(states[i])
    ensures NoneTwice(states[n])
    decreases n
  {
    if n == 0 {
    } else {
      NoneTwiceOverRun(c, relay, states, steps, n - 1);
      RunInv(c, relay, states, steps, n - 1);
      TwiceOnlyByCrash(c, states[n - 1], steps[n - 1]);
    }
  }

  /**
  In a run whose crashes all fall on moments with nothing left to count and no acknowledged
  batch left to delete, the metric counts the dropped events and nothing else.
  */
  lemma {:induction false} MetricIsExact(c: Config, relay: Tables, states: seq<Sys>, steps: seq<Step>, n: nat)
    requires UniqueIds(relay) && IsRun(c, states, steps) && states[0] == Start(relay) && n < |states|
    requires forall i :: 0 <= i < n && steps[i].Crash? ==> !Fragile(states[i])
    ensures states[n].dropCount + states[n].uncounted == |Dropped(states[n])|
    decreases n
  {
    if n == 0 {
      assert Dropped(states[0]) == {};
    } else {
      MetricIsExact(c, relay, states, steps, n - 1);
      RunInv(c, relay, states, steps, n - 1);
      NoneTwiceOverRun(c, relay, states, steps, n - 1);
      GivenOnce(c, states[n - 1], steps[n - 1]);
      GapChanges(c, states[n - 1], steps[n - 1]);
    }
  }
}

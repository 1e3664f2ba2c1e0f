/** Runs of the audit protocol that go wrong: the metric misses an event, or miscounts one, or an event is lost. */
module AuditRuns {
  import opened Basics
  import opened AuditSpec
  import opened AuditRelay
  import opened AuditProtocol
  import opened AuditSafety
  import opened AuditRecovery
  import opened AuditMetric

  // ----- One event in flight

  predicate Fresh(relay: Tables, p: Payload) {
    p.id != "" && !Has(relay.logins, p.id) && !Has(relay.clips, p.id)
  }

  /** The state after one event has been persisted, queued and posted. */
  function OneInFlight(relay: Tables, e: Event): Sys {
    Sys(true, [], false, [e], [], None, [RowOf(e)], {[e.p]}, {}, relay, map[e.p.id := e.p], map[e.p.id := 0], {}, 0, 0)
  }

  lemma OneCut(c: Config, relay: Tables, e: Event)
    ensures DoCut(c, OneInFlight(relay, e).(inflight := [], queue := [e], posted := {})) == OneInFlight(relay, e)
  {
    BatchIsLongestPrefix(c.overhead, [e]);
    assert [e][..1] == [e] && [e][1..] == [];
    assert Payloads([e]) == [e.p];
  }

  lemma PostOne(c: Config, relay: Tables, e: Event) returns (states: seq<Sys>, steps: seq<Step>)
    requires Fresh(relay, e.p)
    ensures IsRun(c, states, steps) && states[0] == Start(relay)
    ensures states[|states| - 1] == OneInFlight(relay, e) && steps == [Persist(e.p, e.enqueuedAt), Append, Cut]
  {
    assert [] + [RowOf(e)] == [RowOf(e)] && [] + [e] == [e];
    states, steps := RunMore(c, [Start(relay)], [], Persist(e.p, e.enqueuedAt));
    states, steps := RunMore(c, states, steps, Append);
    OneCut(c, relay, e);
    states, steps := RunMore(c, states, steps, Cut);
  }

  // ----- Dropped, and never counted

  /**
  The relay rejects a batch, its row is deleted, and the process ends before the metric is raised:
  the event is gone for good and no later count can make up for it.
  */
  lemma DroppedUncounted(c: Config, relay: Tables, e: Event) returns (states: seq<Sys>, steps: seq<Step>)
    requires Fresh(relay, e.p)
    ensures IsRun(c, states, steps) && states[0] == Start(relay)
    ensures var s := states[|states| - 1];
            s.dropCount == 0 && s.uncounted == 0 && s.table == [] && Dropped(s) == {e.p.id}
    ensures steps == [Persist(e.p, e.enqueuedAt), Append, Cut, Reject, DeleteFinished, Crash]
  {
    states, steps := PostOne(c, relay, e);
    states, steps := RunMore(c, states, steps, Reject);
    IdSetOne(e);
    assert RowsWithout([RowOf(e)], {e.p.id}) == [] by { assert [RowOf(e)][..0] == []; }
    states, steps := RunMore(c, states, steps, DeleteFinished);
    assert states[|states| - 1].uncounted == 1 && RestoredAll(All(states[|states| - 1])) == [];
    states, steps := RunMore(c, states, steps, Crash);
    assert states[|states| - 1].known.Keys == {e.p.id};
  }

  // ----- Acknowledged, and counted as dropped

  lemma ExpiredRow(c: Config, e: Event, now: int)
    requires Expired(Restored(e).enqueuedAt, now, c.retention)
    ensures Loaded([RowOf(e)], QUEUE_LIMIT, now, c.retention) == []
  {
    assert [RowOf(e)][..0] == [];
    assert !RowUsable(RowOf(e), now, c.retention);
    assert UsableEvents([RowOf(e)], now, c.retention) == [];
  }

  lemma OneExpires(c: Config, s: Sys, e: Event, now: int)
    requires s.queue == [Restored(e)] && s.table == [RowOf(e)] && Expired(Restored(e).enqueuedAt, now, c.retention)
    ensures DoLoad(c, s, now) == s.(up := true, queue := [], table := [], uncounted := 1)
  {
    IdSetOne(Restored(e));
    ExpiredRow(c, e, now);
    assert RowsWithout([RowOf(e)], {e.p.id}) == [] by { assert [RowOf(e)][..0] == []; }
  }

  lemma OneAcked(c: Config, relay: Tables, e: Event, env: Env)
    requires Status(env, Request(c.machineId, Some([e.p]))).Accepted?
    ensures Enabled(DoDeliver(c, OneInFlight(relay, e), [e.p], env), Ack)
    ensures DoAck(DoDeliver(c, OneInFlight(relay, e), [e.p], env)) ==
            OneInFlight(Ingest(env, relay, Request(c.machineId, Some([e.p]))), e)
            .(accepted := {[e.p]}, acked := {e.p.id}, finishing := [e], inflight := [])
  {
    assert Payloads([e]) == [e.p];
    IdSetOne(e);
  }

  lemma AcknowledgeOne(c: Config, relay: Tables, e: Event, env: Env) returns (states: seq<Sys>, steps: seq<Step>)
    requires Fresh(relay, e.p) && Status(env, Request(c.machineId, Some([e.p]))).Accepted?
    ensures IsRun(c, states, steps) && states[0] == Start(relay)
    ensures states[|states| - 1] ==
            OneInFlight(Ingest(env, relay, Request(c.machineId, Some([e.p]))), e)
            .(accepted := {[e.p]}, acked := {e.p.id}, finishing := [e], inflight := [])
    ensures steps == [Persist(e.p, e.enqueuedAt), Append, Cut, Deliver([e.p], env), Ack]
  {
    states, steps := PostOne(c, relay, e);
    states, steps := RunMore(c, states, steps, Deliver([e.p], env));
    OneAcked(c, relay, e, env);
    states, steps := RunMore(c, states, steps, Ack);
  }

  /**
  The relay acknowledges a batch and the process ends before the row is deleted.  The reload finds
  the row expired, and the metric counts an event that reached the relay.
  */
  lemma AcknowledgedCounted(c: Config, relay: Tables, e: Event, env: Env, now: int)
    returns (states: seq<Sys>, steps: seq<Step>)
    requires Fresh(relay, e.p) && Status(env, Request(c.machineId, Some([e.p]))).Accepted?
    requires Expired(Restored(e).enqueuedAt, now, c.retention)
    ensures IsRun(c, states, steps) && states[0] == Start(relay)
    ensures var s := states[|states| - 1];
            s.dropCount == 1 && s.uncounted == 0 && s.acked == {e.p.id} && Dropped(s) == {}
    ensures steps ==
            [Persist(e.p, e.enqueuedAt), Append, Cut, Deliver([e.p], env), Ack, Crash, Load(now), Count(1)]
  {
    states, steps := AcknowledgeOne(c, relay, e, env);
    IdSetOne(e);
    assert RestoredAll(All(states[|states| - 1])) == [Restored(e)];
    states, steps := RunMore(c, states, steps, Crash);
    OneExpires(c, states[|states| - 1], e, now);
    states, steps := RunMore(c, states, steps, Load(now));
    states, steps := RunMore(c, states, steps, Count(1));
  }

  // ----- Pending, and not restored

  const EMPTY: Tables := Tables([], [])

  function NthEvent(n: nat): Event { Event(Payload(seq(n + 1, _ => 'x'), "login", "", 0, "", None, 0), 0) }

  /** Idle, with this many events queued at time 0, none of them with a longer id. */
  ghost predicate Queued(s: Sys, n: nat) {
    && Unlocked(s) && s.inflight == [] && s.finishing == [] && |s.queue| == n
    && s.relay == EMPTY && s.acked == {} && (forall id :: id in s.known ==> |id| <= n)
    && forall j :: 0 <= j < n ==> s.queue[j].enqueuedAt == 0
  }

  lemma QueueOne(s: Sys, n: nat)
    requires Queued(s, n) && n < QUEUE_LIMIT
    ensures var e := NthEvent(n);
            && Enabled(s, Persist(e.p, e.enqueuedAt))
            && Enabled(DoPersist(s, e.p, e.enqueuedAt), Append)
            && Queued(DoAppend(DoPersist(s, e.p, e.enqueuedAt)), n + 1)
  {
    assert |NthEvent(n).p.id| == n + 1;
  }

  lemma {:induction false} Fill(c: Config, n: nat) returns (states: seq<Sys>, steps: seq<Step>)
    requires n <= QUEUE_LIMIT
    ensures IsRun(c, states, steps) && states[0] == Start(EMPTY) && Queued(states[|states| - 1], n)
  {
    if n == 0 {
      states, steps := [Start(EMPTY)], [];
    } else {
      states, steps := Fill(c, n - 1);
      var s, e := states[|states| - 1], NthEvent(n - 1);
      QueueOne(s, n - 1);
      states, steps := RunMore(c, states, steps, Persist(e.p, e.enqueuedAt));
      states, steps := RunMore(c, states, steps, Append);
    }
  }

  lemma CutFull(c: Config, s: Sys)
    requires Queued(s, QUEUE_LIMIT)
    ensures Enabled(s, Cut)
    ensures var r := DoCut(c, s);
            && Unlocked(r) && r.finishing == [] && r.inflight != [] && r.inflight + r.queue == s.queue
            && r.relay == EMPTY && r.acked == {} && r.known == s.known
  {
    BatchIsLongestPrefix(c.overhead, s.queue);
  }

  lemma PersistFull(s: Sys)
    requires Unlocked(s) && s.relay == EMPTY && forall id :: id in s.known ==> |id| <= QUEUE_LIMIT
    requires forall j :: 0 <= j < |s.inflight + s.queue| ==> (s.inflight + s.queue)[j].enqueuedAt == 0
    ensures var e := NthEvent(QUEUE_LIMIT);
            && Enabled(s, Persist(e.p, 0))
            && forall j :: 0 <= j < |Pending(DoPersist(s, e.p, 0))| ==>
                             Pending(DoPersist(s, e.p, 0))[j].enqueuedAt == 0
  {
    var e := NthEvent(QUEUE_LIMIT);
    assert |e.p.id| == QUEUE_LIMIT + 1;
    assert Pending(DoPersist(s, e.p, 0)) == (s.inflight + s.queue) + [e];
  }

  /** A full forwarder posts a batch, and another event is persisted while it waits for the reply. */
  lemma FillAndPersist(c: Config) returns (states: seq<Sys>, steps: seq<Step>)
    ensures IsRun(c, states, steps) && states[0] == Start(EMPTY)
    ensures var s := states[|states| - 1];
            && s.up && s.arriving.Some? && s.acked == {}
            && s.inflight != [] && |s.inflight| + |s.queue| == QUEUE_LIMIT
            && forall j :: 0 <= j < |Pending(s)| ==> Pending(s)[j].enqueuedAt == 0
  {
    states, steps := Fill(c, QUEUE_LIMIT);
    var s := states[|states| - 1];
    CutFull(c, s);
    var cut := DoCut(c, s);
    states, steps := RunMore(c, states, steps, Cut);
    PersistFull(cut);
    var e := NthEvent(QUEUE_LIMIT);
    states, steps := RunMore(c, states, steps, Persist(e.p, 0));
    assert |cut.inflight + cut.queue| == |cut.inflight| + |cut.queue|;
  }

  lemma LeftBehindIsDropped(c: Config, s: Sys, now: int, id: string)
    requires Genuine(s.known, All(s)) && id in IdSet(All(s)) && id !in s.acked
    requires id !in IdSet(Restarted(c, s, now).queue)
    ensures id in Dropped(Restarted(c, s, now))
  {
    AllKnown(s);
    CrashParts(Restarted(c, s, now).queue);
  }

  /**
  With 1000 events queued or in flight another one is persisted, and the process ends before it
  evicts the oldest queued event.  The reload leaves behind the oldest one in flight, which
  was to be kept, and brings back the one that was about to be evicted.
  */
  lemma OldestInFlightIsLost(c: Config, s: Sys, now: int)
    requires Inv(s) && s.up && Overfull(c, s, now) && s.inflight != [] && s.inflight[0].p.id !in s.acked
    ensures var r := Restarted(c, s, now);
            && Full(s) && s.queue[0].p.id in IdSet(r.queue)
            && s.inflight[0].p.id !in IdSet(r.queue) && s.inflight[0].p.id in Dropped(r)
  {
    PendingIsRestored(c, s, now, 0);
    PendingIsRestored(c, s, now, |s.inflight|);
    IdSetAt(s.inflight, 0);
    PartsKnown(s);
    LeftBehindIsDropped(c, s, now, s.inflight[0].p.id);
  }

  /** Such a restart can happen, whatever the retention is. */
  lemma OverfullRestart(c: Config, now: int) returns (states: seq<Sys>, steps: seq<Step>)
    requires !Expired(0, now, c.retention)
    ensures IsRun(c, states, steps) && states[0] == Start(EMPTY) && |states| > 2
    ensures steps[|steps| - 2] == Crash && steps[|steps| - 1] == Load(now)
    ensures var s, r := states[|states| - 3], states[|states| - 1];
            && Full(s) && s.inflight != [] && s.queue[0].p.id in IdSet(r.queue)
            && s.inflight[0].p.id !in IdSet(r.queue) && s.inflight[0].p.id in Dropped(r)
  {
    states, steps := FillAndPersist(c);
    var s := states[|states| - 1];
    RunInv(c, EMPTY, states, steps, |states| - 1);
    OldestInFlightIsLost(c, s, now);
    states, steps := RunMore(c, states, steps, Crash);
    states, steps := RunMore(c, states, steps, Load(now));
    assert states[|states| - 1] == Restarted(c, s, now);
  }
}

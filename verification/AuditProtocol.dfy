/**
Forwarder, persisted queue, network and relay as one state machine.  Its steps are the single
commits to the store, changes of the drop metric and sections under the forwarder's lock, so a
crash may fall between any two of them: between the insert and the eviction of one enqueue,
between deleting rows and counting them, between a reply and the deletion of its batch.  Replies
may be lost, and anything ever posted may be delivered late or repeatedly.
*/
module AuditProtocol {
  import opened Basics
  import opened AuditSpec
  import opened AuditRelay

  datatype Config = Config(machineId: string, overhead: nat, retention: int)

  datatype Sys = Sys(
    up: bool,                         // is the process running?
    finishing: seq<Event>,            // answered by the relay, rows not deleted yet
    rejected: bool,                   // and whether the answer was a rejection
    inflight: seq<Event>,             // the batch the forwarding loop is posting
    queue: seq<Event>,                // while the process is down: what the table holds
    arriving: Option<Event>,          // persisted, not queued yet; its enqueue holds the lock
    table: seq<Row>,                  // audit_forward_queue
    posted: set<seq<Payload>>,        // every batch ever put on the wire
    accepted: set<seq<Payload>>,      // those the relay answered with 200
    relay: Tables,
    known: map<string, Payload>,      // every event ever persisted
    order: map<string, nat>,          // and its place in the order of arrival
    acked: set<string>,               // ids whose batch the forwarder saw acknowledged
    dropCount: nat,                   // the dropped-events metric, added up over restarts
    uncounted: nat)                   // what the running process is about to add to it

  datatype Step =
    | Persist(p: Payload, now: int)
    | Evict
    | Append
    | Expire(now: int)
    | Cut
    | Deliver(batch: seq<Payload>, env: Env)
    | Ack
    | Reject
    | Retry
    | DeleteFinished
    | Count(n: nat)
    | Crash
    | Load(now: int)

  function Payloads(es: seq<Event>): (ps: seq<Payload>)
    ensures |ps| == |es|
  {
    seq(|es|, i requires 0 <= i < |es| => es[i].p)
  }

  function Arriving(a: Option<Event>): seq<Event> { if a.Some? then [a.value] else [] }

  /** Everything not answered yet, in the order it arrived. */
  function Pending(s: Sys): seq<Event> { s.inflight + (s.queue + Arriving(s.arriving)) }

  /** Everything persisted, oldest first. */
  function All(s: Sys): seq<Event> { s.finishing + (s.inflight + (s.queue + Arriving(s.arriving))) }

  function ToSet(ids: seq<string>): set<string> {
    if ids == [] then {} else ToSet(ids[..|ids| - 1]) + {ids[|ids| - 1]}
  }

  /** An event as it comes back from the table: its time cut to whole seconds. */
  function Restored(e: Event): Event { e.(enqueuedAt := e.enqueuedAt / SECOND * SECOND) }

  function RestoredAll(es: seq<Event>): (r: seq<Event>)
    ensures |r| == |es|
  {
    seq(|es|, i requires 0 <= i < |es| => Restored(es[i]))
  }

  /** Must an event go before another can be queued? */
  predicate Full(s: Sys) { |s.queue| + |s.inflight| >= QUEUE_LIMIT && |s.queue| > 0 }

  // ----- The steps

  /** Nobody holds the forwarder's lock. */
  predicate Unlocked(s: Sys) { s.up && s.arriving.None? }

  predicate Enabled(s: Sys, step: Step) {
    match step
    case Persist(p, now) =>
      && Unlocked(s) && p.id !in s.known && p.id != ""
      && !Has(s.relay.logins, p.id) && !Has(s.relay.clips, p.id)
    case Evict => s.up && s.arriving.Some? && Full(s)
    case Append => s.up && s.arriving.Some? && !Full(s)
    case Expire(now) => Unlocked(s) && s.inflight == [] && s.finishing == []
    case Cut => Unlocked(s) && s.inflight == [] && s.finishing == [] && s.queue != []
    case Deliver(batch, env) => batch in s.posted
    case Ack => Unlocked(s) && s.inflight != [] && s.finishing == [] && Payloads(s.inflight) in s.accepted
    case Reject => Unlocked(s) && s.inflight != [] && s.finishing == []
    case Retry => Unlocked(s) && s.inflight != []
    case DeleteFinished => s.up && s.finishing != []
    case Count(n) => s.up && 0 < n <= s.uncounted
    case Crash => s.up
    case Load(now) => !s.up
  }

  function DoPersist(s: Sys, p: Payload, now: int): Sys {
    s.(known := s.known[p.id := p], order := s.order[p.id := |s.order|],
       table := s.table + [RowOf(Event(p, now))], arriving := Some(Event(p, now)))
  }

  function DoEvict(s: Sys): Sys
    requires s.queue != []
  {
    s.(queue := s.queue[1..], table := RowsWithout(s.table, {s.queue[0].p.id}), uncounted := s.uncounted + 1)
  }

  function DoAppend(s: Sys): Sys
    requires s.arriving.Some?
  {
    s.(queue := s.queue + [s.arriving.value], arriving := None)
  }

  /** Expired events leave the queue and the table before a batch is cut. */
  function DoExpire(c: Config, s: Sys, now: int): Sys {
    var gone := ExpiredIds(s.queue, now, c.retention);
    s.(queue := Unexpired(s.queue, now, c.retention), table := RowsWithout(s.table, ToSet(gone)),
       uncounted := s.uncounted + |gone|)
  }

  function DoCut(c: Config, s: Sys): Sys {
    var n := BatchLen(c.overhead, s.queue, 0);
    s.(inflight := s.queue[..n], queue := s.queue[n..], posted := s.posted + {Payloads(s.queue[..n])})
  }

  function DoDeliver(c: Config, s: Sys, batch: seq<Payload>, env: Env): Sys {
    var req := Request(c.machineId, Some(batch));
    s.(relay := Ingest(env, s.relay, req),
       accepted := if Status(env, req).Accepted? then s.accepted + {batch} else s.accepted)
  }

  function DoAck(s: Sys): Sys {
    s.(finishing := s.inflight, rejected := false, inflight := [], acked := s.acked + IdSet(s.inflight))
  }

  function DoReject(s: Sys): Sys {
    s.(finishing := s.inflight, rejected := true, inflight := [])
  }

  function DoRetry(s: Sys): Sys {
    s.(inflight := [], queue := s.inflight + s.queue)
  }

  function DoDelete(s: Sys): Sys {
    s.(finishing := [], table := RowsWithout(s.table, IdSet(s.finishing)),
       uncounted := s.uncounted + if s.rejected then |s.finishing| else 0)
  }

  function DoCount(s: Sys, n: nat): Sys
    requires n <= s.uncounted
  {
    s.(dropCount := s.dropCount + n, uncounted := s.uncounted - n)
  }

  /** The process ends; only the table is left of what it held. */
  function DoCrash(s: Sys): Sys {
    s.(up := false, finishing := [], rejected := false, inflight := [], queue := RestoredAll(All(s)), arriving := None,
       uncounted := 0)
  }

  function Lost(c: Config, s: Sys, now: int): set<string> {
    IdSet(s.queue) - IdSet(Loaded(s.table, QUEUE_LIMIT, now, c.retention))
  }

  /** A new process reads the table, and deletes what has expired or is too much. */
  function DoLoad(c: Config, s: Sys, now: int): Sys {
    var back := Loaded(s.table, QUEUE_LIMIT, now, c.retention);
    s.(up := true, queue := back, table := RowsWithout(s.table, Lost(c, s, now)),
       uncounted := |s.table| - |back|)
  }

  function Do(c: Config, s: Sys, step: Step): Sys
    requires Enabled(s, step)
  {
    match step
    case Persist(p, now) => DoPersist(s, p, now)
    case Evict => DoEvict(s)
    case Append => DoAppend(s)
    case Expire(now) => DoExpire(c, s, now)
    case Cut => DoCut(c, s)
    case Deliver(batch, env) => DoDeliver(c, s, batch, env)
    case Ack => DoAck(s)
    case Reject => DoReject(s)
    case Retry => DoRetry(s)
    case DeleteFinished => DoDelete(s)
    case Count(n) => DoCount(s, n)
    case Crash => DoCrash(s)
    case Load(now) => DoLoad(c, s, now)
  }

  // ----- Dropped events

  /** Events that are gone for good: not in the table any more, and never acknowledged. */
  function Dropped(s: Sys): set<string> { s.known.Keys - IdSet(All(s)) - s.acked }

  /** The ids whose rows a step gives up on. */
  function GivenUp(c: Config, s: Sys, step: Step): set<string> {
    match step
    case Evict => if s.queue == [] then {} else {s.queue[0].p.id}
    case Expire(now) => ToSet(ExpiredIds(s.queue, now, c.retention))
    case DeleteFinished => if s.rejected then IdSet(s.finishing) else {}
    case Load(now) => Lost(c, s, now)
    case _ => {}
  }

  /** How far the metric, with what is about to be added to it, is ahead of the truth. */
  function Gap(s: Sys): int { s.dropCount + s.uncounted - |Dropped(s)| }
}

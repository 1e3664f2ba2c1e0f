/**
The forwarder and its store as the code runs them: fields and tables updated in place by
loops.  Every method is tied to the protocol's steps: called on the code's counterpart of
a protocol state it ends in the counterpart of the next one.
*/
module AuditForward {
  import opened Basics
  import opened AuditSpec
  import opened AuditRelay
  import opened AuditProtocol
  import opened AuditSafety
  import opened AuditRecovery

  function RowIds(rows: seq<Row>): set<string> {
    if rows == [] then {} else RowIds(rows[..|rows| - 1]) + {rows[|rows| - 1].id}
  }

  /** Ids of the rows a reload cannot use. */
  function UnusableIds(rows: seq<Row>, now: int, retention: int): (ids: seq<string>)
    ensures |ids| + |UsableEvents(rows, now, retention)| == |rows|
  {
    if rows == [] then []
    else
      var last := |rows| - 1;
      UnusableIds(rows[..last], now, retention) + if RowUsable(rows[last], now, retention) then [] else [rows[last].id]
  }

  // ----- Facts about the loops

  lemma {:induction false} RowsWithoutTwice(rows: seq<Row>, xs: set<string>, ys: set<string>)
    ensures RowsWithout(RowsWithout(rows, xs), ys) == RowsWithout(rows, xs + ys)
  {
    if rows == [] {
    } else {
      var last := |rows| - 1;
      RowsWithoutTwice(rows[..last], xs, ys);
      var kept := RowsWithout(rows[..last], xs);
      if rows[last].id in xs {
        assert RowsWithout(rows, xs) == kept;
      } else {
        assert (kept + [rows[last]])[..|kept|] == kept;
      }
    }
  }

  lemma {:induction false} RowsWithoutNone(rows: seq<Row>)
    ensures RowsWithout(rows, {}) == rows
  {
    if rows == [] {
    } else {
      RowsWithoutNone(rows[..|rows| - 1]);
      assert rows[..|rows| - 1] + [rows[|rows| - 1]] == rows;
    }
  }

  lemma ToSetStep(ids: seq<string>, i: nat)
    requires i < |ids|
    ensures ToSet(ids[..i + 1]) == ToSet(ids[..i]) + {ids[i]}
  {
    assert ids[..i + 1][..i] == ids[..i];
  }

  lemma {:induction false} RowIdsOf(es: seq<Event>)
    ensures RowIds(RowsOf(es)) == IdSet(es)
  {
    if es == [] {
    } else {
      RowIdsOf(es[..|es| - 1]);
      assert RowsOf(es)[..|es| - 1] == RowsOf(es[..|es| - 1]);
    }
  }

  lemma {:induction false} UnusableOfRows(es: seq<Event>, now: int, retention: int)
    ensures UnusableIds(RowsOf(es), now, retention) == ExpiredIds(RestoredAll(es), now, retention)
  {
    if es == [] {
    } else {
      var last := |es| - 1;
      UnusableOfRows(es[..last], now, retention);
      assert RowsOf(es)[..last] == RowsOf(es[..last]);
      assert RestoredAll(es)[..last] == RestoredAll(es[..last]);
    }
  }

  lemma {:induction false} ToSetJoin(xs: seq<string>, ys: seq<string>)
    ensures ToSet(xs + ys) == ToSet(xs) + ToSet(ys)
  {
    if ys == [] {
      assert xs + ys == xs;
    } else {
      ToSetJoin(xs, ys[..|ys| - 1]);
      assert (xs + ys)[..|xs| + |ys| - 1] == xs + ys[..|ys| - 1];
    }
  }

  lemma {:induction false} ToSetOfIds(es: seq<Event>)
    ensures ToSet(Ids(es)) == IdSet(es)
  {
    if es == [] {
    } else {
      ToSetOfIds(es[..|es| - 1]);
      assert Ids(es)[..|es| - 1] == Ids(es[..|es| - 1]);
    }
  }

  /** What a reload deletes, when the table is what the protocol says it is. */
  lemma LoadDeletes(order: map<string, nat>, es: seq<Event>, now: int, retention: int)
    requires InOrder(order, es)
    ensures var rows := RowsOf(es);
            var usable, back := UsableEvents(rows, now, retention), Loaded(rows, QUEUE_LIMIT, now, retention);
            var excess := usable[..|usable| - |back|];
            ToSet(UnusableIds(rows, now, retention) + Ids(excess)) == IdSet(es) - IdSet(back)
  {
    var rows, all := RowsOf(es), RestoredAll(es);
    var usable, back := UsableEvents(rows, now, retention), Loaded(rows, QUEUE_LIMIT, now, retention);
    var excess := usable[..|usable| - |back|];
    RestoredInOrder(order, es);
    RestoredIds(es);
    UsableIsUnexpired(es, now, retention);
    UnusableOfRows(es, now, retention);
    ExpiryIsDeletion(order, all, now, retention);
    var expired := ToSet(ExpiredIds(all, now, retention));
    WithoutMembers(all, expired);
    WithoutInOrder(order, all, expired);
    NewestIsDeletion(order, usable, QUEUE_LIMIT);
    ToSetJoin(UnusableIds(rows, now, retention), Ids(excess));
    ToSetOfIds(excess);
    LostSet(IdSet(es), expired, IdSet(excess));
  }

  // ----- What the forwarder sends is what the relay accepts

  const CONTENT_LIMIT: nat := 4 * 1024 * 1024

  /** `enqueueLogin` */
  function LoginPayload(id: string, fields: string, encodedLen: nat): Payload {
    Payload(id, "login", fields, 0, "", None, encodedLen)
  }

  /** `enqueueClipboard`: content travels only when captured and within 4 MiB; size and digest always do. */
  function ClipboardPayload(codec: Codec, encode: seq<Byte> -> string, id: string, fields: string, data: seq<Byte>,
                            capture: bool, encodedLen: nat): Payload {
    Payload(id, "clipboard", fields, |data|, codec.digest(data),
            if capture && |data| <= CONTENT_LIMIT then Some(encode(data)) else None, encodedLen)
  }

  /** Decoding undoes encoding, and digests are 64 hex digits. */
  ghost predicate CodecOk(codec: Codec, encode: seq<Byte> -> string) {
    forall d: seq<Byte> :: codec.decode(encode(d)) == Some(d) && IsHex(codec.digest(d), 64)
  }

  ghost predicate MadeByForwarder(codec: Codec, encode: seq<Byte> -> string, p: Payload) {
    IsHex(p.id, 32) &&
    ((exists fields, n :: p == LoginPayload(p.id, fields, n)) ||
     (exists fields, data, capture, n :: p == ClipboardPayload(codec, encode, p.id, fields, data, capture, n)))
  }

  /** The relay never rejects a batch the forwarder cut from its own events, so `Reject` needs a relay or HTTP limit. */
  lemma OwnBatchIsAccepted(env: Env, encode: seq<Byte> -> string, machine: string, batch: seq<Payload>)
    requires CodecOk(env.codec, encode) && machine != "" && machine in env.registered && env.storeUp
    requires |batch| <= BATCH_LIMIT && forall i :: 0 <= i < |batch| ==> MadeByForwarder(env.codec, encode, batch[i])
    ensures Status(env, Request(machine, Some(batch))) == Accepted(|batch|)
  {
    forall i | 0 <= i < |batch| ensures EventOk(env.codec, batch[i]) {
      assert MadeByForwarder(env.codec, encode, batch[i]);
    }
  }

  /**
  What the forwarder was given is what the relay's row says.  Size and digest of clipboard data always
  arrive; the data itself does if the machine captured it, it is within 4 MiB, and the relay's
  policy captures that much.
  */
  lemma ClipboardArrives(env: Env, encode: seq<Byte> -> string, id: string, fields: string, data: seq<Byte>,
                         capture: bool, n: nat, row: Stored<Clip>, machine: string)
    requires CodecOk(env.codec, encode)
    requires ClipMatches(env, row, machine, ClipboardPayload(env.codec, encode, id, fields, data, capture, n))
    ensures row.id == id && row.body.machine == machine && row.body.fields == fields
    ensures row.body.size == |data| && row.body.sha256 == env.codec.digest(data)
    ensures row.body.content ==
            if capture && 0 < |data| <= 4_194_304 && env.policy.captureContent && |data| <= env.policy.maxBytes
            then Some(data) else None
  {
    assert env.codec.decode(encode(data)) == Some(data);
  }

  lemma LoginArrives(id: string, fields: string, n: nat, row: Stored<Login>, machine: string)
    requires LoginMatches(row, machine, LoginPayload(id, fields, n))
    ensures row.id == id && row.body.machine == machine && row.body.fields == fields
  {
  }

  class AuditStore {
    var forwardQueue: seq<Row>
    var logins: seq<Stored<Login>>
    var clips: seq<Stored<Clip>>

    /** `event_id` is unique in the queue table, so a second insert of one fails. */
    method PersistForwardEvent(e: Event) returns (ok: bool)
      modifies this`forwardQueue
      ensures ok <==> e.p.id !in RowIds(old(forwardQueue))
      ensures forwardQueue == if ok then old(forwardQueue) + [RowOf(e)] else old(forwardQueue)
    {
      ok := e.p.id !in RowIds(forwardQueue);
      if ok { forwardQueue := forwardQueue + [RowOf(e)]; }
    }

    method DeleteForwardEvents(ids: seq<string>)
      modifies this`forwardQueue
      ensures forwardQueue == RowsWithout(old(forwardQueue), ToSet(ids))
    {
      RowsWithoutNone(forwardQueue);
      if |ids| == 0 { return; }
      ghost var before := forwardQueue;
      for i := 0 to |ids|
        invariant forwardQueue == RowsWithout(before, ToSet(ids[..i]))
      {
        RowsWithoutTwice(before, ToSet(ids[..i]), {ids[i]});
        ToSetStep(ids, i);
        forwardQueue := RowsWithout(forwardQueue, {ids[i]});
      }
      assert ids[..|ids|] == ids;
    }

    method LoadForwardQueue(limit: int, now: int, retention: int) returns (events: seq<Event>, dropped: nat)
      modifies this`forwardQueue
      ensures events == Loaded(old(forwardQueue), limit, now, retention)
      ensures dropped == |old(forwardQueue)| - |events|
      ensures var usable := UsableEvents(old(forwardQueue), now, retention);
              var gone := UnusableIds(old(forwardQueue), now, retention) + Ids(usable[..|usable| - |events|]);
              forwardQueue == RowsWithout(old(forwardQueue), ToSet(gone))
    {
      var max := if limit <= 0 then QUEUE_LIMIT else limit;
      var usable, unusable := ScanRows(forwardQueue, now, retention);
      var droppedIds;
      events, droppedIds := DropExcess(usable, unusable, max);
      dropped := |droppedIds|;
      DeleteForwardEvents(droppedIds);
    }

    /** What a new forwarder starts with. */
    method Reload(config: Config, now: int, ghost s: Sys) returns (events: seq<Event>, dropped: nat)
      requires s.table == RowsOf(s.queue) && InOrder(s.order, s.queue) && s.inflight == [] && forwardQueue == s.table
      modifies this`forwardQueue
      ensures var r := Reloaded(config, s, now);
              && r.up && r.queue == events && r.inflight == [] && r.table == forwardQueue
              && r.dropCount == s.dropCount + dropped
    {
      events, dropped := LoadForwardQueue(QUEUE_LIMIT, now, config.retention);
      ReloadMatches(config, s, now, events, forwardQueue, dropped);
    }

    /** The loop over the events beyond the limit, oldest first. */
    static method DropExcess(usable: seq<Event>, unusable: seq<string>, max: nat)
      returns (events: seq<Event>, droppedIds: seq<string>)
      ensures events == Newest(usable, max) && droppedIds == unusable + Ids(usable[..|usable| - |events|])
    {
      droppedIds := unusable;
      var excess := 0;
      if |usable| > max {
        excess := |usable| - max;
      }
      for i := 0 to excess
        invariant droppedIds == unusable + Ids(usable[..i])
      {
        assert Ids(usable[..i + 1]) == Ids(usable[..i]) + [usable[i].p.id];
        droppedIds := droppedIds + [usable[i].p.id];
      }
      events := usable[excess..];
    }

    /** The row loop of the reload. */
    static method ScanRows(rows: seq<Row>, now: int, retention: int)
      returns (events: seq<Event>, droppedIds: seq<string>)
      ensures events == UsableEvents(rows, now, retention)
      ensures droppedIds == UnusableIds(rows, now, retention)
    {
      events, droppedIds := [], [];
      for i := 0 to |rows|
        invariant events == UsableEvents(rows[..i], now, retention)
        invariant droppedIds == UnusableIds(rows[..i], now, retention)
      {
        assert rows[..i + 1][..i] == rows[..i];
        var row := rows[i];
        if retention > 0 && row.createdAt * SECOND < now - retention {
          droppedIds := droppedIds + [row.id];
        } else if row.payload.None? || row.payload.value.id != row.id {
          droppedIds := droppedIds + [row.id];
        } else {
          events := events + [Event(row.payload.value, row.createdAt * SECOND)];
        }
      }
      assert rows[..|rows|] == rows;
    }

    /** One transaction: all rows of the batch, skipping ids that are stored already. */
    method InsertForwardedAudit(newLogins: seq<Stored<Login>>, newClips: seq<Stored<Clip>>)
      modifies this`logins, this`clips
      ensures logins == InsertRows(old(logins), newLogins)
      ensures clips == InsertRows(old(clips), newClips)
    {
      ghost var l, c := logins, clips;
      for i := 0 to |newLogins|
        invariant logins == InsertRows(l, newLogins[..i]) && clips == c
      {
        assert newLogins[..i + 1][..i] == newLogins[..i];
        logins := InsertRow(logins, newLogins[i]);
      }
      assert newLogins[..|newLogins|] == newLogins;
      for i := 0 to |newClips|
        invariant clips == InsertRows(c, newClips[..i]) && logins == InsertRows(l, newLogins)
      {
        assert newClips[..i + 1][..i] == newClips[..i];
        clips := InsertRow(clips, newClips[i]);
      }
      assert newClips[..|newClips|] == newClips;
    }

    /** The relay's handler: it validates event by event and stores nothing unless all of them pass. */
    method HandleBatch(env: Env, req: Request) returns (reply: Reply)
      modifies this`logins, this`clips
      ensures reply == Status(env, req)
      ensures Tables(logins, clips) == Ingest(env, Tables(old(logins), old(clips)), req)
    {
      if req.machineId == "" || req.events.None? { return BadRequest; }
      var events := req.events.value;
      if |events| > BATCH_LIMIT { return BadRequest; }
      if req.machineId !in env.registered { return NotFound; }
      if !env.storeUp { return Unavailable; }
      var newLogins, newClips := [], [];
      for i := 0 to |events|
        invariant AllOk(env.codec, events[..i])
        invariant newLogins == LoginsIn(req.machineId, events[..i])
        invariant newClips == ClipsIn(env, req.machineId, events[..i])
        invariant logins == old(logins) && clips == old(clips)
      {
        assert events[..i + 1][..i] == events[..i];
        var e := events[i];
        if !EventOk(env.codec, e) {
          assert !AllOk(env.codec, events);
          return BadRequest;
        }
        if e.kind == "login" {
          newLogins := newLogins + [LoginRow(req.machineId, e)];
        } else {
          newClips := newClips + [ClipRow(env.codec, ClipOf(env, req.machineId, e))];
        }
      }
      assert events[..|events|] == events;
      InsertForwardedAudit(newLogins, newClips);
      return Accepted(|events|);
    }
  }

  lemma QueueStep(q: seq<Event>, i: nat)
    requires i < |q|
    ensures q[..i + 1][..i] == q[..i] && q[..i + 1][i] == q[i]
  {
  }

  /** A fresh id is not in the table, so persisting it succeeds. */
  lemma FreshInTable(s: Sys, p: Payload, now: int)
    requires Inv(s) && Enabled(s, Persist(p, now))
    ensures p.id !in RowIds(s.table)
  {
    RowIdsOf(All(s));
    if p.id in IdSet(All(s)) {
      var k := IdSetIndex(All(s), p.id);
      assert false;
    }
  }

  // ----- The methods as runs of steps

  /** `enqueue`: insert, make room if the forwarder is full, append. */
  function Enqueued(s: Sys, p: Payload, now: int): Sys {
    var a := DoPersist(s, p, now);
    DoAppend(if Full(a) then DoCount(DoEvict(a), 1) else a)
  }

  lemma EnqueueIsRun(c: Config, s: Sys, p: Payload, now: int) returns (states: seq<Sys>, steps: seq<Step>)
    requires Sized(s) && Enabled(s, Persist(p, now))
    ensures IsRun(c, states, steps) && states[0] == s && states[|states| - 1] == Enqueued(s, p, now)
    ensures steps[0] == Persist(p, now) && steps[|steps| - 1] == Append
    ensures |steps| == if Full(s) then 4 else 2
  {
    states, steps := RunMore(c, [s], [], Persist(p, now));
    if Full(s) {
      states, steps := MakeRoomIsRun(c, states, steps);
    }
    states, steps := RunMore(c, states, steps, Append);
  }

  lemma MakeRoomIsRun(c: Config, states: seq<Sys>, steps: seq<Step>) returns (longer: seq<Sys>, more: seq<Step>)
    requires IsRun(c, states, steps)
    requires var s := states[|states| - 1]; Full(s) && s.up && s.arriving.Some?
    ensures IsRun(c, longer, more) && states <= longer && more == steps + [Evict, Count(1)]
    ensures longer[|longer| - 1] == DoCount(DoEvict(states[|states| - 1]), 1)
  {
    longer, more := RunMore(c, states, steps, Evict);
    longer, more := RunMore(c, longer, more, Count(1));
  }

  /** The filter of `nextBatch`. */
  function Filtered(c: Config, s: Sys, now: int): Sys {
    DoCount(DoExpire(c, s, now), |ExpiredIds(s.queue, now, c.retention)|)
  }

  /** `nextBatch` */
  function Batched(c: Config, s: Sys, now: int): Sys {
    var a := Filtered(c, s, now);
    if a.queue == [] then a else DoCut(c, a)
  }

  lemma NextBatchIsRun(c: Config, s: Sys, now: int) returns (states: seq<Sys>, steps: seq<Step>)
    requires Enabled(s, Expire(now))
    ensures IsRun(c, states, steps) && states[0] == s && states[|states| - 1] == Batched(c, s, now)
  {
    states, steps := RunMore(c, [s], [], Expire(now));
    var n := |ExpiredIds(s.queue, now, c.retention)|;
    if n > 0 {
      states, steps := RunMore(c, states, steps, Count(n));
    }
    assert states[|states| - 1] == Filtered(c, s, now);
    if Filtered(c, s, now).queue != [] {
      states, steps := RunMore(c, states, steps, Cut);
    }
  }

  /** `newAuditForwarder` */
  function Reloaded(c: Config, s: Sys, now: int): Sys {
    DoCount(DoLoad(c, s, now), DoLoad(c, s, now).uncounted)
  }

  lemma ReloadIsRun(c: Config, s: Sys, now: int) returns (states: seq<Sys>, steps: seq<Step>)
    requires !s.up
    ensures IsRun(c, states, steps) && states[0] == s && states[|states| - 1] == Reloaded(c, s, now)
  {
    states, steps := RunMore(c, [s], [], Load(now));
    var n := DoLoad(c, s, now).uncounted;
    if n > 0 {
      states, steps := RunMore(c, states, steps, Count(n));
    }
  }

  /** What a reload returns, deletes and counts is what the protocol says. */
  lemma ReloadMatches(c: Config, s: Sys, now: int, queue: seq<Event>, table: seq<Row>, dropped: nat)
    requires s.table == RowsOf(s.queue) && InOrder(s.order, s.queue) && s.inflight == []
    requires queue == Loaded(s.table, QUEUE_LIMIT, now, c.retention) && dropped == |s.table| - |queue|
    requires var usable := UsableEvents(s.table, now, c.retention);
             var gone := UnusableIds(s.table, now, c.retention) + Ids(usable[..|usable| - |queue|]);
             table == RowsWithout(s.table, ToSet(gone))
    ensures var r := Reloaded(c, s, now);
            r.up && r.queue == queue && r.inflight == [] && r.table == table && r.dropCount == s.dropCount + dropped
  {
    LoadDeletes(s.order, s.queue, now, c.retention);
  }

  class AuditForwarder {
    const store: AuditStore
    const config: Config
    var queue: seq<Event>
    var inflightSize: nat
    var dropped: nat
    /** What the metric had counted before this process started. */
    ghost const before: nat

    /** This object and its store are the code's counterpart of the protocol state. */
    ghost predicate Matches(s: Sys)
      reads this, store
    {
      s.up && queue == s.queue && inflightSize == |s.inflight| && store.forwardQueue == s.table &&
      before + dropped == s.dropCount
    }

    /** A new process: the queue is read back from the table. */
    constructor (config: Config, store: AuditStore, now: int, ghost s: Sys)
      requires !s.up && s.table == RowsOf(s.queue) && InOrder(s.order, s.queue) && s.inflight == []
      requires store.forwardQueue == s.table
      modifies store`forwardQueue
      ensures this.store == store && this.config == config
      ensures Matches(Reloaded(config, s, now))
    {
      var events, lost := store.Reload(config, now, s);
      this.config, this.store, before := config, store, s.dropCount;
      queue, inflightSize, dropped := events, 0, lost;
    }

    method Enqueue(p: Payload, now: int, ghost s: Sys)
      requires Matches(s) && p.id !in RowIds(s.table)
      modifies this, store`forwardQueue
      ensures Matches(Enqueued(s, p, now))
    {
      var e := Event(p, now);
      var persisted := store.PersistForwardEvent(e);
      assert Matches(DoPersist(s, p, now));
      if |queue| + inflightSize >= QUEUE_LIMIT {
        if |queue| > 0 {
          DropOldest();
          assert Matches(DoCount(DoEvict(DoPersist(s, p, now)), 1));
        }
      }
      queue := queue + [e];
    }

    /** The oldest queued event is given up to make room. */
    method DropOldest()
      requires |queue| > 0
      modifies this`queue, this`dropped, store`forwardQueue
      ensures queue == old(queue[1..]) && dropped == old(dropped) + 1
      ensures store.forwardQueue == RowsWithout(old(store.forwardQueue), {old(queue[0].p.id)})
    {
      var id := queue[0].p.id;
      queue := queue[1..];
      assert [id][..0] == [] && ToSet([id]) == {id};
      store.DeleteForwardEvents([id]);
      dropped := dropped + 1;
    }

    /** The filter of `nextBatch`. */
    method DropExpired(now: int)
      modifies this`queue, this`dropped, store`forwardQueue
      ensures queue == Unexpired(old(queue), now, config.retention)
      ensures var gone := ExpiredIds(old(queue), now, config.retention);
              && store.forwardQueue == RowsWithout(old(store.forwardQueue), ToSet(gone))
              && dropped == old(dropped) + |gone|
    {
      var kept, expiredIds := FilterExpired(queue, now, config.retention);
      ghost var table := store.forwardQueue;
      queue := kept;
      RowsWithoutNone(table);
      if |expiredIds| > 0 {
        store.DeleteForwardEvents(expiredIds);
        dropped := dropped + |expiredIds|;
      } else {
        assert expiredIds == [] && ToSet(expiredIds) == {};
      }
      assert store.forwardQueue == RowsWithout(table, ToSet(expiredIds));
    }

    static method FilterExpired(q: seq<Event>, now: int, retention: int)
      returns (kept: seq<Event>, expiredIds: seq<string>)
      ensures kept == Unexpired(q, now, retention)
      ensures expiredIds == ExpiredIds(q, now, retention)
    {
      kept, expiredIds := [], [];
      for i := 0 to |q|
        invariant kept == Unexpired(q[..i], now, retention)
        invariant expiredIds == ExpiredIds(q[..i], now, retention)
      {
        QueueStep(q, i);
        if retention > 0 && q[i].enqueuedAt < now - retention {
          expiredIds := expiredIds + [q[i].p.id];
        } else {
          kept := kept + [q[i]];
        }
      }
      assert q[..|q|] == q;
    }

    /** The greedy loop of `nextBatch`. */
    method CutBatch() returns (batch: seq<Event>)
      modifies this`queue, this`inflightSize
      ensures batch == old(queue)[..BatchLen(config.overhead, old(queue), 0)]
      ensures queue == old(queue)[|batch|..]
      ensures inflightSize == if old(queue) == [] then old(inflightSize) else |batch|
    {
      batch := [];
      if |queue| == 0 { return; }
      var q, n := queue, 0;
      while n < |q| && n != BATCH_LIMIT
        invariant n <= |q| && n <= BATCH_LIMIT
        invariant BatchLen(config.overhead, q, n) == BatchLen(config.overhead, q, 0)
        decreases |q| - n
      {
        var candidate := q[..n + 1];
        if n > 0 && EncodedSize(config.overhead, candidate) > BATCH_BYTES { break; }
        n := n + 1;
      }
      batch := q[..n];
      queue := q[n..];
      inflightSize := |batch|;
    }

    method NextBatch(now: int, ghost s: Sys) returns (batch: seq<Event>)
      requires Matches(s) && Enabled(s, Expire(now))
      modifies this, store`forwardQueue
      ensures Matches(Batched(config, s, now)) && batch == Batched(config, s, now).inflight
    {
      DropExpired(now);
      assert Matches(Filtered(config, s, now));
      batch := CutBatch();
    }

    /** The first half of `completeBatch`: the reply was a success, or a rejection the code treats as final. */
    method FinishBatch(batch: seq<Event>, ghost rejected: bool, ghost s: Sys)
      requires Matches(s) && s.inflight == batch
      modifies this`inflightSize
      ensures Matches(if rejected then DoReject(s) else DoAck(s))
    {
      inflightSize := inflightSize - |batch|;
    }

    /** After a rejected batch has been completed its events are counted as dropped. */
    method CountRejectedBatch(batch: seq<Event>, ghost s: Sys)
      requires Matches(s) && |batch| <= s.uncounted
      modifies this`dropped
      ensures Matches(DoCount(s, |batch|))
    {
      dropped := dropped + |batch|;
    }

    /** The second half of `completeBatch`, after the lock is given up. */
    method DeleteBatch(batch: seq<Event>, ghost s: Sys)
      requires Matches(s) && s.finishing == batch
      modifies store`forwardQueue
      ensures Matches(DoDelete(s))
    {
      ToSetOfIds(batch);
      store.DeleteForwardEvents(Ids(batch));
    }

    method RetryBatch(batch: seq<Event>, ghost s: Sys)
      requires Matches(s) && s.inflight == batch
      modifies this
      ensures Matches(DoRetry(s))
    {
      queue := batch + queue;
      inflightSize := inflightSize - |batch|;
    }
  }
}

/** What every step of the audit protocol keeps. */
module AuditSafety {
  import opened Basics
  import opened AuditSpec
  import opened AuditRelay
  import opened AuditProtocol

  // ----- The invariant, part by part

  /** Later in the sequence means arrived later; in particular no event occurs twice. */
  ghost predicate InOrder(order: map<string, nat>, es: seq<Event>) {
    && (forall i :: 0 <= i < |es| ==> es[i].p.id in order)
    && (forall i, j :: 0 <= i < j < |es| ==> order[es[i].p.id] < order[es[j].p.id])
  }

  ghost predicate Genuine(known: map<string, Payload>, es: seq<Event>) {
    forall i :: 0 <= i < |es| ==> es[i].p.id in known && known[es[i].p.id] == es[i].p
  }

  /** The table holds exactly these events, unaltered and in the order they arrived. */
  ghost predicate RowsOk(all: seq<Event>, table: seq<Row>, order: map<string, nat>, known: map<string, Payload>) {
    table == RowsOf(all) && InOrder(order, all) && Genuine(known, all)
  }

  /** A full queue, a batch that has been answered, and an event just persisted. */
  const TABLE_LIMIT: nat := QUEUE_LIMIT + BATCH_LIMIT + 1

  predicate Sized(s: Sys) {
    && |s.inflight| <= BATCH_LIMIT && |s.finishing| <= BATCH_LIMIT && (s.finishing == [] || s.inflight == [])
    && (s.up ==> |s.inflight| + |s.queue| <= QUEUE_LIMIT)
    && (!s.up ==> s.inflight == [] && s.finishing == [] && s.arriving.None? && s.uncounted == 0)
    && |All(s)| <= TABLE_LIMIT
  }

  ghost predicate Numbered(order: map<string, nat>, known: map<string, Payload>) {
    && order.Keys == known.Keys
    && (forall id :: id in order ==> order[id] < |order|)
    && (forall id :: id in known ==> known[id].id == id)
  }

  ghost predicate BatchKnown(known: map<string, Payload>, batch: seq<Payload>) {
    forall i :: 0 <= i < |batch| ==> batch[i].id in known && known[batch[i].id] == batch[i]
  }

  ghost predicate WireOk(known: map<string, Payload>, posted: set<seq<Payload>>, accepted: set<seq<Payload>>) {
    (forall b :: b in posted ==> BatchKnown(known, b)) && accepted <= posted
  }

  ghost predicate BatchStored(t: Tables, batch: seq<Payload>) {
    forall i :: 0 <= i < |batch| ==> IsStored(t, batch[i])
  }

  /** The relay holds every event of a batch it accepted, no event id twice, and no event in the wrong table. */
  ghost predicate RelayOk(relay: Tables, accepted: set<seq<Payload>>, known: map<string, Payload>) {
    && UniqueIds(relay)
    && (forall b :: b in accepted ==> BatchStored(relay, b))
    && (forall id :: id in known ==>
          && (Has(relay.logins, id) ==> known[id].kind == "login")
          && (Has(relay.clips, id) ==> known[id].kind == "clipboard"))
  }

  /** An acknowledged event is in the relay's tables. */
  ghost predicate AckedStored(relay: Tables, acked: set<string>, known: map<string, Payload>) {
    forall id :: id in acked ==> id in known && IsStored(relay, known[id])
  }

  ghost predicate Inv(s: Sys) {
    && RowsOk(All(s), s.table, s.order, s.known)
    && Sized(s)
    && Numbered(s.order, s.known)
    && (!s.rejected ==> IdSet(s.finishing) <= s.acked)
    && WireOk(s.known, s.posted, s.accepted)
    && RelayOk(s.relay, s.accepted, s.known)
    && AckedStored(s.relay, s.acked, s.known)
  }

  // ----- Sequences of events

  lemma {:induction false} IdSetJoin(xs: seq<Event>, ys: seq<Event>)
    ensures IdSet(xs + ys) == IdSet(xs) + IdSet(ys)
  {
    if ys == [] {
      assert xs + ys == xs;
    } else {
      IdSetJoin(xs, ys[..|ys| - 1]);
      assert (xs + ys)[..|xs| + |ys| - 1] == xs + ys[..|ys| - 1];
    }
  }

  lemma {:induction false} IdSetAt(es: seq<Event>, i: nat)
    requires i < |es|
    ensures es[i].p.id in IdSet(es)
  {
    if i == |es| - 1 {
    } else {
      IdSetAt(es[..|es| - 1], i);
    }
  }

  lemma {:induction false} IdSetIndex(es: seq<Event>, id: string) returns (i: nat)
    requires id in IdSet(es)
    ensures i < |es| && es[i].p.id == id
  {
    var last := |es| - 1;
    if es[last].p.id == id {
      i := last;
    } else {
      i := IdSetIndex(es[..last], id);
    }
  }

  lemma {:induction false} IdSetSize(order: map<string, nat>, es: seq<Event>)
    requires InOrder(order, es)
    ensures |IdSet(es)| == |es|
  {
    if es == [] {
    } else {
      var last := |es| - 1;
      IdSetSize(order, es[..last]);
      if es[last].p.id in IdSet(es[..last]) {
        var i := IdSetIndex(es[..last], es[last].p.id);
        assert false;
      }
    }
  }

  lemma InOrderSplit(order: map<string, nat>, xs: seq<Event>, ys: seq<Event>)
    requires InOrder(order, xs + ys)
    ensures InOrder(order, xs) && InOrder(order, ys)
    ensures IdSet(xs) !! IdSet(ys)
  {
    var both := xs + ys;
    forall i | 0 <= i < |xs| ensures xs[i] == both[i] { }
    forall j | 0 <= j < |ys| ensures ys[j] == both[|xs| + j] { }
    if id :| id in IdSet(xs) && id in IdSet(ys) {
      var i := IdSetIndex(xs, id);
      var j := IdSetIndex(ys, id);
      assert false;
    }
  }

  lemma InOrderAppend(order: map<string, nat>, es: seq<Event>, e: Event)
    requires InOrder(order, es) && e.p.id in order
    requires forall k :: 0 <= k < |es| ==> order[es[k].p.id] < order[e.p.id]
    ensures InOrder(order, es + [e])
  {
  }

  lemma {:induction false} WithoutMembers(es: seq<Event>, ids: set<string>)
    ensures forall k :: 0 <= k < |EventsWithout(es, ids)| ==> EventsWithout(es, ids)[k] in es
    ensures IdSet(EventsWithout(es, ids)) == IdSet(es) - ids
  {
    if es == [] {
    } else {
      var last := |es| - 1;
      WithoutMembers(es[..last], ids);
      var kept := EventsWithout(es[..last], ids);
      if es[last].p.id !in ids {
        IdSetJoin(kept, [es[last]]);
        assert [es[last]][..0] == [];
      } else {
        assert EventsWithout(es, ids) == kept;
      }
    }
  }

  lemma InOrderSnoc(order: map<string, nat>, front: seq<Event>, e: Event, kept: seq<Event>)
    requires InOrder(order, front + [e]) && InOrder(order, kept) && forall k :: 0 <= k < |kept| ==> kept[k] in front
    ensures InOrder(order, kept + [e])
  {
    var all := front + [e];
    assert all[|front|] == e;
    forall k | 0 <= k < |kept|
      ensures order[kept[k].p.id] < order[e.p.id]
    {
      var i :| 0 <= i < |front| && front[i] == kept[k];
      assert all[i] == kept[k];
    }
    InOrderAppend(order, kept, e);
  }

  lemma {:induction false} WithoutInOrder(order: map<string, nat>, es: seq<Event>, ids: set<string>)
    requires InOrder(order, es)
    ensures InOrder(order, EventsWithout(es, ids))
  {
    if es == [] {
    } else {
      var front, e := es[..|es| - 1], es[|es| - 1];
      assert es == front + [e];
      InOrderSplit(order, front, [e]);
      WithoutInOrder(order, front, ids);
      WithoutMembers(front, ids);
      var kept := EventsWithout(front, ids);
      if e.p.id in ids {
        assert EventsWithout(es, ids) == kept;
      } else {
        InOrderSnoc(order, front, e, kept);
      }
    }
  }

  lemma WithoutGenuine(known: map<string, Payload>, es: seq<Event>, ids: set<string>)
    requires Genuine(known, es)
    ensures Genuine(known, EventsWithout(es, ids))
  {
    WithoutMembers(es, ids);
  }

  /** Three consecutive parts of an ordered sequence share no id. */
  lemma SplitParts(order: map<string, nat>, f: seq<Event>, i: seq<Event>, q: seq<Event>)
    requires InOrder(order, f + (i + q))
    ensures InOrder(order, f) && InOrder(order, i) && InOrder(order, q) && InOrder(order, i + q)
    ensures IdSet(i + q) == IdSet(i) + IdSet(q)
    ensures IdSet(f + (i + q)) == IdSet(f) + IdSet(i + q)
    ensures IdSet(f) !! IdSet(i + q) && IdSet(i) !! IdSet(q)
  {
    InOrderSplit(order, f, i + q);
    InOrderSplit(order, i, q);
    IdSetJoin(i, q);
    IdSetJoin(f, i + q);
  }

  lemma Assoc(xs: seq<Event>, ys: seq<Event>, zs: seq<Event>)
    ensures xs + (ys + zs) == (xs + ys) + zs
  {
  }

  lemma IdSetOne(e: Event)
    ensures IdSet([e]) == {e.p.id}
  {
    assert [e][..0] == [];
  }

  lemma WithoutDisjoint(es: seq<Event>, ids: set<string>)
    requires IdSet(es) !! ids
    ensures EventsWithout(es, ids) == es
  {
    forall i | 0 <= i < |es| ensures es[i].p.id !in ids { IdSetAt(es, i); }
    WithoutNone(es, ids);
  }

  lemma WithoutOwn(es: seq<Event>, ids: set<string>)
    requires IdSet(es) <= ids
    ensures EventsWithout(es, ids) == []
  {
    forall i | 0 <= i < |es| ensures es[i].p.id in ids { IdSetAt(es, i); }
    WithoutAll(es, ids);
  }

  lemma {:induction false} WithoutShrinks(es: seq<Event>, ids: set<string>)
    ensures |EventsWithout(es, ids)| <= |es|
  {
    if es == [] {
    } else {
      WithoutShrinks(es[..|es| - 1], ids);
    }
  }

  /** Deleting the same ids from memory and table keeps the two in step. */
  lemma RowsDelete(all: seq<Event>, table: seq<Row>, order: map<string, nat>, known: map<string, Payload>,
                   ids: set<string>)
    requires RowsOk(all, table, order, known)
    ensures RowsOk(EventsWithout(all, ids), RowsWithout(table, ids), order, known)
  {
    RowsOfWithout(all, ids);
    WithoutInOrder(order, all, ids);
    WithoutGenuine(known, all, ids);
  }

  // ----- Giving up queued events

  /** Events leave the queue and the table, and are to be counted. */
  function DropQueued(s: Sys, ids: set<string>, n: nat): Sys {
    s.(queue := EventsWithout(s.queue, ids), table := RowsWithout(s.table, ids), uncounted := s.uncounted + n)
  }

  lemma QueueWithout(order: map<string, nat>, f: seq<Event>, i: seq<Event>, q: seq<Event>, a: seq<Event>,
                     ids: set<string>)
    requires InOrder(order, f + (i + (q + a))) && ids <= IdSet(q)
    ensures f + (i + (EventsWithout(q, ids) + a)) == EventsWithout(f + (i + (q + a)), ids)
    ensures |EventsWithout(q, ids)| <= |q|
  {
    SplitParts(order, f, i, q + a);
    InOrderSplit(order, q, a);
    IdSetJoin(q, a);
    WithoutDisjoint(f, ids);
    WithoutDisjoint(i, ids);
    WithoutDisjoint(a, ids);
    WithoutJoin(f, i + (q + a), ids);
    WithoutJoin(i, q + a, ids);
    WithoutJoin(q, a, ids);
    WithoutShrinks(q, ids);
  }

  lemma DropQueuedKeeps(s: Sys, ids: set<string>, n: nat)
    requires Inv(s) && s.up && ids <= IdSet(s.queue)
    ensures Inv(DropQueued(s, ids, n))
  {
    QueueWithout(s.order, s.finishing, s.inflight, s.queue, Arriving(s.arriving), ids);
    RowsDelete(All(s), s.table, s.order, s.known, ids);
  }

  // ----- Enqueueing

  lemma RowsAppend(all: seq<Event>, table: seq<Row>, order: map<string, nat>, known: map<string, Payload>, e: Event)
    requires RowsOk(all, table, order, known) && Numbered(order, known) && e.p.id !in known
    ensures RowsOk(all + [e], table + [RowOf(e)], order[e.p.id := |order|], known[e.p.id := e.p])
  {
    assert RowsOf(all + [e]) == RowsOf(all) + [RowOf(e)];
    var wider := order[e.p.id := |order|];
    assert InOrder(wider, all);
    InOrderAppend(wider, all, e);
  }

  lemma NumberedAppend(order: map<string, nat>, known: map<string, Payload>, p: Payload)
    requires Numbered(order, known) && p.id !in known
    ensures Numbered(order[p.id := |order|], known[p.id := p])
  {
    var wider := order[p.id := |order|];
    assert wider.Keys == order.Keys + {p.id};
    assert |wider| == |wider.Keys| && |order| == |order.Keys|;
  }

  /** A fresh event changes nothing about batches that are already out. */
  lemma RelayAppend(relay: Tables, posted: set<seq<Payload>>, accepted: set<seq<Payload>>,
                    known: map<string, Payload>, p: Payload)
    requires WireOk(known, posted, accepted) && RelayOk(relay, accepted, known)
    requires p.id !in known && !Has(relay.logins, p.id) && !Has(relay.clips, p.id)
    ensures WireOk(known[p.id := p], posted, accepted) && RelayOk(relay, accepted, known[p.id := p])
  {
    forall b | b in posted
      ensures BatchKnown(known[p.id := p], b)
    {
      assert BatchKnown(known, b);
    }
  }

  lemma PersistParts(f: seq<Event>, i: seq<Event>, q: seq<Event>, e: Event)
    ensures f + (i + (q + [e])) == (f + (i + (q + []))) + [e]
  {
  }

  lemma PersistKeeps(s: Sys, p: Payload, now: int)
    requires Inv(s) && Enabled(s, Persist(p, now))
    ensures Inv(DoPersist(s, p, now))
  {
    PersistParts(s.finishing, s.inflight, s.queue, Event(p, now));
    RowsAppend(All(s), s.table, s.order, s.known, Event(p, now));
    NumberedAppend(s.order, s.known, p);
    RelayAppend(s.relay, s.posted, s.accepted, s.known, p);
  }

  lemma WithoutFirst(order: map<string, nat>, q: seq<Event>)
    requires InOrder(order, q) && q != []
    ensures EventsWithout(q, {q[0].p.id}) == q[1..]
  {
    var first, others := [q[0]], q[1..];
    assert q == first + others;
    InOrderSplit(order, first, others);
    IdSetOne(q[0]);
    WithoutJoin(first, others, {q[0].p.id});
    WithoutDisjoint(others, {q[0].p.id});
    WithoutOwn(first, {q[0].p.id});
  }

  lemma QueueInOrder(s: Sys)
    requires InOrder(s.order, All(s))
    ensures InOrder(s.order, s.queue) && InOrder(s.order, s.finishing) && InOrder(s.order, s.inflight)
  {
    SplitParts(s.order, s.finishing, s.inflight, s.queue + Arriving(s.arriving));
    InOrderSplit(s.order, s.queue, Arriving(s.arriving));
  }

  lemma EvictKeeps(s: Sys)
    requires Inv(s) && Enabled(s, Evict)
    ensures Inv(DoEvict(s))
  {
    QueueInOrder(s);
    WithoutFirst(s.order, s.queue);
    IdSetAt(s.queue, 0);
    DropQueuedKeeps(s, {s.queue[0].p.id}, 1);
  }

  /** The event given up to make room is the one that arrived first of those queued. */
  lemma EvictsOldest(s: Sys)
    requires Inv(s) && Enabled(s, Evict)
    ensures var r := DoEvict(s);
            && |r.queue| == |s.queue| - 1 && IdSet(s.queue) - IdSet(r.queue) == {s.queue[0].p.id}
            && s.queue[0].p.id in s.order
            && forall j :: 0 <= j < |r.queue| ==>
                             r.queue[j].p.id in s.order && s.order[s.queue[0].p.id] < s.order[r.queue[j].p.id]
  {
    QueueInOrder(s);
    FirstIsOldest(s.order, s.queue);
  }

  lemma FirstIsOldest(order: map<string, nat>, q: seq<Event>)
    requires InOrder(order, q) && q != []
    ensures q[0].p.id in order && IdSet(q) - IdSet(q[1..]) == {q[0].p.id}
    ensures forall j :: 0 <= j < |q[1..]| ==>
                          q[1..][j].p.id in order && order[q[0].p.id] < order[q[1..][j].p.id]
  {
    var first, others := [q[0]], q[1..];
    assert first + others == q;
    InOrderSplit(order, first, others);
    IdSetJoin(first, others);
    IdSetOne(q[0]);
  }

  lemma AppendKeeps(s: Sys)
    requires Inv(s) && Enabled(s, Append)
    ensures Inv(DoAppend(s))
  {
    assert s.queue + [s.arriving.value] == (s.queue + [s.arriving.value]) + [];
  }

  // ----- Cutting a batch

  lemma {:induction false} WithoutMore(es: seq<Event>, ids: set<string>, more: set<string>)
    requires IdSet(es) !! more
    ensures EventsWithout(es, ids + more) == EventsWithout(es, ids)
  {
    if es == [] {
    } else {
      WithoutMore(es[..|es| - 1], ids, more);
    }
  }

  lemma ToSetAppend(ids: seq<string>, id: string)
    ensures ToSet(ids + [id]) == ToSet(ids) + {id}
  {
    assert (ids + [id])[..|ids|] == ids;
  }

  lemma {:induction false} ExpiryIsDeletion(order: map<string, nat>, q: seq<Event>, now: int, retention: int)
    requires InOrder(order, q)
    ensures var gone := ToSet(ExpiredIds(q, now, retention));
            && gone <= IdSet(q) && |gone| == |ExpiredIds(q, now, retention)|
            && Unexpired(q, now, retention) == EventsWithout(q, gone)
  {
    if q == [] {
    } else {
      var rest, e := q[..|q| - 1], q[|q| - 1];
      assert q == rest + [e];
      InOrderSplit(order, rest, [e]);
      IdSetOne(e);
      ExpiryIsDeletion(order, rest, now, retention);
      var gone := ExpiredIds(rest, now, retention);
      if Expired(e.enqueuedAt, now, retention) {
        ToSetAppend(gone, e.p.id);
        WithoutMore(rest, ToSet(gone), {e.p.id});
      } else {
        assert ExpiredIds(q, now, retention) == gone;
      }
    }
  }

  lemma ExpireKeeps(c: Config, s: Sys, now: int)
    requires Inv(s) && Enabled(s, Expire(now))
    ensures Inv(DoExpire(c, s, now))
  {
    QueueInOrder(s);
    ExpiryIsDeletion(s.order, s.queue, now, c.retention);
    var gone := ExpiredIds(s.queue, now, c.retention);
    DropQueuedKeeps(s, ToSet(gone), |gone|);
  }

  lemma BatchFromQueue(known: map<string, Payload>, q: seq<Event>, n: nat)
    requires Genuine(known, q) && n <= |q|
    ensures BatchKnown(known, Payloads(q[..n]))
  {
  }

  lemma PostMore(known: map<string, Payload>, posted: set<seq<Payload>>, accepted: set<seq<Payload>>,
                 batch: seq<Payload>)
    requires WireOk(known, posted, accepted) && BatchKnown(known, batch)
    ensures WireOk(known, posted + {batch}, accepted)
  {
  }

  lemma CutParts(q: seq<Event>, n: nat)
    requires n <= |q|
    ensures [] + (q[..n] + (q[n..] + [])) == [] + ([] + (q + [])) && [] + ([] + (q + [])) == q
  {
  }

  lemma CutKeeps(c: Config, s: Sys)
    requires Inv(s) && Enabled(s, Cut)
    ensures Inv(DoCut(c, s))
  {
    var n := BatchLen(c.overhead, s.queue, 0);
    BatchIsLongestPrefix(c.overhead, s.queue);
    CutParts(s.queue, n);
    BatchFromQueue(s.known, s.queue, n);
    PostMore(s.known, s.posted, s.accepted, Payloads(s.queue[..n]));
  }

  // ----- The relay's side

  lemma {:induction false} StoredGrows(t: Tables, r: Tables, e: Payload)
    requires t.logins <= r.logins && t.clips <= r.clips && IsStored(t, e)
    ensures IsStored(r, e)
  {
    if e.kind == "login" { HasLonger(t.logins, r.logins, e.id); } else { HasLonger(t.clips, r.clips, e.id); }
  }

  lemma NewRowsKnown(env: Env, t: Tables, machine: string, batch: seq<Payload>, known: map<string, Payload>, id: string)
    requires UniqueIds(t) && BatchKnown(known, batch) && id in known
    requires Status(env, Request(machine, Some(batch))).Accepted?
    ensures var r := Ingest(env, t, Request(machine, Some(batch)));
            && (Has(r.logins, id) ==> Has(t.logins, id) || known[id].kind == "login")
            && (Has(r.clips, id) ==> Has(t.clips, id) || known[id].kind == "clipboard")
  {
    var req := Request(machine, Some(batch));
    IngestAllOrNothing(env, t, req);
    var r := Ingest(env, t, req);
    if Has(r.logins, id) {
      var k :| 0 <= k < |r.logins| && r.logins[k].id == id;
      if k < |t.logins| { assert t.logins[k].id == id; } else { assert LoginFrom(r.logins[k], machine, batch); }
    }
    if Has(r.clips, id) {
      var k :| 0 <= k < |r.clips| && r.clips[k].id == id;
      if k < |t.clips| { assert t.clips[k].id == id; } else { assert ClipFrom(env, r.clips[k], machine, batch); }
    }
  }

  lemma DeliverRelay(c: Config, env: Env, t: Tables, accepted: set<seq<Payload>>, known: map<string, Payload>,
                     batch: seq<Payload>)
    requires RelayOk(t, accepted, known) && BatchKnown(known, batch)
    requires Status(env, Request(c.machineId, Some(batch))).Accepted?
    ensures RelayOk(Ingest(env, t, Request(c.machineId, Some(batch))), accepted + {batch}, known)
  {
    var req := Request(c.machineId, Some(batch));
    var r := Ingest(env, t, req);
    IngestAllOrNothing(env, t, req);
    AcceptedIsStored(env, t, req);
    forall b | b in accepted + {batch} ensures BatchStored(r, b) {
      if b != batch {
        forall i | 0 <= i < |b| ensures IsStored(r, b[i]) { assert BatchStored(t, b); StoredGrows(t, r, b[i]); }
      }
    }
    forall id | id in known
      ensures Has(r.logins, id) ==> known[id].kind == "login"
      ensures Has(r.clips, id) ==> known[id].kind == "clipboard"
    {
      NewRowsKnown(env, t, c.machineId, batch, known, id);
    }
  }

  lemma AckedStoredGrows(t: Tables, r: Tables, acked: set<string>, known: map<string, Payload>)
    requires AckedStored(t, acked, known) && t.logins <= r.logins && t.clips <= r.clips
    ensures AckedStored(r, acked, known)
  {
    forall id | id in acked ensures id in known && IsStored(r, known[id]) {
      StoredGrows(t, r, known[id]);
    }
  }

  lemma DeliverKeeps(c: Config, s: Sys, batch: seq<Payload>, env: Env)
    requires Inv(s) && Enabled(s, Deliver(batch, env))
    ensures Inv(DoDeliver(c, s, batch, env))
  {
    var req := Request(c.machineId, Some(batch));
    if Status(env, req).Accepted? {
      assert BatchKnown(s.known, batch);
      DeliverRelay(c, env, s.relay, s.accepted, s.known, batch);
      IngestAllOrNothing(env, s.relay, req);
      AckedStoredGrows(s.relay, Ingest(env, s.relay, req), s.acked, s.known);
    }
  }

  // ----- The reply comes in

  lemma FinishParts(i: seq<Event>, q: seq<Event>)
    ensures i + ([] + (q + [])) == [] + (i + (q + []))
  {
  }

  lemma AckedStoredFinish(relay: Tables, acked: set<string>, known: map<string, Payload>, i: seq<Event>)
    requires AckedStored(relay, acked, known) && Genuine(known, i) && BatchStored(relay, Payloads(i))
    ensures AckedStored(relay, acked + IdSet(i), known)
  {
    forall id | id in IdSet(i)
      ensures id in known && IsStored(relay, known[id])
    {
      var k := IdSetIndex(i, id);
      assert Payloads(i)[k] == known[id];
    }
  }

  lemma GenuineParts(known: map<string, Payload>, i: seq<Event>, q: seq<Event>)
    requires Genuine(known, [] + (i + q))
    ensures Genuine(known, i)
  {
    forall k | 0 <= k < |i|
      ensures i[k] == ([] + (i + q))[k]
    {
    }
  }

  lemma AckKeeps(s: Sys)
    requires Inv(s) && Enabled(s, Ack)
    ensures Inv(DoAck(s))
  {
    FinishParts(s.inflight, s.queue);
    assert AckedStored(s.relay, s.acked + IdSet(s.inflight), s.known) by {
      GenuineParts(s.known, s.inflight, s.queue + []);
      AckedStoredFinish(s.relay, s.acked, s.known, s.inflight);
    }
  }

  lemma RejectKeeps(s: Sys)
    requires Inv(s) && Enabled(s, Reject)
    ensures Inv(DoReject(s))
  {
    FinishParts(s.inflight, s.queue);
  }

  lemma DeleteParts(order: map<string, nat>, f: seq<Event>, pending: seq<Event>)
    requires InOrder(order, f + pending)
    ensures EventsWithout(f + pending, IdSet(f)) == pending && [] + pending == pending
  {
    InOrderSplit(order, f, pending);
    WithoutJoin(f, pending, IdSet(f));
    WithoutOwn(f, IdSet(f));
    WithoutDisjoint(pending, IdSet(f));
  }

  lemma DeleteRows(order: map<string, nat>, known: map<string, Payload>, f: seq<Event>, pending: seq<Event>,
                   table: seq<Row>)
    requires RowsOk(f + pending, table, order, known)
    ensures RowsOk([] + pending, RowsWithout(table, IdSet(f)), order, known)
  {
    DeleteParts(order, f, pending);
    RowsDelete(f + pending, table, order, known, IdSet(f));
  }

  lemma DeleteFinishedKeeps(s: Sys)
    requires Inv(s) && Enabled(s, DeleteFinished)
    ensures Inv(DoDelete(s))
  {
    DeleteRows(s.order, s.known, s.finishing, Pending(s), s.table);
  }

  lemma RetryKeeps(s: Sys)
    requires Inv(s) && Enabled(s, Retry)
    ensures Inv(DoRetry(s))
  {
    assert s.inflight + (s.queue + []) == [] + ((s.inflight + s.queue) + []);
  }

  lemma CountKeeps(s: Sys, n: nat)
    requires Inv(s) && Enabled(s, Count(n))
    ensures Inv(DoCount(s, n))
  {
  }
}

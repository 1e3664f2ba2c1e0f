/** Crash and reload, and what holds over every run of the audit protocol. */
module AuditRecovery {
  import opened Basics
  import opened AuditSpec
  import opened AuditRelay
  import opened AuditProtocol
  import opened AuditSafety

  // ----- What a reload brings back

  lemma RestoredRow(e: Event)
    ensures RowOf(Restored(e)) == RowOf(e)
  {
  }

  /** A row keeps the payload and the second; what comes back is at most a second early and never late. */
  lemma RestoredWithinSecond(e: Event)
    ensures Restored(e).p == e.p && RowOf(e).id == e.p.id && RowOf(e).payload == Some(e.p)
    ensures Restored(e).enqueuedAt <= e.enqueuedAt < Restored(e).enqueuedAt + 1_000_000_000
    ensures Restored(e).enqueuedAt == RowOf(e).createdAt * 1_000_000_000
  {
  }

  lemma RestoredRows(es: seq<Event>)
    ensures RowsOf(RestoredAll(es)) == RowsOf(es)
  {
    forall i | 0 <= i < |es| ensures RowsOf(RestoredAll(es))[i] == RowsOf(es)[i] { RestoredRow(es[i]); }
  }

  lemma {:induction false} RestoredIds(es: seq<Event>)
    ensures IdSet(RestoredAll(es)) == IdSet(es)
  {
    if es == [] {
    } else {
      RestoredIds(es[..|es| - 1]);
      assert RestoredAll(es)[..|es| - 1] == RestoredAll(es[..|es| - 1]);
    }
  }

  lemma RestoredInOrder(order: map<string, nat>, es: seq<Event>)
    requires InOrder(order, es)
    ensures InOrder(order, RestoredAll(es))
  {
  }

  lemma {:induction false} UsableIsUnexpired(es: seq<Event>, now: int, retention: int)
    ensures UsableEvents(RowsOf(es), now, retention) == Unexpired(RestoredAll(es), now, retention)
  {
    if es == [] {
    } else {
      var last := |es| - 1;
      UsableIsUnexpired(es[..last], now, retention);
      assert RowsOf(es)[..last] == RowsOf(es[..last]);
      assert RestoredAll(es)[..last] == RestoredAll(es[..last]);
    }
  }

  lemma {:induction false} WithoutTwice(es: seq<Event>, xs: set<string>, ys: set<string>)
    ensures EventsWithout(EventsWithout(es, xs), ys) == EventsWithout(es, xs + ys)
  {
    if es == [] {
    } else {
      var last := |es| - 1;
      WithoutTwice(es[..last], xs, ys);
      var kept := EventsWithout(es[..last], xs);
      if es[last].p.id in xs {
        assert EventsWithout(es, xs) == kept;
      } else {
        assert (kept + [es[last]])[..|kept|] == kept;
      }
    }
  }

  /** The newest events of an ordered sequence are what is left after deleting the oldest. */
  lemma NewestIsDeletion(order: map<string, nat>, es: seq<Event>, limit: nat)
    requires InOrder(order, es)
    ensures var oldest := es[..|es| - |Newest(es, limit)|];
            && EventsWithout(es, IdSet(oldest)) == Newest(es, limit)
            && IdSet(Newest(es, limit)) == IdSet(es) - IdSet(oldest) && IdSet(oldest) <= IdSet(es)
  {
    var newest := Newest(es, limit);
    var oldest := es[..|es| - |newest|];
    assert es == oldest + newest;
    InOrderSplit(order, oldest, newest);
    WithoutJoin(oldest, newest, IdSet(oldest));
    WithoutOwn(oldest, IdSet(oldest));
    WithoutDisjoint(newest, IdSet(oldest));
    IdSetJoin(oldest, newest);
  }

  lemma LostSet(all: set<string>, expired: set<string>, oldest: set<string>)
    requires expired <= all && oldest <= all - expired
    ensures all - (all - expired - oldest) == expired + oldest
  {
  }

  lemma NewestUnexpired(order: map<string, nat>, all: seq<Event>, now: int, retention: int)
    requires InOrder(order, all)
    ensures var back := Newest(Unexpired(all, now, retention), QUEUE_LIMIT);
            back == EventsWithout(all, IdSet(all) - IdSet(back)) && IdSet(back) <= IdSet(all)
  {
    ExpiryIsDeletion(order, all, now, retention);
    var expired := ToSet(ExpiredIds(all, now, retention));
    var current := EventsWithout(all, expired);
    WithoutInOrder(order, all, expired);
    WithoutMembers(all, expired);
    var back := Newest(current, QUEUE_LIMIT);
    var oldest := current[..|current| - |back|];
    NewestIsDeletion(order, current, QUEUE_LIMIT);
    WithoutTwice(all, expired, IdSet(oldest));
    LostSet(IdSet(all), expired, IdSet(oldest));
  }

  /** A reload deletes from the table exactly what it does not bring back. */
  lemma LoadIsDeletion(order: map<string, nat>, es: seq<Event>, now: int, retention: int)
    requires InOrder(order, es)
    ensures var back := Loaded(RowsOf(es), QUEUE_LIMIT, now, retention);
            && back == EventsWithout(RestoredAll(es), IdSet(es) - IdSet(back))
            && IdSet(back) <= IdSet(es)
  {
    RestoredInOrder(order, es);
    RestoredIds(es);
    UsableIsUnexpired(es, now, retention);
    NewestUnexpired(order, RestoredAll(es), now, retention);
  }

  // ----- A restart keeps the invariant

  lemma CrashParts(es: seq<Event>)
    ensures [] + ([] + (es + [])) == es
  {
  }

  lemma CrashKeeps(s: Sys)
    requires Inv(s) && Enabled(s, Crash)
    ensures Inv(DoCrash(s))
  {
    CrashParts(RestoredAll(All(s)));
    RestoredRows(All(s));
    RestoredInOrder(s.order, All(s));
    assert Genuine(s.known, RestoredAll(All(s)));
  }

  lemma LoadRows(order: map<string, nat>, known: map<string, Payload>, all: seq<Event>, table: seq<Row>, now: int,
                 retention: int)
    requires RowsOk(all, table, order, known)
    ensures var back := Loaded(table, QUEUE_LIMIT, now, retention);
            RowsOk(back, RowsWithout(table, IdSet(all) - IdSet(back)), order, known)
  {
    var back := Loaded(table, QUEUE_LIMIT, now, retention);
    RestoredRows(all);
    RestoredInOrder(order, all);
    assert Genuine(known, RestoredAll(all));
    LoadIsDeletion(order, all, now, retention);
    RowsDelete(RestoredAll(all), table, order, known, IdSet(all) - IdSet(back));
  }

  lemma LoadKeeps(c: Config, s: Sys, now: int)
    requires Inv(s) && Enabled(s, Load(now))
    ensures Inv(DoLoad(c, s, now))
  {
    CrashParts(s.queue);
    LoadRows(s.order, s.known, s.queue, s.table, now, c.retention);
    CrashParts(Loaded(s.table, QUEUE_LIMIT, now, c.retention));
  }

  // ----- Whole runs

  /** The steps of enqueueing, batching and restarting. */
  lemma LocalStepKeeps(c: Config, s: Sys, step: Step)
    requires Inv(s) && Enabled(s, step) && !IsReply(step)
    ensures Inv(Do(c, s, step))
  {
    match step
    case Persist(p, now) => PersistKeeps(s, p, now);
    case Evict => EvictKeeps(s);
    case Append => AppendKeeps(s);
    case Expire(now) => ExpireKeeps(c, s, now);
    case Cut => CutKeeps(c, s);
    case Crash => CrashKeeps(s);
    case Load(now) => LoadKeeps(c, s, now);
  }

  predicate IsReply(step: Step) {
    step.Deliver? || step.Ack? || step.Reject? || step.Retry? || step.DeleteFinished? || step.Count?
  }

  lemma ReplyStepKeeps(c: Config, s: Sys, step: Step)
    requires Inv(s) && Enabled(s, step) && IsReply(step)
    ensures Inv(Do(c, s, step))
  {
    match step
    case Deliver(batch, env) => DeliverKeeps(c, s, batch, env);
    case Ack => AckKeeps(s);
    case Reject => RejectKeeps(s);
    case Retry => RetryKeeps(s);
    case DeleteFinished => DeleteFinishedKeeps(s);
    case Count(n) => CountKeeps(s, n);
  }

  lemma StepKeeps(c: Config, s: Sys, step: Step)
    requires Inv(s) && Enabled(s, step)
    ensures Inv(Do(c, s, step))
  {
    if IsReply(step) {
      ReplyStepKeeps(c, s, step);
    } else {
      LocalStepKeeps(c, s, step);
    }
  }

  /** A machine that has forwarded nothing yet, next to a relay that may already hold other events. */
  function Start(relay: Tables): Sys {
    Sys(true, [], false, [], [], None, [], {}, {}, relay, map[], map[], {}, 0, 0)
  }

  ghost predicate IsRun(c: Config, states: seq<Sys>, steps: seq<Step>) {
    && |states| == |steps| + 1
    && forall i :: 0 <= i < |steps| ==> Enabled(states[i], steps[i]) && states[i + 1] == Do(c, states[i], steps[i])
  }

  /** A run and one more step. */
  lemma RunMore(c: Config, states: seq<Sys>, steps: seq<Step>, step: Step)
    returns (longer: seq<Sys>, more: seq<Step>)
    requires IsRun(c, states, steps) && Enabled(states[|states| - 1], step)
    ensures IsRun(c, longer, more) && |longer| == |states| + 1 && states <= longer && more == steps + [step]
    ensures longer[|states|] == Do(c, states[|states| - 1], step)
  {
    longer, more := states + [Do(c, states[|states| - 1], step)], steps + [step];
  }

  lemma StartInv(relay: Tables)
    requires UniqueIds(relay)
    ensures Inv(Start(relay))
  {
    assert RowsOf([]) == [];
  }

  lemma {:induction false} RunInv(c: Config, relay: Tables, states: seq<Sys>, steps: seq<Step>, n: nat)
    requires UniqueIds(relay) && IsRun(c, states, steps) && states[0] == Start(relay) && n < |states|
    ensures Inv(states[n])
    decreases n
  {
    if n == 0 {
      StartInv(relay);
    } else {
      RunInv(c, relay, states, steps, n - 1);
      StepKeeps(c, states[n - 1], steps[n - 1]);
    }
  }

  /** How often an id occurs in the relay's two tables together. */
  function Copies<T>(rows: seq<Stored<T>>, id: string): nat {
    if rows == [] then 0 else Copies(rows[..|rows| - 1], id) + if rows[|rows| - 1].id == id then 1 else 0
  }

  lemma PrefixLacks<T>(rows: seq<Stored<T>>, id: string)
    requires rows != [] && forall k :: 0 <= k < |rows| - 1 ==> rows[k].id != id
    ensures !Has(rows[..|rows| - 1], id)
  {
  }

  lemma {:induction false} NoCopies<T>(rows: seq<Stored<T>>, id: string)
    requires !Has(rows, id)
    ensures Copies(rows, id) == 0
  {
    if rows == [] {
    } else {
      var last := |rows| - 1;
      assert rows[last].id != id;
      PrefixLacks(rows, id);
      NoCopies(rows[..last], id);
    }
  }

  lemma {:induction false} OneCopy<T>(rows: seq<Stored<T>>, id: string)
    requires Unique(rows) && id != "" && Has(rows, id)
    ensures Copies(rows, id) == 1
  {
    var last := |rows| - 1;
    if rows[last].id == id {
      PrefixLacks(rows, id);
      NoCopies(rows[..last], id);
    } else {
      var k :| 0 <= k < |rows| && rows[k].id == id;
      assert rows[..last][k].id == id;
      OneCopy(rows[..last], id);
    }
  }

  function RelayCopies(t: Tables, id: string): nat { Copies(t.logins, id) + Copies(t.clips, id) }

  /**
  Exactly-once effect, in every state of every run with any losses, repeats, retries and
  crashes: the relay holds no forwarded event more than once, and holds every
  acknowledged one exactly once.
  */
  lemma ExactlyOnce(c: Config, relay: Tables, states: seq<Sys>, steps: seq<Step>, n: nat, id: string)
    requires UniqueIds(relay) && IsRun(c, states, steps) && states[0] == Start(relay) && n < |states|
    requires id in states[n].known && id != ""
    ensures RelayCopies(states[n].relay, id) <= 1
    ensures id in states[n].acked ==> RelayCopies(states[n].relay, id) == 1
    ensures forall b: seq<Payload>, i: int :: b in states[n].accepted && 0 <= i < |b| && b[i].id == id ==>
                                                RelayCopies(states[n].relay, id) == 1
  {
    RunInv(c, relay, states, steps, n);
    var s := states[n];
    assert !(Has(s.relay.logins, id) && Has(s.relay.clips, id));
    if Has(s.relay.logins, id) { OneCopy(s.relay.logins, id); } else { NoCopies(s.relay.logins, id); }
    if Has(s.relay.clips, id) { OneCopy(s.relay.clips, id); } else { NoCopies(s.relay.clips, id); }
    forall b: seq<Payload>, i: int | b in s.accepted && 0 <= i < |b| && b[i].id == id
      ensures RelayCopies(s.relay, id) == 1
    {
      assert BatchStored(s.relay, b);
      assert IsStored(s.relay, b[i]);
    }
  }

  // ----- What comes back after a restart

  lemma {:induction false} UnexpiredJoin(xs: seq<Event>, ys: seq<Event>, now: int, retention: int)
    ensures Unexpired(xs + ys, now, retention) == Unexpired(xs, now, retention) + Unexpired(ys, now, retention)
  {
    if ys == [] {
      assert xs + ys == xs;
    } else {
      var last := |ys| - 1;
      var front, e := ys[..last], ys[last];
      var x, y := Unexpired(xs, now, retention), Unexpired(front, now, retention);
      var tail := if Expired(e.enqueuedAt, now, retention) then [] else [e];
      calc {
        Unexpired(xs + ys, now, retention);
        { assert (xs + front) + [e] == xs + ys; }
        Unexpired((xs + front) + [e], now, retention);
        { UnexpiredMore(xs + front, e, now, retention); }
        Unexpired(xs + front, now, retention) + tail;
        { UnexpiredJoin(xs, front, now, retention); }
        (x + y) + tail;
        x + (y + tail);
        { UnexpiredMore(front, e, now, retention); }
        x + Unexpired(front + [e], now, retention);
        { assert front + [e] == ys; }
        x + Unexpired(ys, now, retention);
      }
    }
  }

  lemma UnexpiredMore(es: seq<Event>, e: Event, now: int, retention: int)
    ensures Unexpired(es + [e], now, retention) ==
            Unexpired(es, now, retention) + if Expired(e.enqueuedAt, now, retention) then [] else [e]
  {
    assert (es + [e])[..|es|] == es;
  }

  lemma {:induction false} UnexpiredKeeps(es: seq<Event>, j: nat, now: int, retention: int)
    requires j < |es| && !Expired(es[j].enqueuedAt, now, retention)
    ensures es[j] in Unexpired(es, now, retention)
  {
    if j == |es| - 1 {
    } else {
      UnexpiredKeeps(es[..|es| - 1], j, now, retention);
    }
  }

  lemma {:induction false} UnexpiredAll(es: seq<Event>, now: int, retention: int)
    ensures |Unexpired(es, now, retention)| == |es| <==>
            forall j :: 0 <= j < |es| ==> !Expired(es[j].enqueuedAt, now, retention)
    ensures |Unexpired(es, now, retention)| == |es| ==> Unexpired(es, now, retention) == es
  {
    if es == [] {
    } else {
      var last := |es| - 1;
      UnexpiredAll(es[..last], now, retention);
      assert es == es[..last] + [es[last]];
    }
  }

  /** The answered and the pending events that a restart at time `now` would still accept. */
  function Answered(c: Config, s: Sys, now: int): seq<Event> { Unexpired(RestoredAll(s.finishing), now, c.retention) }

  function Waiting(c: Config, s: Sys, now: int): seq<Event> { Unexpired(RestoredAll(Pending(s)), now, c.retention) }

  /** The table holds one pending event too many: a full queue and an event whose eviction has not happened yet. */
  predicate Overfull(c: Config, s: Sys, now: int) {
    && s.arriving.Some? && |s.inflight| + |s.queue| == QUEUE_LIMIT
    && forall j :: 0 <= j < |Pending(s)| ==> !Expired(Restored(Pending(s)[j]).enqueuedAt, now, c.retention)
  }

  lemma WaitingSize(c: Config, s: Sys, now: int)
    requires Sized(s) && s.up
    ensures |Waiting(c, s, now)| <= QUEUE_LIMIT + 1
    ensures |Waiting(c, s, now)| > QUEUE_LIMIT <==> Overfull(c, s, now)
    ensures Overfull(c, s, now) ==> Waiting(c, s, now) == RestoredAll(Pending(s))
  {
    var all := RestoredAll(Pending(s));
    UnexpiredAll(all, now, c.retention);
    forall j | 0 <= j < |all| ensures all[j] == Restored(Pending(s)[j]) { }
  }

  lemma ReloadParts(f: seq<Event>, p: seq<Event>, now: int, retention: int)
    ensures Loaded(RowsOf(f + p), QUEUE_LIMIT, now, retention) ==
            Newest(Unexpired(RestoredAll(f), now, retention) + Unexpired(RestoredAll(p), now, retention), QUEUE_LIMIT)
  {
    calc {
      UsableEvents(RowsOf(f + p), now, retention);
      { UsableIsUnexpired(f + p, now, retention); }
      Unexpired(RestoredAll(f + p), now, retention);
      { RestoredJoin(f, p); }
      Unexpired(RestoredAll(f) + RestoredAll(p), now, retention);
      { UnexpiredJoin(RestoredAll(f), RestoredAll(p), now, retention); }
      Unexpired(RestoredAll(f), now, retention) + Unexpired(RestoredAll(p), now, retention);
    }
  }

  lemma RestoredJoin(f: seq<Event>, p: seq<Event>)
    ensures RestoredAll(f + p) == RestoredAll(f) + RestoredAll(p)
  {
  }

  /** How many events fit into the queue besides these. */
  function RoomBefore(p: seq<Event>): nat { if |p| < QUEUE_LIMIT then QUEUE_LIMIT - |p| else 0 }

  function Restarted(c: Config, s: Sys, now: int): Sys { DoLoad(c, DoCrash(s), now) }

  /**
  A restart brings back, in the order they arrived, every pending event whose recorded second
  has not expired, and before them at most events the relay had answered already.  The one
  exception is a crash between the insert and the eviction of an enqueue: the table then
  holds 1001 of them and the oldest is left behind.
  */
  lemma RestartRestores(c: Config, s: Sys, now: int)
    requires Inv(s) && s.up
    ensures var a, p := Answered(c, s, now), Waiting(c, s, now);
            (Overfull(c, s, now) ==> p != []) &&
            Restarted(c, s, now).queue ==
            if Overfull(c, s, now) then p[1..] else Newest(a, RoomBefore(p)) + p
  {
    var a, p := Answered(c, s, now), Waiting(c, s, now);
    ReloadParts(s.finishing, Pending(s), now, c.retention);
    WaitingSize(c, s, now);
    NewestParts(a, p);
  }

  lemma NewestParts(a: seq<Event>, p: seq<Event>)
    requires |p| <= QUEUE_LIMIT + 1
    ensures Newest(a + p, QUEUE_LIMIT) ==
            if |p| > QUEUE_LIMIT then p[1..] else Newest(a, RoomBefore(p)) + p
  {
  }

  lemma TailIsThere(front: seq<Event>, tail: seq<Event>, e: Event)
    requires e in tail
    ensures e.p.id in IdSet(front + tail)
  {
    var k :| 0 <= k < |tail| && tail[k] == e;
    assert (front + tail)[|front| + k] == e;
    IdSetAt(front + tail, |front| + k);
  }

  lemma OnlyFirstIsGone(order: map<string, nat>, es: seq<Event>, j: nat)
    requires InOrder(order, es) && j < |es|
    ensures es[j].p.id !in IdSet(es[1..]) <==> j == 0
  {
    if j > 0 {
      assert es[1..][j - 1] == es[j];
      IdSetAt(es[1..], j - 1);
    } else {
      assert [es[0]] + es[1..] == es;
      InOrderSplit(order, [es[0]], es[1..]);
      IdSetAt([es[0]], 0);
    }
  }

  /** A pending event that has not expired is not restored if and only if it is the oldest of an overfull table. */
  lemma PendingIsRestored(c: Config, s: Sys, now: int, j: nat)
    requires Inv(s) && s.up && j < |Pending(s)|
    requires !Expired(Restored(Pending(s)[j]).enqueuedAt, now, c.retention)
    ensures Pending(s)[j].p.id !in IdSet(Restarted(c, s, now).queue) <==> Overfull(c, s, now) && j == 0
  {
    var all, p := RestoredAll(Pending(s)), Waiting(c, s, now);
    assert all[j].p == Pending(s)[j].p;
    RestartRestores(c, s, now);
    if Overfull(c, s, now) {
      assert p == all by { WaitingSize(c, s, now); }
      assert InOrder(s.order, all) by {
        InOrderSplit(s.order, s.finishing, Pending(s));
        RestoredInOrder(s.order, Pending(s));
      }
      OnlyFirstIsGone(s.order, all, j);
    } else {
      UnexpiredKeeps(all, j, now, c.retention);
      TailIsThere(Newest(Answered(c, s, now), RoomBefore(p)), p, all[j]);
    }
  }
}

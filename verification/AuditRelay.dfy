/**
The relay's side of audit forwarding: what it accepts and how it stores it
(`registerRelayAuditRoute` in flux-web/audit_forward.go, `insertForwardedAudit` in flux-web/store.go).
*/
module AuditRelay {
  import opened Basics
  import opened AuditSpec

  /** Base64 decoding and the hex SHA-256 digest, which the relay only calls. */
  datatype Codec = Codec(decode: string -> Option<seq<Byte>>, digest: seq<Byte> -> string)

  datatype Policy = Policy(captureContent: bool, maxBytes: int)

  /** A table row under the id of the event it came from. */
  datatype Stored<T> = Stored(id: string, body: T)

  datatype Login = Login(machine: string, fields: string)
  datatype Clip = Clip(machine: string, fields: string, size: int, sha256: string, content: Option<seq<Byte>>)

  datatype Tables = Tables(logins: seq<Stored<Login>>, clips: seq<Stored<Clip>>)

  /** A decoded clipboard event on its way into the table; `data` is None when there is none to store. */
  datatype ClipEvent = ClipEvent(id: string, machine: string, fields: string, size: int, sha256: string,
                                 data: Option<seq<Byte>>)

  datatype Request = Request(machineId: string, events: Option<seq<Payload>>)

  datatype Env = Env(registered: set<string>, storeUp: bool, policy: Policy, codec: Codec)

  datatype Reply = Accepted(count: nat) | BadRequest | NotFound | Unavailable

  // ----- Rows: inserted unless the event id is already there

  predicate Has<T>(rows: seq<Stored<T>>, id: string) {
    exists i :: 0 <= i < |rows| && rows[i].id == id
  }

  /** `ON CONFLICT(event_id) DO NOTHING`; an empty id is stored as NULL, which never conflicts. */
  function InsertRow<T>(rows: seq<Stored<T>>, row: Stored<T>): seq<Stored<T>> {
    if row.id != "" && Has(rows, row.id) then rows else rows + [row]
  }

  function InsertRows<T>(rows: seq<Stored<T>>, more: seq<Stored<T>>): seq<Stored<T>> {
    if more == [] then rows
    else InsertRow(InsertRows(rows, more[..|more| - 1]), more[|more| - 1])
  }

  /** `insertAuditRow` with capture on: size and digest come from the data when it is there. */
  function ClipRow(codec: Codec, ev: ClipEvent): Stored<Clip> {
    var content := if ev.data.Some? && |ev.data.value| > 0 then ev.data else None;
    Stored(ev.id,
      if ev.data.Some? then Clip(ev.machine, ev.fields, |ev.data.value|, codec.digest(ev.data.value), content)
      else if ev.sha256 == "" then Clip(ev.machine, ev.fields, 0, codec.digest([]), content)
      else Clip(ev.machine, ev.fields, ev.size, ev.sha256, content))
  }

  // ----- Validation

  predicate IsHexDigit(c: char) {
    '0' <= c <= '9' || 'a' <= c <= 'f' || 'A' <= c <= 'F'
  }

  predicate IsHex(s: string, n: nat) {
    |s| == n && forall i :: 0 <= i < |s| ==> IsHexDigit(s[i])
  }

  predicate DataMatches(codec: Codec, e: Payload) {
    e.data.None? ||
    (var d := codec.decode(e.data.value);
     d.Some? && |d.value| == e.size && codec.digest(d.value) == e.sha256)
  }

  predicate EventOk(codec: Codec, e: Payload) {
    && IsHex(e.id, 32)
    && (e.kind == "login" ||
        (e.kind == "clipboard" && e.size >= 0 && IsHex(e.sha256, 64) && DataMatches(codec, e)))
  }

  predicate AllOk(codec: Codec, events: seq<Payload>) {
    forall i :: 0 <= i < |events| ==> EventOk(codec, events[i])
  }

  /** The status a request gets, decided in the order the handler checks. */
  function Status(env: Env, req: Request): Reply {
    if req.machineId == "" || req.events.None? then BadRequest
    else if |req.events.value| > BATCH_LIMIT then BadRequest
    else if req.machineId !in env.registered then NotFound
    else if !env.storeUp then Unavailable
    else if !AllOk(env.codec, req.events.value) then BadRequest
    else Accepted(|req.events.value|)
  }

  /** A batch is accepted if and only if it passes every check. */
  lemma OnlyValidIsAccepted(env: Env, req: Request)
    ensures Status(env, req).Accepted? <==>
            && req.machineId != "" && req.machineId in env.registered && env.storeUp
            && req.events.Some? && |req.events.value| <= 50
            && forall i :: 0 <= i < |req.events.value| ==>
                 var e := req.events.value[i];
                 && |e.id| == 32 && (forall k :: 0 <= k < 32 ==> IsHexDigit(e.id[k]))
                 && (e.kind == "login" ||
                     (&& e.kind == "clipboard" && e.size >= 0
                      && |e.sha256| == 64 && (forall k :: 0 <= k < 64 ==> IsHexDigit(e.sha256[k]))
                      && (e.data.Some? ==>
                            var d := env.codec.decode(e.data.value);
                            d.Some? && |d.value| == e.size && env.codec.digest(d.value) == e.sha256)))
  {
    assert req.events.Some? ==>
        (AllOk(env.codec, req.events.value) <==>
         forall i :: 0 <= i < |req.events.value| ==> EventOk(env.codec, req.events.value[i]));
  }

  // ----- What an accepted batch adds

  function LoginRow(machine: string, e: Payload): Stored<Login> {
    Stored(e.id, Login(machine, e.fields))
  }

  /** The policy may strip the content before it is stored. */
  function ClipOf(env: Env, machine: string, e: Payload): ClipEvent {
    var keep := env.policy.captureContent && e.size <= env.policy.maxBytes;
    ClipEvent(e.id, machine, e.fields, e.size, e.sha256,
              if keep && e.data.Some? then env.codec.decode(e.data.value) else None)
  }

  function LoginMaker(machine: string): Payload -> Stored<Login> {
    e => LoginRow(machine, e)
  }

  function ClipMaker(env: Env, machine: string): Payload -> Stored<Clip> {
    e => ClipRow(env.codec, ClipOf(env, machine, e))
  }

  /** The rows made from the events of one kind, in order. */
  function RowsIn<T>(kind: string, row: Payload -> T, events: seq<Payload>): seq<T> {
    if events == [] then []
    else
      var last := |events| - 1;
      RowsIn(kind, row, events[..last]) + if events[last].kind == kind then [row(events[last])] else []
  }

  function LoginsIn(machine: string, events: seq<Payload>): seq<Stored<Login>> {
    RowsIn("login", LoginMaker(machine), events)
  }

  function ClipsIn(env: Env, machine: string, events: seq<Payload>): seq<Stored<Clip>> {
    RowsIn("clipboard", ClipMaker(env, machine), events)
  }

  function Ingest(env: Env, t: Tables, req: Request): Tables {
    if Status(env, req).Accepted? then
      Tables(InsertRows(t.logins, LoginsIn(req.machineId, req.events.value)),
             InsertRows(t.clips, ClipsIn(env, req.machineId, req.events.value)))
    else t
  }

  // ----- Facts about the tables

  /** No event id twice. */
  ghost predicate Unique<T>(rows: seq<Stored<T>>) {
    forall i, j :: 0 <= i < j < |rows| && rows[i].id != "" ==> rows[i].id != rows[j].id
  }

  lemma HasLonger<T>(rows: seq<Stored<T>>, longer: seq<Stored<T>>, id: string)
    requires Has(rows, id) && rows <= longer
    ensures Has(longer, id)
  {
    var k :| 0 <= k < |rows| && rows[k].id == id;
    assert longer[k].id == id;
  }

  lemma {:induction false} InsertRowsKeeps<T>(rows: seq<Stored<T>>, more: seq<Stored<T>>)
    requires Unique(rows)
    ensures Unique(InsertRows(rows, more)) && rows <= InsertRows(rows, more)
  {
    if more == [] {
    } else {
      InsertRowsKeeps(rows, more[..|more| - 1]);
    }
  }

  lemma {:induction false} InsertRowsStores<T>(rows: seq<Stored<T>>, more: seq<Stored<T>>)
    ensures forall i :: 0 <= i < |more| ==> Has(InsertRows(rows, more), more[i].id)
  {
    if more == [] {
    } else {
      var last := |more| - 1;
      InsertRowsStores(rows, more[..last]);
      var r1, r := InsertRows(rows, more[..last]), InsertRows(rows, more);
      if r != r1 { assert r[|r1|].id == more[last].id; }
      forall i | 0 <= i < last ensures Has(r, more[i].id) {
        assert more[..last][i] == more[i];
        HasLonger(r1, r, more[i].id);
      }
    }
  }

  lemma {:induction false} InsertRowsAddsOnly<T>(rows: seq<Stored<T>>, more: seq<Stored<T>>)
    ensures forall k :: |rows| <= k < |InsertRows(rows, more)| ==> InsertRows(rows, more)[k] in more
  {
    if more == [] {
    } else {
      var last := |more| - 1;
      InsertRowsAddsOnly(rows, more[..last]);
      var r1, r := InsertRows(rows, more[..last]), InsertRows(rows, more);
      forall k | |rows| <= k < |r| ensures r[k] in more {
        if k < |r1| {
          assert r[k] == r1[k] && r1[k] in more[..last];
        } else {
          assert r[k] == more[last];
        }
      }
    }
  }

  lemma {:induction false} InsertKnownRows<T>(rows: seq<Stored<T>>, more: seq<Stored<T>>)
    requires forall i :: 0 <= i < |more| ==> more[i].id != "" && Has(rows, more[i].id)
    ensures InsertRows(rows, more) == rows
  {
    if more == [] {
    } else {
      InsertKnownRows(rows, more[..|more| - 1]);
    }
  }

  ghost predicate MadeFrom<T>(kind: string, row: Payload -> T, events: seq<Payload>, x: T) {
    exists i :: 0 <= i < |events| && events[i].kind == kind && row(events[i]) == x
  }

  lemma {:induction false} RowsInExactly<T>(kind: string, row: Payload -> T, events: seq<Payload>)
    ensures forall x :: x in RowsIn(kind, row, events) <==> MadeFrom(kind, row, events, x)
  {
    if events == [] {
    } else {
      var last := |events| - 1;
      RowsInExactly(kind, row, events[..last]);
      forall x ensures x in RowsIn(kind, row, events) <==> MadeFrom(kind, row, events, x) {
        if MadeFrom(kind, row, events[..last], x) {
          var i :| 0 <= i < last && events[..last][i].kind == kind && row(events[..last][i]) == x;
          assert events[i].kind == kind && row(events[i]) == x;
        }
        if MadeFrom(kind, row, events, x) {
          var i :| 0 <= i < |events| && events[i].kind == kind && row(events[i]) == x;
          if i < last { assert events[..last][i].kind == kind && row(events[..last][i]) == x; }
        }
      }
    }
  }

  /** The effect on one table of the rows made from one kind of event. */
  lemma InsertMade<T>(rows: seq<Stored<T>>, kind: string, row: Payload -> Stored<T>, events: seq<Payload>)
    requires Unique(rows) && forall e: Payload :: row(e).id == e.id
    ensures var r := InsertRows(rows, RowsIn(kind, row, events));
            && Unique(r) && rows <= r
            && (forall i :: 0 <= i < |events| && events[i].kind == kind ==> Has(r, events[i].id))
            && (forall k :: |rows| <= k < |r| ==> MadeFrom(kind, row, events, r[k]))
  {
    var more := RowsIn(kind, row, events);
    RowsInExactly(kind, row, events);
    InsertRowsKeeps(rows, more);
    InsertRowsStores(rows, more);
    InsertRowsAddsOnly(rows, more);
    forall i | 0 <= i < |events| && events[i].kind == kind ensures Has(InsertRows(rows, more), events[i].id) {
      assert MadeFrom(kind, row, events, row(events[i]));
      var k :| 0 <= k < |more| && more[k] == row(events[i]);
    }
    var r := InsertRows(rows, more);
    forall k | |rows| <= k < |r| ensures MadeFrom(kind, row, events, r[k]) {
      assert r[k] in more;
    }
  }

  lemma InsertKnownMade<T>(rows: seq<Stored<T>>, kind: string, row: Payload -> Stored<T>, events: seq<Payload>)
    requires forall e: Payload :: row(e).id == e.id
    requires forall i :: 0 <= i < |events| && events[i].kind == kind ==> events[i].id != "" && Has(rows, events[i].id)
    ensures InsertRows(rows, RowsIn(kind, row, events)) == rows
  {
    var more := RowsIn(kind, row, events);
    RowsInExactly(kind, row, events);
    forall i | 0 <= i < |more| ensures more[i].id != "" && Has(rows, more[i].id) {
      assert MadeFrom(kind, row, events, more[i]);
    }
    InsertKnownRows(rows, more);
  }

  ghost predicate IsStored(t: Tables, e: Payload) {
    if e.kind == "login" then Has(t.logins, e.id) else Has(t.clips, e.id)
  }

  ghost predicate UniqueIds(t: Tables) {
    Unique(t.logins) && Unique(t.clips)
  }

  ghost predicate LoginFrom(row: Stored<Login>, machine: string, events: seq<Payload>) {
    exists i :: 0 <= i < |events| && LoginMatches(row, machine, events[i])
  }

  ghost predicate LoginMatches(row: Stored<Login>, machine: string, e: Payload) {
    e.kind == "login" && row.id == e.id && row.body.machine == machine && row.body.fields == e.fields
  }

  ghost predicate ClipFrom(env: Env, row: Stored<Clip>, machine: string, events: seq<Payload>) {
    exists i :: 0 <= i < |events| && ClipMatches(env, row, machine, events[i])
  }

  /** The policy captures content of this size, and there is some. */
  predicate Captured(policy: Policy, e: Payload) {
    policy.captureContent && e.size <= policy.maxBytes && e.data.Some? && e.size > 0
  }

  /**
  Size and digest are the event's even when the policy strips the content.  There is content
  exactly when the policy captures it, and then it is all that was sent and what was hashed.
  */
  ghost predicate ClipMatches(env: Env, row: Stored<Clip>, machine: string, e: Payload) {
    var b := row.body;
    && e.kind == "clipboard" && row.id == e.id && b.machine == machine && b.fields == e.fields
    && b.size == e.size && b.sha256 == e.sha256
    && (b.content.Some? <==> Captured(env.policy, e))
    && (b.content.Some? ==>
          && b.content == env.codec.decode(e.data.value)
          && |b.content.value| == e.size && env.codec.digest(b.content.value) == e.sha256)
  }

  lemma ClipRowMatches(env: Env, machine: string, e: Payload)
    requires EventOk(env.codec, e) && e.kind == "clipboard"
    ensures ClipMatches(env, ClipRow(env.codec, ClipOf(env, machine, e)), machine, e)
  {
  }

  ghost predicate LoginsStored(rows: seq<Stored<Login>>, r: seq<Stored<Login>>, machine: string, events: seq<Payload>) {
    && rows <= r
    && (forall i :: 0 <= i < |events| && events[i].kind == "login" ==> Has(r, events[i].id))
    && (forall k :: |rows| <= k < |r| ==> LoginFrom(r[k], machine, events))
  }

  ghost predicate ClipsStored(env: Env, rows: seq<Stored<Clip>>, r: seq<Stored<Clip>>, machine: string,
                              events: seq<Payload>) {
    && rows <= r
    && (forall i :: 0 <= i < |events| && events[i].kind == "clipboard" ==> Has(r, events[i].id))
    && (forall k :: |rows| <= k < |r| ==> ClipFrom(env, r[k], machine, events))
  }

  lemma InsertLoginsIn(rows: seq<Stored<Login>>, machine: string, events: seq<Payload>)
    requires Unique(rows)
    ensures var r := InsertRows(rows, LoginsIn(machine, events)); Unique(r) && LoginsStored(rows, r, machine, events)
  {
    InsertMade(rows, "login", LoginMaker(machine), events);
    var r := InsertRows(rows, LoginsIn(machine, events));
    forall k | |rows| <= k < |r| ensures LoginFrom(r[k], machine, events) {
      assert MadeFrom("login", LoginMaker(machine), events, r[k]);
      var i :| 0 <= i < |events| && events[i].kind == "login" && LoginMaker(machine)(events[i]) == r[k];
      assert LoginMatches(r[k], machine, events[i]);
    }
  }

  lemma InsertClipsIn(env: Env, rows: seq<Stored<Clip>>, machine: string, events: seq<Payload>)
    requires Unique(rows) && AllOk(env.codec, events)
    ensures var r := InsertRows(rows, ClipsIn(env, machine, events));
            Unique(r) && ClipsStored(env, rows, r, machine, events)
  {
    InsertMade(rows, "clipboard", ClipMaker(env, machine), events);
    var r := InsertRows(rows, ClipsIn(env, machine, events));
    forall k | |rows| <= k < |r| ensures ClipFrom(env, r[k], machine, events) {
      assert MadeFrom("clipboard", ClipMaker(env, machine), events, r[k]);
      var i :| 0 <= i < |events| && events[i].kind == "clipboard" && ClipMaker(env, machine)(events[i]) == r[k];
      ClipRowMatches(env, machine, events[i]);
    }
  }

  /**
  All or nothing: an accepted batch is stored completely, each id once, and adds nothing
  that was not in it; any other reply leaves both tables as they were.
  */
  lemma IngestAllOrNothing(env: Env, t: Tables, req: Request)
    requires UniqueIds(t)
    ensures var r := Ingest(env, t, req);
            && UniqueIds(r)
            && if Status(env, req).Accepted? then
                 && LoginsStored(t.logins, r.logins, req.machineId, req.events.value)
                 && ClipsStored(env, t.clips, r.clips, req.machineId, req.events.value)
               else r == t
  {
    if Status(env, req).Accepted? {
      InsertLoginsIn(t.logins, req.machineId, req.events.value);
      InsertClipsIn(env, t.clips, req.machineId, req.events.value);
    }
  }

  lemma AcceptedIsStored(env: Env, t: Tables, req: Request)
    requires UniqueIds(t) && Status(env, req).Accepted?
    ensures forall i :: 0 <= i < |req.events.value| ==> IsStored(Ingest(env, t, req), req.events.value[i])
  {
    IngestAllOrNothing(env, t, req);
    assert forall i :: 0 <= i < |req.events.value| ==> EventOk(env.codec, req.events.value[i]);
  }

  // ----- The row of one event

  lemma RowsInMore<T>(kind: string, row: Payload -> T, events: seq<Payload>, n: nat)
    requires n < |events|
    ensures RowsIn(kind, row, events[..n + 1]) ==
            RowsIn(kind, row, events[..n]) + if events[n].kind == kind then [row(events[n])] else []
  {
    assert events[..n + 1][..n] == events[..n];
  }

  lemma InsertRowsMore<T>(rows: seq<Stored<T>>, more: seq<Stored<T>>, x: Stored<T>)
    ensures InsertRows(rows, more + [x]) == InsertRow(InsertRows(rows, more), x)
  {
    assert (more + [x])[..|more|] == more;
  }

  /** An id none of the events so far has is not in the table yet. */
  lemma NotYet<T>(rows: seq<Stored<T>>, kind: string, row: Payload -> Stored<T>, events: seq<Payload>, id: string)
    requires (forall e: Payload :: row(e).id == e.id) && !Has(rows, id)
    requires forall j :: 0 <= j < |events| && events[j].kind == kind ==> events[j].id != id
    ensures !Has(InsertRows(rows, RowsIn(kind, row, events)), id)
  {
    var more := RowsIn(kind, row, events);
    var r := InsertRows(rows, more);
    InsertRowsGrows(rows, more);
    RowsInExactly(kind, row, events);
    InsertRowsAddsOnly(rows, more);
    forall k | 0 <= k < |r| ensures r[k].id != id {
      if k >= |rows| {
        assert MadeFrom(kind, row, events, r[k]);
      }
    }
  }

  lemma {:induction false} InsertRowsGrows<T>(rows: seq<Stored<T>>, more: seq<Stored<T>>)
    ensures rows <= InsertRows(rows, more)
  {
    if more == [] {
    } else {
      InsertRowsGrows(rows, more[..|more| - 1]);
    }
  }

  /** The first event of a kind with a new id gets its own row, whatever comes after it. */
  lemma {:induction false} FirstGetsRow<T>(rows: seq<Stored<T>>, kind: string, row: Payload -> Stored<T>,
                                           events: seq<Payload>, i: nat, n: nat)
    requires forall e: Payload :: row(e).id == e.id
    requires i < n <= |events| && events[i].kind == kind && events[i].id != "" && !Has(rows, events[i].id)
    requires forall j :: 0 <= j < i && events[j].kind == kind ==> events[j].id != events[i].id
    ensures row(events[i]) in InsertRows(rows, RowsIn(kind, row, events[..n]))
    decreases n
  {
    if n == i + 1 {
      RowsInMore(kind, row, events, i);
      NotYet(rows, kind, row, events[..i], events[i].id);
      InsertRowsMore(rows, RowsIn(kind, row, events[..i]), row(events[i]));
    } else {
      FirstGetsRow(rows, kind, row, events, i, n - 1);
      RowStays(rows, kind, row, events, n - 1, row(events[i]));
    }
  }

  lemma RowStays<T>(rows: seq<Stored<T>>, kind: string, row: Payload -> Stored<T>, events: seq<Payload>, n: nat,
                    x: Stored<T>)
    requires n < |events| && x in InsertRows(rows, RowsIn(kind, row, events[..n]))
    ensures x in InsertRows(rows, RowsIn(kind, row, events[..n + 1]))
  {
    var before := RowsIn(kind, row, events[..n]);
    RowsInMore(kind, row, events, n);
    if events[n].kind == kind {
      InsertRowsMore(rows, before, row(events[n]));
    } else {
      assert before + [] == before;
    }
  }

  /** No earlier event of the batch is of the same kind and has the same id. */
  ghost predicate First(events: seq<Payload>, i: nat)
    requires i < |events|
  {
    forall j :: 0 <= j < i && events[j].kind == events[i].kind ==> events[j].id != events[i].id
  }

  /**
  An accepted event whose id is new has exactly one row afterwards, in the table of its kind, and
  every field of it is what was sent; clipboard content is kept whenever the policy captures it.
  */
  lemma EventIsRecorded(env: Env, t: Tables, req: Request, i: nat)
    requires UniqueIds(t) && Status(env, req).Accepted? && i < |req.events.value| && First(req.events.value, i)
    requires !IsStored(t, req.events.value[i])
    ensures var e, r := req.events.value[i], Ingest(env, t, req);
            IsStored(r, e) &&
            if e.kind == "login" then
              forall k :: 0 <= k < |r.logins| && r.logins[k].id == e.id ==>
                            LoginMatches(r.logins[k], req.machineId, e)
            else
              forall k :: 0 <= k < |r.clips| && r.clips[k].id == e.id ==>
                            ClipMatches(env, r.clips[k], req.machineId, e)
  {
    var machine, events := req.machineId, req.events.value;
    var e, r := events[i], Ingest(env, t, req);
    assert EventOk(env.codec, e) && events[..|events|] == events;
    AcceptedIsStored(env, t, req);
    IngestAllOrNothing(env, t, req);
    if e.kind == "login" {
      FirstGetsRow(t.logins, "login", LoginMaker(machine), events, i, |events|);
      OnlyRow(r.logins, LoginRow(machine, e));
    } else {
      FirstGetsRow(t.clips, "clipboard", ClipMaker(env, machine), events, i, |events|);
      OnlyRow(r.clips, ClipRow(env.codec, ClipOf(env, machine, e)));
      ClipRowMatches(env, machine, e);
    }
  }

  lemma OnlyRow<T>(rows: seq<Stored<T>>, x: Stored<T>)
    requires Unique(rows) && x in rows && x.id != ""
    ensures forall k :: 0 <= k < |rows| && rows[k].id == x.id ==> rows[k] == x
  {
    var j :| 0 <= j < |rows| && rows[j] == x;
    assert forall k :: 0 <= k < |rows| && rows[k].id == x.id ==> k == j;
  }

  /** A batch all of whose events are stored already changes nothing, so a retried batch has no second effect. */
  lemma IngestKnown(env: Env, t: Tables, req: Request)
    requires Status(env, req).Accepted?
    requires forall i :: 0 <= i < |req.events.value| ==> IsStored(t, req.events.value[i])
    ensures Ingest(env, t, req) == t
  {
    var machine, events := req.machineId, req.events.value;
    assert forall i :: 0 <= i < |events| ==> EventOk(env.codec, events[i]) && events[i].id != "";
    InsertKnownMade(t.logins, "login", LoginMaker(machine), events);
    InsertKnownMade(t.clips, "clipboard", ClipMaker(env, machine), events);
  }

  lemma IngestIdempotent(env: Env, t: Tables, req: Request)
    requires UniqueIds(t)
    ensures Ingest(env, Ingest(env, t, req), req) == Ingest(env, t, req)
  {
    if Status(env, req).Accepted? {
      AcceptedIsStored(env, t, req);
      IngestKnown(env, Ingest(env, t, req), req);
    }
  }
}

/**
The audit forwarder of a directly reached machine and the tables behind it, on values
(flux-web/audit_forward.go, flux-web/store.go).  Times are nanoseconds.
*/
module AuditSpec {
  import opened Basics

  const QUEUE_LIMIT: nat := 1000
  const BATCH_LIMIT: nat := 50
  const BATCH_BYTES: nat := 6 * 1024 * 1024

  /** One audit event as it travels; `encodedLen` is the length of its JSON text. */
  datatype Payload = Payload(id: string, kind: string, fields: string, size: int, sha256: string,
                             data: Option<string>, encodedLen: nat)

  /** A payload in memory, with the time it was enqueued. */
  datatype Event = Event(p: Payload, enqueuedAt: int)

  /** A row of `audit_forward_queue`; the payload column may hold text that does not parse. */
  datatype Row = Row(id: string, payload: Option<Payload>, createdAt: int)

  function Ids(es: seq<Event>): (ids: seq<string>)
    ensures |ids| == |es|
  {
    seq(|es|, i requires 0 <= i < |es| => es[i].p.id)
  }

  function IdSet(es: seq<Event>): set<string> {
    if es == [] then {} else IdSet(es[..|es| - 1]) + {es[|es| - 1].p.id}
  }

  /** What is persisted of an event: whole seconds, and no in-memory time in the payload. */
  function RowOf(e: Event): Row {
    Row(e.p.id, Some(e.p), e.enqueuedAt / SECOND)
  }

  function RowsOf(es: seq<Event>): (rows: seq<Row>)
    ensures |rows| == |es|
  {
    seq(|es|, i requires 0 <= i < |es| => RowOf(es[i]))
  }

  /** Rows left by `DELETE ... WHERE event_id = ?` for each of the ids. */
  function RowsWithout(rows: seq<Row>, ids: set<string>): seq<Row> {
    if rows == [] then []
    else
      var last := |rows| - 1;
      RowsWithout(rows[..last], ids) + if rows[last].id in ids then [] else [rows[last]]
  }

  function EventsWithout(es: seq<Event>, ids: set<string>): seq<Event> {
    if es == [] then []
    else
      var last := |es| - 1;
      EventsWithout(es[..last], ids) + if es[last].p.id in ids then [] else [es[last]]
  }

  // ----- Expiry

  predicate Expired(at: int, now: int, retention: int) {
    retention > 0 && at < now - retention
  }

  function Unexpired(es: seq<Event>, now: int, retention: int): (kept: seq<Event>)
    ensures |kept| <= |es|
  {
    if es == [] then []
    else
      var last := |es| - 1;
      Unexpired(es[..last], now, retention) + if Expired(es[last].enqueuedAt, now, retention) then [] else [es[last]]
  }

  function ExpiredIds(es: seq<Event>, now: int, retention: int): (ids: seq<string>)
    ensures |ids| + |Unexpired(es, now, retention)| == |es|
  {
    if es == [] then []
    else
      var last := |es| - 1;
      ExpiredIds(es[..last], now, retention) +
      if Expired(es[last].enqueuedAt, now, retention) then [es[last].p.id] else []
  }

  // ----- Batches

  /** Length of the JSON body: the fixed part, the events and the commas between them. */
  function EncodedSize(overhead: nat, es: seq<Event>): nat {
    overhead + TotalLen(es)
  }

  function TotalLen(es: seq<Event>): nat {
    if es == [] then 0
    else
      var last := |es| - 1;
      TotalLen(es[..last]) + es[last].p.encodedLen + if last > 0 then 1 else 0
  }

  /** The first `n` events may travel in one batch. */
  predicate Fits(overhead: nat, queue: seq<Event>, n: nat)
    requires n <= |queue|
  {
    n <= BATCH_LIMIT && (n <= 1 || EncodedSize(overhead, queue[..n]) <= BATCH_BYTES)
  }

  /** How many events the next batch takes: as many from the front as fit together. */
  function BatchLen(overhead: nat, queue: seq<Event>, n: nat): (m: nat)
    requires n <= |queue|
    ensures n <= m <= |queue|
    decreases |queue| - n
  {
    if n < |queue| && Fits(overhead, queue, n + 1) then BatchLen(overhead, queue, n + 1) else n
  }

  lemma {:induction false} TotalLenMonotone(es: seq<Event>, m: nat, n: nat)
    requires m <= n <= |es|
    ensures TotalLen(es[..m]) <= TotalLen(es[..n])
    decreases n - m
  {
    if m == n {
    } else {
      TotalLenMonotone(es, m, n - 1);
      assert es[..n][..n - 1] == es[..n - 1];
    }
  }

  lemma {:induction false} BatchLenMaximal(overhead: nat, queue: seq<Event>, n: nat)
    requires n <= |queue| && Fits(overhead, queue, n)
    ensures var m := BatchLen(overhead, queue, n);
            && Fits(overhead, queue, m)
            && (forall k :: m < k <= |queue| ==> !Fits(overhead, queue, k))
    decreases |queue| - n
  {
    if n < |queue| && Fits(overhead, queue, n + 1) {
      BatchLenMaximal(overhead, queue, n + 1);
    } else {
      forall k | n < k <= |queue| ensures !Fits(overhead, queue, k) {
        TotalLenMonotone(queue, n + 1, k);
      }
    }
  }

  /** The next batch is the longest prefix of the queue that fits, and is never empty while anything is queued. */
  lemma BatchIsLongestPrefix(overhead: nat, queue: seq<Event>)
    ensures var m := BatchLen(overhead, queue, 0);
            && Fits(overhead, queue, m)
            && (forall k :: m < k <= |queue| ==> !Fits(overhead, queue, k))
            && (queue != [] ==> 0 < m)
  {
    BatchLenMaximal(overhead, queue, 0);
    if queue != [] { assert Fits(overhead, queue, 1); }
  }

  // ----- Reloading after a restart

  predicate RowUsable(row: Row, now: int, retention: int) {
    !Expired(row.createdAt * SECOND, now, retention) && row.payload.Some? && row.payload.value.id == row.id
  }

  function UsableEvents(rows: seq<Row>, now: int, retention: int): (es: seq<Event>)
    ensures |es| <= |rows|
  {
    if rows == [] then []
    else
      var last := |rows| - 1;
      UsableEvents(rows[..last], now, retention)
        + if !RowUsable(rows[last], now, retention) then []
          else [Event(rows[last].payload.value, rows[last].createdAt * SECOND)]
  }

  /** `loadAuditForwardQueue`: the queue it returns. */
  function Loaded(rows: seq<Row>, limit: int, now: int, retention: int): (es: seq<Event>)
    ensures |es| <= |rows|
  {
    Newest(UsableEvents(rows, now, retention), if limit <= 0 then QUEUE_LIMIT else limit)
  }

  // ----- Facts about filtering

  lemma {:induction false} RowsOfWithout(es: seq<Event>, ids: set<string>)
    ensures RowsWithout(RowsOf(es), ids) == RowsOf(EventsWithout(es, ids))
  {
    if es == [] {
    } else {
      var last := |es| - 1;
      RowsOfWithout(es[..last], ids);
      assert RowsOf(es)[..last] == RowsOf(es[..last]);
      var kept := EventsWithout(es[..last], ids);
      assert RowsOf(kept + [es[last]]) == RowsOf(kept) + [RowOf(es[last])];
    }
  }

  lemma {:induction false} WithoutJoin(xs: seq<Event>, ys: seq<Event>, ids: set<string>)
    ensures EventsWithout(xs + ys, ids) == EventsWithout(xs, ids) + EventsWithout(ys, ids)
  {
    if ys == [] {
      assert xs + ys == xs;
    } else {
      var last := |ys| - 1;
      WithoutJoin(xs, ys[..last], ids);
      assert (xs + ys)[..|xs| + last] == xs + ys[..last];
    }
  }

  lemma {:induction false} WithoutNone(es: seq<Event>, ids: set<string>)
    requires forall i :: 0 <= i < |es| ==> es[i].p.id !in ids
    ensures EventsWithout(es, ids) == es
  {
    if es == [] {
    } else {
      var last := |es| - 1;
      WithoutNone(es[..last], ids);
      assert es[..last] + [es[last]] == es;
    }
  }

  lemma {:induction false} WithoutAll(es: seq<Event>, ids: set<string>)
    requires forall i :: 0 <= i < |es| ==> es[i].p.id in ids
    ensures EventsWithout(es, ids) == []
  {
    if es == [] {
    } else {
      WithoutAll(es[..|es| - 1], ids);
    }
  }

  // ----- What the definitions above mean

  /** What is not expired is exactly what is no older than the retention time, when there is one. */
  lemma {:induction false} UnexpiredIsYoung(es: seq<Event>, now: int, retention: int, e: Event)
    ensures e in Unexpired(es, now, retention) <==> e in es && (retention <= 0 || now - e.enqueuedAt <= retention)
    ensures |ExpiredIds(es, now, retention)| == |es| - |Unexpired(es, now, retention)|
  {
    if es == [] {
    } else {
      UnexpiredIsYoung(es[..|es| - 1], now, retention, e);
      assert es == es[..|es| - 1] + [es[|es| - 1]];
    }
  }

  /** The events of a batch as JSON array elements, with commas between them. */
  function Joined(texts: seq<string>): string {
    if texts == [] then ""
    else Joined(texts[..|texts| - 1]) + (if |texts| > 1 then "," else "") + texts[|texts| - 1]
  }

  /** The size the batch limit is about is the length of the text that is sent. */
  lemma {:induction false} SizeIsLength(head: string, texts: seq<string>, tail: string, es: seq<Event>)
    requires |texts| == |es| && forall i :: 0 <= i < |es| ==> |texts[i]| == es[i].p.encodedLen
    ensures |head + Joined(texts) + tail| == EncodedSize(|head| + |tail|, es)
  {
    if es == [] {
    } else {
      var last := |es| - 1;
      SizeIsLength(head, texts[..last], tail, es[..last]);
    }
  }

  /** A row is usable if and only if it is not expired, its text parses, and the event in it has the row's id. */
  lemma {:induction false} UsableExactly(rows: seq<Row>, now: int, retention: int, e: Event)
    ensures e in UsableEvents(rows, now, retention) <==>
            exists i :: 0 <= i < |rows| && rows[i].payload == Some(e.p) && rows[i].id == e.p.id &&
                        e.enqueuedAt == rows[i].createdAt * 1_000_000_000 &&
                        (retention <= 0 || now - rows[i].createdAt * 1_000_000_000 <= retention)
  {
    if rows == [] {
    } else {
      var last := |rows| - 1;
      UsableExactly(rows[..last], now, retention, e);
      assert rows == rows[..last] + [rows[last]];
    }
  }
}

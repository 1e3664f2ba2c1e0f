/**
The bandwidth estimator's bookkeeping (flux-web/bwe.go): which frames are awaiting an
acknowledgement, and the sliding window of delay samples.  Times are nanoseconds.
*/
module BweIndex {
  import opened Basics

  const DELAY_WINDOW: int := 10 * SECOND
  const MAX_OUTSTANDING: nat := 256

  datatype Sent = Sent(at: int, bytes: int)
  datatype Entry = Entry(num: int, at: int)

  // ----- Outstanding frames

  predicate Matches(o: map<int, Sent>, it: Entry) {
    it.num in o && o[it.num].at == it.at
  }

  /** The filter of `onFrameSent`: entries still awaited and young enough stay; old ones leave the map too. */
  function Purge(o: map<int, Sent>, order: seq<Entry>, at: int): (map<int, Sent>, seq<Entry>) {
    if order == [] then (o, [])
    else
      var (o1, kept) := Purge(o, order[..|order| - 1], at);
      var it := order[|order| - 1];
      if !Matches(o1, it) then (o1, kept)
      else if at - it.at <= DELAY_WINDOW then (o1, kept + [it])
      else (o1 - {it.num}, kept)
  }

  /** The eviction loop: drop entries from the front until few enough frames are awaited. */
  function Evict(o: map<int, Sent>, order: seq<Entry>): (map<int, Sent>, seq<Entry>) {
    if |o| > MAX_OUTSTANDING && order != [] then
      Evict(if Matches(o, order[0]) then o - {order[0].num} else o, order[1..])
    else (o, order)
  }

  function OnSent(o: map<int, Sent>, order: seq<Entry>, num: int, bytes: int, at: int): (map<int, Sent>, seq<Entry>) {
    var (o1, kept) := Purge(o, order, at);
    Evict(o1[num := Sent(at, bytes)], kept + [Entry(num, at)])
  }

  function Forgotten(order: seq<Entry>, num: int): seq<Entry> {
    if order == [] then []
    else Forgotten(order[..|order| - 1], num) + if order[|order| - 1].num != num then [order[|order| - 1]] else []
  }

  /** Every awaited frame has its entry in the send order. */
  ghost predicate Covered(o: map<int, Sent>, order: seq<Entry>) {
    forall n :: n in o ==> Entry(n, o[n].at) in order
  }

  /** The send order follows time. */
  ghost predicate Timed(order: seq<Entry>) {
    forall i, j :: 0 <= i < j < |order| ==> order[i].at <= order[j].at
  }

  predicate Young(o: map<int, Sent>, n: int, at: int) {
    n in o && at - o[n].at <= DELAY_WINDOW
  }

  /** What a purge at this time keeps: the entries and frames no older than the window. */
  ghost predicate PurgeKeeps(o: map<int, Sent>, order: seq<Entry>, at: int, o1: map<int, Sent>, kept: seq<Entry>) {
    && (forall it :: it in kept <==> it in order && Matches(o, it) && at - it.at <= DELAY_WINDOW)
    && (forall n :: n in o1 <==> n in o && !(Entry(n, o[n].at) in order && at - o[n].at > DELAY_WINDOW))
    && (forall n :: n in o1 ==> o1[n] == o[n])
  }

  lemma {:induction false} PurgeExact(o: map<int, Sent>, order: seq<Entry>, at: int)
    ensures var (o1, kept) := Purge(o, order, at); PurgeKeeps(o, order, at, o1, kept)
  {
    if order == [] {
    } else {
      var last := |order| - 1;
      PurgeExact(o, order[..last], at);
      var (o1, kept) := Purge(o, order[..last], at);
      var it := order[last];
      assert order == order[..last] + [it];
      assert forall e :: e in order <==> e in order[..last] || e == it;
    }
  }

  lemma {:induction false} PurgeTimed(o: map<int, Sent>, order: seq<Entry>, at: int)
    requires Timed(order)
    ensures Timed(Purge(o, order, at).1)
  {
    if order == [] {
    } else {
      var last := |order| - 1;
      PurgeTimed(o, order[..last], at);
      PurgeExact(o, order[..last], at);
      var kept := Purge(o, order[..last], at).1;
      forall i | 0 <= i < |kept|
        ensures kept[i].at <= order[last].at
      {
        assert kept[i] in kept;
      }
    }
  }

  /** What remains after a purge is exactly the young frames, each with its entry. */
  lemma PurgeYoung(o: map<int, Sent>, order: seq<Entry>, at: int)
    requires Covered(o, order)
    ensures var (o1, kept) := Purge(o, order, at);
            && (forall n :: n in o1 <==> Young(o, n, at))
            && (forall n :: n in o1 ==> o1[n] == o[n])
            && (forall it :: it in kept ==> Matches(o1, it))
            && Covered(o1, kept) && |o1| <= |o|
  {
    PurgeExact(o, order, at);
    var (o1, kept) := Purge(o, order, at);
    forall n | n in o1
      ensures Entry(n, o1[n].at) in kept
    {
      assert Entry(n, o[n].at) in order;
    }
    assert o1.Keys <= o.Keys;
    SubsetSize(o1.Keys, o.Keys);
  }

  lemma PutSize(o: map<int, Sent>, num: int, frame: Sent)
    ensures |o[num := frame]| == if num in o then |o| else |o| + 1
  {
    assert o[num := frame].Keys == o.Keys + {num};
  }

  lemma TakeSize(o: map<int, Sent>, num: int)
    requires num in o
    ensures |o - {num}| == |o| - 1
  {
    assert (o - {num}).Keys == o.Keys - {num};
  }

  lemma FirstEntry(o1: map<int, Sent>, kept: seq<Entry>)
    requires Covered(o1, kept) && |o1| > 0
    ensures kept != [] && kept[0] in kept
  {
    assert o1.Keys != {};
    var n := Pick(o1.Keys);
    assert Entry(n, o1[n].at) in kept;
  }

  /** When a new frame makes one too many, exactly the first entry goes, and its frame with it. */
  lemma EvictOne(o1: map<int, Sent>, kept: seq<Entry>, num: int, frame: Sent)
    requires Covered(o1, kept) && |o1| == MAX_OUTSTANDING && num !in o1
    requires forall it :: it in kept ==> Matches(o1, it)
    ensures kept != [] && kept[0].num in o1
    ensures Evict(o1[num := frame], kept + [Entry(num, frame.at)]) ==
            (o1[num := frame] - {kept[0].num}, kept[1..] + [Entry(num, frame.at)])
    ensures |o1[num := frame] - {kept[0].num}| == MAX_OUTSTANDING
  {
    FirstEntry(o1, kept);
    assert Matches(o1, kept[0]);
    PutSize(o1, num, frame);
    TakeSize(o1[num := frame], kept[0].num);
    assert (kept + [Entry(num, frame.at)])[1..] == kept[1..] + [Entry(num, frame.at)];
  }

  /** The frame evicted to make room, if any. */
  ghost function Evicted(o: map<int, Sent>, order: seq<Entry>, num: int, at: int): Option<Entry> {
    var (o1, kept) := Purge(o, order, at);
    if num in o1 || |o1| < MAX_OUTSTANDING || kept == [] then None else Some(kept[0])
  }

  /**
  Recording a sent frame: it is awaited afterwards, together with exactly the frames awaited before
  that are still young, less at most one, given up only when the limit is reached.
  */
  lemma SentKeeps(o: map<int, Sent>, order: seq<Entry>, num: int, bytes: int, at: int)
    requires Covered(o, order) && |o| <= MAX_OUTSTANDING
    ensures var (o2, order2) := OnSent(o, order, num, bytes, at);
            var gone := Evicted(o, order, num, at);
            && Covered(o2, order2) && |o2| <= MAX_OUTSTANDING
            && num in o2 && o2[num] == Sent(at, bytes)
            && (forall n :: n != num ==> (n in o2 <==> Young(o, n, at) && !(gone.Some? && gone.value.num == n)))
            && (forall n :: n != num && n in o2 ==> o2[n] == o[n])
            && (gone.Some? ==> Young(o, gone.value.num, at) && gone.value.num != num && |o2| == MAX_OUTSTANDING)
  {
    PurgeYoung(o, order, at);
    var (o1, kept) := Purge(o, order, at);
    PutSize(o1, num, Sent(at, bytes));
    if num !in o1 && |o1| == MAX_OUTSTANDING {
      EvictOne(o1, kept, num, Sent(at, bytes));
      EvictedCovered(o1, kept, num, Sent(at, bytes));
    }
  }

  lemma EvictedCovered(o1: map<int, Sent>, kept: seq<Entry>, num: int, frame: Sent)
    requires Covered(o1, kept) && kept != []
    ensures Covered(o1[num := frame] - {kept[0].num}, kept[1..] + [Entry(num, frame.at)])
  {
    assert kept == [kept[0]] + kept[1..];
  }

  /** Purging and appending keeps the order of time. */
  lemma GrownTimed(o: map<int, Sent>, order: seq<Entry>, num: int, at: int)
    requires Timed(order + [Entry(num, at)])
    ensures Timed(Purge(o, order, at).1 + [Entry(num, at)])
  {
    var all := order + [Entry(num, at)];
    assert forall i :: 0 <= i < |order| ==> all[i] == order[i] && all[i].at <= all[|order|].at;
    PurgeTimed(o, order, at);
    PurgeExact(o, order, at);
    var kept := Purge(o, order, at).1;
    forall i | 0 <= i < |kept|
      ensures kept[i].at <= at
    {
      assert kept[i] in kept;
    }
  }

  lemma FirstIsOldest(o2: map<int, Sent>, order2: seq<Entry>, first: Entry, n: int)
    requires Covered(o2, order2) && Timed([first] + order2) && n in o2
    ensures first.at <= o2[n].at
  {
    assert Entry(n, o2[n].at) in order2;
    var i :| 0 <= i < |order2| && order2[i] == Entry(n, o2[n].at);
    var all := [first] + order2;
    assert all[0].at <= all[i + 1].at;
  }

  /** Frames sent in order of time stay so, and the one evicted was sent no later than any that stays. */
  lemma OldestIsEvicted(o: map<int, Sent>, order: seq<Entry>, num: int, bytes: int, at: int)
    requires Covered(o, order) && |o| <= MAX_OUTSTANDING
    requires Timed(order + [Entry(num, at)])
    ensures var (o2, order2) := OnSent(o, order, num, bytes, at);
            var gone := Evicted(o, order, num, at);
            Timed(order2) && forall n :: n in o2 && gone.Some? ==> gone.value.at <= o2[n].at
  {
    PurgeYoung(o, order, at);
    GrownTimed(o, order, num, at);
    var (o1, kept) := Purge(o, order, at);
    PutSize(o1, num, Sent(at, bytes));
    if num !in o1 && |o1| == MAX_OUTSTANDING {
      EvictOne(o1, kept, num, Sent(at, bytes));
      EvictedCovered(o1, kept, num, Sent(at, bytes));
      var (o2, order2) := OnSent(o, order, num, bytes, at);
      assert [kept[0]] + order2 == kept + [Entry(num, at)];
      forall n | n in o2
        ensures kept[0].at <= o2[n].at
      {
        FirstIsOldest(o2, order2, kept[0], n);
      }
      assert Timed(order2) by {
        var all := [kept[0]] + order2;
        assert forall i :: 0 <= i < |order2| ==> order2[i] == all[i + 1];
      }
    }
  }

  lemma {:induction false} ForgottenExact(order: seq<Entry>, num: int)
    ensures forall it :: it in Forgotten(order, num) <==> it in order && it.num != num
  {
    if order == [] {
    } else {
      ForgottenExact(order[..|order| - 1], num);
      assert order == order[..|order| - 1] + [order[|order| - 1]];
    }
  }

  lemma {:induction false} ForgottenTimed(order: seq<Entry>, num: int)
    requires Timed(order)
    ensures Timed(Forgotten(order, num))
  {
    if order == [] {
    } else {
      var last := |order| - 1;
      ForgottenTimed(order[..last], num);
      ForgottenExact(order[..last], num);
      var kept := Forgotten(order[..last], num);
      forall i | 0 <= i < |kept|
        ensures kept[i].at <= order[last].at
      {
        assert kept[i] in kept;
      }
    }
  }

  /** Acknowledging or forgetting a frame keeps every other frame's entry. */
  lemma TakenStaysCovered(o: map<int, Sent>, order: seq<Entry>, num: int)
    requires Covered(o, order)
    ensures Covered(o - {num}, order) && Covered(o - {num}, Forgotten(order, num)) && |o - {num}| <= |o|
  {
    ForgottenExact(order, num);
    MapMinusSize(o, {num});
  }

  // ----- Delay samples

  datatype Sample = Sample(at: int, delay: int)

  /** The samples of the last ten seconds. */
  function Window(history: seq<Sample>, at: int): seq<Sample> {
    if history == [] then []
    else
      Window(history[..|history| - 1], at) +
      if at - history[|history| - 1].at <= DELAY_WINDOW then [history[|history| - 1]] else []
  }

  /** How many samples the pruning loop counts as too old. */
  function Stale(samples: seq<Sample>, at: int): (n: nat)
    ensures n <= |samples|
  {
    if samples == [] then 0
    else
      Stale(samples[..|samples| - 1], at) +
      if at - samples[|samples| - 1].at <= DELAY_WINDOW then 0 else 1
  }

  /** Samples in order of arrival, none later than now. */
  ghost predicate Ordered(history: seq<Sample>, now: int) {
    && (forall i, j :: 0 <= i < j < |history| ==> history[i].at <= history[j].at)
    && (forall i :: 0 <= i < |history| ==> history[i].at <= now)
  }

  /** Stale samples come first. */
  lemma {:induction false} StaleFirst(history: seq<Sample>, at: int, i: nat)
    requires Ordered(history, at) && i < |history|
    ensures i < Stale(history, at) <==> at - history[i].at > DELAY_WINDOW
  {
    var last := |history| - 1;
    if at - history[last].at > DELAY_WINDOW {
      AllStale(history, at);
    } else if i == last {
    } else {
      StaleFirst(history[..last], at, i);
    }
  }

  lemma {:induction false} AllStale(history: seq<Sample>, at: int)
    requires forall i :: 0 <= i < |history| ==> at - history[i].at > DELAY_WINDOW
    ensures Stale(history, at) == |history| && Window(history, at) == []
  {
    if history == [] {
    } else {
      AllStale(history[..|history| - 1], at);
    }
  }

  /** So counting them finds where the window starts. */
  lemma {:induction false} WindowIsSuffix(history: seq<Sample>, at: int)
    requires Ordered(history, at)
    ensures Window(history, at) == history[Stale(history, at)..]
  {
    if history == [] {
    } else {
      var last := |history| - 1;
      if at - history[last].at > DELAY_WINDOW {
        AllStale(history, at);
      } else {
        WindowIsSuffix(history[..last], at);
        assert history[Stale(history, at)..] == history[..last][Stale(history, at)..] + [history[last]];
      }
    }
  }

  lemma {:induction false} WindowTwice(history: seq<Sample>, t1: int, t2: int)
    requires t1 <= t2
    ensures Window(Window(history, t1), t2) == Window(history, t2)
  {
    if history == [] {
    } else {
      var rest := history[..|history| - 1];
      WindowTwice(rest, t1, t2);
      var last := history[|history| - 1];
      if t1 - last.at <= DELAY_WINDOW {
        var window := Window(rest, t1) + [last];
        assert Window(history, t1) == window && window[..|window| - 1] == Window(rest, t1);
      } else {
        assert Window(history, t1) == Window(rest, t1) && Window(history, t2) == Window(rest, t2);
      }
    }
  }

  /** Dropping the stale prefix after each sample leaves exactly the recent part of everything ever recorded. */
  lemma PruneIsWindow(history: seq<Sample>, before: int, sample: Sample)
    requires Ordered(history, before) && before <= sample.at
    ensures var samples := Window(history, before) + [sample];
            samples[Stale(samples, sample.at)..] == Window(samples, sample.at) == Window(history + [sample], sample.at)
  {
    var samples := Window(history, before) + [sample];
    assert Ordered(samples, sample.at) by {
      WindowIsSuffix(history, before);
    }
    WindowIsSuffix(samples, sample.at);
    calc {
      Window(samples, sample.at);
      { WindowMore(Window(history, before), sample); }
      Window(Window(history, before), sample.at) + [sample];
      { WindowTwice(history, before, sample.at); }
      Window(history, sample.at) + [sample];
      { WindowMore(history, sample); }
      Window(history + [sample], sample.at);
    }
  }

  lemma WindowMore(history: seq<Sample>, sample: Sample)
    ensures Window(history + [sample], sample.at) == Window(history, sample.at) + [sample]
  {
    assert (history + [sample])[..|history|] == history;
  }

  /** The least delay among some samples. */
  function Least(samples: seq<Sample>): int
    requires samples != []
  {
    if |samples| == 1 then samples[0].delay
    else Min(Least(samples[..|samples| - 1]), samples[|samples| - 1].delay)
  }

  lemma {:induction false} LeastIsMinimum(samples: seq<Sample>)
    requires samples != []
    ensures exists i :: 0 <= i < |samples| && samples[i].delay == Least(samples)
    ensures forall i :: 0 <= i < |samples| ==> Least(samples) <= samples[i].delay
  {
    assert samples[|samples| - 1].delay >= Least(samples);
    if |samples| == 1 {
    } else {
      var rest := samples[..|samples| - 1];
      LeastIsMinimum(rest);
      var i :| 0 <= i < |rest| && rest[i].delay == Least(rest);
      assert samples[i].delay == Least(rest);
    }
  }

  /** Queueing delay of the newest sample: how far it is above the least delay of the last ten seconds. */
  ghost function QueueDelay(history: seq<Sample>): int {
    if history == [] then 0
    else
      var last := history[|history| - 1];
      LastStays(history);
      last.delay - Least(Window(history, last.at))
  }

  lemma LastStays(history: seq<Sample>)
    requires history != []
    ensures Window(history, history[|history| - 1].at) != []
  {
  }

  /** It is never negative, and never more than the sample's own delay. */
  lemma QueueDelayBounds(history: seq<Sample>)
    requires history != [] && forall i :: 0 <= i < |history| ==> 0 <= history[i].delay
    ensures 0 <= QueueDelay(history) <= history[|history| - 1].delay
  {
    var last := history[|history| - 1];
    var window := Window(history, last.at);
    assert window[|window| - 1] == last;
    LeastIsMinimum(window);
    WindowFrom(history, last.at);
  }

  /** The queueing delay of a sample is its excess over the least delay of the ten seconds up to it. */
  lemma QueueDelayIsExcess(history: seq<Sample>)
    requires history != []
    ensures var last := history[|history| - 1];
            var least := last.delay - QueueDelay(history);
            && (exists i :: 0 <= i < |history| && history[i].delay == least && last.at - history[i].at <= 10 * SECOND)
            && forall i :: 0 <= i < |history| && last.at - history[i].at <= 10 * SECOND ==> history[i].delay >= least
  {
    var last := history[|history| - 1];
    var window := Window(history, last.at);
    LastStays(history);
    LeastIsMinimum(window);
    WindowFrom(history, last.at);
    var j :| 0 <= j < |window| && window[j].delay == Least(window);
    assert window[j] in history;
    forall i | 0 <= i < |history| && last.at - history[i].at <= 10 * SECOND
      ensures history[i].delay >= Least(window)
    {
      assert history[i] in window;
    }
  }

  lemma {:induction false} WindowFrom(history: seq<Sample>, at: int)
    ensures forall s :: s in Window(history, at) <==> s in history && at - s.at <= DELAY_WINDOW
  {
    if history == [] {
    } else {
      WindowFrom(history[..|history| - 1], at);
      assert history == history[..|history| - 1] + [history[|history| - 1]];
    }
  }
}

/**
The host link hub (flux-web/hostlink.go): connections that hosts have parked, and callers waiting
for one.  Every section under the hub's lock is one step; connections may die at any time.
*/
module HostLink {
  import opened Basics

  type Id = string
  type Conn = nat
  type Chan = nat

  /** The notification side: the current channel of each identifier, and which channels were closed. */
  datatype Notice = Notice(current: map<Id, Chan>, closed: set<Chan>, next: Chan)

  /** Creates the channel of an identifier if it has none. */
  function WithChannel(n: Notice, id: Id): (r: Notice)
    ensures id in r.current
  {
    if id in n.current then n else Notice(n.current[id := n.next], n.closed, n.next + 1)
  }

  /** Closes the channel of an identifier and gives it a new one. */
  function Signal(n: Notice, id: Id): Notice {
    var m := WithChannel(n, id);
    Notice(m.current[id := m.next], m.closed + {m.current[id]}, m.next + 1)
  }

  /** How a parked connection leaves. */
  datatype Route = Replaced | Removed | Taken | Died

  datatype Entry = Came(id: Id, conn: Conn) | Left(id: Id, conn: Conn, route: Route)

  datatype Waiter = Waiter(id: Id, chan: Chan)

  datatype Hub = Hub(
    links: map<Id, Conn>, gauge: int, notice: Notice,
    dead: set<Conn>, waiters: map<nat, Waiter>, log: seq<Entry>)

  const START := Hub(map[], 0, Notice(map[], {}, 0), {}, map[], [])

  datatype Step =
    | Park(id: Id, conn: Conn)     // a host parks a connection
    | Die(conn: Conn)              // a connection ends
    | Watch(id: Id, conn: Conn)    // the goroutine that `park` started sees it end
    | Remove(id: Id)               // the machine is removed
    | Try(taker: nat, id: Id)      // one turn of `take` under the lock
    | Wake(taker: nat)             // a waiting `take` sees its channel closed
    | GiveUp(taker: nat)           // a waiting `take` is told to stop

  predicate Enabled(h: Hub, step: Step) {
    match step
    case Park(_, _) => true
    case Die(_) => true
    case Watch(_, conn) => conn in h.dead
    case Remove(_) => true
    case Try(taker, _) => taker !in h.waiters
    case Wake(taker) => taker in h.waiters && h.waiters[taker].chan in h.notice.closed
    case GiveUp(taker) => taker in h.waiters
  }

  predicate Holds(links: map<Id, Conn>, id: Id, conn: Conn) { id in links && links[id] == conn }

  function DoPark(h: Hub, id: Id, conn: Conn): Hub {
    var log := if id !in h.links then h.log + [Came(id, conn)]
               else if h.links[id] != conn then h.log + [Left(id, h.links[id], Replaced), Came(id, conn)]
               else h.log;
    var gauge := if id in h.links then h.gauge else h.gauge + 1;
    Hub(h.links[id := conn], gauge, Signal(h.notice, id), h.dead, h.waiters, log)
  }

  /** A parked connection leaves. */
  function Drop(h: Hub, id: Id, route: Route): Hub
    requires id in h.links
  {
    Hub(h.links - {id}, h.gauge - 1, Signal(h.notice, id), h.dead, h.waiters, h.log + [Left(id, h.links[id], route)])
  }

  function DoTry(h: Hub, taker: nat, id: Id): Hub {
    if id in h.links then Drop(h, id, if h.links[id] in h.dead then Died else Taken)
    else
      var n := WithChannel(h.notice, id);
      h.(notice := n, waiters := h.waiters[taker := Waiter(id, n.current[id])])
  }

  function Do(h: Hub, step: Step): Hub {
    match step
    case Park(id, conn) => DoPark(h, id, conn)
    case Die(conn) => h.(dead := h.dead + {conn})
    case Watch(id, conn) => if Holds(h.links, id, conn) then Drop(h, id, Died) else h
    case Remove(id) => if id in h.links then Drop(h, id, Removed) else h
    case Try(taker, id) => DoTry(h, taker, id)
    case Wake(taker) => h.(waiters := h.waiters - {taker})
    case GiveUp(taker) => h.(waiters := h.waiters - {taker})
  }

  // ----- Channels

  /** Current channels are open and belong to one identifier each; every channel in use was made. */
  ghost predicate NoticeOk(n: Notice) {
    && (forall id :: id in n.current ==> n.current[id] !in n.closed && n.current[id] < n.next)
    && (forall a, b :: a in n.current && b in n.current && a != b ==> n.current[a] != n.current[b])
    && (forall c :: c in n.closed ==> c < n.next)
  }

  lemma WithChannelKeeps(n: Notice, id: Id)
    requires NoticeOk(n)
    ensures NoticeOk(WithChannel(n, id))
  {
  }

  /** Signalling never closes a channel twice, and leaves the other identifiers' channels alone. */
  lemma SignalKeeps(n: Notice, id: Id)
    requires NoticeOk(n)
    ensures NoticeOk(Signal(n, id))
    ensures WithChannel(n, id).current[id] !in n.closed
    ensures forall a :: a in n.current && a != id ==>
                          a in Signal(n, id).current && Signal(n, id).current[a] == n.current[a]
    ensures id in n.current ==> n.current[id] in Signal(n, id).closed
    ensures n.closed <= Signal(n, id).closed
  {
    WithChannelKeeps(n, id);
  }

  /** A waiter either can wake, or waits on the current channel of an identifier with nothing parked. */
  predicate Waits(w: Waiter, n: Notice, links: map<Id, Conn>) {
    w.chan in n.closed || (w.id in n.current && n.current[w.id] == w.chan && w.id !in links)
  }

  ghost predicate WaitersOk(h: Hub) {
    forall t :: t in h.waiters ==> Waits(h.waiters[t], h.notice, h.links)
  }

  /** After a signal for an identifier, its waiters can wake; the others are where they were. */
  lemma SignalWakes(n: Notice, w: Waiter, id: Id, links: map<Id, Conn>, after: map<Id, Conn>)
    requires NoticeOk(n) && Waits(w, n, links)
    requires forall a :: a != id ==> (a in after <==> a in links)
    ensures Waits(w, Signal(n, id), after)
  {
    SignalKeeps(n, id);
  }

  lemma SignalledKeeps(h: Hub, after: Hub, id: Id)
    requires NoticeOk(h.notice) && WaitersOk(h)
    requires after.notice == Signal(h.notice, id) && after.waiters == h.waiters
    requires forall a :: a != id ==> (a in after.links <==> a in h.links)
    ensures NoticeOk(after.notice) && WaitersOk(after)
  {
    SignalKeeps(h.notice, id);
    forall t | t in after.waiters
      ensures Waits(after.waiters[t], after.notice, after.links)
    {
      SignalWakes(h.notice, h.waiters[t], id, h.links, after.links);
    }
  }

  lemma WaitKeeps(h: Hub, taker: nat, id: Id)
    requires NoticeOk(h.notice) && WaitersOk(h) && id !in h.links
    ensures var after := DoTry(h, taker, id); NoticeOk(after.notice) && WaitersOk(after)
  {
    WithChannelKeeps(h.notice, id);
  }

  // ----- Counting arrivals and departures

  function Arrivals(log: seq<Entry>, id: Id, conn: Conn): nat {
    if log == [] then 0
    else Arrivals(log[..|log| - 1], id, conn) + if log[|log| - 1] == Came(id, conn) then 1 else 0
  }

  predicate IsLeft(e: Entry, id: Id, conn: Conn) { e.Left? && e.id == id && e.conn == conn }

  function Departures(log: seq<Entry>, id: Id, conn: Conn): nat {
    if log == [] then 0
    else Departures(log[..|log| - 1], id, conn) + if IsLeft(log[|log| - 1], id, conn) then 1 else 0
  }

  lemma LogMore(log: seq<Entry>, e: Entry, id: Id, conn: Conn)
    ensures Arrivals(log + [e], id, conn) == Arrivals(log, id, conn) + if e == Came(id, conn) then 1 else 0
    ensures Departures(log + [e], id, conn) == Departures(log, id, conn) + if IsLeft(e, id, conn) then 1 else 0
  {
    assert (log + [e])[..|log|] == log;
  }

  /** What came is still parked, or left once. */
  predicate Balanced(h: Hub, id: Id, conn: Conn) {
    Arrivals(h.log, id, conn) == Departures(h.log, id, conn) + if Holds(h.links, id, conn) then 1 else 0
  }

  lemma ReplaceMore(log: seq<Entry>, at: Id, gone: Conn, conn: Conn, id: Id, c: Conn)
    ensures var after := log + [Left(at, gone, Replaced), Came(at, conn)];
            && Arrivals(after, id, c) == Arrivals(log, id, c) + (if at == id && conn == c then 1 else 0)
            && Departures(after, id, c) == Departures(log, id, c) + (if at == id && gone == c then 1 else 0)
  {
    var e := Left(at, gone, Replaced);
    LogMore(log, e, id, c);
    LogMore(log + [e], Came(at, conn), id, c);
    assert log + [e, Came(at, conn)] == (log + [e]) + [Came(at, conn)];
  }

  lemma ParkBalanced(h: Hub, at: Id, conn: Conn, id: Id, c: Conn)
    requires Balanced(h, id, c)
    ensures Balanced(DoPark(h, at, conn), id, c)
  {
    if at !in h.links {
      LogMore(h.log, Came(at, conn), id, c);
    } else if h.links[at] != conn {
      ReplaceMore(h.log, at, h.links[at], conn, id, c);
    }
  }

  lemma DropBalanced(h: Hub, at: Id, route: Route, id: Id, c: Conn)
    requires at in h.links && Balanced(h, id, c)
    ensures Balanced(Drop(h, at, route), id, c)
  {
    LogMore(h.log, Left(at, h.links[at], route), id, c);
  }

  // ----- The invariant

  ghost predicate Inv(h: Hub) {
    && h.gauge == |h.links|
    && NoticeOk(h.notice) && WaitersOk(h)
    && forall id, conn :: Balanced(h, id, conn)
  }

  lemma ParkKeeps(h: Hub, id: Id, conn: Conn)
    requires Inv(h)
    ensures Inv(DoPark(h, id, conn))
  {
    var after := DoPark(h, id, conn);
    assert after.links.Keys == h.links.Keys + {id};
    SignalledKeeps(h, after, id);
    forall a, c
      ensures Balanced(after, a, c)
    {
      ParkBalanced(h, id, conn, a, c);
    }
  }

  lemma DropKeeps(h: Hub, id: Id, route: Route)
    requires Inv(h) && id in h.links
    ensures Inv(Drop(h, id, route))
  {
    var after := Drop(h, id, route);
    assert after.links.Keys == h.links.Keys - {id};
    SignalledKeeps(h, after, id);
    forall a, c
      ensures Balanced(after, a, c)
    {
      DropBalanced(h, id, route, a, c);
    }
  }

  lemma QuietKeeps(h: Hub, after: Hub)
    requires Inv(h) && NoticeOk(after.notice) && WaitersOk(after)
    requires after.links == h.links && after.gauge == h.gauge && after.log == h.log
    ensures Inv(after)
  {
    forall a, c
      ensures Balanced(after, a, c)
    {
      assert Balanced(h, a, c);
    }
  }

  lemma StepKeeps(h: Hub, step: Step)
    requires Inv(h) && Enabled(h, step)
    ensures Inv(Do(h, step))
  {
    match step
    case Park(id, conn) => ParkKeeps(h, id, conn);
    case Die(conn) => QuietKeeps(h, Do(h, step));
    case Watch(id, conn) =>
      if Holds(h.links, id, conn) {
        DropKeeps(h, id, Died);
      }
    case Remove(id) =>
      if id in h.links {
        DropKeeps(h, id, Removed);
      }
    case Try(taker, id) =>
      if id in h.links {
        DropKeeps(h, id, if h.links[id] in h.dead then Died else Taken);
      } else {
        WaitKeeps(h, taker, id);
        QuietKeeps(h, Do(h, step));
      }
    case Wake(taker) => QuietKeeps(h, Do(h, step));
    case GiveUp(taker) => QuietKeeps(h, Do(h, step));
  }

  // ----- Runs

  ghost predicate IsRun(steps: seq<Step>, states: seq<Hub>) {
    && |states| == |steps| + 1 && states[0] == START
    && forall i :: 0 <= i < |steps| ==> Enabled(states[i], steps[i]) && states[i + 1] == Do(states[i], steps[i])
  }

  lemma {:induction false} RunInv(steps: seq<Step>, states: seq<Hub>, n: nat)
    requires IsRun(steps, states) && n < |states|
    ensures Inv(states[n])
  {
    if n == 0 {
    } else {
      RunInv(steps, states, n - 1);
      StepKeeps(states[n - 1], steps[n - 1]);
    }
  }

  /** The gauge counts the parked links, under every interleaving. */
  lemma GaugeIsExact(steps: seq<Step>, states: seq<Hub>, n: nat)
    requires IsRun(steps, states) && n < |states|
    ensures states[n].gauge == |states[n].links|
  {
    RunInv(steps, states, n);
  }

  /** No lost wake-up: while a link is parked, nobody waits for that identifier on an open channel. */
  lemma NoLostWakeUp(steps: seq<Step>, states: seq<Hub>, n: nat, taker: nat)
    requires IsRun(steps, states) && n < |states| && taker in states[n].waiters
    requires states[n].waiters[taker].id in states[n].links
    ensures Enabled(states[n], Wake(taker))
  {
    RunInv(steps, states, n);
    assert Waits(states[n].waiters[taker], states[n].notice, states[n].links);
  }

  /** How often a connection was handed out under an identifier. */
  function Handed(log: seq<Entry>, id: Id, conn: Conn): nat {
    if log == [] then 0
    else Handed(log[..|log| - 1], id, conn) + if log[|log| - 1] == Left(id, conn, Taken) then 1 else 0
  }

  lemma {:induction false} HandedAreDepartures(log: seq<Entry>, id: Id, conn: Conn)
    ensures Handed(log, id, conn) <= Departures(log, id, conn)
  {
    if log == [] {
    } else {
      HandedAreDepartures(log[..|log| - 1], id, conn);
    }
  }

  /**
  Each parking ends by exactly one route, so a connection parked once is handed out at most
  once, and not while parked.
  */
  lemma HandedOutOnce(steps: seq<Step>, states: seq<Hub>, n: nat, id: Id, conn: Conn)
    requires IsRun(steps, states) && n < |states|
    ensures var h := states[n];
            && Arrivals(h.log, id, conn) == Departures(h.log, id, conn) + (if Holds(h.links, id, conn) then 1 else 0)
            && Handed(h.log, id, conn) + (if Holds(h.links, id, conn) then 1 else 0) <= Arrivals(h.log, id, conn)
  {
    RunInv(steps, states, n);
    assert Balanced(states[n], id, conn);
    HandedAreDepartures(states[n].log, id, conn);
  }

  // ----- The hub in place

  class HostLinkHub {
    var links: map<Id, Conn>
    var parked: int
    var notify: map<Id, Chan>
    var closed: set<Chan>
    var nextChan: Chan
    ghost var log: seq<Entry>

    function Notices(): Notice
      reads this
    {
      Notice(notify, closed, nextChan)
    }

    /** The hub together with what surrounds it. */
    ghost function Value(dead: set<Conn>, waiters: map<nat, Waiter>): Hub
      reads this
    {
      Hub(links, parked, Notices(), dead, waiters, log)
    }

    constructor ()
      ensures Value({}, map[]) == START
    {
      links, parked, notify, closed, nextChan, log := map[], 0, map[], {}, 0, [];
    }

    method NotifyChannel(id: Id) returns (changed: Chan)
      modifies `notify, `nextChan
      ensures Notices() == WithChannel(old(Notices()), id) && changed == Notices().current[id]
    {
      if id !in notify {
        notify := notify[id := nextChan];
        nextChan := nextChan + 1;
      }
      changed := notify[id];
    }

    /** Wakes everyone waiting for an identifier; closing a closed channel would be a fault. */
    method SignalAll(id: Id)
      requires NoticeOk(Notices())
      modifies `notify, `nextChan, `closed
      ensures NoticeOk(Notices()) && Notices() == Signal(old(Notices()), id)
    {
      SignalKeeps(Notices(), id);
      var changed := NotifyChannel(id);
      assert changed !in closed;
      closed := closed + {changed};
      notify := notify[id := nextChan];
      nextChan := nextChan + 1;
    }

    method Park(id: Id, conn: Conn, ghost dead: set<Conn>, ghost waiters: map<nat, Waiter>)
      returns (replaced: Option<Conn>)
      requires NoticeOk(Notices())
      modifies this
      ensures NoticeOk(Notices()) && Value(dead, waiters) == DoPark(old(Value(dead, waiters)), id, conn)
      ensures replaced == if id in old(links) && old(links)[id] != conn then Some(old(links)[id]) else None
    {
      ghost var goal := DoPark(Value(dead, waiters), id, conn);
      replaced := None;
      if id !in links {
        parked := parked + 1;
      } else if links[id] != conn {
        replaced := Some(links[id]);
      }
      links := links[id := conn];
      log := goal.log;
      SignalAll(id);
    }

    method DropLink(id: Id, ghost route: Route, ghost dead: set<Conn>, ghost waiters: map<nat, Waiter>)
      requires NoticeOk(Notices()) && id in links
      modifies this
      ensures NoticeOk(Notices()) && Value(dead, waiters) == Drop(old(Value(dead, waiters)), id, route)
    {
      log := log + [Left(id, links[id], route)];
      links := links - {id};
      parked := parked - 1;
      SignalAll(id);
    }

    method RemoveLink(id: Id, ghost dead: set<Conn>, ghost waiters: map<nat, Waiter>) returns (conn: Option<Conn>)
      requires NoticeOk(Notices())
      modifies this
      ensures NoticeOk(Notices()) && Value(dead, waiters) == Do(old(Value(dead, waiters)), Remove(id))
      ensures conn == if id in old(links) then Some(old(links)[id]) else None
    {
      conn := None;
      if id in links {
        conn := Some(links[id]);
        DropLink(id, Removed, dead, waiters);
      }
    }

    /** What the goroutine started by `park` does when its connection ends. */
    method OnConnectionDone(id: Id, conn: Conn, ghost dead: set<Conn>, ghost waiters: map<nat, Waiter>)
      requires NoticeOk(Notices())
      modifies this
      ensures NoticeOk(Notices()) && Value(dead, waiters) == Do(old(Value(dead, waiters)), Watch(id, conn))
    {
      if id in links && links[id] == conn {
        DropLink(id, Died, dead, waiters);
      }
    }

    /** One turn of `take` under the lock: a live connection, another turn, or a channel to wait on. */
    method TryTake(id: Id, dead: set<Conn>, ghost taker: nat, ghost waiters: map<nat, Waiter>)
      returns (conn: Option<Conn>, wait: Option<Chan>)
      requires NoticeOk(Notices())
      modifies this
      ensures NoticeOk(Notices())
      ensures var now := if wait.Some? then waiters[taker := Waiter(id, wait.value)] else waiters;
              Value(dead, now) == DoTry(old(Value(dead, waiters)), taker, id)
      ensures conn.Some? ==> id in old(links) && conn.value == old(links)[id] && conn.value !in dead
      ensures wait.Some? <==> id !in old(links)
      ensures conn.None? && wait.None? ==> id in old(links) && old(links)[id] in dead
    {
      conn, wait := None, None;
      if id in links {
        if links[id] in dead {
          DropLink(id, Died, dead, waiters);
        } else {
          conn := Some(links[id]);
          DropLink(id, Taken, dead, waiters);
        }
        return;
      }
      WithChannelKeeps(Notices(), id);
      var changed := NotifyChannel(id);
      wait := Some(changed);
    }
  }

  // ----- What callers get

  /** A parked connection is the one that is there, whatever was parked before, and waiters can wake. */
  lemma ParkedIsThere(h: Hub, id: Id, conn: Conn)
    requires Inv(h)
    ensures var after := Do(h, Park(id, conn));
            && Holds(after.links, id, conn)
            && (forall a :: a != id ==> (a in after.links <==> a in h.links))
            && (forall a :: a in h.links && a != id ==> after.links[a] == h.links[a])
            && forall t :: t in h.waiters && h.waiters[t].id == id ==> Enabled(after, Wake(t))
  {
    SignalKeeps(h.notice, id);
    forall t | t in h.waiters && h.waiters[t].id == id
      ensures Enabled(Do(h, Park(id, conn)), Wake(t))
    {
      assert Waits(h.waiters[t], h.notice, h.links);
    }
  }

  /** The next caller takes it out, alive or found dead; with nothing parked the caller waits. */
  lemma NextCallerTakes(h: Hub, taker: nat, id: Id)
    requires Inv(h) && taker !in h.waiters
    ensures var after := Do(h, Try(taker, id));
            if id in h.links then
              && id !in after.links && taker !in after.waiters
              && after.log == h.log + [Left(id, h.links[id], if h.links[id] in h.dead then Died else Taken)]
            else
              && taker in after.waiters && after.waiters[taker].id == id && after.log == h.log
              && !Enabled(after, Wake(taker))
  {
    WithChannelKeeps(h.notice, id);
  }

  /** When a connection ends, its link goes if and only if it is still the one parked. */
  lemma EndedLinkGoes(h: Hub, id: Id, conn: Conn)
    requires Inv(h) && conn in h.dead
    ensures var after := Do(h, Watch(id, conn));
            if id in h.links && h.links[id] == conn then
              id !in after.links && after.log == h.log + [Left(id, conn, Died)]
            else after == h
  {
  }
}

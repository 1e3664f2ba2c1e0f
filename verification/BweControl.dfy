/**
The bandwidth estimator's control law (flux-web/bwe.go): a clamped bitrate target that congestion
lowers by 15 % and calm raises by 12 %, on timers.  Times are nanoseconds, rates kbit/s; the
factors are exact rationals rounded half up.
*/
module BweControl {
  import opened Basics

  const UPDATE_INTERVAL: int := 500_000_000
  const MIN_KBPS: int := 1_500
  const INITIAL_KBPS: int := 5_000
  const MAX_KBPS: int := 50_000

  datatype Control = Control(target: int, ceiling: int, lastUpdate: int, lastChange: int, suppress: Option<int>)

  function New(initial: int, now: int): Control {
    Control(if initial == 0 then INITIAL_KBPS else initial, MAX_KBPS, now, now, None)
  }

  function Clamp(kbps: int, ceiling: int): int {
    var k := if kbps < MIN_KBPS then MIN_KBPS else kbps;
    var c := if ceiling == 0 || ceiling > MAX_KBPS then MAX_KBPS else ceiling;
    var c1 := if c < MIN_KBPS then MIN_KBPS else c;
    if k > c1 then c1 else k
  }

  function SetCeiling(c: Control, ceiling: int): Control {
    var up := if ceiling == 0 then MAX_KBPS else ceiling;
    var k := if up < MIN_KBPS then MIN_KBPS else up;
    c.(ceiling := k, target := Clamp(c.target, k))
  }

  function Lowered(c: Control): int { Clamp((85 * c.target + 50) / 100, c.ceiling) }

  function Raised(c: Control): int { Clamp((112 * c.target + 50) / 100, c.ceiling) }

  /** Is an update at this time acted upon at all? */
  predicate Due(c: Control, now: int) { now - c.lastUpdate >= UPDATE_INTERVAL }

  /** One update, given whether its signals mean congestion. */
  function Update(c: Control, now: int, congested: bool): Control {
    if !Due(c, now) then c
    else if congested then
      var c1 := c.(lastUpdate := now, suppress := Some(now + SECOND));
      if now - c.lastChange < UPDATE_INTERVAL || Lowered(c) == c.target then c1
      else c1.(target := Lowered(c), lastChange := now)
    else if now - c.lastChange < 2 * SECOND || (c.suppress.Some? && now < c.suppress.value) then c.(lastUpdate := now)
    else if Raised(c) == c.target then c.(lastUpdate := now)
    else c.(target := Raised(c), lastUpdate := now, lastChange := now)
  }

  /** The range the target is meant to stay in: between the floor and the ceiling, with the timers in order. */
  predicate InRange(c: Control) {
    && MIN_KBPS <= c.ceiling && MIN_KBPS <= c.target <= Min(c.ceiling, MAX_KBPS)
    && c.lastChange <= c.lastUpdate
  }

  // ----- Runs

  datatype Event = CeilingSet(kbps: int) | Updated(now: int, congested: bool)

  /** What one acted-upon update did to the target. */
  datatype Entry = Entry(now: int, congested: bool, before: int, after: int) {
    predicate Changed() { before != after }
  }

  function Step(c: Control, e: Event): (Control, seq<Entry>) {
    match e
    case CeilingSet(kbps) => (SetCeiling(c, kbps), [])
    case Updated(now, congested) =>
      (Update(c, now, congested),
       if Due(c, now) then [Entry(now, congested, c.target, Update(c, now, congested).target)] else [])
  }

  function Run(c: Control, events: seq<Event>): (Control, seq<Entry>) {
    if events == [] then (c, [])
    else
      var (c1, log) := Run(c, events[..|events| - 1]);
      var (c2, more) := Step(c1, events[|events| - 1]);
      (c2, log + more)
  }

  /** Ceilings are unsigned. */
  predicate Sensible(events: seq<Event>) {
    forall i :: 0 <= i < |events| && events[i].CeilingSet? ==> events[i].kbps >= 0
  }

  /** Setting a ceiling brings any target into the range that ceiling allows. */
  lemma CeilingSetsRange(c: Control, kbps: int)
    requires kbps >= 0 && c.lastChange <= c.lastUpdate
    ensures InRange(SetCeiling(c, kbps))
    ensures kbps != 0 ==> SetCeiling(c, kbps).target <= Max(MIN_KBPS, kbps)
  {
  }

  /** An update stays in range, lowers the target only under congestion and raises it only without. */
  lemma UpdateInRange(c: Control, now: int, congested: bool)
    requires InRange(c)
    ensures var c1 := Update(c, now, congested);
            && InRange(c1)
            && (congested && Due(c, now) ==> c1.target == Lowered(c) && (c.target > MIN_KBPS ==> c1.target < c.target))
            && (c1.target < c.target ==> congested) && (c1.target > c.target ==> !congested)
  {
  }

  /** Once the timers allow it, a calm update makes progress towards the ceiling until it is there. */
  lemma CalmRaises(c: Control, now: int)
    requires InRange(c) && Due(c, now) && now - c.lastChange >= 2 * SECOND
    requires c.suppress.Some? ==> now >= c.suppress.value
    ensures var c1 := Update(c, now, false);
            if c.target == Min(c.ceiling, MAX_KBPS) then c1.target == c.target else c1.target > c.target
  {
  }

  /** After the first ceiling, the target stays in range over every run. */
  lemma {:induction false} RunInRange(c: Control, events: seq<Event>)
    requires InRange(c) && Sensible(events)
    ensures InRange(Run(c, events).0)
  {
    if events == [] {
    } else {
      RunInRange(c, events[..|events| - 1]);
      var c1 := Run(c, events[..|events| - 1]).0;
      match events[|events| - 1] {
        case CeilingSet(kbps) => CeilingSetsRange(c1, kbps);
        case Updated(now, congested) => UpdateInRange(c1, now, congested);
      }
    }
  }

  /** The timing promise between an earlier and a later update. */
  predicate Spaced(a: Entry, b: Entry) {
    && b.now - a.now >= UPDATE_INTERVAL
    && (b.after > b.before && a.Changed() ==> b.now - a.now >= 2 * SECOND)
    && (b.after > b.before && a.congested ==> b.now - a.now >= SECOND)
  }

  ghost predicate AllSpaced(log: seq<Entry>) {
    forall i, j :: 0 <= i < j < |log| ==> Spaced(log[i], log[j])
  }

  /** The timers remember what the log says. */
  predicate Remembers(c: Control, e: Entry) {
    && e.now <= c.lastUpdate
    && (e.Changed() ==> e.now <= c.lastChange)
    && (e.congested ==> c.suppress.Some? && e.now + SECOND <= c.suppress.value)
  }

  lemma UpdateSpaced(c: Control, e: Entry, now: int, congested: bool)
    requires InRange(c) && Remembers(c, e) && Due(c, now)
    ensures Spaced(e, Entry(now, congested, c.target, Update(c, now, congested).target))
    ensures Remembers(Update(c, now, congested), e)
  {
    UpdateInRange(c, now, congested);
  }

  /** Over every run: the updates acted upon keep their distances in time. */
  lemma {:induction false} TimersHold(c: Control, events: seq<Event>)
    requires InRange(c) && Sensible(events)
    ensures var (c1, log) := Run(c, events);
            AllSpaced(log) && forall i :: 0 <= i < |log| ==> Remembers(c1, log[i])
  {
    if events == [] {
    } else {
      var last := |events| - 1;
      TimersHold(c, events[..last]);
      RunInRange(c, events[..last]);
      var (c1, log) := Run(c, events[..last]);
      match events[last] {
        case CeilingSet(kbps) =>
          assert Run(c, events).1 == log;
        case Updated(now, congested) =>
          if Due(c1, now) {
            forall i | 0 <= i < |log|
              ensures Spaced(log[i], Entry(now, congested, c1.target, Update(c1, now, congested).target))
              ensures Remembers(Update(c1, now, congested), log[i])
            {
              UpdateSpaced(c1, log[i], now, congested);
            }
          } else {
            assert Run(c, events).1 == log;
          }
      }
    }
  }

  // ----- Reaching the floor

  /** The highest targets possible after 0, 1, 2, ... congested updates. */
  const BOUNDS: seq<int> :=
    [50_000, 42_500, 36_125, 30_706, 26_100, 22_185, 18_857, 16_028,
     13_624, 11_580, 9_843, 8_367, 7_112, 6_045, 5_138, 4_367,
     3_712, 3_155, 2_682, 2_280, 1_938, 1_647, 1_500]

  function Bound(n: nat): int {
    if n < |BOUNDS| then BOUNDS[n] else MIN_KBPS
  }

  /** Each is the one before lowered once. */
  lemma BoundFalls(n: nat)
    ensures Bound(n + 1) == Max(MIN_KBPS, (85 * Bound(n) + 50) / 100)
    ensures n >= 22 ==> Bound(n) == MIN_KBPS
  {
    if n < 22 {
      assert 100 * BOUNDS[n + 1] <= 85 * BOUNDS[n] + 50 < 100 * BOUNDS[n + 1] + 100 || n == 21;
    }
  }

  ghost predicate AllCongested(log: seq<Entry>) {
    forall i :: 0 <= i < |log| ==> log[i].congested
  }

  lemma {:induction false} CongestionBound(c: Control, events: seq<Event>)
    requires InRange(c) && Sensible(events) && AllCongested(Run(c, events).1)
    ensures var (c1, log) := Run(c, events); c1.target <= Bound(|log|)
  {
    if events == [] {
    } else {
      var last := |events| - 1;
      var (c1, log) := Run(c, events[..last]);
      var (c2, more) := Step(c1, events[last]);
      assert forall i :: 0 <= i < |log| ==> (log + more)[i] == log[i];
      CongestionBound(c, events[..last]);
      RunInRange(c, events[..last]);
      match events[last] {
        case CeilingSet(kbps) => CeilingOnlyLowers(c1, kbps);
        case Updated(now, congested) =>
          if Due(c1, now) {
            assert (log + more)[|log|].congested;
            LoweredBound(c1, |log|);
            UpdateInRange(c1, now, congested);
          }
      }
    }
  }

  lemma CeilingOnlyLowers(c: Control, kbps: int)
    requires InRange(c) && kbps >= 0
    ensures SetCeiling(c, kbps).target <= c.target
  {
  }

  lemma LoweredBound(c: Control, n: nat)
    requires InRange(c) && c.target <= Bound(n)
    ensures Lowered(c) <= Bound(n + 1)
  {
    BoundFalls(n);
  }

  /** Twenty-two congested updates bring any target to the floor, whatever ceilings are set between them. */
  lemma CongestionReachesFloor(c: Control, events: seq<Event>)
    requires InRange(c) && Sensible(events) && AllCongested(Run(c, events).1)
    requires |Run(c, events).1| >= 22
    ensures Run(c, events).0.target == MIN_KBPS
  {
    CongestionBound(c, events);
    BoundFalls(|Run(c, events).1|);
    RunInRange(c, events);
  }

  /** The number of updates that changed the target. */
  function Changes(log: seq<Entry>): nat {
    if log == [] then 0
    else Changes(log[..|log| - 1]) + if log[|log| - 1].Changed() then 1 else 0
  }

  ghost predicate NoneRaised(log: seq<Entry>) {
    forall i :: 0 <= i < |log| ==> log[i].after <= log[i].before
  }

  lemma DecreaseBound(c: Control, now: int, congested: bool, n: nat)
    requires InRange(c) && c.target <= Bound(n) && Due(c, now) && n <= 22
    requires Update(c, now, congested).target <= c.target
    ensures var c1 := Update(c, now, congested);
            if c1.target == c.target then c1.target <= Bound(n) else n < 22 && c1.target <= Bound(n + 1)
  {
    UpdateInRange(c, now, congested);
    LoweredBound(c, n);
    BoundFalls(n);
  }

  /** The target cannot be lowered more than twenty-two times unless something raises it in between. */
  lemma {:induction false} AtMostTwentyTwoDecreases(c: Control, events: seq<Event>)
    requires InRange(c) && Sensible(events) && NoneRaised(Run(c, events).1)
    ensures var (c1, log) := Run(c, events); Changes(log) <= 22 && c1.target <= Bound(Changes(log))
  {
    if events == [] {
    } else {
      var last := |events| - 1;
      var (c1, log) := Run(c, events[..last]);
      var (c2, more) := Step(c1, events[last]);
      assert forall i :: 0 <= i < |log| ==> (log + more)[i] == log[i];
      AtMostTwentyTwoDecreases(c, events[..last]);
      RunInRange(c, events[..last]);
      match events[last] {
        case CeilingSet(kbps) =>
          CeilingOnlyLowers(c1, kbps);
          assert log + more == log;
        case Updated(now, congested) =>
          if Due(c1, now) {
            assert (log + more)[..|log|] == log;
            assert (log + more)[|log|].after <= c1.target;
            DecreaseBound(c1, now, congested, Changes(log));
          } else {
            assert log + more == log;
          }
      }
    }
  }

  // ----- Reaching the ceiling

  /** The lowest targets possible after 0, 1, 2, ... rises below the ceiling. */
  const RISES: seq<int> :=
    [1_500, 1_680, 1_882, 2_108, 2_361, 2_644, 2_961, 3_316,
     3_714, 4_160, 4_659, 5_218, 5_844, 6_545, 7_330, 8_210,
     9_195, 10_298, 11_534, 12_918, 14_468, 16_204, 18_148, 20_326,
     22_765, 25_497, 28_557, 31_984, 35_822, 40_121, 44_936, 50_000]

  function Rise(n: nat): int {
    if n < |RISES| then RISES[n] else MAX_KBPS
  }

  /** Each is the one before raised once. */
  lemma RiseGrows(n: nat)
    ensures Rise(n + 1) == Min(MAX_KBPS, (112 * Rise(n) + 50) / 100)
    ensures Rise(n) <= MAX_KBPS && (n >= 31 ==> Rise(n) == MAX_KBPS)
  {
    if n < 31 {
      assert 100 * RISES[n + 1] <= 112 * RISES[n] + 50 < 100 * RISES[n + 1] + 100 || n == 30;
    }
  }

  function Top(c: Control): int { Min(c.ceiling, MAX_KBPS) }

  /** When `n` rises have happened at the latest, if updates come no more than `gap` apart. */
  function Deadline(start: int, gap: int, n: nat): int {
    if n == 0 then start else Deadline(start, gap, n - 1) + 2 * SECOND + gap
  }

  /** At the ceiling, or `n` rises up and in time for the next. */
  predicate Rising(c: Control, start: int, gap: int, n: nat) {
    && InRange(c) && c.suppress.None?
    && (c.target == Top(c) ||
        (c.target >= Min(Rise(n), Top(c)) && c.lastChange <= Deadline(start, gap, n) &&
         c.lastUpdate < Deadline(start, gap, n) + 2 * SECOND))
  }

  /** A calm update in time keeps up. */
  lemma RisesInTime(c: Control, start: int, gap: int, n: nat, now: int) returns (m: nat)
    requires Rising(c, start, gap, n) && (Due(c, now) ==> now <= c.lastUpdate + gap)
    ensures Rising(Update(c, now, false), start, gap, m) && Update(c, now, false).target >= c.target
  {
    m := n;
    if Due(c, now) && now - c.lastChange >= 2 * SECOND {
      RiseGrows(n);
      m := n + 1;
      CalmRaises(c, now);
    }
  }

  lemma {:induction false} DeadlineIs(start: int, gap: int, n: nat)
    ensures Deadline(start, gap, n) == start + n * (2 * SECOND + gap)
  {
    if n == 0 {
    } else {
      DeadlineIs(start, gap, n - 1);
      assert n * (2 * SECOND + gap) == (n - 1) * (2 * SECOND + gap) + (2 * SECOND + gap);
    }
  }

  lemma {:induction false} DeadlineGrows(start: int, gap: int, m: nat, n: nat)
    requires m <= n && gap >= 0
    ensures Deadline(start, gap, m) <= Deadline(start, gap, n)
  {
    if m == n {
    } else {
      DeadlineGrows(start, gap, m, n - 1);
    }
  }

  /** After thirty-one times the gap and the two seconds between rises, it is at the ceiling. */
  lemma RisenToTop(c: Control, start: int, gap: int, n: nat)
    requires Rising(c, start, gap, n) && gap >= 0 && c.lastUpdate >= start + 31 * (2 * SECOND + gap)
    ensures c.target == Top(c)
  {
    if c.target != Top(c) {
      DeadlineIs(start, gap, 31);
      if n < 31 {
        DeadlineGrows(start, gap, n + 1, 31);
        assert false;
      } else {
        RiseGrows(n);
      }
    }
  }

  // ----- How far a target moves

  /** A target between the floor and the ceiling stays; any other goes to the nearer of the two. */
  lemma ClampIsNearest(kbps: int, ceiling: int)
    requires ceiling >= 1_500
    ensures var top := Min(ceiling, 50_000);
            Clamp(kbps, ceiling) == if kbps < 1_500 then 1_500 else if kbps > top then top else kbps
  {
  }

  /** Setting a ceiling moves the target only down to it. */
  lemma CeilingMovesOnlyDown(c: Control, kbps: int)
    requires InRange(c) && kbps >= 0
    ensures var top := if kbps == 0 then 50_000 else Max(1_500, Min(kbps, 50_000));
            SetCeiling(c, kbps).target == Min(c.target, top)
  {
  }

  /**
  A congested update takes fifteen per cent off and a calm one that is acted upon adds twelve, rounded
  to the nearest unit, unless the floor or the ceiling is in the way.
  */
  lemma StepSizes(c: Control, now: int, congested: bool)
    requires InRange(c) && now - c.lastUpdate >= 500_000_000
    ensures var after, top := Update(c, now, congested).target, Min(c.ceiling, 50_000);
            if congested then
              after == 1_500 || (1_500 < after && -50 <= 100 * after - 85 * c.target <= 50)
            else
              after == c.target || after == top || (after < top && -50 <= 100 * after - 112 * c.target <= 50)
    ensures congested && 85 * c.target >= 150_050 ==> Update(c, now, congested).target > 1_500
    ensures !congested && now - c.lastChange >= 2_000_000_000 && (c.suppress.Some? ==> now >= c.suppress.value) ==>
              var after, top := Update(c, now, congested).target, Min(c.ceiling, 50_000);
              after == top || 100 * after >= 112 * c.target - 50
  {
  }
}

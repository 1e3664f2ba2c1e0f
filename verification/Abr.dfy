/**
The relay's encoder bitrate state (flux-web/abr.go): estimates are clamped, spaced and sent to the
encoder only when they matter.
*/
module Abr {
  import opened Basics
  import BweControl

  const ESTIMATE_INTERVAL: int := 500_000_000
  const MIN_KBPS := BweControl.MIN_KBPS
  const INITIAL_KBPS := BweControl.INITIAL_KBPS
  const MAX_KBPS := BweControl.MAX_KBPS

  /** `heard` is the rate of the last command that found room in the command channel. */
  datatype State = State(target: U32, ceiling: U32, lastEstimate: Option<int>, heard: U32)

  /** `room` says whether the command channel has room for a command. */
  datatype Event = SenderTarget(kbps: U32, room: bool) | Estimate(kbps: U32, now: int, room: bool)

  /** A bitrate command issued, with the sender ceiling in force and what caused it. */
  datatype Command = Command(kbps: U32, ceiling: U32, cause: Event) {
    /** Without room the command is dropped. */
    predicate Delivered() { cause.room }
  }

  function Difference(a: int, b: int): int { if a > b then a - b else b - a }

  predicate Material(current: U32, next: U32, ceiling: U32) {
    current != next &&
    (next == MIN_KBPS || (ceiling != 0 && next == ceiling) || current == 0 || 10 * Difference(current, next) >= current)
  }

  function Clamped(kbps: U32, ceiling: U32): U32 {
    var k: U32 := if kbps < MIN_KBPS then MIN_KBPS else kbps;
    if ceiling != 0 && k > ceiling then ceiling else k
  }

  predicate Due(s: State, now: int) {
    s.lastEstimate.None? || now - s.lastEstimate.value >= ESTIMATE_INTERVAL
  }

  /** The target changes in any case; the encoder hears of it only if the channel has room. */
  function Issue(s: State, kbps: U32, room: bool): State {
    s.(target := kbps, heard := if room then kbps else s.heard)
  }

  function Step(s: State, e: Event): (State, seq<Command>) {
    match e
    case SenderTarget(kbps, room) =>
      var s1 := s.(ceiling := kbps);
      if kbps == 0 || s.target <= kbps then (s1, []) else (Issue(s1, kbps, room), [Command(kbps, kbps, e)])
    case Estimate(kbps, now, room) =>
      var k := Clamped(kbps, s.ceiling);
      if kbps == 0 || !Due(s, now) || (s.target != 0 && !Material(s.target, k, s.ceiling)) then (s, [])
      else (Issue(s, k, room).(lastEstimate := Some(now)), [Command(k, s.ceiling, e)])
  }

  function Run(s: State, events: seq<Event>): (State, seq<Command>) {
    if events == [] then (s, [])
    else
      var (s1, issued) := Run(s, events[..|events| - 1]);
      var (s2, more) := Step(s1, events[|events| - 1]);
      (s2, issued + more)
  }

  const START := State(0, 0, None, 0)

  /** Nothing above a ceiling that has been reported. */
  predicate Below(kbps: U32, ceiling: U32) { ceiling != 0 ==> kbps <= ceiling }

  /** Commands never exceed the ceiling in force when they were issued. */
  ghost predicate Obedient(issued: seq<Command>) {
    forall i :: 0 <= i < |issued| ==> issued[i].kbps > 0 && Below(issued[i].kbps, issued[i].ceiling)
  }

  /** Commands caused by estimates are at least half a second apart. */
  ghost predicate Spaced(issued: seq<Command>) {
    forall i, j :: 0 <= i < j < |issued| && issued[i].cause.Estimate? && issued[j].cause.Estimate? ==>
                     issued[j].cause.now - issued[i].cause.now >= ESTIMATE_INTERVAL
  }

  /** No command repeats the one before it. */
  ghost predicate Changing(issued: seq<Command>) {
    forall i, j :: 0 <= i < |issued| && j == i + 1 < |issued| ==> issued[i].kbps != issued[j].kbps
  }

  /** Position of the last command that was delivered, or -1. */
  function LastDelivered(issued: seq<Command>): (d: int)
    ensures -1 <= d < |issued|
    ensures d >= 0 ==> issued[d].Delivered()
    ensures forall i :: d < i < |issued| ==> !issued[i].Delivered()
  {
    if issued == [] then -1
    else if issued[|issued| - 1].Delivered() then |issued| - 1
    else LastDelivered(issued[..|issued| - 1])
  }

  /** The state is what the commands say: the target is the last one issued, and heard of is the last one delivered. */
  ghost predicate Faithful(s: State, issued: seq<Command>) {
    && s.target == (if issued == [] then 0 else issued[|issued| - 1].kbps)
    && s.heard == (if LastDelivered(issued) < 0 then 0 else issued[LastDelivered(issued)].kbps)
    && Below(s.target, s.ceiling)
    && forall i :: 0 <= i < |issued| && issued[i].cause.Estimate? ==>
                     s.lastEstimate.Some? && issued[i].cause.now <= s.lastEstimate.value
  }

  ghost predicate Accounted(s: State, issued: seq<Command>) {
    Obedient(issued) && Spaced(issued) && Changing(issued) && Faithful(s, issued)
  }

  lemma MoreIssued(issued: seq<Command>, c: Command)
    ensures LastDelivered(issued + [c]) == if c.Delivered() then |issued| else LastDelivered(issued)
  {
    assert (issued + [c])[..|issued|] == issued;
  }

  lemma SpacedMore(s: State, issued: seq<Command>, c: Command)
    requires Spaced(issued) && Faithful(s, issued) && (c.cause.Estimate? ==> Due(s, c.cause.now))
    ensures Spaced(issued + [c])
  {
  }

  lemma ChangingMore(s: State, issued: seq<Command>, c: Command)
    requires Changing(issued) && Faithful(s, issued) && (issued != [] ==> c.kbps != s.target)
    ensures Changing(issued + [c])
  {
  }

  lemma FaithfulMore(s: State, issued: seq<Command>, r: State, c: Command)
    requires Faithful(s, issued) && Below(c.kbps, c.ceiling) && (c.cause.Estimate? ==> Due(s, c.cause.now))
    requires r == State(c.kbps, c.ceiling, if c.cause.Estimate? then Some(c.cause.now) else s.lastEstimate,
                        if c.Delivered() then c.kbps else s.heard)
    ensures Faithful(r, issued + [c])
  {
    MoreIssued(issued, c);
  }

  /** A new command that fits behind those issued so far. */
  lemma IssueMore(s: State, issued: seq<Command>, r: State, c: Command)
    requires Accounted(s, issued)
    requires c.kbps > 0 && c.kbps != s.target && Below(c.kbps, c.ceiling)
    requires c.cause.Estimate? ==> Due(s, c.cause.now)
    requires r == State(c.kbps, c.ceiling, if c.cause.Estimate? then Some(c.cause.now) else s.lastEstimate,
                        if c.Delivered() then c.kbps else s.heard)
    ensures Accounted(r, issued + [c])
  {
    SpacedMore(s, issued, c);
    ChangingMore(s, issued, c);
    FaithfulMore(s, issued, r, c);
  }

  lemma StepIssues(s: State, e: Event)
    requires Below(s.target, s.ceiling)
    ensures var (r, more) := Step(s, e);
            && |more| <= 1
            && (more == [] ==> r.(ceiling := s.ceiling) == s && Below(r.target, r.ceiling))
            && (more != [] ==>
                  var c := more[0];
                  && c.cause == e && c.kbps > 0 && c.kbps != s.target && Below(c.kbps, c.ceiling)
                  && (e.Estimate? ==> Due(s, e.now))
                  && r == State(c.kbps, c.ceiling, if e.Estimate? then Some(e.now) else s.lastEstimate,
                                if e.room then c.kbps else s.heard))
  {
  }

  lemma StepAccounted(s: State, issued: seq<Command>, e: Event)
    requires Accounted(s, issued)
    ensures Accounted(Step(s, e).0, issued + Step(s, e).1)
  {
    StepIssues(s, e);
    var (r, more) := Step(s, e);
    if more == [] {
      assert issued + more == issued;
    } else {
      assert more == [more[0]];
      IssueMore(s, issued, r, more[0]);
    }
  }

  /**
  Over every run from the start: every command obeys the ceiling then in force, estimate commands
  are spaced, no command repeats the one before, and the state agrees with what was issued and
  delivered.
  */
  lemma {:induction false} CommandsObeyCeiling(events: seq<Event>)
    ensures var (s, issued) := Run(START, events);
            Obedient(issued) && Spaced(issued) && Changing(issued) && Faithful(s, issued)
  {
    if events == [] {
    } else {
      var before := events[..|events| - 1];
      CommandsObeyCeiling(before);
      StepAccounted(Run(START, before).0, Run(START, before).1, events[|events| - 1]);
    }
  }

  /**
  The encoder was told the target if and only if the last command was delivered, or at least two
  were dropped since the last delivered one and the rate is back where it was.
  */
  lemma EncoderKnowsTarget(events: seq<Event>)
    ensures var (s, issued) := Run(START, events);
            var d, last := LastDelivered(issued), |issued| - 1;
            s.heard == s.target <==> d == last || (0 <= d < last - 1 && issued[d].kbps == issued[last].kbps)
  {
    CommandsObeyCeiling(events);
  }

  /** Step by step: the encoder falls behind exactly when a command finds no room. */
  lemma EncoderFallsBehind(s: State, e: Event)
    ensures var (s1, issued) := Step(s, e);
            s1.heard == s1.target <==>
            if issued == [] then s.heard == s.target else e.room || issued[0].kbps == s.heard
    ensures s.heard == s.target && Below(s.target, s.ceiling) ==>
              var (s1, issued) := Step(s, e); (s1.heard != s1.target <==> issued != [] && !e.room)
  {
  }

  /**
  Falling behind can last: after a first estimate whose command was dropped, the same estimate over
  and over is never a material change, so the encoder is never told.
  */
  lemma {:induction false} EncoderNeverTold(kbps: U32, now: int, later: seq<Event>)
    requires kbps != 0 && forall i :: 0 <= i < |later| ==> later[i].Estimate? && later[i].kbps == kbps
    ensures var (s, issued) := Run(START, [Estimate(kbps, now, false)] + later);
            s.target == Clamped(kbps, 0) && s.ceiling == 0 && s.heard == 0 && |issued| == 1
  {
    var first := [Estimate(kbps, now, false)];
    if later == [] {
      assert first + later == first && first[..0] == [];
    } else {
      var last := |later| - 1;
      EncoderNeverTold(kbps, now, later[..last]);
      assert (first + later)[..|first| + last] == first + later[..last];
    }
  }

  /** After an estimate that is due, the encoder target is within a tenth of the clamped estimate. */
  lemma EstimateIsTracked(s: State, kbps: U32, now: int, room: bool)
    requires kbps != 0 && Due(s, now) && Below(s.target, s.ceiling)
    ensures var (s1, issued) := Step(s, Estimate(kbps, now, room));
            var k := Clamped(kbps, s.ceiling);
            && (s1.target == k || 10 * Difference(s1.target, k) < s1.target)
            && ((k == MIN_KBPS || k == s.ceiling) ==> s1.target == k)
            && (issued == [] <==> s1 == s)
  {
  }

  function InitialKbps(ceiling: U32): int {
    if ceiling == 0 then INITIAL_KBPS
    else if ceiling < MIN_KBPS then MIN_KBPS
    else if ceiling > MAX_KBPS then MAX_KBPS
    else ceiling
  }

  function SenderCeiling(ceiling: U32): int {
    if ceiling == 0 || ceiling > MAX_KBPS then MAX_KBPS else ceiling
  }

  /**
  An estimator started at the initial bitrate and given the sender's ceiling is in range from
  then on, for every run.
  */
  lemma EstimatorInRange(ceiling: U32, now: int, events: seq<BweControl.Event>)
    requires BweControl.Sensible(events)
    ensures var c := BweControl.SetCeiling(BweControl.New(InitialKbps(ceiling), now), SenderCeiling(ceiling));
            BweControl.InRange(BweControl.Run(c, events).0)
  {
    var c := BweControl.New(InitialKbps(ceiling), now);
    BweControl.CeilingSetsRange(c, SenderCeiling(ceiling));
    BweControl.RunInRange(BweControl.SetCeiling(c, SenderCeiling(ceiling)), events);
  }

  // ----- Which estimates matter

  /** An estimate is brought to the floor or the sender's ceiling, whichever it is beyond; the ceiling wins. */
  lemma ClampedIsNearest(kbps: U32, ceiling: U32)
    ensures Clamped(kbps, ceiling) ==
            if ceiling != 0 && Max(kbps, 1_500) > ceiling then ceiling else Max(kbps, 1_500)
  {
  }

  /**
  An estimate makes a command if and only if it is not zero, half a second has passed since the last
  one that did, and the clamped rate is new and is the floor, the ceiling, the first, or a tenth or more away.
  */
  lemma CommandIffMaterial(s: State, kbps: U32, now: int, room: bool)
    ensures var k, (r, issued) := Clamped(kbps, s.ceiling), Step(s, Estimate(kbps, now, room));
            issued != [] <==>
            && kbps != 0 && (s.lastEstimate.Some? ==> now - s.lastEstimate.value >= 500_000_000)
            && (s.target == 0 ||
                (k != s.target &&
                 (k == 1_500 || (s.ceiling != 0 && k == s.ceiling) ||
                  10 * (k - s.target) >= s.target || 10 * (s.target - k) >= s.target)))
  {
  }

  /** A lower sender rate is passed on at once, and nothing else it reports is. */
  lemma SenderLowers(s: State, kbps: U32, room: bool)
    ensures var (r, issued) := Step(s, SenderTarget(kbps, room));
            && r.ceiling == kbps
            && (issued != [] <==> 0 < kbps < s.target)
            && r.target == if 0 < kbps < s.target then kbps else s.target
  {
  }

  /** A session starts at the sender's rate, within the estimator's range. */
  lemma StartsAtSenderRate(ceiling: U32)
    ensures ceiling == 0 ==> InitialKbps(ceiling) == 5_000 && SenderCeiling(ceiling) == 50_000
    ensures ceiling != 0 ==> InitialKbps(ceiling) == Max(1_500, Min(ceiling, 50_000))
    ensures ceiling != 0 ==> SenderCeiling(ceiling) == Min(ceiling, 50_000)
  {
  }
}

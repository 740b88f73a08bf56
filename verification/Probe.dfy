/**
 When a pane looks at its foreground process group again: the acquisition window that content changes
 open, and the presence counter that decides from the probes which agent runs. Times are milliseconds.
 */
module Probe {
  import opened Options

  type Agent = nat
  type Pgid = nat
  type Time = nat

  const AGENT_MISS_CONFIRMATION_ATTEMPTS: nat := 6
  const PROCESS_RECHECK_IDENTIFIED: Time := 5_000
  const PROCESS_RECHECK_MISSING_FOREGROUND_GROUP: Time := 30_000
  const PROCESS_ACQUISITION_WINDOW: Time := 8_000
  const PROCESS_ACQUISITION_FAST_WINDOW: Time := 1_500
  const PROCESS_ACQUISITION_FAST_RECHECK: Time := 500
  const PROCESS_ACQUISITION_SLOW_RECHECK: Time := 2_000
  const PROCESS_ACQUISITION_IDLE_RESET: Time := 2_000

  function Since(now: Time, then_: Time): Time {
    if now < then_ then 0 else now - then_
  }

  // ----- the probe decision -----

  datatype ProcessProbeInput = ProcessProbeInput(
    currentAgent: Option<Agent>,
    suppressedAgent: Option<Agent>,
    foregroundPgid: Option<Pgid>,
    lastForegroundPgid: Option<Pgid>,
    hasProcessProbe: bool,
    acquisitionAge: Option<Time>,
    pendingForegroundShellClear: bool,
    pendingRestoreProbe: bool,
    elapsedSinceProcessCheck: Time)

  predicate ForegroundGroupChanged(foreground: Option<Pgid>, last: Option<Pgid>) {
    foreground != last && (foreground.Some? || last.Some?)
  }

  /** The acquisition window asks for a probe: often at first, then seldom, then no more. */
  predicate WindowDue(age: Option<Time>, elapsed: Time) {
    && age.Some?
    && age.value <= PROCESS_ACQUISITION_WINDOW
    && elapsed >= if age.value <= PROCESS_ACQUISITION_FAST_WINDOW then PROCESS_ACQUISITION_FAST_RECHECK else PROCESS_ACQUISITION_SLOW_RECHECK
  }

  predicate ShouldProbeForegroundJob(input: ProcessProbeInput) {
    if input.pendingForegroundShellClear || input.pendingRestoreProbe then true
    else
      var changed := ForegroundGroupChanged(input.foregroundPgid, input.lastForegroundPgid);
      if input.suppressedAgent.Some? then !input.hasProcessProbe || changed
      else if WindowDue(input.acquisitionAge, input.elapsedSinceProcessCheck) then true
      else if input.currentAgent.None? then
        || !input.hasProcessProbe
        || changed
        || (input.foregroundPgid.None? && input.elapsedSinceProcessCheck >= PROCESS_RECHECK_MISSING_FOREGROUND_GROUP)
      else changed || input.elapsedSinceProcessCheck >= PROCESS_RECHECK_IDENTIFIED
  }

  // ----- the acquisition window -----

  datatype Acquisition = Acquisition(startedAt: Option<Time>, lastChangeAt: Option<Time>)

  predicate Expired(a: Acquisition, now: Time)
    requires a.startedAt.Some?
  {
    Since(now, a.startedAt.value) > PROCESS_ACQUISITION_WINDOW
  }

  predicate Idle(a: Acquisition, now: Time)
    requires a.lastChangeAt.Some?
  {
    Since(now, a.lastChangeAt.value) >= PROCESS_ACQUISITION_IDLE_RESET
  }

  function Synced(a: Acquisition, now: Time, contentChanged: bool): Acquisition {
    if contentChanged then
      var shouldStart := a.startedAt.None? || (Expired(a, now) && (a.lastChangeAt.None? || Idle(a, now)));
      Acquisition(if shouldStart then Some(now) else a.startedAt, Some(now))
    else if a.startedAt.Some? && a.lastChangeAt.Some? && Expired(a, now) && Idle(a, now) then Acquisition(None, None)
    else a
  }

  class ContentAcquisition {
    var startedAt: Option<Time>
    var lastChangeAt: Option<Time>

    ghost function View(): Acquisition
      reads this
    {
      Acquisition(startedAt, lastChangeAt)
    }

    constructor ()
      ensures View() == Acquisition(None, None)
    {
      startedAt, lastChangeAt := None, None;
    }

    method SyncContentChange(currentAgent: Option<Agent>, suppressedAgent: Option<Agent>, processGroupChanged: bool,
                             contentChanged: bool, now: Time)
      modifies this
      ensures View() == if currentAgent.Some? || suppressedAgent.Some? || processGroupChanged then old(View())
                        else Synced(old(View()), now, contentChanged)
    {
      if currentAgent.Some? || suppressedAgent.Some? || processGroupChanged {
        return;
      }
      if contentChanged {
        if startedAt.None?
           || (Since(now, startedAt.value) > PROCESS_ACQUISITION_WINDOW
               && (lastChangeAt.None? || Since(now, lastChangeAt.value) >= PROCESS_ACQUISITION_IDLE_RESET)) {
          startedAt := Some(now);
        }
        lastChangeAt := Some(now);
        return;
      }
      if startedAt.None? || lastChangeAt.None? {
        return;
      }
      if Since(now, startedAt.value) > PROCESS_ACQUISITION_WINDOW
         && Since(now, lastChangeAt.value) >= PROCESS_ACQUISITION_IDLE_RESET {
        startedAt, lastChangeAt := None, None;
      }
    }
  }

  // ----- runs of a pane in which no agent is found -----

  datatype Detector = Detector(lastCheck: Time, lastPgid: Option<Pgid>, hasProbe: bool, window: Acquisition)

  /**
   One round of the detector: the time, the foreground group then, the group a probe would report, and whether
   the screen was compared in this round and had changed.
   */
  datatype Tick = Tick(now: Time, pgid: Option<Pgid>, probedGroup: Option<Pgid>, content: Option<bool>)

  function InputOf(d: Detector, t: Tick): ProcessProbeInput {
    ProcessProbeInput(None, None, t.pgid, d.lastPgid, d.hasProbe,
                      if d.window.startedAt.Some? then Some(Since(t.now, d.window.startedAt.value)) else None,
                      false, false, Since(t.now, d.lastCheck))
  }

  predicate Probes(d: Detector, t: Tick) {
    ShouldProbeForegroundJob(InputOf(d, t))
  }

  predicate WindowProbe(d: Detector, t: Tick) {
    WindowDue(InputOf(d, t).acquisitionAge, Since(t.now, d.lastCheck))
  }

  /** The probe of a round: no agent is found, and a new group opens a window of its own. */
  function AfterProbe(d: Detector, t: Tick): Detector {
    if !Probes(d, t) then d
    else
      Detector(t.now, if t.probedGroup.Some? then t.probedGroup else t.pgid, true,
               if d.hasProbe && ForegroundGroupChanged(t.pgid, d.lastPgid) then d.window.(startedAt := Some(t.now)) else d.window)
  }

  function Step(d: Detector, t: Tick): Detector {
    var e := AfterProbe(d, t);
    if t.content.None? || ForegroundGroupChanged(t.pgid, d.lastPgid) then e
    else e.(window := Synced(e.window, t.now, t.content.value))
  }

  /** The round opens a window. */
  predicate Opens(d: Detector, t: Tick) {
    || (Probes(d, t) && d.hasProbe && ForegroundGroupChanged(t.pgid, d.lastPgid))
    || (!ForegroundGroupChanged(t.pgid, d.lastPgid) && t.content == Some(true)
        && (d.window.startedAt.None?
            || (Expired(d.window, t.now) && (d.window.lastChangeAt.None? || Idle(d.window, t.now)))))
  }

  function CountProbes(d: Detector, ticks: seq<Tick>): nat
    decreases |ticks|
  {
    if ticks == [] then 0
    else (if Probes(d, ticks[0]) then 1 else 0) + CountProbes(Step(d, ticks[0]), ticks[1..])
  }

  function CountWindowProbes(d: Detector, ticks: seq<Tick>): nat
    decreases |ticks|
  {
    if ticks == [] then 0
    else (if WindowProbe(d, ticks[0]) then 1 else 0) + CountWindowProbes(Step(d, ticks[0]), ticks[1..])
  }

  function CountOpenings(d: Detector, ticks: seq<Tick>): nat
    decreases |ticks|
  {
    if ticks == [] then 0
    else (if Opens(d, ticks[0]) then 1 else 0) + CountOpenings(Step(d, ticks[0]), ticks[1..])
  }

  /** Time never runs backwards; in a strict run it advances with every round. */
  predicate Timed(strict: bool, from: Time, ticks: seq<Tick>)
    decreases |ticks|
  {
    ticks == [] || ((if strict then from < ticks[0].now else from <= ticks[0].now) && Timed(strict, ticks[0].now, ticks[1..]))
  }

  /** Nothing the detector remembers lies in the future. */
  predicate Past(d: Detector, now: Time) {
    && d.lastCheck <= now
    && (d.window.startedAt.Some? ==> d.window.startedAt.value <= now)
    && (d.window.lastChangeAt.Some? ==> d.window.lastChangeAt.value <= now)
  }

  function PerWindow(strict: bool): nat {
    if strict then 6 else 7
  }

  /** How many more probes a window can ask for when the last one came at the given age. */
  function Left(age: Time): nat {
    if age <= 1_000 then (1_500 - age) / 500 + 3
    else if age <= PROCESS_ACQUISITION_WINDOW then (PROCESS_ACQUISITION_WINDOW - age) / 2_000
    else 0
  }

  function Remaining(strict: bool, d: Detector): nat {
    if d.window.startedAt.None? then 0
    else if d.lastCheck < d.window.startedAt.value then PerWindow(strict)
    else Left(d.lastCheck - d.window.startedAt.value)
  }

  lemma LeftFalls(age: Time, next: Time)
    requires age <= next
    ensures Left(next) <= Left(age) <= 6
    ensures next <= PROCESS_ACQUISITION_WINDOW
            && next - age >= (if next <= PROCESS_ACQUISITION_FAST_WINDOW then PROCESS_ACQUISITION_FAST_RECHECK else PROCESS_ACQUISITION_SLOW_RECHECK)
            ==> Left(next) + 1 <= Left(age)
    ensures age >= 1 ==> Left(age) <= 5
  {
  }

  lemma WindowPays(strict: bool, from: Time, d: Detector, t: Tick)
    requires Past(d, from) && (if strict then from < t.now else from <= t.now)
    ensures (if WindowProbe(d, t) then 1 else 0) + Remaining(strict, d.(lastCheck := t.now)) <= Remaining(strict, d)
  {
    if d.window.startedAt.Some? {
      var started := d.window.startedAt.value;
      hide Left;
      LeftFalls(t.now - started, t.now - started);
      if d.lastCheck >= started {
        LeftFalls(d.lastCheck - started, t.now - started);
      }
    }
  }

  lemma StepShape(d: Detector, t: Tick)
    ensures Step(d, t).lastCheck == if Probes(d, t) then t.now else d.lastCheck
    ensures Opens(d, t) ==> Step(d, t).window.startedAt == Some(t.now)
    ensures !Opens(d, t) ==> Step(d, t).window.startedAt in {d.window.startedAt, None}
    ensures Step(d, t).window.lastChangeAt in {d.window.lastChangeAt, Some(t.now), None}
    ensures WindowProbe(d, t) ==> Probes(d, t)
  {
    assert WindowProbe(d, t) ==> Probes(d, t);
    hide Probes, WindowProbe;
  }

  /** One round: a window's probe is paid for by what the window had left, or by a window that opens. */
  lemma StepPays(strict: bool, from: Time, d: Detector, t: Tick)
    requires Past(d, from) && (if strict then from < t.now else from <= t.now)
    ensures Past(Step(d, t), t.now)
    ensures (if WindowProbe(d, t) then 1 else 0) + Remaining(strict, Step(d, t))
            <= Remaining(strict, d) + if Opens(d, t) then PerWindow(strict) else 0
  {
    StepShape(d, t);
    WindowPays(strict, from, d, t);
    LeftFalls(0, 0);
    hide Step, Opens, WindowProbe, Probes, Left;
    var e := Step(d, t);
    if Opens(d, t) {
      assert Left(0) <= 6;
      assert Remaining(strict, e) <= PerWindow(strict);
    }
  }

  /** Every run: the probes windows ask for number at most 7 for each window opened, or 6 when no two rounds share an instant. */
  lemma {:induction false} ProbesPerWindow(strict: bool, from: Time, d: Detector, ticks: seq<Tick>)
    requires Past(d, from) && Timed(strict, from, ticks)
    ensures CountWindowProbes(d, ticks) <= Remaining(strict, d) + PerWindow(strict) * CountOpenings(d, ticks)
    decreases |ticks|
  {
    if ticks != [] {
      StepPays(strict, from, d, ticks[0]);
      hide Remaining, Step, WindowProbe, Opens, Past;
      ProbesPerWindow(strict, ticks[0].now, Step(d, ticks[0]), ticks[1..]);
    }
  }

  // ----- a known, unchanged foreground group -----

  /** The group stays `g`, whether looked up or probed. */
  predicate SteadyGroup(g: Pgid, ticks: seq<Tick>) {
    forall i | 0 <= i < |ticks| :: ticks[i].pgid == Some(g) && ticks[i].probedGroup in {None, Some(g)}
  }

  predicate Settled(d: Detector, g: Pgid) {
    d.hasProbe && d.lastPgid == Some(g)
  }

  lemma {:induction false} OnlyWindowsProbe(d: Detector, g: Pgid, ticks: seq<Tick>)
    requires Settled(d, g) && SteadyGroup(g, ticks)
    ensures CountProbes(d, ticks) == CountWindowProbes(d, ticks)
    decreases |ticks|
  {
    if ticks != [] {
      assert ticks[0].pgid == Some(g) && ticks[0].probedGroup in {None, Some(g)};
      OnlyWindowsProbe(Step(d, ticks[0]), g, ticks[1..]);
    }
  }

  /** The earliest time a content change can open the next window. */
  function NextOpening(d: Detector, from: Time): nat {
    if d.window.startedAt.Some? then d.window.startedAt.value + PROCESS_ACQUISITION_WINDOW + 1 else from
  }

  function EndTime(from: Time, ticks: seq<Tick>): Time {
    if ticks == [] then from else ticks[|ticks| - 1].now
  }

  /** Windows open more than their own length apart, so a run opens at most one for every 8001 ms and one more. */
  lemma {:induction false} OpeningsApart(d: Detector, g: Pgid, from: Time, ticks: seq<Tick>)
    requires Settled(d, g) && SteadyGroup(g, ticks) && Past(d, from) && Timed(false, from, ticks)
    ensures CountOpenings(d, ticks) > 0 ==>
              NextOpening(d, from) + (PROCESS_ACQUISITION_WINDOW + 1) * (CountOpenings(d, ticks) - 1) <= EndTime(from, ticks)
    decreases |ticks|
  {
    if ticks != [] {
      var t := ticks[0];
      assert t.pgid == Some(g) && t.probedGroup in {None, Some(g)};
      StepPays(false, from, d, t);
      assert EndTime(t.now, ticks[1..]) == EndTime(from, ticks);
      var e := Step(d, t);
      OpeningsApart(e, g, t.now, ticks[1..]);
      assert Opens(d, t) ==> NextOpening(d, from) <= t.now && NextOpening(e, t.now) == t.now + PROCESS_ACQUISITION_WINDOW + 1;
      assert !Opens(d, t) ==> NextOpening(d, from) <= NextOpening(e, t.now);
      TimeRuns(t.now, ticks[1..]);
      hide Opens, NextOpening, Step;
    }
  }

  lemma {:induction false} TimeRuns(from: Time, ticks: seq<Tick>)
    requires Timed(false, from, ticks)
    ensures from <= EndTime(from, ticks)
    decreases |ticks|
  {
    if ticks != [] {
      TimeRuns(ticks[0].now, ticks[1..]);
      assert EndTime(ticks[0].now, ticks[1..]) == EndTime(from, ticks);
    }
  }

  /** Observed content changes follow one another in less than the idle reset, the previous one being `last`. */
  predicate Busy(last: Option<Time>, ticks: seq<Tick>)
    decreases |ticks|
  {
    if ticks == [] then true
    else if ticks[0].content == Some(true) then
      && (last.Some? ==> Since(ticks[0].now, last.value) < PROCESS_ACQUISITION_IDLE_RESET)
      && Busy(Some(ticks[0].now), ticks[1..])
    else Busy(last, ticks[1..])
  }

  predicate SomeChange(ticks: seq<Tick>)
    decreases |ticks|
  {
    ticks != [] && (ticks[0].content == Some(true) || SomeChange(ticks[1..]))
  }

  /** After the first change: the window is as that change left it, or was given up after two idle seconds. */
  predicate Acquired(d: Detector, last: Time, now: Time) {
    || (d.window.startedAt.Some? && d.window.lastChangeAt == Some(last))
    || (d.window == Acquisition(None, None) && Since(now, last) >= PROCESS_ACQUISITION_IDLE_RESET)
  }

  lemma {:induction false} NeverReopens(d: Detector, g: Pgid, last: Time, from: Time, ticks: seq<Tick>)
    requires Settled(d, g) && SteadyGroup(g, ticks) && Timed(false, from, ticks)
    requires Acquired(d, last, from) && last <= from && Busy(Some(last), ticks)
    ensures CountOpenings(d, ticks) == 0
    decreases |ticks|
  {
    if ticks != [] {
      var t := ticks[0];
      assert t.pgid == Some(g) && t.probedGroup in {None, Some(g)};
      NeverReopens(Step(d, t), g, if t.content == Some(true) then t.now else last, t.now, ticks[1..]);
    }
  }

  /** While content keeps changing, the first change opens the only window of the run. */
  lemma {:induction false} OneOpening(d: Detector, g: Pgid, from: Time, ticks: seq<Tick>)
    requires Settled(d, g) && SteadyGroup(g, ticks) && Timed(false, from, ticks)
    requires d.window == Acquisition(None, None) && Busy(None, ticks)
    ensures CountOpenings(d, ticks) == if SomeChange(ticks) then 1 else 0
    decreases |ticks|
  {
    if ticks != [] {
      var t := ticks[0];
      assert t.pgid == Some(g) && t.probedGroup in {None, Some(g)};
      if t.content == Some(true) {
        NeverReopens(Step(d, t), g, t.now, t.now, ticks[1..]);
      } else {
        OneOpening(Step(d, t), g, t.now, ticks[1..]);
      }
    }
  }

  lemma WeakTimed(from: Time, ticks: seq<Tick>)
    requires Timed(true, from, ticks)
    ensures Timed(false, from, ticks)
    decreases |ticks|
  {
  }

  /** A pane that keeps writing is probed at most 7 more times in its whole run, or 6 when no two rounds share an instant. */
  lemma ProbeBound(strict: bool, d: Detector, g: Pgid, from: Time, ticks: seq<Tick>)
    requires Settled(d, g) && SteadyGroup(g, ticks) && Timed(strict, from, ticks) && d.lastCheck <= from
    requires d.window == Acquisition(None, None) && Busy(None, ticks)
    ensures CountProbes(d, ticks) <= if SomeChange(ticks) then PerWindow(strict) else 0
  {
    if strict { WeakTimed(from, ticks); }
    OnlyWindowsProbe(d, g, ticks);
    ProbesPerWindow(strict, from, d, ticks);
    OneOpening(d, g, from, ticks);
  }

  /** Without the assumption on changes: at most 7 probes for each 8001 ms of the run, and 7 more. */
  lemma ProbeRate(d: Detector, g: Pgid, from: Time, ticks: seq<Tick>)
    requires Settled(d, g) && SteadyGroup(g, ticks) && Timed(false, from, ticks) && Past(d, from)
    requires d.window.startedAt.None?
    ensures CountProbes(d, ticks) <= 7 * ((EndTime(from, ticks) - from) / (PROCESS_ACQUISITION_WINDOW + 1) + 1)
  {
    hide SteadyGroup, Timed, CountProbes, CountWindowProbes, CountOpenings;
    OnlyWindowsProbe(d, g, ticks);
    ProbesPerWindow(false, from, d, ticks);
    OpeningsApart(d, g, from, ticks);
    TimeRuns(from, ticks);
    Windows(CountOpenings(d, ticks), EndTime(from, ticks) - from);
  }

  lemma Windows(count: nat, span: nat)
    requires count > 0 ==> 8_001 * (count - 1) <= span
    ensures 7 * count <= 7 * (span / 8_001 + 1)
  {
  }

  lemma CountOne(d: Detector, t: Tick, rest: seq<Tick>)
    ensures CountProbes(d, [t] + rest) == (if Probes(d, t) then 1 else 0) + CountProbes(Step(d, t), rest)
  {
    assert ([t] + rest)[1..] == rest;
  }

  /** A round in which the group is `g` and the screen has not changed. */
  function Quiet(g: Pgid, now: Time): Tick {
    Tick(now, Some(g), None, Some(false))
  }

  /** Rounds at the given ages of a window opened by a single change. */
  function QuietAt(g: Pgid, start: Time, ages: seq<Time>): seq<Tick> {
    if ages == [] then [] else [Quiet(g, start + ages[0])] + QuietAt(g, start, ages[1..])
  }

  /** Both bounds are attained, by a single change. */
  lemma {:induction false} BoundAttained(g: Pgid, start: Time, lastCheck: Time)
    requires lastCheck + 2_000 <= start
    ensures var d := Detector(lastCheck, Some(g), true, Acquisition(None, None));
            && CountProbes(d, [Tick(start, Some(g), None, Some(true))] + QuietAt(g, start, [0, 500, 1_000, 1_500, 3_500, 5_500, 7_500])) == 7
            && CountProbes(d, [Tick(start, Some(g), None, Some(true))] + QuietAt(g, start, [1, 501, 1_001, 3_001, 5_001, 7_001])) == 6
  {
    var d := Detector(lastCheck, Some(g), true, Acquisition(None, None));
    var first := Tick(start, Some(g), None, Some(true));
    assert !Probes(d, first) && Step(d, first) == d.(window := Acquisition(Some(start), Some(start)));
    assert AllDue(start, lastCheck, [0, 500, 1_000, 1_500, 3_500, 5_500, 7_500]);
    assert AllDue(start, lastCheck, [1, 501, 1_001, 3_001, 5_001, 7_001]);
    hide CountProbes, QuietAt, AllDue, Step, Probes;
    CountOne(d, first, QuietAt(g, start, [0, 500, 1_000, 1_500, 3_500, 5_500, 7_500]));
    CountOne(d, first, QuietAt(g, start, [1, 501, 1_001, 3_001, 5_001, 7_001]));
    EachRoundProbes(g, start, lastCheck, [0, 500, 1_000, 1_500, 3_500, 5_500, 7_500]);
    EachRoundProbes(g, start, lastCheck, [1, 501, 1_001, 3_001, 5_001, 7_001]);
  }

  /** Every age asks for a probe, the one before it (or `lastCheck`) being long enough ago. */
  predicate AllDue(start: Time, lastCheck: Time, ages: seq<Time>)
    decreases |ages|
  {
    ages == [] || (WindowDue(Some(ages[0]), Since(start + ages[0], lastCheck)) && AllDue(start, start + ages[0], ages[1..]))
  }

  lemma {:induction false} EachRoundProbes(g: Pgid, start: Time, lastCheck: Time, ages: seq<Time>)
    requires AllDue(start, lastCheck, ages)
    ensures CountProbes(Detector(lastCheck, Some(g), true, Acquisition(Some(start), Some(start))), QuietAt(g, start, ages)) == |ages|
    decreases |ages|
  {
    if ages != [] {
      var d := Detector(lastCheck, Some(g), true, Acquisition(Some(start), Some(start)));
      var t := Quiet(g, start + ages[0]);
      CountOne(d, t, QuietAt(g, start, ages[1..]));
      assert Step(d, t) == d.(lastCheck := start + ages[0]);
      hide Step, CountProbes;
      EachRoundProbes(g, start, start + ages[0], ages[1..]);
    }
  }

  // ----- which agent runs -----

  /** What the presence counter is told: the outcome of a probe, or to forget the agent. */
  datatype Observation = Found(agent: Agent) | Missed | Cleared

  function MissesAtEnd(history: seq<Observation>): nat {
    if history == [] || history[|history| - 1] != Missed then 0 else MissesAtEnd(history[..|history| - 1]) + 1
  }

  /** The agent the latest probe that found one found, unless it was cleared since. */
  function LastFound(history: seq<Observation>): Option<Agent> {
    if history == [] then None
    else
      match history[|history| - 1]
      case Found(agent) => Some(agent)
      case Cleared => None
      case Missed => LastFound(history[..|history| - 1])
  }

  /** The agent believed present: the last one found, until six probes in a row miss it. */
  function Believed(history: seq<Observation>): Option<Agent> {
    if MissesAtEnd(history) < AGENT_MISS_CONFIRMATION_ATTEMPTS then LastFound(history) else None
  }

  /** Addition of 8-bit counters. */
  function SaturatingAdd(a: nat, b: nat): nat {
    if a + b > 255 then 255 else a + b
  }

  class AgentDetectionPresence {
    var currentAgent: Option<Agent>
    var consecutiveMisses: nat
    ghost var history: seq<Observation>

    ghost predicate Valid()
      reads this
    {
      && currentAgent == Believed(history)
      && consecutiveMisses == if currentAgent.None? then 0 else MissesAtEnd(history)
    }

    constructor FromAgent(agent: Option<Agent>)
      ensures Valid() && history == match agent case Some(a) => [Found(a)] case None => []
    {
      currentAgent, consecutiveMisses := agent, 0;
      history := match agent case Some(a) => [Found(a)] case None => [];
    }

    method ClearCurrentAgent() returns (changed: bool)
      requires Valid()
      modifies this
      ensures Valid() && history == old(history) + [Cleared]
      ensures changed <==> Believed(history) != Believed(old(history))
    {
      history := history + [Cleared];
      assert history[..|history| - 1] == old(history);
      if currentAgent.None? {
        consecutiveMisses := 0;
        return false;
      }
      currentAgent, consecutiveMisses := None, 0;
      return true;
    }

    method ObserveProcessProbe(identified: Option<Agent>) returns (changed: bool)
      requires Valid()
      modifies this
      ensures Valid() && history == old(history) + [match identified case Some(a) => Found(a) case None => Missed]
      ensures changed <==> Believed(history) != Believed(old(history))
    {
      history := history + [match identified case Some(a) => Found(a) case None => Missed];
      assert history[..|history| - 1] == old(history);
      match identified {
        case Some(agent) =>
          consecutiveMisses := 0;
          if Some(agent) == currentAgent {
            return false;
          }
          currentAgent := Some(agent);
          return true;
        case None =>
          if currentAgent.None? {
            consecutiveMisses := 0;
            return false;
          }
          consecutiveMisses := SaturatingAdd(consecutiveMisses, 1);
          if consecutiveMisses < AGENT_MISS_CONFIRMATION_ATTEMPTS {
            return false;
          }
          currentAgent, consecutiveMisses := None, 0;
          return true;
      }
    }
  }

  function Misses(n: nat): (r: seq<Observation>)
    ensures |r| == n
  {
    seq(n, _ => Missed)
  }

  /** A found agent is believed through five misses in a row and through no more. */
  lemma {:induction false} SixMissesForget(history: seq<Observation>, agent: Agent, n: nat)
    ensures Believed(history + [Found(agent)] + Misses(n)) == if n < 6 then Some(agent) else None
    ensures MissesAtEnd(history + [Found(agent)] + Misses(n)) == n
    ensures LastFound(history + [Found(agent)] + Misses(n)) == Some(agent)
  {
    var h := history + [Found(agent)] + Misses(n);
    if n > 0 {
      assert h[..|h| - 1] == history + [Found(agent)] + Misses(n - 1);
      SixMissesForget(history, agent, n - 1);
    }
  }
}

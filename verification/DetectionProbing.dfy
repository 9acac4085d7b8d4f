/** Acquisition windows: how many process probes one window can trigger, and what keeps a
    window where it is. */
module DetectionProbing {
  import opened Wrappers
  import opened Detection
  import opened DetectionRuns
  import opened DetectionRelease

  const MAX_WINDOW_PROBES: nat := 7

  // --- The part of the state that windows depend on ---

  datatype Clock = Clock(acquisition: Option<nat>, lastChange: Option<nat>, lastCheck: nat)

  function ClockOf(s: State): Clock {
    Clock(s.acquisition, s.lastChange, s.lastCheck)
  }

  /** The probe of this tick was triggered by the acquisition window, not by a pending
      clear, a restore or a release. */
  predicate Acquires(kind: LoopKind, s: State, t: Tick) {
    var s1 := Prepare(kind, s, t);
    var sup := Suppressed(s1, t.now);
    && Probes(s1, sup, t)
    && !s1.pendingClear && !s1.restoreProbe && sup.None?
    && AcquisitionDue(s1, t.now)
  }

  lemma PrepareClock(kind: LoopKind, s: State, t: Tick)
    ensures var c := ClockOf(Prepare(kind, s, t));
            && (c.acquisition == s.acquisition || c.acquisition.None?)
            && (c.lastCheck == s.lastCheck || c.lastCheck == t.now)
            && (!t.reset ==> c.lastCheck == s.lastCheck)
            && (t.reset ==> c.acquisition.None?)
  {
  }

  lemma DecideKeepsClock(s: State, found: Option<Agent>, isShell: bool)
    ensures ClockOf(Decide(s, found, isShell).0) == ClockOf(s)
  {
  }

  lemma RememberClock(kind: LoopKind, s: State, t: Tick, found: Option<Agent>, opensWindow: bool)
    ensures var c := ClockOf(Remember(kind, s, t, found, opensWindow));
            && c.lastCheck == s.lastCheck
            && (c.acquisition == s.acquisition || c.acquisition.None? || c.acquisition == Some(t.now))
            && (found.None? && !opensWindow ==> c == ClockOf(s))
  {
  }

  lemma AgentChangedKeepsClock(s: State, now: nat)
    ensures ClockOf(AgentChanged(s, now).0) == ClockOf(s)
  {
  }

  /** A probe stamps the check clock; the window ends, restarts now, or stays. */
  lemma ProbeStageClock(kind: LoopKind, s: State, sup: Option<Agent>, t: Tick)
    ensures var c := ClockOf(ProbeStage(kind, s, sup, t).0);
            && c.lastCheck == t.now
            && (c.acquisition == s.acquisition || c.acquisition.None? || c.acquisition == Some(t.now))
            && (Effective(sup, t.probe).None? && !GroupChanged(s, t) ==>
                  c == ClockOf(s).(lastCheck := t.now))
  {
    var found := Effective(sup, t.probe);
    var s1 := Stamped(s, sup, t);
    assert ClockOf(s1) == ClockOf(s).(lastCheck := t.now);
    hide Stamped, Effective, Decide, Remember, AgentChanged, GroupChanged;
    DecideKeepsClock(s1, found, t.probe.isShell);
    var s2 := Decide(s1, found, t.probe.isShell).0;
    var opens := s.hasProbe && GroupChanged(s, t);
    RememberClock(kind, s2, t, found, opens);
    AgentChangedKeepsClock(Remember(kind, s2, t, found, opens), t.now);
  }

  /** What observing the screen can do to a window. */
  predicate ScreenMoves(c: Clock, c': Clock, now: nat) {
    && c'.lastCheck == c.lastCheck
    && (c'.acquisition == c.acquisition || c'.acquisition.None? || c'.acquisition == Some(now))
    && (c.acquisition.Some? && c.lastChange.Some? && Since(now, c.lastChange.value) < IDLE_RESET ==>
          c'.acquisition == c.acquisition && (c'.lastChange == c.lastChange || c'.lastChange == Some(now)))
  }

  lemma SyncMoves(s: State, sup: Option<Agent>, groupChanged: bool, t: Tick)
    ensures ScreenMoves(ClockOf(s), ClockOf(SyncContent(s, sup, groupChanged, t)), t.now)
  {
  }

  lemma PublishKeepsClock(s: State, d: Shown, changed: bool, exited: bool, now: nat)
    ensures ClockOf(PublishStage(s, d, changed, exited, now).0) == ClockOf(s)
  {
    assert ClockOf(HoldIdle(s, Publishable(d), changed, exited, now).0) == ClockOf(s);
    hide HoldIdle, ShouldPublish, Publishable;
  }

  lemma ReadMoves(kind: LoopKind, s: State, sup: Option<Agent>, t: Tick, groupChanged: bool, changed: bool,
                  exited: bool)
    ensures ScreenMoves(ClockOf(s), ClockOf(ReadStage(kind, s, sup, t, groupChanged, changed, exited).0), t.now)
  {
    var s1 := s.(lastScan := SeqOf(s, t));
    assert ClockOf(s1) == ClockOf(s) == ClockOf(ClearIdle(s1));
    SyncMoves(s1, sup, groupChanged, t);
    var s2 := SyncContent(s1, sup, groupChanged, t);
    assert ClockOf(ClearIdle(s2)) == ClockOf(s2);
    hide SyncContent, PublishStage, SkipsContent, ClearIdle, SeqOf, ScreenMoves;
    PublishKeepsClock(s2, EXIT_DETECTION, changed, true, t.now);
    if t.screen.Some? {
      PublishKeepsClock(s2, t.screen.value, changed, false, t.now);
    }
    StillMoves(ClockOf(s), t.now);
  }

  lemma StillMoves(c: Clock, now: nat)
    ensures ScreenMoves(c, c, now)
  {
  }

  lemma GatesKeepClock(kind: LoopKind, s: State, now: nat)
    ensures ClockOf(ClearIdle(s)) == ClockOf(s) == ClockOf(EndGraceForExit(kind, s))
    ensures s.graceUntil.Some? ==> ClockOf(GraceStage(kind, s, now)) == ClockOf(s)
  {
  }

  lemma ScreenStageMoves(kind: LoopKind, s: State, sup: Option<Agent>, t: Tick, groupChanged: bool, changed: bool)
    ensures ScreenMoves(ClockOf(s), ClockOf(ScreenStage(kind, s, sup, t, groupChanged, changed).0), t.now)
  {
    hide ReadStage, ClearIdle, GraceStage, EndGraceForExit, SkipsScan, ScreenMoves;
    GatesKeepClock(kind, s, t.now);
    StillMoves(ClockOf(s), t.now);
    var s1 := if s.graceUntil.Some? then EndGraceForExit(kind, s) else s;
    ReadMoves(kind, s1, sup, t, groupChanged, changed, ExitDue(s));
  }

  /** The clock after a whole tick. */
  lemma TickClock(kind: LoopKind, s: State, t: Tick)
    ensures var s1 := Prepare(kind, s, t);
            var c := ClockOf(StepTick(kind, s, t).0);
            && c.lastCheck == (if Probed(kind, s, t) then t.now else s1.lastCheck)
            && (c.acquisition == s1.acquisition || c.acquisition.None? || c.acquisition == Some(t.now))
            && (Identified(kind, s, t).None? && !GroupChanged(s1, t) ==>
                  ScreenMoves(ClockOf(s1).(lastCheck := c.lastCheck), c, t.now))
  {
    var s1 := Prepare(kind, s, t);
    var sup := Suppressed(s1, t.now);
    hide ProbeStage, ScreenStage, Prepare, Probes, Effective;
    if Probes(s1, sup, t) {
      ProbeStageClock(kind, s1, sup, t);
      var (s2, out, changed) := ProbeStage(kind, s1, sup, t);
      ScreenStageMoves(kind, s2, sup, t, GroupChanged(s1, t), changed);
    } else {
      ScreenStageMoves(kind, s1, sup, t, GroupChanged(s1, t), false);
    }
  }

  // --- Counting probes per window ---

  /** Acquisition probes since the current window start was set, and when the last was. */
  datatype Tally = Tally(count: nat, last: nat)

  function NextTally(kind: LoopKind, s: State, t: Tick, n: Tally): Tally {
    var after := StepTick(kind, s, t).0;
    if after.acquisition.None? || after.acquisition != Prepare(kind, s, t).acquisition then Tally(0, 0)
    else if Acquires(kind, s, t) then Tally(n.count + 1, t.now)
    else n
  }

  function TallyAt(kind: LoopKind, s: State, ticks: seq<Tick>, i: nat): Tally
    requires i <= |ticks|
  {
    if i == 0 then Tally(0, 0)
    else NextTally(kind, StateAt(kind, s, ticks, i - 1), ticks[i - 1], TallyAt(kind, s, ticks, i - 1))
  }

  /** At most this many acquisition probes can have happened `age` after the window start. */
  function Budget(age: nat): nat {
    if age <= FAST_WINDOW then 1 + age / FAST_RECHECK
    else 4 + (age - FAST_WINDOW) / SLOW_RECHECK
  }

  lemma BudgetIsSeven(age: nat)
    requires age <= ACQUISITION_WINDOW
    ensures Budget(age) <= MAX_WINDOW_PROBES
  {
  }

  /** A recheck interval later, the budget allows one more. */
  lemma BudgetGrows(earlier: nat, later: nat)
    requires later <= ACQUISITION_WINDOW
    requires later >= earlier + if later <= FAST_WINDOW then FAST_RECHECK else SLOW_RECHECK
    ensures Budget(earlier) + 1 <= Budget(later)
  {
    if later <= FAST_WINDOW {
      assert later / FAST_RECHECK >= (earlier + FAST_RECHECK) / FAST_RECHECK == earlier / FAST_RECHECK + 1;
    } else if earlier <= FAST_WINDOW {
      assert earlier / FAST_RECHECK <= 3;
      assert earlier >= 1500 ==> (later - FAST_WINDOW) / SLOW_RECHECK >= 1;
      assert earlier < 1500 ==> earlier / FAST_RECHECK <= 2;
    } else {
      assert (later - FAST_WINDOW) / SLOW_RECHECK
          >= (earlier - FAST_WINDOW + SLOW_RECHECK) / SLOW_RECHECK
          == (earlier - FAST_WINDOW) / SLOW_RECHECK + 1;
    }
  }

  /** Clocks lie in the past, and the window's tally is within its budget. */
  predicate WithinBudget(s: State, n: Tally, time: nat) {
    && s.lastCheck <= time
    && (s.acquisition.Some? ==> s.acquisition.value <= time)
    && (s.acquisition.None? ==> n.count == 0)
    && (s.acquisition.Some? && n.count > 0 ==>
          && s.acquisition.value <= n.last <= s.lastCheck
          && n.last - s.acquisition.value <= ACQUISITION_WINDOW
          && n.count <= Budget(n.last - s.acquisition.value))
  }

  /** Including the probe of this tick, the window has triggered at most seven. */
  lemma AtMostSevenNow(kind: LoopKind, s: State, t: Tick, n: Tally, time: nat)
    requires WithinBudget(s, n, time) && time <= t.now
    ensures Acquires(kind, s, t) ==> n.count + 1 <= MAX_WINDOW_PROBES
    ensures Acquires(kind, s, t) ==>
              s.acquisition.Some? && Prepare(kind, s, t).acquisition == s.acquisition
              && t.now - s.acquisition.value <= ACQUISITION_WINDOW
              && n.count + 1 <= Budget(t.now - s.acquisition.value)
  {
    PrepareClock(kind, s, t);
    hide Prepare, Probes, Budget;
    if Acquires(kind, s, t) {
      var age := t.now - s.acquisition.value;
      if n.count > 0 {
        BudgetGrows(n.last - s.acquisition.value, age);
      } else {
        BudgetIsPositive(age);
      }
      BudgetIsSeven(age);
    }
  }

  lemma BudgetIsPositive(age: nat)
    ensures Budget(age) >= 1
  {
  }

  lemma StepKeepsBudget(kind: LoopKind, s: State, t: Tick, n: Tally, time: nat)
    requires WithinBudget(s, n, time) && time <= t.now
    ensures WithinBudget(StepTick(kind, s, t).0, NextTally(kind, s, t, n), t.now)
  {
    PrepareClock(kind, s, t);
    TickClock(kind, s, t);
    AtMostSevenNow(kind, s, t, n, time);
    assert Acquires(kind, s, t) ==> Probed(kind, s, t);
    hide Prepare, StepTick, Acquires, Probed, Budget, Identified, GroupChanged, ScreenMoves;
  }

  /** The clock reading before tick `i`. */
  function TimeBefore(start: nat, ticks: seq<Tick>, i: nat): nat
    requires i <= |ticks|
  {
    if i == 0 then start else ticks[i - 1].now
  }

  ghost predicate Nondecreasing(start: nat, ticks: seq<Tick>) {
    forall i :: 0 <= i < |ticks| ==> TimeBefore(start, ticks, i) <= ticks[i].now
  }

  lemma {:induction false} BudgetOnRuns(kind: LoopKind, restored: Option<Agent>, start: nat, ticks: seq<Tick>, i: nat)
    requires i <= |ticks| && Nondecreasing(start, ticks)
    ensures var s := Initial(kind, restored, start);
            WithinBudget(StateAt(kind, s, ticks, i), TallyAt(kind, s, ticks, i), TimeBefore(start, ticks, i))
    decreases i
  {
    hide StepTick, NextTally, WithinBudget, Initial;
    var s := Initial(kind, restored, start);
    if i == 0 {
      FreshIsWithinBudget(kind, restored, start);
    } else {
      BudgetOnRuns(kind, restored, start, ticks, i - 1);
      assert TimeBefore(start, ticks, i - 1) <= ticks[i - 1].now;
      StepKeepsBudget(kind, StateAt(kind, s, ticks, i - 1), ticks[i - 1], TallyAt(kind, s, ticks, i - 1),
                      TimeBefore(start, ticks, i - 1));
    }
  }

  lemma FreshIsWithinBudget(kind: LoopKind, restored: Option<Agent>, start: nat)
    ensures WithinBudget(Initial(kind, restored, start), Tally(0, 0), start)
  {
  }

  /** On every run with a clock that does not go back, one acquisition window triggers at
      most seven process probes. */
  lemma WindowTriggersAtMostSeven(kind: LoopKind, restored: Option<Agent>, start: nat, ticks: seq<Tick>, i: nat)
    requires i < |ticks| && Nondecreasing(start, ticks)
    ensures var s := Initial(kind, restored, start);
            var here := StateAt(kind, s, ticks, i);
            TallyAt(kind, s, ticks, i).count + (if Acquires(kind, here, ticks[i]) then 1 else 0) <= MAX_WINDOW_PROBES
  {
    var s := Initial(kind, restored, start);
    var here, n := StateAt(kind, s, ticks, i), TallyAt(kind, s, ticks, i);
    BudgetOnRuns(kind, restored, start, ticks, i);
    hide Initial, StateAt, TallyAt, Acquires, Budget;
    assert TimeBefore(start, ticks, i) <= ticks[i].now;
    AtMostSevenNow(kind, here, ticks[i], n, TimeBefore(start, ticks, i));
    if n.count > 0 {
      BudgetIsSeven(n.last - here.acquisition.value);
    }
  }

  // --- Bursts ---

  /** A window is open, a screen change was observed, and no agent is being released. */
  predicate InBurst(s: State) {
    s.acquisition.Some? && s.lastChange.Some? && s.release.None? && !s.releaseActive
  }

  /** What the environment does in a tick of an output burst: no reset, no release, no change
      of the foreground group, no agent to be found, and the last observed screen change is
      less than two seconds old. */
  predicate BurstTick(kind: LoopKind, s: State, t: Tick) {
    && !t.reset && t.newRelease.None?
    && !GroupChanged(Prepare(kind, s, t), t)
    && Identified(kind, s, t).None?
    && (s.lastChange.Some? ==> Since(t.now, s.lastChange.value) < IDLE_RESET)
  }

  /** Such a tick neither moves nor clears the window start. */
  lemma BurstKeepsWindow(kind: LoopKind, s: State, t: Tick)
    requires InBurst(s) && BurstTick(kind, s, t)
    ensures var after := StepTick(kind, s, t).0;
            && after.acquisition == s.acquisition == Prepare(kind, s, t).acquisition
            && (after.lastChange == s.lastChange || after.lastChange == Some(t.now))
            && InBurst(after)
  {
    assert Prepare(kind, s, t).acquisition == s.acquisition && Prepare(kind, s, t).lastChange == s.lastChange;
    TickClock(kind, s, t);
    TickRelease(kind, s, t);
    PrepareRelease(kind, s, t);
    hide Prepare, StepTick, Identified, GroupChanged, Probed, Suppressed;
  }

  /** Acquisition probes in ticks `lo..hi`. */
  function AcquisitionProbes(kind: LoopKind, s: State, ticks: seq<Tick>, lo: nat, hi: nat): nat
    requires lo <= hi <= |ticks|
    decreases hi
  {
    if lo == hi then 0
    else if Acquires(kind, StateAt(kind, s, ticks, hi - 1), ticks[hi - 1])
    then AcquisitionProbes(kind, s, ticks, lo, hi - 1) + 1
    else AcquisitionProbes(kind, s, ticks, lo, hi - 1)
  }

  ghost predicate Burst(kind: LoopKind, s: State, ticks: seq<Tick>, lo: nat, hi: nat)
    requires hi <= |ticks|
  {
    forall m :: lo <= m < hi ==> BurstTick(kind, StateAt(kind, s, ticks, m), ticks[m])
  }

  lemma BurstTickIsTallied(kind: LoopKind, s: State, t: Tick, n: Tally)
    requires InBurst(s) && BurstTick(kind, s, t)
    ensures StepTick(kind, s, t).0.acquisition == s.acquisition && InBurst(StepTick(kind, s, t).0)
    ensures NextTally(kind, s, t, n).count == n.count + if Acquires(kind, s, t) then 1 else 0
  {
    BurstKeepsWindow(kind, s, t);
    hide StepTick, Prepare, Acquires, GroupChanged, Identified;
  }

  lemma {:induction false} BurstIsTallied(kind: LoopKind, s: State, ticks: seq<Tick>, lo: nat, hi: nat)
    requires lo <= hi <= |ticks| && InBurst(StateAt(kind, s, ticks, lo)) && Burst(kind, s, ticks, lo, hi)
    ensures InBurst(StateAt(kind, s, ticks, hi))
    ensures StateAt(kind, s, ticks, hi).acquisition == StateAt(kind, s, ticks, lo).acquisition
    ensures TallyAt(kind, s, ticks, hi).count
            == TallyAt(kind, s, ticks, lo).count + AcquisitionProbes(kind, s, ticks, lo, hi)
    decreases hi
  {
    hide StepTick, NextTally, Acquires, BurstTick, InBurst;
    if lo < hi {
      BurstIsTallied(kind, s, ticks, lo, hi - 1);
      var before := StateAt(kind, s, ticks, hi - 1);
      assert BurstTick(kind, before, ticks[hi - 1]);
      BurstTickIsTallied(kind, before, ticks[hi - 1], TallyAt(kind, s, ticks, hi - 1));
    }
  }

  /** However long a burst of screen output lasts, it triggers at most seven acquisition
      probes in all, and the window start stays where it was. */
  lemma BurstTriggersAtMostSeven(kind: LoopKind, restored: Option<Agent>, start: nat, ticks: seq<Tick>,
                                 lo: nat, hi: nat)
    requires lo <= hi <= |ticks| && Nondecreasing(start, ticks)
    requires InBurst(StateAt(kind, Initial(kind, restored, start), ticks, lo))
    requires Burst(kind, Initial(kind, restored, start), ticks, lo, hi)
    ensures var s := Initial(kind, restored, start);
            && AcquisitionProbes(kind, s, ticks, lo, hi) <= MAX_WINDOW_PROBES
            && StateAt(kind, s, ticks, hi).acquisition == StateAt(kind, s, ticks, lo).acquisition
  {
    var s := Initial(kind, restored, start);
    hide Initial, StateAt, TallyAt, AcquisitionProbes, BurstTick, InBurst;
    BurstIsTallied(kind, s, ticks, lo, hi);
    BudgetOnRuns(kind, restored, start, ticks, hi);
    TallyIsSeven(StateAt(kind, s, ticks, hi), TallyAt(kind, s, ticks, hi), TimeBefore(start, ticks, hi));
  }

  lemma TallyIsSeven(s: State, n: Tally, time: nat)
    requires WithinBudget(s, n, time)
    ensures n.count <= MAX_WINDOW_PROBES
  {
    if n.count > 0 {
      BudgetIsSeven(n.last - s.acquisition.value);
    }
  }
}

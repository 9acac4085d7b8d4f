/** How long the step from working to plain idle is held back. */
module DetectionHold {
  import opened Wrappers
  import opened Detection
  import opened DetectionRuns

  const PLAIN_IDLE: Shown := Shown(Idle, false, false, false)

  /** The screen of this tick reads as idle without a visible idle marker. */
  predicate ReadsPlainIdle(t: Tick) {
    t.screen.Some? && Publishable(t.screen.value) == PLAIN_IDLE
  }

  // --- One tick ---

  /** From `s` to `s'` the hold began or was confirmed once more, and nothing else showed. */
  predicate Holds(s: State, s': State, out: seq<Published>, t: Tick) {
    && out == [] && ReadsPlainIdle(t)
    && s.shown.state == Working && s'.shown == s.shown && s'.agent == s.agent
    && (if s.idleSince.None? then s'.idleSince == Some(t.now) && s'.idleConfirmations == 0
        else && s'.idleSince == s.idleSince && Since(t.now, s.idleSince.value) < IDLE_CAP
             && s'.idleConfirmations == s.idleConfirmations + 1 < IDLE_CONFIRMATIONS)
  }

  /** From `s` to `s'` working turned into plain idle, after enough holding. */
  predicate Released(s: State, t: Tick) {
    && ReadsPlainIdle(t) && s.idleSince.Some?
    && (Since(t.now, s.idleSince.value) >= IDLE_CAP || s.idleConfirmations + 1 >= IDLE_CONFIRMATIONS)
  }

  /** What a stage may do to the hold: keep holding, or drop it; and plain idle replaces
      working only by a release. */
  predicate HoldMoves(s: State, s': State, out: seq<Published>, t: Tick) {
    && (s'.idleSince.Some? ==> Holds(s, s', out, t))
    && (s.shown.state == Working && s'.shown == PLAIN_IDLE && s'.agent == s.agent ==> Released(s, t))
  }

  /** The parts that the hold looks at. */
  predicate SameHold(s: State, s': State) {
    && s'.agent == s.agent && s'.shown == s.shown
    && s'.idleSince == s.idleSince && s'.idleConfirmations == s.idleConfirmations
  }

  lemma SameHoldMoves(s: State, s1: State, s': State, out: seq<Published>, t: Tick)
    requires SameHold(s, s1) && HoldMoves(s1, s', out, t)
    ensures HoldMoves(s, s', out, t)
  {
  }

  lemma DroppedMoves(s: State, t: Tick)
    ensures HoldMoves(s, ClearIdle(s), [], t)
  {
  }

  /** `should_hold_working_to_idle` without a change of agent. */
  lemma HoldIdleMoves(s: State, d: Shown, exited: bool, t: Tick)
    requires !exited ==> t.screen == Some(d)
    ensures var (s', held) := HoldIdle(s, Publishable(d), false, exited, t.now);
            && s'.agent == s.agent && s'.shown == s.shown
            && (held ==> Holds(s, s', [], t))
            && (!held ==> s'.idleSince.None?)
            && (!held && !exited && s.shown.state == Working && Publishable(d) == PLAIN_IDLE ==> Released(s, t))
  {
    var next := Publishable(d);
    OnlyIdleIsPlain(d);
    hide Publishable, Since;
    if s.shown.state == Working && next == PLAIN_IDLE && !exited {
      assert ReadsPlainIdle(t);
    } else {
      assert HoldIdle(s, next, false, exited, t.now) == (ClearIdle(s), false);
    }
  }

  lemma OnlyIdleIsPlain(d: Shown)
    ensures var next := Publishable(d);
            next == PLAIN_IDLE <==> next.state == Idle && !next.idle && !next.blocker
  {
  }

  lemma PublishMoves(s: State, d: Shown, exited: bool, t: Tick)
    requires exited ==> d == EXIT_DETECTION
    requires !exited ==> t.screen == Some(d)
    ensures var (s', out) := PublishStage(s, d, false, exited, t.now);
            HoldMoves(s, s', out, t)
  {
    HoldIdleMoves(s, d, exited, t);
    assert Publishable(EXIT_DETECTION) != PLAIN_IDLE;
    hide HoldIdle, ShouldPublish, Publishable, Released, ReadsPlainIdle;
  }

  /** After a change of agent nothing is held. */
  lemma ChangedPublishDrops(s: State, d: Shown, exited: bool, t: Tick)
    ensures var (s', out) := PublishStage(s, d, true, exited, t.now);
            s'.idleSince.None?
  {
    hide HoldIdle, ShouldPublish, Publishable;
    HoldIdleFrame(s, Publishable(d), true, exited, t.now);
  }

  lemma SyncKeepsHold(s: State, sup: Option<Agent>, groupChanged: bool, t: Tick)
    ensures SameHold(s, SyncContent(s, sup, groupChanged, t))
  {
  }

  lemma ReadHolds(kind: LoopKind, s: State, sup: Option<Agent>, t: Tick, groupChanged: bool, changed: bool,
                  exited: bool)
    ensures var (s', out) := ReadStage(kind, s, sup, t, groupChanged, changed, exited);
            && s'.agent == s.agent
            && (changed ==> s'.idleSince.None?)
            && (!changed ==> HoldMoves(s, s', out, t))
  {
    var s1 := s.(lastScan := SeqOf(s, t));
    var s2 := SyncContent(s1, sup, groupChanged, t);
    assert SameHold(s, s1);
    SyncKeepsHold(s1, sup, groupChanged, t);
    DroppedMoves(s1, t);
    DroppedMoves(s2, t);
    var d := if exited then EXIT_DETECTION else if t.screen.Some? then t.screen.value else EXIT_DETECTION;
    if exited || t.screen.Some? {
      PublishKeepsAgent(s2, d, changed, exited, t.now);
      ChangedPublishDrops(s2, d, exited, t);
      PublishMoves(s2, d, exited, t);
    }
    hide SyncContent, PublishStage, SkipsContent, SeqOf, HoldMoves;
    var (s', out) := ReadStage(kind, s, sup, t, groupChanged, changed, exited);
    if !changed {
      if SkipsContent(kind, s1, t, exited) {
        SameHoldMoves(s, s1, s', out, t);
      } else {
        SameHoldMoves(s, s2, s', out, t);
      }
    }
  }

  lemma PublishKeepsAgent(s: State, d: Shown, changed: bool, exited: bool, now: nat)
    ensures PublishStage(s, d, changed, exited, now).0.agent == s.agent
  {
    hide HoldIdle, ShouldPublish, Publishable;
    HoldIdleFrame(s, Publishable(d), changed, exited, now);
  }

  lemma GatesHold(kind: LoopKind, s: State, t: Tick, changed: bool)
    ensures s.graceUntil.Some? ==> HoldMoves(s, GraceStage(kind, s, t.now), [], t)
    ensures s.graceUntil.Some? ==> GraceStage(kind, s, t.now).idleSince.None?
    ensures SkipsScan(s, t, changed) ==> HoldMoves(s, s, [], t) && s.idleSince.None?
  {
  }

  lemma ScreenHolds(kind: LoopKind, s: State, sup: Option<Agent>, t: Tick, groupChanged: bool, changed: bool)
    requires s.idleSince.None? || s.shown.state == Working
    ensures var (s', out) := ScreenStage(kind, s, sup, t, groupChanged, changed);
            && s'.agent == s.agent
            && (changed ==> s'.idleSince.None?)
            && (!changed ==> HoldMoves(s, s', out, t))
  {
    var ended := if s.graceUntil.Some? then EndGraceForExit(kind, s) else s;
    GatesHold(kind, s, t, changed);
    GatesHold(kind, ended, t, changed);
    DroppedMoves(s, t);
    ReadHolds(kind, ended, sup, t, groupChanged, changed, ExitDue(s));
    hide ReadStage;
    if ExitDue(s) && s.graceUntil.Some? {
      ReadAfterGrace(kind, s, ended, sup, t, groupChanged, changed);
    }
  }

  /** A due exit is shown as a visible idle, never as a plain one, and holds nothing. */
  lemma ReadAfterGrace(kind: LoopKind, s: State, ended: State, sup: Option<Agent>, t: Tick, groupChanged: bool,
                       changed: bool)
    requires ended == EndGraceForExit(kind, s)
    ensures var (s', out) := ReadStage(kind, ended, sup, t, groupChanged, changed, true);
            s'.idleSince.None? && (s.shown.state == Working ==> s'.shown != PLAIN_IDLE)
  {
    SyncKeepsHold(ended.(lastScan := SeqOf(ended, t)), sup, groupChanged, t);
    hide SyncContent, SeqOf;
  }

  lemma DecideChanges(s: State, found: Option<Agent>, isShell: bool)
    ensures var (s', changed) := Decide(s, found, isShell);
            && (changed <==> s'.agent != s.agent)
            && s'.shown == s.shown && s'.idleSince == s.idleSince && s'.idleConfirmations == s.idleConfirmations
  {
  }

  lemma RememberKeepsHold(kind: LoopKind, s: State, t: Tick, found: Option<Agent>, opens: bool)
    ensures SameHold(s, Remember(kind, s, t, found, opens))
  {
  }

  lemma ChangeDropsHold(s: State, now: nat)
    ensures var (s', out) := AgentChanged(s, now);
            s'.agent == s.agent && s'.idleSince.None?
  {
  }

  lemma ProbeHolds(kind: LoopKind, s: State, sup: Option<Agent>, t: Tick)
    ensures var (s', out, changed) := ProbeStage(kind, s, sup, t);
            && (changed <==> s'.agent != s.agent)
            && (changed ==> s'.idleSince.None?)
            && (!changed ==> out == [] && SameHold(s, s'))
  {
    var found := Effective(sup, t.probe);
    var s1 := Stamped(s, sup, t);
    hide Stamped, Effective, Decide, Remember, AgentChanged, GroupChanged;
    StampKeepsHold(s, sup, t);
    DecideChanges(s1, found, t.probe.isShell);
    var s2 := Decide(s1, found, t.probe.isShell).0;
    var opens := s.hasProbe && GroupChanged(s, t);
    RememberKeepsHold(kind, s2, t, found, opens);
    ChangeDropsHold(Remember(kind, s2, t, found, opens), t.now);
  }

  lemma StampKeepsHold(s: State, sup: Option<Agent>, t: Tick)
    ensures SameHold(s, Stamped(s, sup, t))
  {
  }

  lemma PrepareHolds(kind: LoopKind, s: State, t: Tick)
    ensures var s1 := Prepare(kind, s, t);
            && (!t.reset ==> SameHold(s, s1))
            && (t.reset ==> s1.idleSince.None? && s1.shown.state != Working)
  {
  }

  /** Something is held only over a shown working state. */
  predicate HoldsWorking(s: State) {
    s.idleSince.None? || s.shown.state == Working
  }

  lemma TickHolds(kind: LoopKind, s: State, t: Tick)
    requires HoldsWorking(s)
    ensures var (s', out) := StepTick(kind, s, t);
            && HoldsWorking(s')
            && (t.reset ==> s'.idleSince.None?)
            && (!t.reset ==> HoldMoves(s, s', out, t))
  {
    var s1 := Prepare(kind, s, t);
    var sup := Suppressed(s1, t.now);
    PrepareHolds(kind, s, t);
    ProbeHolds(kind, s1, sup, t);
    hide Prepare, Probes, ProbeStage, ScreenStage, Suppressed, Publishable;
    if Probes(s1, sup, t) {
      var (s2, out, changed) := ProbeStage(kind, s1, sup, t);
      ScreenHolds(kind, s2, sup, t, GroupChanged(s1, t), changed);
    } else {
      ScreenHolds(kind, s1, sup, t, GroupChanged(s1, t), false);
      var r := ScreenStage(kind, s1, sup, t, GroupChanged(s1, t), false);
      assert StepTick(kind, s, t) == r;
      assert HoldMoves(s1, r.0, r.1, t);
    }
  }

  // --- Whole runs ---

  /** Ticks in a row, up to here, that held back a plain idle. */
  function HeldTicks(kind: LoopKind, s: State, ticks: seq<Tick>, i: nat): nat
    requires i <= |ticks|
  {
    if StateAt(kind, s, ticks, i).idleSince.None? || i == 0 then 0
    else HeldTicks(kind, s, ticks, i - 1) + 1
  }

  /** Tick `m` published nothing and read a plain idle under a shown working state. */
  predicate QuietTick(kind: LoopKind, s: State, ticks: seq<Tick>, m: nat)
    requires m < |ticks|
  {
    && OutAt(kind, s, ticks, m) == [] && ReadsPlainIdle(ticks[m]) && !ticks[m].reset
    && StateAt(kind, s, ticks, m).shown.state == Working
  }

  ghost predicate Streak(kind: LoopKind, s: State, ticks: seq<Tick>, i: nat, n: nat)
    requires n <= i <= |ticks|
  {
    forall m :: i - n <= m < i ==> QuietTick(kind, s, ticks, m)
  }

  /** The hold on record is the streak of held ticks: its start, its length, its readings. */
  lemma {:induction false} HoldIsStreak(kind: LoopKind, restored: Option<Agent>, start: nat, ticks: seq<Tick>, i: nat)
    requires i <= |ticks|
    ensures var s := Initial(kind, restored, start);
            var n := HeldTicks(kind, s, ticks, i);
            var here := StateAt(kind, s, ticks, i);
            && HoldsWorking(here) && n <= i && n <= IDLE_CONFIRMATIONS
            && Streak(kind, s, ticks, i, n)
            && (here.idleSince.Some? ==>
                  n == here.idleConfirmations + 1 && here.idleSince == Some(ticks[i - n].now))
    decreases i
  {
    var s := Initial(kind, restored, start);
    InitialHoldsNothing(kind, restored, start);
    hide StepTick, Initial, ReadsPlainIdle;
    if i > 0 {
      HoldIsStreak(kind, restored, start, ticks, i - 1);
      TickHolds(kind, StateAt(kind, s, ticks, i - 1), ticks[i - 1]);
    }
  }

  lemma InitialHoldsNothing(kind: LoopKind, restored: Option<Agent>, start: nat)
    ensures Initial(kind, restored, start).idleSince.None?
  {
  }

  /** A tick that replaces a shown working state by a plain idle one, for the same agent. */
  predicate TurnsIdle(kind: LoopKind, s: State, ticks: seq<Tick>, i: nat)
    requires i < |ticks|
  {
    var before, after := StateAt(kind, s, ticks, i), StateAt(kind, s, ticks, i + 1);
    && !ticks[i].reset && after.agent == before.agent
    && before.shown.state == Working && after.shown == PLAIN_IDLE
  }

  /** On every run, working turns into plain idle only on a plain idle reading that follows
      an unbroken streak of silent plain idle readings, at most three of them: all three, or
      fewer over at least the cap. */
  lemma IdleIsConfirmed(kind: LoopKind, restored: Option<Agent>, start: nat, ticks: seq<Tick>, i: nat)
    requires i < |ticks|
    ensures var s := Initial(kind, restored, start);
            var n := HeldTicks(kind, s, ticks, i);
            TurnsIdle(kind, s, ticks, i) ==>
              && 1 <= n <= i && n <= IDLE_CONFIRMATIONS
              && Streak(kind, s, ticks, i, n) && ReadsPlainIdle(ticks[i])
              && (n == IDLE_CONFIRMATIONS || Since(ticks[i].now, ticks[i - n].now) >= IDLE_CAP)
  {
    var s := Initial(kind, restored, start);
    HoldIsStreak(kind, restored, start, ticks, i);
    TickHolds(kind, StateAt(kind, s, ticks, i), ticks[i]);
    hide StepTick, Initial, ReadsPlainIdle, Streak;
  }
}

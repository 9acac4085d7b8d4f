/** Concrete runs of the handoff loop. They show that what the run theorems speak about
    does happen. */
module DetectionExamples {
  import opened Wrappers
  import opened Detection
  import opened DetectionRuns
  import opened DetectionHold

  /** A tick whose probe, if it is made, answers `probe`, over an idle screen. */
  function ProbeTick(now: nat, probe: Probe): Tick {
    Tick(false, None, now, true, false, Some(1), probe, 0, false, false, Some(Shown(Idle, true, false, false)))
  }

  /** A tick before the child process is known, over a screen in the given state. */
  function ScreenTick(now: nat, state: AgentState): Tick {
    Tick(false, None, now, false, false, None, Probe(None, false, None), 0, false, false,
         Some(Shown(state, false, false, false)))
  }

  /** Agent 7 is found, its shell is back five seconds later, and one tick after the
      announcement the agent is gone. */
  lemma ExitExample()
    ensures var s := Initial(Handoff, None, 0);
            var ticks := [ProbeTick(1000, Probe(Some(1), false, Some(7))),
                          ProbeTick(6000, Probe(Some(1), true, None)),
                          ProbeTick(6300, Probe(Some(1), true, None))];
            && OutAt(Handoff, s, ticks, 0) == [Published(Some(7), Idle, false, false, false, 1000)]
            && OutAt(Handoff, s, ticks, 1) == [Published(Some(7), Idle, false, false, true, 6000)]
            && LosesAgent(Handoff, s, ticks, 2)
  {
    var s := Initial(Handoff, None, 0);
    var ticks := [ProbeTick(1000, Probe(Some(1), false, Some(7))),
                  ProbeTick(6000, Probe(Some(1), true, None)),
                  ProbeTick(6300, Probe(Some(1), true, None))];
    var s1, s2 := StepTick(Handoff, s, ticks[0]).0, StepTick(Handoff, StepTick(Handoff, s, ticks[0]).0, ticks[1]).0;
    FoundTick();
    ShellTick(s1, ticks[1]);
    assert s2.misses < MISS_CONFIRMATIONS by {
      InitialAgrees(Handoff, None, 0);
      StepKeepsAgreement(Handoff, s, ticks[0], History(0, None));
      StepKeepsAgreement(Handoff, s1, ticks[1], NextHistory(Handoff, s, ticks[0], History(0, None)));
      hide StepTick, NextHistory, Initial;
    }
    GoneTick(s2, ticks[2]);
    hide StepTick, Initial;
    StatesOf(Handoff, s, ticks);
  }

  lemma StatesOf(kind: LoopKind, s: State, ticks: seq<Tick>)
    requires |ticks| == 3
    ensures StateAt(kind, s, ticks, 0) == s
    ensures StateAt(kind, s, ticks, 1) == StepTick(kind, s, ticks[0]).0
    ensures StateAt(kind, s, ticks, 2) == StepTick(kind, StateAt(kind, s, ticks, 1), ticks[1]).0
    ensures StateAt(kind, s, ticks, 3) == StepTick(kind, StateAt(kind, s, ticks, 2), ticks[2]).0
  {
    hide StepTick;
  }

  lemma FoundTick()
    ensures var t := ProbeTick(1000, Probe(Some(1), false, Some(7)));
            var (s, out) := StepTick(Handoff, Initial(Handoff, None, 0), t);
            && out == [Published(Some(7), Idle, false, false, false, 1000)]
            && s.agent == Some(7) && s.lastCheck == 1000 && !s.exitReported && !s.pendingClear
            && s.release.None? && !s.releaseActive && s.acquisition.None? && s.hasProbe
  {
  }

  lemma ShellTick(s: State, t: Tick)
    requires t == ProbeTick(6000, Probe(Some(1), true, None))
    requires s.agent == Some(7) && s.lastCheck == 1000 && !s.exitReported && !s.pendingClear
    requires s.release.None? && !s.releaseActive && s.acquisition.None? && s.hasProbe
    ensures var (s', out) := StepTick(Handoff, s, t);
            && out == [Published(Some(7), Idle, false, false, true, 6000)]
            && s'.agent == Some(7) && s'.exitReported && s'.pendingClear
  {
    assert Probed(Handoff, s, t) && Identified(Handoff, s, t).None?;
    hide StepTick;
    ExitIsPublishedAtOnce(Handoff, s, t);
  }

  lemma GoneTick(s: State, t: Tick)
    requires t == ProbeTick(6300, Probe(Some(1), true, None))
    requires s.agent == Some(7) && s.exitReported && s.pendingClear && s.misses < MISS_CONFIRMATIONS
    ensures StepTick(Handoff, s, t).0.agent.None?
  {
    ReportedExitClearsNext(Handoff, s, t, History(s.misses, Some(7)));
    assert Identified(Handoff, s, t).None?;
    hide StepTick;
  }

  // --- Working to plain idle ---

  /** No agent and nothing else going on. */
  predicate Bare(s: State) {
    && s.agent.None? && s.release.None? && !s.releaseActive && s.graceUntil.None? && !s.pendingClear
    && s.acquisition.None? && s.lastPgid.None?
  }

  lemma NoAgent(s: State)
    requires Bare(s)
    ensures s.agent.None?
  {
  }

  lemma WorkingTick()
    ensures var s := StepTick(Handoff, Initial(Handoff, None, 0), ScreenTick(300, Working)).0;
            Bare(s) && s.shown.state == Working && s.idleSince.None?
  {
  }

  lemma IdleTick(s: State, now: nat)
    requires Bare(s) && s.shown.state == Working
    ensures var s' := StepTick(Handoff, s, ScreenTick(now, Idle)).0;
            && Bare(s')
            && (s.idleSince.None? ==>
                  s'.shown == s.shown && s'.idleSince == Some(now) && s'.idleConfirmations == 0)
            && (s.idleSince.Some? && Since(now, s.idleSince.value) < IDLE_CAP ==>
                  if s.idleConfirmations + 1 < IDLE_CONFIRMATIONS
                  then s'.shown == s.shown && s'.idleSince == s.idleSince
                       && s'.idleConfirmations == s.idleConfirmations + 1
                  else s'.shown == PLAIN_IDLE)
  {
    var t := ScreenTick(now, Idle);
    assert Prepare(Handoff, s, t) == s && Suppressed(s, now) == None && !GroupChanged(s, t);
    BareScreen(s, t);
    hide Prepare, ScreenStage, GroupChanged, Suppressed, HoldIdle;
    BareHold(s.(lastScan := None), now);
  }

  lemma BareScreen(s: State, t: Tick)
    requires Bare(s) && t.screen.Some? && !t.lifecycle && !t.contentChanged
    ensures ScreenStage(Handoff, s, None, t, false, false)
            == PublishStage(s.(lastScan := None), t.screen.value, false, false, t.now)
  {
    hide PublishStage;
  }

  lemma BareHold(s: State, now: nat)
    requires Bare(s) && s.shown.state == Working
    ensures var s' := PublishStage(s, Shown(Idle, false, false, false), false, false, now).0;
            && Bare(s')
            && (s.idleSince.None? ==>
                  s'.shown == s.shown && s'.idleSince == Some(now) && s'.idleConfirmations == 0)
            && (s.idleSince.Some? && Since(now, s.idleSince.value) < IDLE_CAP ==>
                  if s.idleConfirmations + 1 < IDLE_CONFIRMATIONS
                  then s'.shown == s.shown && s'.idleSince == s.idleSince
                       && s'.idleConfirmations == s.idleConfirmations + 1
                  else s'.shown == PLAIN_IDLE)
  {
  }

  /** Working is shown; of four plain idle readings within the cap the fourth is shown. */
  lemma HoldExample()
    ensures var s := Initial(Handoff, None, 0);
            var ticks := [ScreenTick(300, Working), ScreenTick(600, Idle), ScreenTick(700, Idle),
                          ScreenTick(800, Idle), ScreenTick(900, Idle)];
            TurnsIdle(Handoff, s, ticks, 4)
  {
    hide StepTick, Initial, Publishable, Bare;
    var s := Initial(Handoff, None, 0);
    var ticks := [ScreenTick(300, Working), ScreenTick(600, Idle), ScreenTick(700, Idle),
                  ScreenTick(800, Idle), ScreenTick(900, Idle)];
    WorkingTick();
    var s1 := StepTick(Handoff, s, ticks[0]).0;
    IdleTick(s1, 600);
    var s2 := StepTick(Handoff, s1, ticks[1]).0;
    IdleTick(s2, 700);
    var s3 := StepTick(Handoff, s2, ticks[2]).0;
    IdleTick(s3, 800);
    var s4 := StepTick(Handoff, s3, ticks[3]).0;
    IdleTick(s4, 900);
    NoAgent(s4);
    NoAgent(StepTick(Handoff, s4, ticks[4]).0);
    assert StateAt(Handoff, s, ticks, 0) == s;
    assert StateAt(Handoff, s, ticks, 1) == s1;
    assert StateAt(Handoff, s, ticks, 2) == s2;
    assert StateAt(Handoff, s, ticks, 3) == s3;
    assert StateAt(Handoff, s, ticks, 4) == s4;
  }
}

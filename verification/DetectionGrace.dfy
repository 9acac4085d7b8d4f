/** When the loop keeps quiet: ticks that do not read, the grace of a new agent, and how
    often a blocker is confirmed. */
module DetectionGrace {
  import opened Wrappers
  import opened Detection
  import opened DetectionRuns
  import opened DetectionPublish

  // --- Ticks that do not read the screen ---

  /** The agent is gone to the shell, and that was not published yet. */
  predicate ExitNow(kind: LoopKind, s: State, t: Tick) {
    var c := Decided(kind, s, t);
    c.pendingClear && c.agent.Some? && !c.exitReported
  }

  /** Another agent than before was recognised. */
  predicate NewAgent(kind: LoopKind, s: State, t: Tick) {
    AgentChanges(kind, s, t) && Decided(kind, s, t).agent.Some?
  }

  lemma ScreenIsSilent(kind: LoopKind, s: State, sup: Option<Agent>, t: Tick, groupChanged: bool, changed: bool)
    requires !ExitDue(s)
    requires t.screen.None? || t.lifecycle || s.graceUntil.Some? || SkipsScan(s, t, changed)
             || (s.agent.Some? && t.skipContent)
    ensures var (s', out) := ScreenStage(kind, s, sup, t, groupChanged, changed);
            out == [] && s'.shown == s.shown && s'.refresh == s.refresh
  {
    GatesShow(kind, s, t.now);
    hide GraceStage, ClearIdle, SkipsScan, ExitDue, ReadStage;
    if s.graceUntil.None? && (t.screen.None? || (s.agent.Some? && t.skipContent)) {
      ReadIsSilent(kind, s, sup, t, groupChanged, changed);
    }
  }

  lemma GatesShow(kind: LoopKind, s: State, now: nat)
    ensures ClearIdle(s).shown == s.shown && ClearIdle(s).refresh == s.refresh
    ensures s.graceUntil.Some? ==> GraceStage(kind, s, now).shown == s.shown
                                   && GraceStage(kind, s, now).refresh == s.refresh
    ensures EndGraceForExit(kind, s).shown == s.shown && EndGraceForExit(kind, s).refresh == s.refresh
  {
  }

  lemma ReadIsSilent(kind: LoopKind, s: State, sup: Option<Agent>, t: Tick, groupChanged: bool, changed: bool)
    requires t.screen.None? || (s.agent.Some? && t.skipContent)
    ensures var (s', out) := ReadStage(kind, s, sup, t, groupChanged, changed, false);
            out == [] && s'.shown == s.shown && s'.refresh == s.refresh
  {
    var s1 := s.(lastScan := SeqOf(s, t));
    SyncKeepsShown(s1, sup, groupChanged, t);
    hide SyncContent, PublishStage;
  }

  /** A tick that does not read the screen, with no exit to announce, shows what was shown
      before and publishes nothing but a new agent, as idle. */
  lemma UnreadTickIsSilent(kind: LoopKind, s: State, t: Tick)
    requires !ReadsScreen(kind, s, t) && !ExitNow(kind, s, t)
    ensures var (s', out) := StepTick(kind, s, t);
            && out == (if NewAgent(kind, s, t) then [Published(s'.agent, Idle, false, false, false, t.now)] else [])
            && s'.shown == (if NewAgent(kind, s, t) then Shown(Idle, true, false, false) else ShownBefore(s, t))
  {
    hide StepTick, AtScreen, ShownBefore, Prepare, ProbeStage, ScreenStage, Suppressed, GroupChanged, ReadsScreen;
    hide NewAgent;
    var s1 := Prepare(kind, s, t);
    var sup := Suppressed(s1, t.now);
    if NewAgent(kind, s, t) {
      NewAgentTick(kind, s, t);
    } else if Probed(kind, s, t) {
      OldAgent(kind, s, t);
      ProbedReachesScreen(kind, s, t);
      var (x, out, changed) := ProbeStage(kind, s1, sup, t);
      UnreadScreen(kind, s, t, x, sup, GroupChanged(s1, t), changed);
    } else {
      UnprobedReachesScreen(kind, s, t);
      UnreadScreen(kind, s, t, s1, sup, GroupChanged(s1, t), false);
    }
  }

  lemma OldAgent(kind: LoopKind, s: State, t: Tick)
    requires !NewAgent(kind, s, t)
    ensures AgentChanges(kind, s, t) ==> Decided(kind, s, t).agent.None?
  {
  }

  lemma UnreadScreen(kind: LoopKind, s: State, t: Tick, x: State, sup: Option<Agent>, groupChanged: bool, changed: bool)
    requires !ReadsScreen(kind, s, t) && !ExitNow(kind, s, t) && !NewAgent(kind, s, t)
    requires AtScreen(kind, s, t, x, changed)
    ensures var (s', out) := ScreenStage(kind, x, sup, t, groupChanged, changed);
            out == [] && s'.shown == ShownBefore(s, t)
  {
    assert !ExitDue(x);
    hide Decided, ScreenStage;
    ScreenIsSilent(kind, x, sup, t, groupChanged, changed);
  }

  // --- The grace of a new agent ---

  /** A new agent is announced as idle and has three seconds, whatever its screen says. */
  lemma NewAgentTick(kind: LoopKind, s: State, t: Tick)
    requires NewAgent(kind, s, t)
    ensures var (s', out) := StepTick(kind, s, t);
            && out == [Published(s'.agent, Idle, false, false, false, t.now)]
            && s'.shown == Shown(Idle, true, false, false)
            && s'.graceUntil == Some(t.now + 3000) && s'.lastScan.None? && s'.agent == Decided(kind, s, t).agent
  {
    hide Prepare, Probes, ProbeStage, ScreenStage, Suppressed, GroupChanged, Effective, DecideCore;
    var s1 := Prepare(kind, s, t);
    var sup := Suppressed(s1, t.now);
    PrepareEffect(kind, s, t);
    assert CoreOf(s1).agent == if t.reset then None else CoreOf(s).agent;
    CoreAtScreen(kind, s, t);
    var (x, out, changed) := ProbeStage(kind, s1, sup, t);
    assert x.agent == CoreOf(x).agent && x.agent.Some? && changed;
    AnnouncedState(kind, s1, sup, t);
    GraceHolds(kind, x, sup, t, GroupChanged(s1, t), changed);
    assert out + [] == out;
  }

  lemma AnnouncedState(kind: LoopKind, s: State, sup: Option<Agent>, t: Tick)
    ensures var (x, out, changed) := ProbeStage(kind, s, sup, t);
            changed && x.agent.Some? ==>
              && x.graceUntil == Some(t.now + 3000) && x.lastScan.None? && x.shown == Shown(Idle, true, false, false)
              && out == [Published(x.agent, Idle, false, false, false, t.now)] && !ExitDue(x)
  {
    var found := Effective(sup, t.probe);
    var s2 := Decide(Stamped(s, sup, t), found, t.probe.isShell).0;
    var opens := s.hasProbe && GroupChanged(s, t);
    DecidedNotExiting(Stamped(s, sup, t), found, t.probe.isShell);
    RememberKeepsExit(kind, s2, t, found, opens);
    hide Stamped, Effective, Decide, Remember, GroupChanged;
    var s3 := Remember(kind, s2, t, found, opens);
    AnnounceSets(s3, t.now);
    hide AgentChanged;
  }

  lemma AnnounceSets(s: State, now: nat)
    ensures var (x, out) := AgentChanged(s, now);
            && x.agent == s.agent && x.pendingClear == s.pendingClear
            && (s.agent.Some? ==>
                  && x.graceUntil == Some(now + 3000) && x.lastScan.None? && x.shown == Shown(Idle, true, false, false)
                  && out == [Published(x.agent, Idle, false, false, false, now)])
  {
  }

  lemma DecidedNotExiting(s: State, found: Option<Agent>, isShell: bool)
    ensures var (s', changed) := Decide(s, found, isShell); changed ==> !s'.pendingClear
  {
  }

  lemma RememberKeepsExit(kind: LoopKind, s: State, t: Tick, found: Option<Agent>, opens: bool)
    ensures Remember(kind, s, t, found, opens).pendingClear == s.pendingClear
    ensures Remember(kind, s, t, found, opens).agent == s.agent
  {
  }

  /** In front of its end the grace goes on, silently. */
  lemma GraceHolds(kind: LoopKind, s: State, sup: Option<Agent>, t: Tick, groupChanged: bool, changed: bool)
    requires s.graceUntil.Some? && !ExitDue(s)
    ensures var (s', out) := ScreenStage(kind, s, sup, t, groupChanged, changed);
            && out == [] && s'.shown == s.shown && s'.agent == s.agent
            && s'.graceUntil == (if !t.lifecycle && t.now >= s.graceUntil.value then None else s.graceUntil)
            && (s.lastScan.None? ==> s'.lastScan.None?)
  {
  }

  /** Nothing happens to the agent: no reset, no other agent, no exit to announce. */
  predicate Undisturbed(kind: LoopKind, s: State, t: Tick) {
    !t.reset && !AgentChanges(kind, s, t) && !ExitNow(kind, s, t)
  }

  /** A tick inside the grace: it ends at the first tick at or behind its time that is not
      left to a lifecycle integration. */
  lemma GraceTick(kind: LoopKind, s: State, t: Tick)
    requires s.graceUntil.Some? && Undisturbed(kind, s, t)
    ensures var (s', out) := StepTick(kind, s, t);
            && out == [] && s'.shown == s.shown
            && s'.graceUntil == (if !t.lifecycle && t.now >= s.graceUntil.value then None else s.graceUntil)
            && (s.lastScan.None? ==> s'.lastScan.None?)
  {
    hide Prepare, Probes, ProbeStage, ScreenStage, Suppressed, GroupChanged, DecideCore, Effective, AtScreen;
    var s1 := Prepare(kind, s, t);
    var sup := Suppressed(s1, t.now);
    if Probed(kind, s, t) {
      ProbedReachesScreen(kind, s, t);
      var (x, out, changed) := ProbeStage(kind, s1, sup, t);
      GraceFromScreen(kind, s, t, x, sup, GroupChanged(s1, t), changed);
    } else {
      UnprobedReachesScreen(kind, s, t);
      GraceFromScreen(kind, s, t, s1, sup, GroupChanged(s1, t), false);
    }
  }

  lemma GraceFromScreen(kind: LoopKind, s: State, t: Tick, x: State, sup: Option<Agent>, groupChanged: bool,
                        changed: bool)
    requires s.graceUntil.Some? && Undisturbed(kind, s, t) && AtScreen(kind, s, t, x, changed)
    ensures var (s', out) := ScreenStage(kind, x, sup, t, groupChanged, changed);
            && out == [] && s'.shown == s.shown
            && s'.graceUntil == (if !t.lifecycle && t.now >= s.graceUntil.value then None else s.graceUntil)
            && (s.lastScan.None? ==> s'.lastScan.None?)
  {
    assert !ExitDue(x);
    hide Decided, ScreenStage;
    GraceHolds(kind, x, sup, t, groupChanged, changed);
  }

  /** An announced exit ends the grace. */
  lemma ExitEndsGrace(kind: LoopKind, s: State, t: Tick)
    requires ExitNow(kind, s, t) && !AgentChanges(kind, s, t)
    ensures StepTick(kind, s, t).0.graceUntil.None?
  {
    hide Prepare, Probes, ProbeStage, ScreenStage, Suppressed, GroupChanged, DecideCore, Effective, AtScreen;
    var s1 := Prepare(kind, s, t);
    var sup := Suppressed(s1, t.now);
    if Probed(kind, s, t) {
      ProbedReachesScreen(kind, s, t);
      var (x, out, changed) := ProbeStage(kind, s1, sup, t);
      DueExitEndsGrace(kind, s, t, x, sup, GroupChanged(s1, t), changed);
    } else {
      UnprobedReachesScreen(kind, s, t);
      DueExitEndsGrace(kind, s, t, s1, sup, GroupChanged(s1, t), false);
    }
  }

  lemma DueExitEndsGrace(kind: LoopKind, s: State, t: Tick, x: State, sup: Option<Agent>, groupChanged: bool,
                         changed: bool)
    requires ExitNow(kind, s, t) && AtScreen(kind, s, t, x, changed)
    ensures ScreenStage(kind, x, sup, t, groupChanged, changed).0.graceUntil.None?
  {
    assert ExitDue(x);
    hide Decided;
    var x1 := if x.graceUntil.Some? then EndGraceForExit(kind, x) else x;
    assert x1.graceUntil.None?;
    hide EndGraceForExit, SkipsScan, ReadStage;
    ReadKeepsGrace(kind, x1, sup, t, groupChanged, changed, true);
  }

  lemma ReadKeepsGrace(kind: LoopKind, s: State, sup: Option<Agent>, t: Tick, groupChanged: bool, changed: bool,
                       exited: bool)
    ensures ReadStage(kind, s, sup, t, groupChanged, changed, exited).0.graceUntil == s.graceUntil
  {
    var s1 := s.(lastScan := SeqOf(s, t));
    var s2 := SyncContent(s1, sup, groupChanged, t);
    assert s2.graceUntil == s.graceUntil == ClearIdle(s1).graceUntil && ClearIdle(s2).graceUntil == s.graceUntil;
    hide SyncContent, PublishStage, SkipsContent, SeqOf, ClearIdle;
    PublishKeepsGrace(s2, EXIT_DETECTION, changed, true, t.now);
    if t.screen.Some? {
      PublishKeepsGrace(s2, t.screen.value, changed, false, t.now);
    }
  }

  lemma PublishKeepsGrace(s: State, d: Shown, changed: bool, exited: bool, now: nat)
    ensures PublishStage(s, d, changed, exited, now).0.graceUntil == s.graceUntil
  {
    hide HoldIdle, ShouldPublish, Publishable;
    HoldIdleFrame(s, Publishable(d), changed, exited, now);
  }

  /** Between `i` and `j` nothing happens to the agent that tick `i` recognised. */
  predicate GracePeriod(kind: LoopKind, s: State, ticks: seq<Tick>, i: nat, j: nat) {
    && i < j < |ticks| && NewAgent(kind, StateAt(kind, s, ticks, i), ticks[i])
    && forall m :: i < m < j ==> Undisturbed(kind, StateAt(kind, s, ticks, m), ticks[m])
  }

  /** A tick that ends the grace of tick `i`. */
  predicate EndsGrace(ticks: seq<Tick>, i: nat, m: nat)
    requires i < |ticks| && m < |ticks|
  {
    !ticks[m].lifecycle && ticks[m].now >= ticks[i].now + 3000
  }

  /** On runs: three seconds from its recognition the agent's screen is left alone. */
  lemma {:induction false} GraceLasts(kind: LoopKind, s: State, ticks: seq<Tick>, i: nat, j: nat)
    requires GracePeriod(kind, s, ticks, i, j) && forall m :: i < m < j ==> !EndsGrace(ticks, i, m)
    ensures var now := StateAt(kind, s, ticks, j);
            now.graceUntil == Some(ticks[i].now + 3000) && now.lastScan.None?
    ensures forall m :: i < m < j ==> OutAt(kind, s, ticks, m) == []
    decreases j
  {
    hide StepTick, NewAgent, Undisturbed;
    NewAgentTick(kind, StateAt(kind, s, ticks, i), ticks[i]);
    if j - 1 > i {
      GraceLasts(kind, s, ticks, i, j - 1);
      assert !EndsGrace(ticks, i, j - 1);
      GraceTick(kind, StateAt(kind, s, ticks, j - 1), ticks[j - 1]);
    }
  }

  /** And the tick behind the one that ends it reads the screen, even if the content did not
      change since the agent before was read. */
  lemma FirstReadAfterGrace(kind: LoopKind, s: State, ticks: seq<Tick>, i: nat, j: nat)
    requires i + 1 < j && GracePeriod(kind, s, ticks, i, j)
    requires (forall m :: i < m < j - 1 ==> !EndsGrace(ticks, i, m)) && EndsGrace(ticks, i, j - 1)
    requires var now, t := StateAt(kind, s, ticks, j), ticks[j];
             Undisturbed(kind, now, t) && t.screen.Some? && !t.lifecycle && !t.skipContent
    ensures ReadsScreen(kind, StateAt(kind, s, ticks, j), ticks[j])
  {
    hide StepTick, NewAgent, Undisturbed, ReadsScreen, EndsGrace, GracePeriod, OutAt;
    ShorterPeriod(kind, s, ticks, i, j);
    GraceLasts(kind, s, ticks, i, j - 1);
    LastGraceTick(kind, StateAt(kind, s, ticks, j - 1), ticks, i, j);
  }

  lemma ShorterPeriod(kind: LoopKind, s: State, ticks: seq<Tick>, i: nat, j: nat)
    requires GracePeriod(kind, s, ticks, i, j) && i + 1 < j
    ensures j < |ticks| && GracePeriod(kind, s, ticks, i, j - 1)
    ensures Undisturbed(kind, StateAt(kind, s, ticks, j - 1), ticks[j - 1])
  {
    hide StateAt, NewAgent, Undisturbed;
  }

  lemma LastGraceTick(kind: LoopKind, s: State, ticks: seq<Tick>, i: nat, j: nat)
    requires i < j < |ticks| && EndsGrace(ticks, i, j - 1)
    requires s.graceUntil == Some(ticks[i].now + 3000) && s.lastScan.None? && Undisturbed(kind, s, ticks[j - 1])
    requires var now, t := StepTick(kind, s, ticks[j - 1]).0, ticks[j];
             Undisturbed(kind, now, t) && t.screen.Some? && !t.lifecycle && !t.skipContent
    ensures ReadsScreen(kind, StepTick(kind, s, ticks[j - 1]).0, ticks[j])
  {
    hide StepTick, Undisturbed, ReadsScreen;
    GraceTick(kind, s, ticks[j - 1]);
    ReadsUnread(kind, StepTick(kind, s, ticks[j - 1]).0, ticks[j]);
  }

  lemma ReadsUnread(kind: LoopKind, s: State, t: Tick)
    requires s.graceUntil.None? && s.lastScan.None?
    requires Undisturbed(kind, s, t) && t.screen.Some? && !t.lifecycle && !t.skipContent
    ensures ReadsScreen(kind, s, t)
  {
    hide Decided;
  }

  // --- Confirming a blocker ---

  /** When the last event so far was published. */
  function ToldAt(kind: LoopKind, s: State, ticks: seq<Tick>, i: nat): Option<nat>
    requires i <= |ticks|
  {
    if i == 0 then None else LastTold(ToldAt(kind, s, ticks, i - 1), OutAt(kind, s, ticks, i - 1))
  }

  function LastTold(at: Option<nat>, out: seq<Published>): Option<nat> {
    if out == [] then at else Some(out[|out| - 1].observedAt)
  }

  /** A shown blocker was published when the refresh clock says. */
  predicate BlockerClock(s: State, at: Option<nat>) {
    s.shown.blocker ==> at.Some? && s.refresh == at
  }

  lemma PublishKeepsClock(s: State, d: Shown, changed: bool, exited: bool, now: nat, at: Option<nat>)
    requires BlockerClock(s, at)
    ensures var (s', out) := PublishStage(s, d, changed, exited, now); BlockerClock(s', LastTold(at, out))
  {
    hide HoldIdle, ShouldPublish, Publishable;
    HoldIdleFrame(s, Publishable(d), changed, exited, now);
  }

  lemma ReadKeepsClock(kind: LoopKind, s: State, sup: Option<Agent>, t: Tick, groupChanged: bool, changed: bool,
                       exited: bool, at: Option<nat>)
    requires BlockerClock(s, at)
    ensures var (s', out) := ReadStage(kind, s, sup, t, groupChanged, changed, exited);
            BlockerClock(s', LastTold(at, out))
  {
    var s1 := s.(lastScan := SeqOf(s, t));
    var s2 := SyncContent(s1, sup, groupChanged, t);
    SyncKeepsShown(s1, sup, groupChanged, t);
    assert BlockerClock(ClearIdle(s1), at) && BlockerClock(ClearIdle(s2), at) && BlockerClock(s2, at);
    hide SyncContent, PublishStage, SkipsContent, SeqOf, ClearIdle, BlockerClock;
    PublishKeepsClock(s2, EXIT_DETECTION, changed, true, t.now, at);
    if t.screen.Some? {
      PublishKeepsClock(s2, t.screen.value, changed, false, t.now, at);
    }
  }

  lemma ScreenKeepsClock(kind: LoopKind, s: State, sup: Option<Agent>, t: Tick, groupChanged: bool, changed: bool,
                         at: Option<nat>)
    requires BlockerClock(s, at)
    ensures var (s', out) := ScreenStage(kind, s, sup, t, groupChanged, changed); BlockerClock(s', LastTold(at, out))
  {
    var s1 := if s.graceUntil.Some? then EndGraceForExit(kind, s) else s;
    GatesShow(kind, s, t.now);
    assert BlockerClock(s1, at);
    hide ReadStage, ClearIdle, GraceStage, EndGraceForExit, SkipsScan, ExitDue;
    ReadKeepsClock(kind, s1, sup, t, groupChanged, changed, ExitDue(s), at);
  }

  lemma TickKeepsClock(kind: LoopKind, s: State, t: Tick, at: Option<nat>)
    requires BlockerClock(s, at)
    ensures var (s', out) := StepTick(kind, s, t); BlockerClock(s', LastTold(at, out))
  {
    hide Prepare, Probes, ProbeStage, ScreenStage, Suppressed, GroupChanged;
    var s1 := Prepare(kind, s, t);
    var sup := Suppressed(s1, t.now);
    PrepareKeepsShown(kind, s, t);
    if Probes(s1, sup, t) {
      ProbeKeepsShown(kind, s1, sup, t);
      var (s2, out, changed) := ProbeStage(kind, s1, sup, t);
      hide BlockerClock;
      ScreenKeepsClock(kind, s2, sup, t, GroupChanged(s1, t), changed, LastTold(at, out));
      ToldTogether(at, out, ScreenStage(kind, s2, sup, t, GroupChanged(s1, t), changed).1);
    } else {
      ScreenKeepsClock(kind, s1, sup, t, GroupChanged(s1, t), false, at);
    }
  }

  lemma ToldTogether(at: Option<nat>, a: seq<Published>, b: seq<Published>)
    ensures LastTold(at, a + b) == LastTold(LastTold(at, a), b)
  {
    assert b == [] ==> a + b == a;
    assert b != [] ==> (a + b)[|a + b| - 1] == b[|b| - 1];
  }

  lemma {:induction false} ClockOnRuns(kind: LoopKind, restored: Option<Agent>, start: nat, ticks: seq<Tick>, i: nat)
    requires i <= |ticks|
    ensures BlockerClock(StateAt(kind, Initial(kind, restored, start), ticks, i),
                         ToldAt(kind, Initial(kind, restored, start), ticks, i))
  {
    hide StepTick, BlockerClock, LastTold;
    var s := Initial(kind, restored, start);
    if i == 0 {
      assert BlockerClock(s, None) by { NothingShownYet(kind, restored, start); }
    } else {
      ClockOnRuns(kind, restored, start, ticks, i - 1);
      TickKeepsClock(kind, StateAt(kind, s, ticks, i - 1), ticks[i - 1], ToldAt(kind, s, ticks, i - 1));
    }
  }

  lemma NothingShownYet(kind: LoopKind, restored: Option<Agent>, start: nat)
    ensures BlockerClock(Initial(kind, restored, start), None)
  {
  }

  /** On every run a blocker that is still there is published again exactly if the last event
      is 800 milliseconds old or older. */
  lemma BlockerIsConfirmed(kind: LoopKind, restored: Option<Agent>, start: nat, ticks: seq<Tick>, i: nat)
    requires i < |ticks|
    requires var s := StateAt(kind, Initial(kind, restored, start), ticks, i);
             && ReadsScreen(kind, s, ticks[i]) && !AgentChanges(kind, s, ticks[i]) && !ticks[i].reset
             && s.shown.blocker && OwnFlags(ticks[i].screen.value) == s.shown
    ensures var s := Initial(kind, restored, start);
            && ToldAt(kind, s, ticks, i).Some?
            && (OutAt(kind, s, ticks, i) != [] <==> Since(ticks[i].now, ToldAt(kind, s, ticks, i).value) >= 800)
  {
    var first := Initial(kind, restored, start);
    var s := StateAt(kind, first, ticks, i);
    ClockOnRuns(kind, restored, start, ticks, i);
    ReadingIsPublished(kind, s, ticks[i]);
    hide StepTick, ReadsScreen, AgentChanges, StateAt, Since;
    assert !HeldBack(kind, s, ticks[i]);
  }
}

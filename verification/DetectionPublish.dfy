/** What the loop tells the world: every reading of the screen is published as soon as it
    differs from what was published before, and nothing else is. */
module DetectionPublish {
  import opened Wrappers
  import opened Detection
  import opened DetectionRuns

  // --- A tick that reads the screen ---

  /** What is shown when the tick begins. */
  function ShownBefore(s: State, t: Tick): Shown {
    if t.reset then Shown(Unknown, false, false, false) else s.shown
  }

  /** The agent is another one, or gone, or new. */
  predicate AgentChanges(kind: LoopKind, s: State, t: Tick) {
    Decided(kind, s, t).agent != if t.reset then None else s.agent
  }

  /** The tick gets as far as reading the screen, and the screen says something: no lifecycle
      integration reports instead, no agent is in its startup grace, no exit is due, and
      neither an unchanged idle screen nor the manifest has it skipped. */
  predicate ReadsScreen(kind: LoopKind, s: State, t: Tick) {
    var c := Decided(kind, s, t);
    && t.screen.Some? && !t.lifecycle
    && (c.agent.None? || (!t.skipContent && (!c.pendingClear || c.exitReported)))
    && (if AgentChanges(kind, s, t) then c.agent.None?
        else
          && (t.reset || s.graceUntil.None?)
          && (c.agent.Some? && s.shown.state == Idle && s.idleSince.None? ==> s.lastScan != Some(t.contentSeq)))
  }

  /** A reading with the flag of its own state and no other. */
  function OwnFlags(d: Shown): Shown {
    match d.state
    case Idle => Shown(Idle, d.idle, false, false)
    case Blocked => Shown(Blocked, false, d.blocker, false)
    case Working => Shown(Working, false, false, d.working)
    case Unknown => Shown(Unknown, false, false, false)
  }

  /** Idle without a visible idle marker, over a shown working state, is held back twice
      more after the first time, within 700 milliseconds. */
  predicate HeldBack(kind: LoopKind, s: State, t: Tick)
    requires t.screen.Some?
  {
    && !AgentChanges(kind, s, t) && !t.reset
    && s.shown.state == Working && t.screen.value.state == Idle && !t.screen.value.idle
    && (s.idleSince.Some? ==> Since(t.now, s.idleSince.value) < 700 && s.idleConfirmations + 1 < 3)
  }

  /** A blocker that was shown and still is gets published again after 800 milliseconds. */
  predicate BlockerIsDue(s: State, t: Tick)
    requires t.screen.Some?
  {
    && !t.reset && s.shown.blocker && OwnFlags(t.screen.value).blocker
    && (s.refresh.Some? ==> Since(t.now, s.refresh.value) >= 800)
  }

  // --- The screen stage ---

  lemma ScreenPublishes(kind: LoopKind, s: State, sup: Option<Agent>, t: Tick, groupChanged: bool, changed: bool)
    requires t.screen.Some? && !t.lifecycle && s.graceUntil.None? && !ExitDue(s)
    requires !SkipsScan(s, t, changed) && (s.agent.Some? ==> !t.skipContent)
    ensures var (s', out) := ScreenStage(kind, s, sup, t, groupChanged, changed);
            var next := OwnFlags(t.screen.value);
            var held := s.shown.state == Working && next.state == Idle && !next.idle && !changed
                        && (s.idleSince.Some? ==>
                              Since(t.now, s.idleSince.value) < 700 && s.idleConfirmations + 1 < 3);
            var due := next.blocker && s.shown.blocker && (s.refresh.Some? ==> Since(t.now, s.refresh.value) >= 800);
            && s'.shown == (if held then s.shown else next)
            && out == if !held && (next != s.shown || changed || due)
                      then [Published(s.agent, next.state, next.blocker, next.working, false, t.now)] else []
  {
    var s1 := s.(lastScan := SeqOf(s, t));
    var s2 := SyncContent(s1, sup, groupChanged, t);
    SyncKeepsShown(s1, sup, groupChanged, t);
    assert Publishable(t.screen.value) == OwnFlags(t.screen.value);
    hide SyncContent, SkipsScan, Publishable, OwnFlags, SeqOf, PublishStage;
    PublishSays(s2, t.screen.value, changed, t.now);
  }

  lemma SyncKeepsShown(s: State, sup: Option<Agent>, groupChanged: bool, t: Tick)
    ensures var s' := SyncContent(s, sup, groupChanged, t);
            && s'.shown == s.shown && s'.refresh == s.refresh && s'.agent == s.agent
            && s'.idleSince == s.idleSince && s'.idleConfirmations == s.idleConfirmations
  {
  }

  lemma PublishSays(s: State, d: Shown, changed: bool, now: nat)
    ensures var (s', out) := PublishStage(s, d, changed, false, now);
            var next := Publishable(d);
            var held := s.shown.state == Working && next.state == Idle && !next.idle && !changed
                        && (s.idleSince.Some? ==> Since(now, s.idleSince.value) < 700 && s.idleConfirmations + 1 < 3);
            var due := next.blocker && s.shown.blocker && (s.refresh.Some? ==> Since(now, s.refresh.value) >= 800);
            && s'.shown == (if held then s.shown else next)
            && out == if !held && (next != s.shown || changed || due)
                      then [Published(s.agent, next.state, next.blocker, next.working, false, now)] else []
  {
    var next := Publishable(d);
    assert next.state == Idle ==> !next.blocker;
    hide Publishable, Since;
    HoldIdleFrame(s, next, changed, false, now);
  }

  // --- The probe stage ---

  /** What a probe does to the parts that publishing looks at. */
  lemma ProbeKeepsShown(kind: LoopKind, s: State, sup: Option<Agent>, t: Tick)
    ensures var (s', out, changed) := ProbeStage(kind, s, sup, t);
            && (!changed ==> && out == [] && s'.shown == s.shown && s'.refresh == s.refresh
                             && s'.graceUntil == s.graceUntil && s'.lastScan == s.lastScan
                             && s'.idleSince == s.idleSince && s'.idleConfirmations == s.idleConfirmations)
            && (changed && s'.agent.None? ==> && out == [] && s'.shown == s.shown && s'.refresh == s.refresh
                                              && s'.graceUntil.None? && s'.idleSince.None?)
            && (changed && s'.agent.Some? ==> s'.graceUntil.Some? && t.now < s'.graceUntil.value
                                              && s'.shown == Shown(Idle, true, false, false)
                                              && out == [Published(s'.agent, Idle, false, false, false, t.now)])
  {
    var found := Effective(sup, t.probe);
    var s1 := Stamped(s, sup, t);
    var s2 := Decide(s1, found, t.probe.isShell).0;
    var opens := s.hasProbe && GroupChanged(s, t);
    StampKeepsShown(s, sup, t);
    DecideKeepsShown(s1, found, t.probe.isShell);
    RememberKeepsShown(kind, s2, t, found, opens);
    hide Stamped, Effective, Decide, Remember, GroupChanged, SameShown;
    ChangeAnnounces(Remember(kind, s2, t, found, opens), t.now);
    ShownIsSame(s, s1, s2, Remember(kind, s2, t, found, opens));
    hide AgentChanged;
  }

  predicate SameShown(s: State, s': State) {
    && s'.shown == s.shown && s'.refresh == s.refresh && s'.graceUntil == s.graceUntil && s'.lastScan == s.lastScan
    && s'.idleSince == s.idleSince && s'.idleConfirmations == s.idleConfirmations
  }

  lemma ShownIsSame(a: State, b: State, c: State, d: State)
    requires SameShown(a, b) && SameShown(b, c) && SameShown(c, d)
    ensures && d.shown == a.shown && d.refresh == a.refresh && d.graceUntil == a.graceUntil
            && d.lastScan == a.lastScan && d.idleSince == a.idleSince && d.idleConfirmations == a.idleConfirmations
  {
  }

  lemma StampKeepsShown(s: State, sup: Option<Agent>, t: Tick)
    ensures SameShown(s, Stamped(s, sup, t))
  {
  }

  lemma DecideKeepsShown(s: State, found: Option<Agent>, isShell: bool)
    ensures SameShown(s, Decide(s, found, isShell).0)
  {
  }

  lemma RememberKeepsShown(kind: LoopKind, s: State, t: Tick, found: Option<Agent>, opens: bool)
    ensures SameShown(s, Remember(kind, s, t, found, opens))
  {
  }

  lemma ChangeAnnounces(s: State, now: nat)
    ensures var (s', out) := AgentChanged(s, now);
            && s'.agent == s.agent && s'.idleSince.None?
            && (s.agent.None? ==> out == [] && s'.shown == s.shown && s'.refresh == s.refresh && s'.graceUntil.None?)
            && (s.agent.Some? ==> s'.graceUntil == Some(now + STARTUP_GRACE)
                                  && s'.shown == Shown(Idle, true, false, false)
                                  && out == [Published(s.agent, Idle, false, false, false, now)])
  {
  }

  lemma PrepareKeepsShown(kind: LoopKind, s: State, t: Tick)
    ensures var s1 := Prepare(kind, s, t);
            if t.reset then
              && s1.shown == Shown(Unknown, false, false, false) && s1.refresh.None? && s1.graceUntil.None?
              && s1.lastScan.None? && s1.idleSince.None? && s1.agent.None?
            else SameShown(s, s1) && s1.agent == s.agent
  {
  }

  // --- A tick ---

  /** What the screen stage of a reading tick starts from. */
  predicate AtScreen(kind: LoopKind, s: State, t: Tick, x: State, changed: bool) {
    && x.agent == Decided(kind, s, t).agent && (changed <==> AgentChanges(kind, s, t))
    && CoreOf(x) == Decided(kind, s, t)
    && x.shown == ShownBefore(s, t) && (t.reset ==> x.refresh.None? && x.graceUntil.None? && x.idleSince.None?)
    && (!t.reset ==> x.refresh == s.refresh)
    && (changed ==> x.graceUntil.None? && x.idleSince.None?)
    && (!changed && !t.reset ==> && x.graceUntil == s.graceUntil && x.lastScan == s.lastScan
                                 && x.idleSince == s.idleSince && x.idleConfirmations == s.idleConfirmations)
    && (!changed && t.reset ==> x.lastScan.None?)
  }

  lemma ProbedReachesScreen(kind: LoopKind, s: State, t: Tick)
    requires Probed(kind, s, t) && (AgentChanges(kind, s, t) ==> Decided(kind, s, t).agent.None?)
    ensures var s1 := Prepare(kind, s, t);
            var sup := Suppressed(s1, t.now);
            var (x, out, changed) := ProbeStage(kind, s1, sup, t);
            && AtScreen(kind, s, t, x, changed)
            && StepTick(kind, s, t) == ScreenStage(kind, x, sup, t, GroupChanged(s1, t), changed)
  {
    hide Prepare, Probes, ProbeStage, ScreenStage, Effective, GroupChanged, AtScreen, Decided, AgentChanges, Suppressed;
    var s1 := Prepare(kind, s, t);
    var sup := Suppressed(s1, t.now);
    var (x, out, changed) := ProbeStage(kind, s1, sup, t);
    CoreAtScreen(kind, s, t);
    PrepareKeepsShown(kind, s, t);
    ProbeKeepsShown(kind, s1, sup, t);
    ShownAtScreen(kind, s, t, s1, x, changed);
    var r := ScreenStage(kind, x, sup, t, GroupChanged(s1, t), changed);
    assert [] + r.1 == r.1;
  }

  /** The agent and the exit flags after the probe stage, and whether the agent changed. */
  lemma CoreAtScreen(kind: LoopKind, s: State, t: Tick)
    requires Probed(kind, s, t)
    ensures var s1 := Prepare(kind, s, t);
            var (x, out, changed) := ProbeStage(kind, s1, Suppressed(s1, t.now), t);
            CoreOf(x) == Decided(kind, s, t) && (changed <==> AgentChanges(kind, s, t))
  {
    hide Prepare, Probes, ProbeStage, DecideCore, Effective;
    var s1 := Prepare(kind, s, t);
    PrepareEffect(kind, s, t);
    ProbeStageEffect(kind, s1, Suppressed(s1, t.now), t);
    ChangeIsSeen(CoreOf(s1), Effective(Suppressed(s1, t.now), t.probe), t.probe.isShell);
    assert CoreOf(s1).agent == if t.reset then None else CoreOf(s).agent;
  }

  lemma ShownAtScreen(kind: LoopKind, s: State, t: Tick, s1: State, x: State, changed: bool)
    requires CoreOf(x) == Decided(kind, s, t) && (changed <==> AgentChanges(kind, s, t))
    requires if t.reset then
               && s1.shown == Shown(Unknown, false, false, false) && s1.refresh.None? && s1.graceUntil.None?
               && s1.lastScan.None? && s1.idleSince.None?
             else SameShown(s, s1)
    requires if changed then x.shown == s1.shown && x.refresh == s1.refresh && x.graceUntil.None? && x.idleSince.None?
             else SameShown(s1, x)
    ensures AtScreen(kind, s, t, x, changed)
  {
    hide Decided, AgentChanges;
    assert CoreOf(x).agent == x.agent;
  }

  lemma UnprobedReachesScreen(kind: LoopKind, s: State, t: Tick)
    requires !Probed(kind, s, t)
    ensures var s1 := Prepare(kind, s, t);
            && AtScreen(kind, s, t, s1, false)
            && StepTick(kind, s, t) == ScreenStage(kind, s1, Suppressed(s1, t.now), t, GroupChanged(s1, t), false)
  {
    PrepareEffect(kind, s, t);
    hide Prepare, Probes, ProbeStage, ScreenStage, GroupChanged;
    PrepareKeepsShown(kind, s, t);
  }

  lemma OwnState(d: Shown)
    ensures OwnFlags(d).state == d.state && (d.state == Idle ==> OwnFlags(d).idle == d.idle)
  {
  }

  /** From there the tick says what it should. */
  lemma ScreenSays(kind: LoopKind, s: State, t: Tick, x: State, sup: Option<Agent>, groupChanged: bool, changed: bool)
    requires ReadsScreen(kind, s, t) && AtScreen(kind, s, t, x, changed)
    ensures var (s', out) := ScreenStage(kind, x, sup, t, groupChanged, changed);
            var reading, before := OwnFlags(t.screen.value), ShownBefore(s, t);
            && s'.agent == x.agent
            && s'.shown == (if HeldBack(kind, s, t) then before else reading)
            && out == if !HeldBack(kind, s, t)
                         && (reading != before || AgentChanges(kind, s, t) || BlockerIsDue(s, t))
                      then [Published(s'.agent, reading.state, reading.blocker, reading.working, false, t.now)]
                      else []
  {
    OwnState(t.screen.value);
    hide OwnFlags, Since, Decided, ScreenStage;
    ScreenPublishes(kind, x, sup, t, groupChanged, changed);
    ScreenKeepsAgent(kind, x, sup, t, groupChanged, changed);
  }

  lemma ScreenKeepsAgent(kind: LoopKind, s: State, sup: Option<Agent>, t: Tick, groupChanged: bool, changed: bool)
    ensures ScreenStage(kind, s, sup, t, groupChanged, changed).0.agent == s.agent
  {
    ScreenStageEffect(kind, s, sup, t, groupChanged, changed);
    hide ScreenStage;
    var s' := ScreenStage(kind, s, sup, t, groupChanged, changed).0;
    assert CoreOf(s').agent == CoreOf(s).agent;
  }

  /** A tick that reads the screen shows the reading, unless it is held back, and publishes
      it, in one event, exactly if it is news: another reading than the one shown, another
      agent, or a blocker that has to be confirmed. */
  lemma ReadingIsPublished(kind: LoopKind, s: State, t: Tick)
    requires ReadsScreen(kind, s, t)
    ensures var (s', out) := StepTick(kind, s, t);
            var reading, before := OwnFlags(t.screen.value), ShownBefore(s, t);
            && s'.shown == (if HeldBack(kind, s, t) then before else reading)
            && out == if !HeldBack(kind, s, t)
                         && (reading != before || AgentChanges(kind, s, t) || BlockerIsDue(s, t))
                      then [Published(s'.agent, reading.state, reading.blocker, reading.working, false, t.now)]
                      else []
  {
    hide StepTick, ReadsScreen, AtScreen, HeldBack, BlockerIsDue, OwnFlags, ShownBefore, Prepare, ProbeStage;
    hide ScreenStage;
    var s1 := Prepare(kind, s, t);
    var sup := Suppressed(s1, t.now);
    if Probed(kind, s, t) {
      LostAtMost(kind, s, t);
      ProbedReachesScreen(kind, s, t);
      var (x, out, changed) := ProbeStage(kind, s1, sup, t);
      ScreenSays(kind, s, t, x, sup, GroupChanged(s1, t), changed);
    } else {
      UnprobedReachesScreen(kind, s, t);
      ScreenSays(kind, s, t, s1, sup, GroupChanged(s1, t), false);
    }
  }

  lemma LostAtMost(kind: LoopKind, s: State, t: Tick)
    requires ReadsScreen(kind, s, t)
    ensures AgentChanges(kind, s, t) ==> Decided(kind, s, t).agent.None?
  {
  }

  lemma ChangeIsSeen(c: Core, found: Option<Agent>, isShell: bool)
    ensures DecideCore(c, found, isShell).1 <==> DecideCore(c, found, isShell).0.agent != c.agent
  {
  }

  // --- Whole runs ---

  /** What an observer knows of a pane's state. */
  datatype Known = Known(state: AgentState, blocker: bool, working: bool)

  function KnownOf(d: Shown): Known {
    Known(d.state, d.blocker, d.working)
  }

  /** After the events of a tick. A reset leaves nothing known until the next event. */
  function Learn(known: Known, reset: bool, out: seq<Published>): Known {
    if out != [] then
      var last := out[|out| - 1];
      Known(last.state, last.blocker, last.working)
    else if reset then Known(Unknown, false, false)
    else known
  }

  function KnownAt(kind: LoopKind, s: State, ticks: seq<Tick>, i: nat): Known
    requires i <= |ticks|
  {
    if i == 0 then KnownOf(s.shown)
    else Learn(KnownAt(kind, s, ticks, i - 1), ticks[i - 1].reset, OutAt(kind, s, ticks, i - 1))
  }

  /** The stage shows what it publishes last, and if it publishes nothing it shows the same
      as before. */
  predicate Tells(s: State, s': State, out: seq<Published>) {
    KnownOf(s'.shown) == Learn(KnownOf(s.shown), false, out)
  }

  lemma PublishTells(s: State, d: Shown, changed: bool, exited: bool, now: nat)
    ensures var (s', out) := PublishStage(s, d, changed, exited, now); Tells(s, s', out)
  {
    hide HoldIdle, Publishable, ShouldPublish;
    HoldIdleFrame(s, Publishable(d), changed, exited, now);
  }

  lemma ReadTells(kind: LoopKind, s: State, sup: Option<Agent>, t: Tick, groupChanged: bool, changed: bool,
                  exited: bool)
    ensures var (s', out) := ReadStage(kind, s, sup, t, groupChanged, changed, exited); Tells(s, s', out)
  {
    var s1 := s.(lastScan := SeqOf(s, t));
    var s2 := SyncContent(s1, sup, groupChanged, t);
    SyncKeepsShown(s1, sup, groupChanged, t);
    hide SyncContent, PublishStage, SkipsContent, SeqOf;
    PublishTells(s2, EXIT_DETECTION, changed, true, t.now);
    if t.screen.Some? {
      PublishTells(s2, t.screen.value, changed, false, t.now);
    }
  }

  lemma ScreenTells(kind: LoopKind, s: State, sup: Option<Agent>, t: Tick, groupChanged: bool, changed: bool)
    ensures var (s', out) := ScreenStage(kind, s, sup, t, groupChanged, changed); Tells(s, s', out)
  {
    var s1 := if s.graceUntil.Some? then EndGraceForExit(kind, s) else s;
    assert s1.shown == s.shown && ClearIdle(s).shown == s.shown;
    assert s.graceUntil.Some? ==> GraceStage(kind, s, t.now).shown == s.shown;
    hide ReadStage, ClearIdle, GraceStage, EndGraceForExit, SkipsScan;
    ReadTells(kind, s1, sup, t, groupChanged, changed, ExitDue(s));
  }

  lemma TickTells(kind: LoopKind, s: State, t: Tick)
    ensures var (s', out) := StepTick(kind, s, t);
            KnownOf(s'.shown) == Learn(KnownOf(s.shown), t.reset, out)
  {
    hide Prepare, Probes, ProbeStage, ScreenStage, Suppressed, GroupChanged;
    var s1 := Prepare(kind, s, t);
    var sup := Suppressed(s1, t.now);
    PrepareKeepsShown(kind, s, t);
    if Probes(s1, sup, t) {
      ProbeKeepsShown(kind, s1, sup, t);
      var (s2, out, changed) := ProbeStage(kind, s1, sup, t);
      ScreenTells(kind, s2, sup, t, GroupChanged(s1, t), changed);
    } else {
      ScreenTells(kind, s1, sup, t, GroupChanged(s1, t), false);
    }
  }

  /** On every run, whoever follows the events knows what the loop shows. */
  lemma {:induction false} EventsTellAll(kind: LoopKind, s: State, ticks: seq<Tick>, i: nat)
    requires i <= |ticks|
    ensures KnownAt(kind, s, ticks, i) == KnownOf(StateAt(kind, s, ticks, i).shown)
  {
    hide StepTick, Learn;
    if i > 0 {
      EventsTellAll(kind, s, ticks, i - 1);
      TickTells(kind, StateAt(kind, s, ticks, i - 1), ticks[i - 1]);
    }
  }

  /** So on every run a reading that is not held back is known right after its tick. */
  lemma ReadingIsKnown(kind: LoopKind, s: State, ticks: seq<Tick>, i: nat)
    requires i < |ticks| && ReadsScreen(kind, StateAt(kind, s, ticks, i), ticks[i])
    requires !HeldBack(kind, StateAt(kind, s, ticks, i), ticks[i])
    ensures KnownAt(kind, s, ticks, i + 1) == KnownOf(OwnFlags(ticks[i].screen.value))
  {
    hide StepTick, ReadsScreen, HeldBack, Learn, OwnFlags;
    EventsTellAll(kind, s, ticks, i + 1);
    ReadingIsPublished(kind, StateAt(kind, s, ticks, i), ticks[i]);
  }
}

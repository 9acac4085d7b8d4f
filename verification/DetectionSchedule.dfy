/** When the loop looks at the process table, and what it remembers of that. */
module DetectionSchedule {
  import opened Wrappers
  import opened Detection
  import opened DetectionRuns

  // --- What a tick starts from ---

  /** The agent that is being released. */
  function Releasing(s: State, t: Tick): Option<Agent> {
    var r := if t.newRelease.Some? then t.newRelease else s.release;
    if r.Some? && t.now < r.value.until then Some(r.value.agent) else None
  }

  /** The tick before was the last one of a release. */
  predicate ReleaseOver(s: State, t: Tick) {
    !t.reset && s.releaseActive && Releasing(s, t).None?
  }

  /** The process table was looked at since the start, the last reset and the last release. */
  predicate Seen(s: State, t: Tick) {
    !t.reset && s.hasProbe && !ReleaseOver(s, t)
  }

  function Group(t: Tick): Option<Pgid> {
    if t.pidKnown then t.pgid else None
  }

  /** The foreground group is another one than remembered. */
  predicate OtherGroup(s: State, t: Tick) {
    Group(t) != if t.reset then None else s.lastPgid
  }

  function AgentBefore(s: State, t: Tick): Option<Agent> {
    if t.reset then None else s.agent
  }

  predicate ExitPending(s: State, t: Tick) {
    !t.reset && s.pendingClear
  }

  predicate Restores(s: State, t: Tick) {
    !t.reset && s.restoreProbe
  }

  /** When the clock was last set. A reset sets the clock of the handoff loop only. */
  function ClockBefore(kind: LoopKind, s: State, t: Tick): nat {
    if t.reset && kind == Handoff then t.now else s.lastCheck
  }

  /** When the open acquisition window was opened. */
  function WindowBefore(s: State, t: Tick): Option<nat> {
    if t.reset || ReleaseOver(s, t) then None else s.acquisition
  }

  /** When the screen last changed while no agent was known. */
  function ChangeBefore(s: State, t: Tick): Option<nat> {
    if t.reset || ReleaseOver(s, t) then None else s.lastChange
  }

  // --- When it looks ---

  /** An open window asks every half second at first, then every two, for eight in all. */
  predicate WindowAsks(kind: LoopKind, s: State, t: Tick) {
    var w := WindowBefore(s, t);
    && w.Some? && Since(t.now, w.value) <= 8000
    && Since(t.now, ClockBefore(kind, s, t)) >= if Since(t.now, w.value) <= 1500 then 500 else 2000
  }

  /** While a lifecycle integration reports, an unchanged group is not looked at again. */
  predicate LeftToLifecycle(s: State, t: Tick) {
    t.lifecycle && !ExitPending(s, t) && Releasing(s, t).None? && Seen(s, t) && !OtherGroup(s, t)
  }

  /** The reasons: an announced exit, a restored agent, another group, nothing seen yet, an
      open window, or time: five seconds with an agent, thirty with neither agent nor group. */
  predicate LookIsDue(kind: LoopKind, s: State, t: Tick) {
    || ExitPending(s, t) || Restores(s, t) || OtherGroup(s, t)
    || (!Seen(s, t) && (AgentBefore(s, t).None? || Releasing(s, t).Some?))
    || (Releasing(s, t).None?
        && (|| WindowAsks(kind, s, t)
            || (AgentBefore(s, t).Some? && Since(t.now, ClockBefore(kind, s, t)) >= 5000)
            || (AgentBefore(s, t).None? && Group(t).None? && Since(t.now, ClockBefore(kind, s, t)) >= 30000)))
  }

  lemma Prepared(kind: LoopKind, s: State, t: Tick)
    ensures var s1 := Prepare(kind, s, t);
            && Suppressed(s1, t.now) == Releasing(s, t) && s1.hasProbe == Seen(s, t)
            && (GroupChanged(s1, t) <==> OtherGroup(s, t)) && s1.agent == AgentBefore(s, t)
            && s1.pendingClear == ExitPending(s, t) && s1.restoreProbe == Restores(s, t)
            && s1.lastCheck == ClockBefore(kind, s, t) && s1.lastPgid == (if t.reset then None else s.lastPgid)
            && s1.acquisition == WindowBefore(s, t) && s1.lastChange == ChangeBefore(s, t)
            && s1.releaseActive == Releasing(s, t).Some?
            && s1.graceUntil == (if t.reset then None else s.graceUntil)
  {
  }

  /** The loop looks at the process table exactly when it knows the shell's pid, there is a
      reason, and the matter is not left to a lifecycle integration. */
  lemma LooksIff(kind: LoopKind, s: State, t: Tick)
    ensures Probed(kind, s, t) <==> t.pidKnown && !LeftToLifecycle(s, t) && LookIsDue(kind, s, t)
  {
    Prepared(kind, s, t);
    hide Prepare, Suppressed, GroupChanged, Releasing, Seen, OtherGroup, AgentBefore, ExitPending, Restores;
    hide ClockBefore, WindowBefore;
  }

  // --- What it remembers ---

  predicate SameProbing(s: State, s': State) {
    && s'.hasProbe == s.hasProbe && s'.lastCheck == s.lastCheck && s'.lastPgid == s.lastPgid
    && s'.restoreProbe == s.restoreProbe && s'.releaseActive == s.releaseActive
  }

  lemma PublishKeepsProbing(s: State, d: Shown, changed: bool, exited: bool, now: nat)
    ensures var s' := PublishStage(s, d, changed, exited, now).0;
            SameProbing(s, s') && s'.acquisition == s.acquisition && s'.lastChange == s.lastChange
  {
    hide HoldIdle, ShouldPublish, Publishable;
    HoldIdleFrame(s, Publishable(d), changed, exited, now);
  }

  lemma ReadKeepsProbing(kind: LoopKind, s: State, sup: Option<Agent>, t: Tick, groupChanged: bool, changed: bool,
                         exited: bool)
    ensures var s' := ReadStage(kind, s, sup, t, groupChanged, changed, exited).0;
            var s1 := s.(lastScan := SeqOf(s, t));
            var synced := if SkipsContent(kind, s1, t, exited) then s1 else SyncContent(s1, sup, groupChanged, t);
            SameProbing(s, s') && s'.acquisition == synced.acquisition && s'.lastChange == synced.lastChange
  {
    var s1 := s.(lastScan := SeqOf(s, t));
    var s2 := SyncContent(s1, sup, groupChanged, t);
    assert SameProbing(s, s1) && SameProbing(s1, ClearIdle(s1));
    SyncKeepsProbing(s1, sup, groupChanged, t);
    assert SameProbing(s2, ClearIdle(s2));
    hide PublishStage, SkipsContent, SeqOf, SyncContent, ClearIdle, SameProbing;
    PublishKeepsProbing(s2, EXIT_DETECTION, changed, true, t.now);
    if t.screen.Some? {
      PublishKeepsProbing(s2, t.screen.value, changed, false, t.now);
    }
    var s' := ReadStage(kind, s, sup, t, groupChanged, changed, exited).0;
    SameTwice(s, s1, ClearIdle(s1));
    SameTwice(s, s1, s2);
    SameTwice(s, s2, s');
    ClearKeepsWindow(s1);
    ClearKeepsWindow(s2);
  }

  lemma SameTwice(a: State, b: State, c: State)
    ensures SameProbing(a, b) && SameProbing(b, c) ==> SameProbing(a, c)
  {
  }

  lemma ClearKeepsWindow(s: State)
    ensures ClearIdle(s).acquisition == s.acquisition && ClearIdle(s).lastChange == s.lastChange
  {
  }

  lemma SyncKeepsProbing(s: State, sup: Option<Agent>, groupChanged: bool, t: Tick)
    ensures SameProbing(s, SyncContent(s, sup, groupChanged, t))
  {
  }

  /** The gates in front of reading keep all of it, and so does reading, but for the window. */
  lemma ScreenKeepsProbing(kind: LoopKind, s: State, sup: Option<Agent>, t: Tick, groupChanged: bool, changed: bool)
    ensures SameProbing(s, ScreenStage(kind, s, sup, t, groupChanged, changed).0)
  {
    var s1 := if s.graceUntil.Some? then EndGraceForExit(kind, s) else s;
    assert SameProbing(s, s1) && SameProbing(s, ClearIdle(s));
    assert s.graceUntil.Some? ==> SameProbing(s, GraceStage(kind, s, t.now));
    hide ReadStage, ClearIdle, GraceStage, EndGraceForExit, SkipsScan;
    ReadKeepsProbing(kind, s1, sup, t, groupChanged, changed, ExitDue(s));
  }

  /** The remembered group, after a probe. The spawned loop takes the group of an identified
      agent from the probe alone. */
  function GroupSeen(kind: LoopKind, t: Tick, found: Option<Agent>): Option<Pgid> {
    if (kind == Spawned && found.Some?) || t.probe.pgid.Some? then t.probe.pgid else Group(t)
  }

  lemma DecideKeepsProbing(s: State, found: Option<Agent>, isShell: bool)
    ensures var s' := Decide(s, found, isShell).0;
            SameProbing(s, s') && s'.acquisition == s.acquisition && s'.lastChange == s.lastChange
            && s'.graceUntil == s.graceUntil
  {
  }

  lemma ChangeKeepsProbing(s: State, now: nat)
    ensures var s' := AgentChanged(s, now).0;
            && SameProbing(s, s') && s'.acquisition == s.acquisition && s'.lastChange == s.lastChange
            && s'.agent == s.agent
  {
  }

  lemma RememberSets(kind: LoopKind, s: State, t: Tick, found: Option<Agent>, opens: bool)
    requires t.pidKnown
    ensures var s' := Remember(kind, s, t, found, opens);
            && s'.agent == s.agent && s'.hasProbe == s.hasProbe && s'.lastCheck == s.lastCheck
            && s'.releaseActive == s.releaseActive && s'.lastPgid == GroupSeen(kind, t, found)
            && (s'.restoreProbe <==> s.restoreProbe && found.None? && s.agent.Some?)
            && s'.graceUntil == s.graceUntil
            && s'.acquisition == (if found.Some? then None
                                  else if s.agent.None? && opens then Some(t.now) else s.acquisition)
            && s'.lastChange == (if found.Some? then None else s.lastChange)
  {
  }

  lemma StampSets(s: State, sup: Option<Agent>, t: Tick)
    ensures var s' := Stamped(s, sup, t);
            && s'.hasProbe && s'.lastCheck == t.now && s'.releaseActive == s.releaseActive
            && s'.restoreProbe == s.restoreProbe && s'.acquisition == s.acquisition && s'.lastChange == s.lastChange
            && s'.graceUntil == s.graceUntil
  {
  }

  /** A probe sets the clock, the group and the window, and ends restoring. */
  lemma ProbeRemembers(kind: LoopKind, s: State, sup: Option<Agent>, t: Tick)
    requires t.pidKnown
    ensures var s' := ProbeStage(kind, s, sup, t).0;
            var found := Effective(sup, t.probe);
            && s'.hasProbe && s'.lastCheck == t.now && s'.releaseActive == s.releaseActive
            && s'.lastPgid == GroupSeen(kind, t, found)
            && (s'.restoreProbe <==> s.restoreProbe && found.None? && s'.agent.Some?)
            && s'.acquisition == (if found.Some? then None
                                  else if s'.agent.None? && s.hasProbe && GroupChanged(s, t) then Some(t.now)
                                  else s.acquisition)
            && s'.lastChange == (if found.Some? then None else s.lastChange)
  {
    hide Decide, Effective, GroupChanged, Stamped, Remember, AgentChanged, GroupSeen;
    var found := Effective(sup, t.probe);
    var s1 := Stamped(s, sup, t);
    StampSets(s, sup, t);
    DecideKeepsProbing(s1, found, t.probe.isShell);
    var s2 := Decide(s1, found, t.probe.isShell).0;
    var opens := s.hasProbe && GroupChanged(s, t);
    RememberSets(kind, s2, t, found, opens);
    ChangeKeepsProbing(Remember(kind, s2, t, found, opens), t.now);
  }

  /** What a tick leaves behind for the next look. */
  lemma TickRemembers(kind: LoopKind, s: State, t: Tick)
    ensures var s' := StepTick(kind, s, t).0;
            var looked, found := Probed(kind, s, t), Identified(kind, s, t);
            && (s'.hasProbe <==> looked || Seen(s, t))
            && s'.lastCheck == (if looked then t.now else ClockBefore(kind, s, t))
            && s'.lastPgid == (if looked then GroupSeen(kind, t, found) else if t.reset then None else s.lastPgid)
            && (s'.restoreProbe <==> Restores(s, t) && !(looked && (found.Some? || Decided(kind, s, t).agent.None?)))
            && (s'.releaseActive <==> Releasing(s, t).Some?)
  {
    Prepared(kind, s, t);
    hide ProbeStage, ScreenStage, Prepare, Effective, GroupSeen, GroupChanged, Releasing, Seen, OtherGroup, Restores;
    hide DecideCore, ShouldProbe, SkipForLifecycle;
    var s1 := Prepare(kind, s, t);
    var sup := Suppressed(s1, t.now);
    if Probes(s1, sup, t) {
      ProbeRemembers(kind, s1, sup, t);
      ProbeStageEffect(kind, s1, sup, t);
      var (s2, out, changed) := ProbeStage(kind, s1, sup, t);
      assert s2.agent == CoreOf(s2).agent;
      ScreenKeepsProbing(kind, s2, sup, t, GroupChanged(s1, t), changed);
    } else {
      ScreenKeepsProbing(kind, s1, sup, t, GroupChanged(s1, t), false);
    }
  }

  // --- Acquisition windows ---

  /** The tick watches the screen for changes: no agent, no release, no lifecycle
      integration, the group as it was. */
  predicate Watches(kind: LoopKind, s: State, t: Tick) {
    && Decided(kind, s, t).agent.None? && Releasing(s, t).None? && !OtherGroup(s, t) && !t.lifecycle
    && (t.reset || s.graceUntil.None? || s.agent.Some?)
  }

  /** The window after the look: identifying an agent closes it, another group without an
      agent opens a new one. */
  function WindowLooked(kind: LoopKind, s: State, t: Tick): Option<nat> {
    if Identified(kind, s, t).Some? then None
    else if Probed(kind, s, t) && Decided(kind, s, t).agent.None? && Seen(s, t) && OtherGroup(s, t) then Some(t.now)
    else WindowBefore(s, t)
  }

  function ChangeLooked(kind: LoopKind, s: State, t: Tick): Option<nat> {
    if Identified(kind, s, t).Some? then None else ChangeBefore(s, t)
  }

  /** The window is over: eight seconds old, and the screen has been still for two. */
  predicate IsOver(window: Option<nat>, change: Option<nat>, now: nat) {
    && window.Some? && Since(now, window.value) > 8000
    && (change.None? || Since(now, change.value) >= 2000)
  }

  /** The window after the tick: a change opens one where there is none or the last is over;
      where nothing changes one that is over is closed, if the screen ever changed in it. */
  function WindowAfter(kind: LoopKind, s: State, t: Tick): Option<nat> {
    var w, c := WindowLooked(kind, s, t), ChangeLooked(kind, s, t);
    if !Watches(kind, s, t) then w
    else if t.contentChanged then if w.None? || IsOver(w, c, t.now) then Some(t.now) else w
    else if c.Some? && IsOver(w, c, t.now) then None
    else w
  }

  function ChangeAfter(kind: LoopKind, s: State, t: Tick): Option<nat> {
    var w, c := WindowLooked(kind, s, t), ChangeLooked(kind, s, t);
    if !Watches(kind, s, t) then c
    else if t.contentChanged then Some(t.now)
    else if c.Some? && IsOver(w, c, t.now) then None
    else c
  }

  lemma GatesKeepWindow(kind: LoopKind, s: State, now: nat)
    ensures ClearIdle(s).acquisition == s.acquisition && ClearIdle(s).lastChange == s.lastChange
    ensures s.graceUntil.Some? ==> GraceStage(kind, s, now).acquisition == s.acquisition
                                   && GraceStage(kind, s, now).lastChange == s.lastChange
    ensures var s1 := EndGraceForExit(kind, s);
            s1.acquisition == s.acquisition && s1.lastChange == s.lastChange && s1.agent == s.agent
  {
  }

  lemma NothingSkippedWithoutAgent(kind: LoopKind, s: State, t: Tick, changed: bool, exited: bool)
    ensures s.agent.None? ==> !SkipsScan(s, t, changed) && !SkipsContent(kind, s, t, exited) && !ExitDue(s)
  {
  }

  /** Without an agent, reading the screen is only up to lifecycle and grace. */
  lemma ScreenSyncs(kind: LoopKind, s: State, sup: Option<Agent>, t: Tick, groupChanged: bool, changed: bool)
    ensures var s' := ScreenStage(kind, s, sup, t, groupChanged, changed).0;
            var watches := s.agent.None? && sup.None? && !groupChanged && !t.lifecycle && s.graceUntil.None?;
            var w, c := s.acquisition, s.lastChange;
            && s'.acquisition == (if !watches then w
                                  else if t.contentChanged then
                                    if w.None? || IsOver(w, c, t.now) then Some(t.now) else w
                                  else if c.Some? && IsOver(w, c, t.now) then None else w)
            && s'.lastChange == (if !watches then c else if t.contentChanged then Some(t.now)
                                 else if c.Some? && IsOver(w, c, t.now) then None else c)
  {
    hide ReadStage, ClearIdle, GraceStage, EndGraceForExit, SkipsScan, SkipsContent, SyncContent, SeqOf, IsOver;
    hide ExitDue;
    var s1 := if s.graceUntil.Some? then EndGraceForExit(kind, s) else s;
    var s2 := s1.(lastScan := SeqOf(s1, t));
    GatesKeepWindow(kind, s, t.now);
    NothingSkippedWithoutAgent(kind, s, t, changed, ExitDue(s));
    NothingSkippedWithoutAgent(kind, s2, t, changed, ExitDue(s));
    SyncMovesWindow(s2, sup, groupChanged, t);
    ReadKeepsProbing(kind, s1, sup, t, groupChanged, changed, ExitDue(s));
    hide SameProbing;
  }

  lemma SyncMovesWindow(s: State, sup: Option<Agent>, groupChanged: bool, t: Tick)
    ensures var s' := SyncContent(s, sup, groupChanged, t);
            var watches := s.agent.None? && sup.None? && !groupChanged;
            var w, c := s.acquisition, s.lastChange;
            && s'.acquisition == (if !watches then w
                                  else if t.contentChanged then
                                    if w.None? || IsOver(w, c, t.now) then Some(t.now) else w
                                  else if c.Some? && IsOver(w, c, t.now) then None else w)
            && s'.lastChange == (if !watches then c else if t.contentChanged then Some(t.now)
                                 else if c.Some? && IsOver(w, c, t.now) then None else c)
  {
  }

  lemma ProbeEndsGrace(kind: LoopKind, s: State, sup: Option<Agent>, t: Tick)
    requires t.pidKnown
    ensures var (s', out, changed) := ProbeStage(kind, s, sup, t);
            s'.agent.None? ==> (s'.graceUntil.None? <==> s.graceUntil.None? || s.agent.Some?)
  {
    hide Decide, Effective, GroupChanged, Stamped, Remember, AgentChanged, GroupSeen;
    var found := Effective(sup, t.probe);
    var s1 := Stamped(s, sup, t);
    StampSets(s, sup, t);
    assert s1.agent == s.agent by { StampKeepsAgent(s, sup, t); }
    DecideKeepsProbing(s1, found, t.probe.isShell);
    DecideTellsChange(s1, found, t.probe.isShell);
    var s2 := Decide(s1, found, t.probe.isShell).0;
    var opens := s.hasProbe && GroupChanged(s, t);
    RememberSets(kind, s2, t, found, opens);
    ChangeEndsGrace(Remember(kind, s2, t, found, opens), t.now);
  }

  lemma StampKeepsAgent(s: State, sup: Option<Agent>, t: Tick)
    ensures Stamped(s, sup, t).agent == s.agent
  {
  }

  lemma DecideTellsChange(s: State, found: Option<Agent>, isShell: bool)
    ensures var (s', changed) := Decide(s, found, isShell); changed <==> s'.agent != s.agent
  {
  }

  lemma ChangeEndsGrace(s: State, now: nat)
    ensures var s' := AgentChanged(s, now).0;
            s'.agent == s.agent && (s.agent.None? ==> s'.graceUntil.None?)
  {
  }

  /** Where the window is after a tick, and when the screen last changed. */
  lemma TickMovesWindow(kind: LoopKind, s: State, t: Tick)
    ensures var s' := StepTick(kind, s, t).0;
            s'.acquisition == WindowAfter(kind, s, t) && s'.lastChange == ChangeAfter(kind, s, t)
  {
    Prepared(kind, s, t);
    hide ProbeStage, ScreenStage, Prepare, Effective, GroupSeen, GroupChanged, Releasing, Seen, OtherGroup, IsOver;
    hide DecideCore, ShouldProbe, SkipForLifecycle, WindowBefore, ChangeBefore;
    var s1 := Prepare(kind, s, t);
    var sup := Suppressed(s1, t.now);
    if Probes(s1, sup, t) {
      ProbeRemembers(kind, s1, sup, t);
      ProbeStageEffect(kind, s1, sup, t);
      ProbeEndsGrace(kind, s1, sup, t);
      var (s2, out, changed) := ProbeStage(kind, s1, sup, t);
      assert s2.agent == CoreOf(s2).agent;
      ScreenSyncs(kind, s2, sup, t, GroupChanged(s1, t), changed);
    } else {
      assert s1.agent == CoreOf(s1).agent;
      ScreenSyncs(kind, s1, sup, t, GroupChanged(s1, t), false);
    }
  }
}

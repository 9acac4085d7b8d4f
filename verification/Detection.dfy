/** The agent-detection loop of `pane.rs`, one tick at a time. Instants are milliseconds.
    `Handoff` is `spawn_basic_detection_task`; `Spawned` is the loop inside pane creation. */
module Detection {
  import opened Wrappers

  type Agent = int
  type Pgid = int

  datatype LoopKind = Handoff | Spawned

  datatype AgentState = Idle | Working | Blocked | Unknown

  const MISS_CONFIRMATIONS: nat := 6
  const RECHECK_IDENTIFIED: nat := 5000
  const RECHECK_MISSING_GROUP: nat := 30000
  const ACQUISITION_WINDOW: nat := 8000
  const FAST_WINDOW: nat := 1500
  const FAST_RECHECK: nat := 500
  const SLOW_RECHECK: nat := 2000
  const IDLE_RESET: nat := 2000
  const STARTUP_GRACE: nat := 3000
  const IDLE_CONFIRMATIONS: nat := 3
  const IDLE_CAP: nat := 700
  const SIGNAL_REFRESH: nat := 800

  /** What was last published, or is about to be. */
  datatype Shown = Shown(state: AgentState, idle: bool, blocker: bool, working: bool)

  datatype PendingRelease = PendingRelease(agent: Agent, until: nat)

  datatype State = State(
    agent: Option<Agent>,
    misses: nat,
    shown: Shown,
    refresh: Option<nat>,
    lastCheck: nat,
    lastPgid: Option<Pgid>,
    hasProbe: bool,
    acquisition: Option<nat>,
    lastChange: Option<nat>,
    pendingClear: bool,
    exitReported: bool,
    releaseActive: bool,
    restoreProbe: bool,
    lastScan: Option<nat>,
    graceUntil: Option<nat>,
    idleSince: Option<nat>,
    idleConfirmations: nat,
    release: Option<PendingRelease>)

  /** The answer of a process probe. */
  datatype Probe = Probe(pgid: Option<Pgid>, isShell: bool, agent: Option<Agent>)

  /** Everything the environment decides in one turn of the loop. `screen` is `None` where
      the manifest asks to skip the state update. */
  datatype Tick = Tick(
    reset: bool,
    newRelease: Option<PendingRelease>,
    now: nat,
    pidKnown: bool,
    lifecycle: bool,
    pgid: Option<Pgid>,
    probe: Probe,
    contentSeq: nat,
    contentChanged: bool,
    skipContent: bool,
    screen: Option<Shown>)

  /** A `StateChanged` event. */
  datatype Published = Published(agent: Option<Agent>, state: AgentState, blocker: bool, working: bool, exited: bool,
                                 observedAt: nat)

  function Since(now: nat, earlier: nat): nat {
    if now > earlier then now - earlier else 0
  }

  // --- AgentDetectionPresence ---

  /** `clear_current_agent`: the new presence and whether it changed. */
  function ClearAgent(s: State): (State, bool) {
    (s.(agent := None, misses := 0), s.agent.Some?)
  }

  /** `observe_process_probe`. */
  function ObserveProbe(s: State, found: Option<Agent>): (State, bool) {
    if found.Some? then (s.(agent := found, misses := 0), found != s.agent)
    else if s.agent.None? then (s.(misses := 0), false)
    else if s.misses + 1 < MISS_CONFIRMATIONS then (s.(misses := s.misses + 1), false)
    else (s.(agent := None, misses := 0), true)
  }

  datatype Action = Observe | ReportExit | Clear

  /** `foreground_shell_agent_action`. */
  function ShellAction(previous: Option<Agent>, found: Option<Agent>, isShell: bool, reported: bool): Action {
    if previous.None? || found.Some? then Observe
    else if reported then Clear
    else if isShell then ReportExit
    else Observe
  }

  // --- When to probe ---

  function ForegroundPgid(t: Tick): Option<Pgid> {
    if t.pidKnown then t.pgid else None
  }

  predicate GroupChanged(s: State, t: Tick) {
    ForegroundPgid(t) != s.lastPgid && (ForegroundPgid(t).Some? || s.lastPgid.Some?)
  }

  /** `active_pending_release`. */
  function Suppressed(s: State, now: nat): Option<Agent> {
    if s.release.Some? && now < s.release.value.until then Some(s.release.value.agent) else None
  }

  /** The acquisition branch of `should_probe_foreground_job`. */
  predicate AcquisitionDue(s: State, now: nat) {
    && s.acquisition.Some?
    && var age := Since(now, s.acquisition.value);
       && age <= ACQUISITION_WINDOW
       && Since(now, s.lastCheck) >= if age <= FAST_WINDOW then FAST_RECHECK else SLOW_RECHECK
  }

  /** `should_probe_foreground_job`. */
  predicate ShouldProbe(s: State, sup: Option<Agent>, t: Tick) {
    if s.pendingClear || s.restoreProbe then true
    else if sup.Some? then !s.hasProbe || GroupChanged(s, t)
    else if AcquisitionDue(s, t.now) then true
    else if s.agent.None? then
      || !s.hasProbe
      || GroupChanged(s, t)
      || (ForegroundPgid(t).None? && Since(t.now, s.lastCheck) >= RECHECK_MISSING_GROUP)
    else GroupChanged(s, t) || Since(t.now, s.lastCheck) >= RECHECK_IDENTIFIED
  }

  /** `should_skip_process_probe_for_lifecycle_authority`. */
  predicate SkipForLifecycle(s: State, sup: Option<Agent>, t: Tick) {
    t.lifecycle && !s.pendingClear && sup.None? && s.hasProbe && !GroupChanged(s, t)
  }

  predicate Probes(s: State, sup: Option<Agent>, t: Tick) {
    t.pidKnown && !SkipForLifecycle(s, sup, t) && ShouldProbe(s, sup, t)
  }

  // --- The stages of a tick ---

  function ClearIdle(s: State): State {
    s.(idleSince := None, idleConfirmations := 0)
  }

  const NOTHING_SHOWN: Shown := Shown(Unknown, false, false, false)

  /** The reset arm of the select. Only the handoff loop restarts the check clock. */
  function AfterReset(kind: LoopKind, s: State, now: nat): State {
    State(None, 0, NOTHING_SHOWN, None, if kind == Handoff then now else s.lastCheck, None, false, None, None,
          false, false, false, false, None, None, None, 0, s.release)
  }

  /** A reset and a new release request. */
  function Requested(kind: LoopKind, s: State, t: Tick): State {
    var s1 := if t.reset then AfterReset(kind, s, t.now) else s;
    s1.(release := if t.newRelease.Some? then t.newRelease else s1.release)
  }

  /** `active_pending_release` drops an expired release. */
  function Expired(s: State, now: nat): State {
    s.(release := if Suppressed(s, now).None? then None else s.release)
  }

  /** The tick after a release starts over with probing. */
  function EndRelease(s: State, sup: Option<Agent>): State {
    if sup.None? && s.releaseActive then
      s.(hasProbe := false, acquisition := None, lastChange := None, releaseActive := false)
    else s.(releaseActive := sup.Some?)
  }

  /** A reset, a new release request, and the end of an expired release. */
  function Prepare(kind: LoopKind, s: State, t: Tick): State {
    var s1 := Requested(kind, s, t);
    EndRelease(Expired(s1, t.now), Suppressed(s1, t.now))
  }

  /** The probed agent, unless it is the one being released. */
  function Effective(sup: Option<Agent>, p: Probe): Option<Agent> {
    if sup.Some? && p.agent == sup then None else p.agent
  }

  /** The presence and the exit handshake after a probe. */
  function Decide(s: State, found: Option<Agent>, isShell: bool): (State, bool) {
    match ShellAction(s.agent, found, isShell, s.exitReported)
    case ReportExit => (s.(pendingClear := true), false)
    case Clear => ClearAgent(s.(pendingClear := false, exitReported := false))
    case Observe => ObserveProbe(s.(pendingClear := false, exitReported := false), found)
  }

  function Or<T>(a: Option<T>, b: Option<T>): Option<T> {
    if a.Some? then a else b
  }

  /** Group, acquisition window and restore flag after a probe. */
  function Remember(kind: LoopKind, s: State, t: Tick, found: Option<Agent>, opensWindow: bool): State {
    var pgid := Or(t.probe.pgid, ForegroundPgid(t));
    if found.Some? then
      s.(lastPgid := if kind == Handoff then pgid else t.probe.pgid,
         acquisition := None, lastChange := None, restoreProbe := false)
    else if s.agent.None? then
      s.(lastPgid := pgid, acquisition := if opensWindow then Some(t.now) else s.acquisition,
         restoreProbe := false)
    else s.(lastPgid := pgid)
  }

  /** A newly recognised agent is published as idle; a lost one is not published. */
  function AgentChanged(s: State, now: nat): (State, seq<Published>) {
    var cleared := ClearIdle(s).(lastScan := None);
    if s.agent.Some? then
      (cleared.(graceUntil := Some(now + STARTUP_GRACE), shown := Shown(Idle, true, false, false), refresh := None),
       [Published(s.agent, Idle, false, false, false, now)])
    else (cleared.(graceUntil := None), [])
  }

  /** A probe stamps the check clock; a different agent than the one released ends the release. */
  function Stamped(s: State, sup: Option<Agent>, t: Tick): State {
    s.(lastCheck := t.now, hasProbe := true,
       release := if sup.Some? && t.probe.agent != sup then None else s.release)
  }

  /** The whole probe stage: the state, the events and whether the agent changed. */
  function ProbeStage(kind: LoopKind, s: State, sup: Option<Agent>, t: Tick): (State, seq<Published>, bool) {
    var found := Effective(sup, t.probe);
    var (s2, changed) := Decide(Stamped(s, sup, t), found, t.probe.isShell);
    var s3 := Remember(kind, s2, t, found, s.hasProbe && GroupChanged(s, t));
    if changed then
      var (s4, out) := AgentChanged(s3, t.now);
      (s4, out, true)
    else (s3, [], false)
  }

  /** `sync_content_change_acquisition`. */
  function SyncContent(s: State, sup: Option<Agent>, groupChanged: bool, t: Tick): State {
    if s.agent.Some? || sup.Some? || groupChanged then s
    else if t.contentChanged then
      var start := s.acquisition.None?
                   || (Since(t.now, s.acquisition.value) > ACQUISITION_WINDOW
                       && (s.lastChange.None? || Since(t.now, s.lastChange.value) >= IDLE_RESET));
      s.(acquisition := if start then Some(t.now) else s.acquisition, lastChange := Some(t.now))
    else if s.acquisition.Some? && s.lastChange.Some?
            && Since(t.now, s.acquisition.value) > ACQUISITION_WINDOW
            && Since(t.now, s.lastChange.value) >= IDLE_RESET
    then s.(acquisition := None, lastChange := None)
    else s
  }

  /** `should_hold_working_to_idle`: since when, how often confirmed, and whether the
      publication is held back. */
  function Hold(s: State, next: Shown, agentChanged: bool, exited: bool, now: nat): (Option<nat>, nat, bool) {
    if !(s.shown.state == Working && next.state == Idle && !next.idle && !next.blocker
         && !agentChanged && !exited)
    then (None, 0, false)
    else if s.idleSince.None? then (Some(now), 0, true)
    else if Since(now, s.idleSince.value) >= IDLE_CAP then (None, 0, false)
    else if s.idleConfirmations + 1 >= IDLE_CONFIRMATIONS then (None, 0, false)
    else (s.idleSince, s.idleConfirmations + 1, true)
  }

  function HoldIdle(s: State, next: Shown, agentChanged: bool, exited: bool, now: nat): (State, bool) {
    var (since, confirmations, held) := Hold(s, next, agentChanged, exited, now);
    (s.(idleSince := since, idleConfirmations := confirmations), held)
  }

  /** `should_publish_detection_update` with the refresh of a stable blocker. */
  predicate ShouldPublish(s: State, next: Shown, agentChanged: bool, exited: bool, now: nat) {
    || next != s.shown
    || agentChanged
    || exited
    || (next.blocker && s.shown.blocker && (s.refresh.None? || Since(now, s.refresh.value) >= SIGNAL_REFRESH))
  }

  /** Flags only count in their own state. */
  function Publishable(d: Shown): Shown {
    Shown(d.state, d.idle && d.state == Idle, d.blocker && d.state == Blocked, d.working && d.state == Working)
  }

  /** `decide_screen_detection_publish` and the application of its update. */
  function PublishStage(s: State, detection: Shown, agentChanged: bool, exited: bool, now: nat):
    (State, seq<Published>)
  {
    var next := Publishable(detection);
    var (s1, held) := HoldIdle(s, next, agentChanged, exited, now);
    if held || !ShouldPublish(s, next, agentChanged, exited, now) then (s1, [])
    else
      (s1.(shown := next, refresh := if next.blocker || next.working then Some(now) else None,
           exitReported := s1.exitReported || exited),
       [Published(s.agent, next.state, next.blocker, next.working, exited, now)])
  }

  /** The exit of the current agent is due and was not published yet. */
  predicate ExitDue(s: State) {
    s.pendingClear && s.agent.Some? && !s.exitReported
  }

  function SeqOf(s: State, t: Tick): Option<nat> {
    if s.agent.Some? then Some(t.contentSeq) else None
  }

  /** `should_skip_idle_screen_scan`. */
  predicate SkipsScan(s: State, t: Tick, agentChanged: bool) {
    && s.shown.state == Idle && s.agent.Some? && s.idleSince.None? && !agentChanged && !ExitDue(s)
    && s.lastScan == SeqOf(s, t)
  }

  const EXIT_DETECTION: Shown := Shown(Idle, true, false, false)

  /** Everything behind the probe: grace, screen read, acquisition sync and publication. */
  function ScreenStage(kind: LoopKind, s: State, sup: Option<Agent>, t: Tick, groupChanged: bool,
                       agentChanged: bool): (State, seq<Published>)
  {
    var exited := ExitDue(s);
    if t.lifecycle && !exited then (ClearIdle(s), [])
    else if s.graceUntil.Some? && !exited then (GraceStage(kind, s, t.now), [])
    else
      var s1 := if s.graceUntil.Some? then EndGraceForExit(kind, s) else s;
      if SkipsScan(s1, t, agentChanged) then (s1, [])
      else ReadStage(kind, s1, sup, t, groupChanged, agentChanged, exited)
  }

  /** Startup grace without an exit: wait, or end the grace and look at the next tick. */
  function GraceStage(kind: LoopKind, s: State, now: nat): State
    requires s.graceUntil.Some?
  {
    if now < s.graceUntil.value then ClearIdle(s)
    else ClearIdle(s).(graceUntil := None, lastScan := if kind == Handoff then None else s.lastScan)
  }

  function EndGraceForExit(kind: LoopKind, s: State): State {
    ClearIdle(s).(graceUntil := None, lastScan := if kind == Handoff then s.lastScan else None)
  }

  function ReadStage(kind: LoopKind, s: State, sup: Option<Agent>, t: Tick, groupChanged: bool,
                     agentChanged: bool, exited: bool): (State, seq<Published>)
  {
    var s1 := s.(lastScan := SeqOf(s, t));
    if SkipsContent(kind, s1, t, exited) then (ClearIdle(s1), [])
    else
      var s2 := SyncContent(s1, sup, groupChanged, t);
      if exited then PublishStage(s2, EXIT_DETECTION, agentChanged, true, t.now)
      else if t.screen.None? then (ClearIdle(s2), [])
      else PublishStage(s2, t.screen.value, agentChanged, false, t.now)
  }

  /** Content that must not update the state. Only the handoff loop exempts an exit. */
  predicate SkipsContent(kind: LoopKind, s: State, t: Tick, exited: bool) {
    s.agent.Some? && t.skipContent && (kind == Spawned || !exited)
  }

  // --- One tick ---

  function StepTick(kind: LoopKind, s: State, t: Tick): (State, seq<Published>) {
    var s1 := Prepare(kind, s, t);
    var sup := Suppressed(s1, t.now);
    var groupChanged := GroupChanged(s1, t);
    if Probes(s1, sup, t) then
      var (s2, out, changed) := ProbeStage(kind, s1, sup, t);
      var (s3, more) := ScreenStage(kind, s2, sup, t, groupChanged, changed);
      (s3, out + more)
    else ScreenStage(kind, s1, sup, t, groupChanged, false)
  }

  /** The loop's state before its first tick. Only the spawned loop restores an agent. */
  function Initial(kind: LoopKind, restored: Option<Agent>, now: nat): State {
    var agent := if kind == Handoff then None else restored;
    State(agent, 0, if kind == Handoff then NOTHING_SHOWN else Shown(Idle, agent.Some?, false, false), None,
          now, None, false, None, None, false, false, false, agent.Some?, None, None, None, 0, None)
  }

  // --- The loop as it runs ---

  /** The detection task with its loop variables, which the stages of a turn update in the
      order of the source. */
  class DetectionLoop {
    const kind: LoopKind
    var agent: Option<Agent>
    var misses: nat
    var shown: Shown
    var refresh: Option<nat>
    var lastCheck: nat
    var lastPgid: Option<Pgid>
    var hasProbe: bool
    var acquisition: Option<nat>
    var lastChange: Option<nat>
    var pendingClear: bool
    var exitReported: bool
    var releaseActive: bool
    var restoreProbe: bool
    var lastScan: Option<nat>
    var graceUntil: Option<nat>
    var idleSince: Option<nat>
    var idleConfirmations: nat
    var release: Option<PendingRelease>

    /** All loop variables. */
    function Vars(): (s: State)
      reads this
    {
      State(agent, misses, shown, refresh, lastCheck, lastPgid, hasProbe, acquisition, lastChange, pendingClear,
            exitReported, releaseActive, restoreProbe, lastScan, graceUntil, idleSince, idleConfirmations, release)
    }

    constructor (kind: LoopKind, restored: Option<Agent>, now: nat)
      ensures this.kind == kind && Vars() == Initial(kind, restored, now)
    {
      this.kind := kind;
      var first := if kind == Handoff then None else restored;
      agent, misses, restoreProbe := first, 0, first.Some?;
      shown := if kind == Handoff then NOTHING_SHOWN else Shown(Idle, first.Some?, false, false);
      refresh, lastCheck, lastPgid, hasProbe := None, now, None, false;
      acquisition, lastChange := None, None;
      pendingClear, exitReported, releaseActive := false, false, false;
      lastScan, graceUntil, idleSince, idleConfirmations, release := None, None, None, 0, None;
    }

    method ClearCurrentAgent() returns (changed: bool)
      modifies this`agent, this`misses
      ensures (Vars(), changed) == ClearAgent(old(Vars()))
    {
      changed := agent.Some?;
      agent, misses := None, 0;
    }

    method ObserveProcessProbe(identified: Option<Agent>) returns (changed: bool)
      modifies this`agent, this`misses
      ensures (Vars(), changed) == ObserveProbe(old(Vars()), identified)
    {
      if identified.Some? {
        changed := identified != agent;
        agent, misses := identified, 0;
      } else if agent.None? {
        misses := 0;
        changed := false;
      } else {
        misses := misses + 1;
        changed := misses >= MISS_CONFIRMATIONS;
        if changed {
          agent, misses := None, 0;
        }
      }
    }

    method PendingIdleClear()
      modifies this`idleSince, this`idleConfirmations
      ensures Vars() == ClearIdle(old(Vars()))
    {
      idleSince, idleConfirmations := None, 0;
    }

    /** The reset arm of the select; the pending release is shared and survives. */
    method Reset(now: nat)
      modifies this
      ensures Vars() == AfterReset(kind, old(Vars()), now)
    {
      ResetPresence(now);
      ResetProbing();
      lastScan, graceUntil := None, None;
      PendingIdleClear();
    }

    /** No agent, nothing shown; only the handoff loop restarts the check clock. */
    method ResetPresence(now: nat)
      modifies this`agent, this`misses, this`shown, this`refresh, this`lastCheck
      ensures agent.None? && misses == 0 && shown == NOTHING_SHOWN && refresh.None?
      ensures lastCheck == if kind == Handoff then now else old(lastCheck)
    {
      agent, misses, shown, refresh := None, 0, NOTHING_SHOWN, None;
      if kind == Handoff {
        lastCheck := now;
      }
    }

    method ResetProbing()
      modifies this`lastPgid, this`hasProbe, this`acquisition, this`lastChange
      modifies this`pendingClear, this`exitReported, this`releaseActive, this`restoreProbe
      ensures lastPgid.None? && !hasProbe && acquisition.None? && lastChange.None?
      ensures !pendingClear && !exitReported && !releaseActive && !restoreProbe
    {
      lastPgid, hasProbe, acquisition, lastChange := None, false, None, None;
      pendingClear, exitReported, releaseActive, restoreProbe := false, false, false, false;
    }

    method ActivePendingRelease(now: nat) returns (suppressed: Option<Agent>)
      modifies this`release
      ensures suppressed == Suppressed(old(Vars()), now) == Suppressed(Vars(), now)
      ensures Vars() == Expired(old(Vars()), now)
    {
      if release.Some? && now < release.value.until {
        suppressed := Some(release.value.agent);
      } else {
        release := None;
        suppressed := None;
      }
    }

    /** One turn of the loop. */
    method Turn(t: Tick) returns (out: seq<Published>)
      modifies this
      ensures (Vars(), out) == StepTick(kind, old(Vars()), t)
    {
      var suppressed := Begin(t);
      hide Prepare, Probes, ProbeStage, ScreenStage;
      var groupChanged := GroupChanged(Vars(), t);
      if Probes(Vars(), suppressed, t) {
        var changed;
        out, changed := Probe(suppressed, t, groupChanged);
        var more := Screen(suppressed, t, groupChanged, changed);
        out := out + more;
      } else {
        out := Screen(suppressed, t, groupChanged, false);
      }
    }

    /** Reset, release request and release expiry. */
    method Begin(t: Tick) returns (suppressed: Option<Agent>)
      modifies this
      ensures Vars() == Prepare(kind, old(Vars()), t)
      ensures suppressed == Suppressed(Vars(), t.now)
    {
      hide Requested, Expired;
      TakeRequest(t);
      suppressed := ActivePendingRelease(t.now);
      FinishRelease(suppressed);
    }

    method TakeRequest(t: Tick)
      modifies this
      ensures Vars() == Requested(kind, old(Vars()), t)
    {
      if t.reset {
        Reset(t.now);
      }
      if t.newRelease.Some? {
        release := t.newRelease;
      }
    }

    method FinishRelease(suppressed: Option<Agent>)
      modifies this`hasProbe, this`acquisition, this`lastChange, this`releaseActive
      ensures Vars() == EndRelease(old(Vars()), suppressed)
    {
      if suppressed.None? && releaseActive {
        hasProbe, acquisition, lastChange := false, None, None;
      }
      releaseActive := suppressed.Some?;
    }

    /** The probe stage. */
    method Probe(suppressed: Option<Agent>, t: Tick, groupChanged: bool)
      returns (out: seq<Published>, changed: bool)
      requires groupChanged == GroupChanged(Vars(), t)
      modifies this
      ensures (Vars(), out, changed) == ProbeStage(kind, old(Vars()), suppressed, t)
    {
      hide Decide, Remember, AgentChanged, Stamped, Effective, GroupChanged;
      var opensWindow := hasProbe && groupChanged;
      var found := TakeProbe(suppressed, t);
      changed := Handshake(found, t.probe.isShell);
      RememberProbe(t, found, opensWindow);
      out := [];
      if changed {
        out := AnnounceChange(t.now);
      }
    }

    /** The agent the probe found, unless it is being released. */
    method TakeProbe(suppressed: Option<Agent>, t: Tick) returns (found: Option<Agent>)
      modifies this`lastCheck, this`hasProbe, this`release
      ensures Vars() == Stamped(old(Vars()), suppressed, t) && found == Effective(suppressed, t.probe)
    {
      lastCheck, hasProbe := t.now, true;
      found := t.probe.agent;
      if suppressed.Some? {
        if found == suppressed {
          found := None;
        } else {
          release := None;
        }
      }
    }

    /** Start over for a new agent and publish it as idle. */
    method AnnounceChange(now: nat) returns (out: seq<Published>)
      modifies this`idleSince, this`idleConfirmations, this`lastScan, this`graceUntil, this`shown, this`refresh
      ensures (Vars(), out) == AgentChanged(old(Vars()), now)
    {
      out := [];
      PendingIdleClear();
      lastScan := None;
      if agent.Some? {
        graceUntil, shown, refresh := Some(now + STARTUP_GRACE), Shown(Idle, true, false, false), None;
        out := [Published(agent, Idle, false, false, false, now)];
      } else {
        graceUntil := None;
      }
    }

    /** The presence and the exit handshake. */
    method Handshake(found: Option<Agent>, isShell: bool) returns (changed: bool)
      modifies this`agent, this`misses, this`pendingClear, this`exitReported
      ensures (Vars(), changed) == Decide(old(Vars()), found, isShell)
    {
      match ShellAction(agent, found, isShell, exitReported) {
        case ReportExit =>
          pendingClear := true;
          changed := false;
        case Clear =>
          pendingClear, exitReported := false, false;
          changed := ClearCurrentAgent();
        case Observe =>
          pendingClear, exitReported := false, false;
          changed := ObserveProcessProbe(found);
      }
    }

    method RememberProbe(t: Tick, found: Option<Agent>, opensWindow: bool)
      modifies this`lastPgid, this`acquisition, this`lastChange, this`restoreProbe
      ensures Vars() == Remember(kind, old(Vars()), t, found, opensWindow)
    {
      var pgid := Or(t.probe.pgid, ForegroundPgid(t));
      if found.Some? {
        lastPgid := if kind == Handoff then pgid else t.probe.pgid;
        acquisition, lastChange, restoreProbe := None, None, false;
      } else {
        lastPgid := pgid;
        if agent.None? {
          if opensWindow {
            acquisition := Some(t.now);
          }
          restoreProbe := false;
        }
      }
    }

    /** The screen stage. */
    method Screen(suppressed: Option<Agent>, t: Tick, groupChanged: bool, agentChanged: bool)
      returns (out: seq<Published>)
      modifies this
      ensures (Vars(), out) == ScreenStage(kind, old(Vars()), suppressed, t, groupChanged, agentChanged)
    {
      hide ReadStage;
      out := [];
      var exited := pendingClear && agent.Some? && !exitReported;
      if t.lifecycle && !exited {
        PendingIdleClear();
        return;
      }
      if graceUntil.Some? {
        PendingIdleClear();
        if exited {
          graceUntil := None;
          if kind == Spawned {
            lastScan := None;
          }
        } else {
          if t.now >= graceUntil.value {
            graceUntil := None;
            if kind == Handoff {
              lastScan := None;
            }
          }
          return;
        }
      }
      if SkipsScan(Vars(), t, agentChanged) {
        return;
      }
      out := Read(suppressed, t, groupChanged, agentChanged, exited);
    }

    method Read(suppressed: Option<Agent>, t: Tick, groupChanged: bool, agentChanged: bool, exited: bool)
      returns (out: seq<Published>)
      modifies this
      ensures (Vars(), out) == ReadStage(kind, old(Vars()), suppressed, t, groupChanged, agentChanged, exited)
    {
      hide SyncContent, PublishStage;
      out := [];
      lastScan := if agent.Some? then Some(t.contentSeq) else None;
      if agent.Some? && t.skipContent && (kind == Spawned || !exited) {
        PendingIdleClear();
        return;
      }
      SyncContentChangeAcquisition(suppressed, groupChanged, t);
      if exited {
        out := Publish(EXIT_DETECTION, agentChanged, true, t.now);
      } else if t.screen.None? {
        PendingIdleClear();
      } else {
        out := Publish(t.screen.value, agentChanged, false, t.now);
      }
    }

    method SyncContentChangeAcquisition(suppressed: Option<Agent>, groupChanged: bool, t: Tick)
      modifies this`acquisition, this`lastChange
      ensures Vars() == SyncContent(old(Vars()), suppressed, groupChanged, t)
    {
      if agent.Some? || suppressed.Some? || groupChanged {
        return;
      }
      if t.contentChanged {
        if acquisition.None?
           || (Since(t.now, acquisition.value) > ACQUISITION_WINDOW
               && (lastChange.None? || Since(t.now, lastChange.value) >= IDLE_RESET)) {
          acquisition := Some(t.now);
        }
        lastChange := Some(t.now);
        return;
      }
      if acquisition.None? || lastChange.None? {
        return;
      }
      if Since(t.now, acquisition.value) > ACQUISITION_WINDOW
         && Since(t.now, lastChange.value) >= IDLE_RESET {
        acquisition, lastChange := None, None;
      }
    }

    method Publish(detection: Shown, agentChanged: bool, exited: bool, now: nat) returns (out: seq<Published>)
      modifies this`shown, this`refresh, this`exitReported, this`idleSince, this`idleConfirmations
      ensures (Vars(), out) == PublishStage(old(Vars()), detection, agentChanged, exited, now)
    {
      out := [];
      var next := Publishable(detection);
      var due := ShouldPublish(Vars(), next, agentChanged, exited, now);
      var held := ShouldHoldWorkingToIdle(next, agentChanged, exited, now);
      if held || !due {
        return;
      }
      shown, refresh := next, if next.blocker || next.working then Some(now) else None;
      if exited {
        exitReported := true;
      }
      out := [Published(agent, next.state, next.blocker, next.working, exited, now)];
    }

    method ShouldHoldWorkingToIdle(next: Shown, agentChanged: bool, exited: bool, now: nat) returns (hold: bool)
      modifies this`idleSince, this`idleConfirmations
      ensures (Vars(), hold) == HoldIdle(old(Vars()), next, agentChanged, exited, now)
    {
      var plain := shown.state == Working && next.state == Idle && !next.idle && !next.blocker
                   && !agentChanged && !exited;
      if !plain {
        PendingIdleClear();
        return false;
      }
      if idleSince.None? {
        idleSince, idleConfirmations := Some(now), 0;
        return true;
      }
      if Since(now, idleSince.value) >= IDLE_CAP {
        PendingIdleClear();
        return false;
      }
      idleConfirmations := idleConfirmations + 1;
      if idleConfirmations >= IDLE_CONFIRMATIONS {
        PendingIdleClear();
        return false;
      }
      hold := true;
    }
  }
}

/** Safety of the detection loop over whole runs, against any environment. */
module DetectionRuns {
  import opened Wrappers
  import opened Detection

  // --- Runs ---

  function StateAt(kind: LoopKind, s: State, ticks: seq<Tick>, i: nat): State
    requires i <= |ticks|
  {
    if i == 0 then s else StepTick(kind, StateAt(kind, s, ticks, i - 1), ticks[i - 1]).0
  }

  function OutAt(kind: LoopKind, s: State, ticks: seq<Tick>, i: nat): seq<Published>
    requires i < |ticks|
  {
    StepTick(kind, StateAt(kind, s, ticks, i), ticks[i]).1
  }

  /** The process table was probed in this tick. */
  predicate Probed(kind: LoopKind, s: State, t: Tick) {
    var s1 := Prepare(kind, s, t);
    Probes(s1, Suppressed(s1, t.now), t)
  }

  /** The agent this tick's probe identified, if it probed at all. */
  function Identified(kind: LoopKind, s: State, t: Tick): Option<Agent> {
    if Probed(kind, s, t) then Effective(Suppressed(Prepare(kind, s, t), t.now), t.probe) else None
  }

  predicate AnnouncesExit(out: seq<Published>, agent: Agent) {
    exists p :: p in out && p.agent == Some(agent) && p.exited
  }

  // --- What an observer of probes and events can tell ---

  /** Probes in a row that found neither an agent nor the pane shell, and the agent whose
      exit was announced, both since the last identification, reset or loss. */
  datatype History = History(missRun: nat, announced: Option<Agent>)

  /** A probe that counts as a miss: no agent, not the shell, and no exit announced. */
  predicate Misses(kind: LoopKind, s: State, t: Tick, h: History) {
    && Probed(kind, s, t) && Identified(kind, s, t).None?
    && !t.probe.isShell && (t.reset || h.announced.None?)
  }

  function NextHistory(kind: LoopKind, s: State, t: Tick, h: History): History {
    var (s', out) := StepTick(kind, s, t);
    var h0 := if t.reset then History(0, None) else h;
    var h1 := if Identified(kind, s, t).Some? then History(0, None)
              else if Misses(kind, s, t, h) then h0.(missRun := h0.missRun + 1)
              else h0;
    if s'.agent.None? then History(0, None)
    else if AnnouncesExit(out, s'.agent.value) then h1.(announced := s'.agent)
    else h1
  }

  function HistoryAt(kind: LoopKind, s: State, ticks: seq<Tick>, i: nat): History
    requires i <= |ticks|
  {
    if i == 0 then History(0, None)
    else NextHistory(kind, StateAt(kind, s, ticks, i - 1), ticks[i - 1], HistoryAt(kind, s, ticks, i - 1))
  }

  /** The loop's own counters agree with the history. A reported exit is pending, belongs
      to the current agent, and was announced for exactly that agent. */
  predicate Agrees(s: State, h: History) {
    CoreAgrees(CoreOf(s), h)
  }

  predicate CoreAgrees(c: Core, h: History) {
    && (c.agent.None? ==> c.misses == 0 && !c.exitReported && h == History(0, None))
    && (c.agent.Some? ==>
          && c.misses == h.missRun < MISS_CONFIRMATIONS
          && (c.exitReported ==> c.pendingClear)
          && h.announced == if c.exitReported then c.agent else None)
  }

  // --- The presence and the handshake, apart from the rest of the state ---

  datatype Core = Core(agent: Option<Agent>, misses: nat, pendingClear: bool, exitReported: bool)

  function CoreOf(s: State): Core {
    Core(s.agent, s.misses, s.pendingClear, s.exitReported)
  }

  /** The handshake after a probe, on the core alone. */
  function DecideCore(c: Core, found: Option<Agent>, isShell: bool): (Core, bool) {
    match ShellAction(c.agent, found, isShell, c.exitReported)
    case ReportExit => (c.(pendingClear := true), false)
    case Clear => (Core(None, 0, false, false), c.agent.Some?)
    case Observe =>
      if found.Some? then (Core(found, 0, false, false), found != c.agent)
      else if c.agent.None? then (Core(None, 0, false, false), false)
      else if c.misses + 1 < MISS_CONFIRMATIONS then (Core(c.agent, c.misses + 1, false, false), false)
      else (Core(None, 0, false, false), true)
  }

  lemma DecideIsCore(s: State, found: Option<Agent>, isShell: bool)
    ensures var (s', changed) := Decide(s, found, isShell);
            (CoreOf(s'), changed) == DecideCore(CoreOf(s), found, isShell)
  {
  }

  lemma RememberKeepsCore(kind: LoopKind, s: State, t: Tick, found: Option<Agent>, opensWindow: bool)
    ensures CoreOf(Remember(kind, s, t, found, opensWindow)) == CoreOf(s)
  {
    hide Or, ForegroundPgid;
    if found.Some? {
    } else if s.agent.None? {
    }
  }

  lemma AgentChangedKeepsCore(s: State, now: nat)
    ensures var (s', out) := AgentChanged(s, now);
            CoreOf(s') == CoreOf(s) && forall p :: p in out ==> !p.exited && p.agent == s.agent
  {
  }

  /** What the probe stage does to the core, and that it announces no exit. */
  lemma ProbeStageEffect(kind: LoopKind, s: State, sup: Option<Agent>, t: Tick)
    ensures var (s', out, changed) := ProbeStage(kind, s, sup, t);
            && (CoreOf(s'), changed) == DecideCore(CoreOf(s), Effective(sup, t.probe), t.probe.isShell)
            && (forall p :: p in out ==> !p.exited && p.agent == s'.agent)
            && (!changed ==> out == [])
  {
    var found := Effective(sup, t.probe);
    var s1 := Stamped(s, sup, t);
    assert CoreOf(s1) == CoreOf(s);
    hide Stamped, Effective, Decide, Remember, AgentChanged, DecideCore, CoreOf;
    DecideIsCore(s1, found, t.probe.isShell);
    var s2 := Decide(s1, found, t.probe.isShell).0;
    var opens := s.hasProbe && GroupChanged(s, t);
    RememberKeepsCore(kind, s2, t, found, opens);
    var s3 := Remember(kind, s2, t, found, opens);
    AgentChangedKeepsCore(s3, t.now);
    assert CoreOf(AgentChanged(s3, t.now).0).agent == CoreOf(s3).agent;
    SameAgent(AgentChanged(s3, t.now).0, s3);
  }

  lemma SameAgent(s: State, s': State)
    requires CoreOf(s).agent == CoreOf(s').agent
    ensures s.agent == s'.agent
  {
  }

  /** A stage keeps the core, except that announcing a due exit marks it as reported. */
  predicate OnlyAnnounces(s: State, s': State, out: seq<Published>) {
    && CoreOf(s') == CoreOf(s).(exitReported := s.exitReported || exists p :: p in out && p.exited)
    && (forall p :: p in out ==> p.agent == s.agent && (p.exited ==> ExitDue(s)))
  }

  lemma PublishAnnounces(s: State, d: Shown, changed: bool, exited: bool, now: nat)
    requires exited ==> ExitDue(s)
    ensures var (s', out) := PublishStage(s, d, changed, exited, now); OnlyAnnounces(s, s', out)
  {
    hide HoldIdle, ShouldPublish, Publishable;
    HoldIdleFrame(s, Publishable(d), changed, exited, now);
    var (s', out) := PublishStage(s, d, changed, exited, now);
    assert out == [] || (|out| == 1 && out[0] in out && out[0].exited == exited);
  }

  /** Holding back touches the hold alone, and a changed agent ends it. */
  lemma HoldIdleFrame(s: State, next: Shown, changed: bool, exited: bool, now: nat)
    ensures var s' := HoldIdle(s, next, changed, exited, now).0;
            s' == s.(idleSince := s'.idleSince, idleConfirmations := s'.idleConfirmations)
    ensures changed ==> HoldIdle(s, next, changed, exited, now).0.idleSince.None?
  {
    assert changed ==> Hold(s, next, changed, exited, now).0.None?;
    hide Hold;
  }

  lemma SyncKeepsCore(s: State, sup: Option<Agent>, groupChanged: bool, t: Tick)
    ensures CoreOf(SyncContent(s, sup, groupChanged, t)) == CoreOf(s)
  {
  }

  lemma ReadAnnounces(kind: LoopKind, s: State, sup: Option<Agent>, t: Tick, groupChanged: bool, changed: bool)
    ensures var (s', out) := ReadStage(kind, s, sup, t, groupChanged, changed, ExitDue(s));
            OnlyAnnounces(s, s', out)
  {
    hide SyncContent, PublishStage, SkipsContent;
    var s1 := s.(lastScan := SeqOf(s, t));
    assert CoreOf(s1) == CoreOf(s) == CoreOf(ClearIdle(s1));
    SyncKeepsCore(s1, sup, groupChanged, t);
    var s2 := SyncContent(s1, sup, groupChanged, t);
    assert CoreOf(ClearIdle(s2)) == CoreOf(s2);
    assert ExitDue(s2) == ExitDue(s);
    hide ClearIdle, SeqOf;
    PublishAnnounces(s2, EXIT_DETECTION, changed, ExitDue(s), t.now);
    if t.screen.Some? {
      PublishAnnounces(s2, t.screen.value, changed, false, t.now);
    }
  }

  lemma GatesKeepCore(kind: LoopKind, s: State, now: nat)
    ensures CoreOf(ClearIdle(s)) == CoreOf(s) == CoreOf(EndGraceForExit(kind, s))
    ensures s.graceUntil.Some? ==> CoreOf(GraceStage(kind, s, now)) == CoreOf(s)
  {
  }

  /** The screen stage only ever turns a due exit into a reported one, by announcing it. */
  lemma ScreenStageEffect(kind: LoopKind, s: State, sup: Option<Agent>, t: Tick, groupChanged: bool, changed: bool)
    ensures var (s', out) := ScreenStage(kind, s, sup, t, groupChanged, changed); OnlyAnnounces(s, s', out)
  {
    hide ReadStage, ClearIdle, GraceStage, EndGraceForExit, SkipsScan;
    GatesKeepCore(kind, s, t.now);
    var s1 := if s.graceUntil.Some? then EndGraceForExit(kind, s) else s;
    assert ExitDue(s1) == ExitDue(s);
    ReadAnnounces(kind, s1, sup, t, groupChanged, changed);
  }

  /** The core when the probe stage is over. */
  function Decided(kind: LoopKind, s: State, t: Tick): Core {
    var c := CoreOf(Prepare(kind, s, t));
    if Probed(kind, s, t) then DecideCore(c, Identified(kind, s, t), t.probe.isShell).0 else c
  }

  /** Both stages together. Every event is about the agent the probe stage decided on. */
  lemma TickEffect(kind: LoopKind, s: State, t: Tick)
    ensures var (s', out) := StepTick(kind, s, t);
            var c := Decided(kind, s, t);
            && CoreOf(s') == c.(exitReported := c.exitReported || exists p :: p in out && p.exited)
            && (forall p :: p in out ==> p.agent == c.agent)
            && (forall p :: p in out && p.exited ==> c.pendingClear && c.agent.Some? && !c.exitReported)
  {
    var s1 := Prepare(kind, s, t);
    var sup := Suppressed(s1, t.now);
    hide ProbeStage, ScreenStage, Prepare, Probes, DecideCore, Effective;
    if Probes(s1, sup, t) {
      ProbeStageEffect(kind, s1, sup, t);
      var (s2, out, changed) := ProbeStage(kind, s1, sup, t);
      var (s', more) := ScreenStage(kind, s2, sup, t, GroupChanged(s1, t), changed);
      ScreenStageEffect(kind, s2, sup, t, GroupChanged(s1, t), changed);
      assert StepTick(kind, s, t) == (s', out + more);
      assert (exists p :: p in out + more && p.exited) <==> (exists p :: p in more && p.exited);
    } else {
      ScreenStageEffect(kind, s1, sup, t, GroupChanged(s1, t), false);
    }
  }

  lemma PrepareEffect(kind: LoopKind, s: State, t: Tick)
    ensures CoreOf(Prepare(kind, s, t)) == if t.reset then Core(None, 0, false, false) else CoreOf(s)
  {
  }

  lemma StepKeepsAgreement(kind: LoopKind, s: State, t: Tick, h: History)
    requires Agrees(s, h)
    ensures Agrees(StepTick(kind, s, t).0, NextHistory(kind, s, t, h))
  {
    hide StepTick, Prepare, Probed, Identified, CoreAgrees, DecideCore, NextHistory, HistoryMove;
    PrepareEffect(kind, s, t);
    TickEffect(kind, s, t);
    NothingAgrees();
    var (s', out) := StepTick(kind, s, t);
    var c0, h0 := CoreOf(Prepare(kind, s, t)), if t.reset then History(0, None) else h;
    var probed, found, exits := Probed(kind, s, t), Identified(kind, s, t), exists p :: p in out && p.exited;
    NoProbeNoAgent(kind, s, t);
    StepKeepsCoreAgreement(c0, h0, probed, found, t.probe.isShell, exits);
    NextHistoryMoves(kind, s, t, h);
  }

  lemma NoProbeNoAgent(kind: LoopKind, s: State, t: Tick)
    ensures !Probed(kind, s, t) ==> Identified(kind, s, t).None?
  {
  }

  lemma NextHistoryMoves(kind: LoopKind, s: State, t: Tick, h: History)
    requires forall p :: p in StepTick(kind, s, t).1 ==> p.agent == StepTick(kind, s, t).0.agent
    ensures NextHistory(kind, s, t, h)
            == HistoryMove(if t.reset then History(0, None) else h, Probed(kind, s, t), Identified(kind, s, t),
                           t.probe.isShell, exists p :: p in StepTick(kind, s, t).1 && p.exited,
                           StepTick(kind, s, t).0.agent)
  {
    hide StepTick, Probed, Identified;
    var (s', out) := StepTick(kind, s, t);
    if s'.agent.Some? {
      assert AnnouncesExit(out, s'.agent.value) <==> exists p :: p in out && p.exited;
    }
  }

  lemma NothingAgrees()
    ensures CoreAgrees(Core(None, 0, false, false), History(0, None))
  {
  }

  /** The history after a tick, from what the tick showed. */
  function HistoryMove(h: History, probed: bool, found: Option<Agent>, isShell: bool, exits: bool,
                       agent: Option<Agent>): History
  {
    var h1 := if found.Some? then History(0, None)
              else if probed && !isShell && h.announced.None? then h.(missRun := h.missRun + 1)
              else h;
    if agent.None? then History(0, None) else if exits then h1.(announced := agent) else h1
  }

  /** The same tick on the loop's own counters. */
  lemma StepKeepsCoreAgreement(c0: Core, h: History, probed: bool, found: Option<Agent>, isShell: bool, exits: bool)
    requires CoreAgrees(c0, h) && (!probed ==> found.None?)
    requires var c := if probed then DecideCore(c0, found, isShell).0 else c0;
             exits ==> c.pendingClear && c.agent.Some? && !c.exitReported
    ensures var c := if probed then DecideCore(c0, found, isShell).0 else c0;
            CoreAgrees(c.(exitReported := c.exitReported || exits),
                       HistoryMove(h, probed, found, isShell, exits, c.agent))
  {
  }

  lemma InitialAgrees(kind: LoopKind, restored: Option<Agent>, start: nat)
    ensures Agrees(Initial(kind, restored, start), History(0, None))
  {
  }

  lemma {:induction false} AgreementOnRuns(kind: LoopKind, restored: Option<Agent>, start: nat, ticks: seq<Tick>,
                                           i: nat)
    requires i <= |ticks|
    ensures Agrees(StateAt(kind, Initial(kind, restored, start), ticks, i),
                   HistoryAt(kind, Initial(kind, restored, start), ticks, i))
  {
    hide StepTick, NextHistory, Initial, Agrees;
    var s := Initial(kind, restored, start);
    if i == 0 {
      InitialAgrees(kind, restored, start);
    } else {
      AgreementOnRuns(kind, restored, start, ticks, i - 1);
      StepKeepsAgreement(kind, StateAt(kind, s, ticks, i - 1), ticks[i - 1], HistoryAt(kind, s, ticks, i - 1));
    }
  }

  // --- Why an agent is lost ---

  /** In one tick an agent gives way only to a reset, to another identified agent, to an
      exit that was announced for it, or to the sixth miss in a row. */
  lemma LossIsExplained(kind: LoopKind, s: State, t: Tick, h: History)
    requires Agrees(s, h) && s.agent.Some? && !t.reset
    requires StepTick(kind, s, t).0.agent != s.agent
    ensures Probed(kind, s, t)
    ensures var found := Identified(kind, s, t);
            && StepTick(kind, s, t).0.agent == found
            && (found.None? ==>
                  h.announced == s.agent || (Misses(kind, s, t, h) && h.missRun + 1 == MISS_CONFIRMATIONS))
  {
    PrepareEffect(kind, s, t);
    TickEffect(kind, s, t);
    hide StepTick, Prepare, Probed;
  }

  /** Tick `i` of the run resets the loop or identifies an agent. */
  predicate Disturbs(kind: LoopKind, s: State, ticks: seq<Tick>, i: nat)
    requires i < |ticks|
  {
    ticks[i].reset || Identified(kind, StateAt(kind, s, ticks, i), ticks[i]).Some?
  }

  /** Tick `i` of the run is a miss. */
  predicate MissAt(kind: LoopKind, s: State, ticks: seq<Tick>, i: nat)
    requires i < |ticks|
  {
    Misses(kind, StateAt(kind, s, ticks, i), ticks[i], HistoryAt(kind, s, ticks, i))
  }

  /** Tick `i` of the run publishes the exit of `agent`. */
  predicate AnnouncesAt(kind: LoopKind, s: State, ticks: seq<Tick>, i: nat, agent: Agent)
    requires i < |ticks|
  {
    AnnouncesExit(OutAt(kind, s, ticks, i), agent)
  }

  /** No reset and no identification in ticks `lo..hi`. */
  ghost predicate Undisturbed(kind: LoopKind, s: State, ticks: seq<Tick>, lo: nat, hi: nat)
    requires hi <= |ticks|
  {
    forall m :: lo <= m < hi ==> !Disturbs(kind, s, ticks, m)
  }

  /** Misses in ticks `lo..hi`. */
  function MissCount(kind: LoopKind, s: State, ticks: seq<Tick>, lo: nat, hi: nat): nat
    requires lo <= hi <= |ticks|
    decreases hi
  {
    if lo == hi then 0
    else if MissAt(kind, s, ticks, hi - 1) then MissCount(kind, s, ticks, lo, hi - 1) + 1
    else MissCount(kind, s, ticks, lo, hi - 1)
  }

  /** Exactly six misses from tick `lo` through tick `last`, with no reset and no
      identification. */
  ghost predicate SixMisses(kind: LoopKind, s: State, ticks: seq<Tick>, lo: nat, last: nat)
    requires lo <= last < |ticks|
  {
    && MissCount(kind, s, ticks, lo, last + 1) == MISS_CONFIRMATIONS
    && Undisturbed(kind, s, ticks, lo, last + 1)
  }

  lemma ResetClearsHistory(kind: LoopKind, s: State, t: Tick, h: History)
    requires t.reset && Identified(kind, s, t).None?
    ensures NextHistory(kind, s, t, h) == History(0, None)
  {
    PrepareEffect(kind, s, t);
    TickEffect(kind, s, t);
    assert !Probed(kind, s, t) ==> Decided(kind, s, t) == Core(None, 0, false, false);
    hide StepTick, Prepare, Probed;
  }

  /** How the history of a run moves in tick `i`. */
  lemma HistoryMoves(kind: LoopKind, s: State, ticks: seq<Tick>, i: nat)
    requires i < |ticks|
    ensures var h, h' := HistoryAt(kind, s, ticks, i), HistoryAt(kind, s, ticks, i + 1);
            && (h'.announced.Some? ==>
                  || AnnouncesAt(kind, s, ticks, i, h'.announced.value)
                  || (!Disturbs(kind, s, ticks, i) && h'.announced == h.announced))
            && (h'.missRun > 0 ==>
                  && !Disturbs(kind, s, ticks, i)
                  && h'.missRun == h.missRun + if MissAt(kind, s, ticks, i) then 1 else 0)
  {
    var here, t, h := StateAt(kind, s, ticks, i), ticks[i], HistoryAt(kind, s, ticks, i);
    if t.reset && Identified(kind, here, t).None? {
      ResetClearsHistory(kind, here, t, h);
    }
    assert HistoryAt(kind, s, ticks, i + 1) == NextHistory(kind, here, t, h);
    hide StepTick, Identified, Misses, StateAt, HistoryAt, AnnouncesExit;
  }

  lemma HistoryStart(kind: LoopKind, s: State, ticks: seq<Tick>)
    ensures HistoryAt(kind, s, ticks, 0) == History(0, None)
  {
  }

  /** An announcement in the history is an event of the run, with nothing in between. */
  lemma {:induction false} AnnouncementHappened(kind: LoopKind, s: State, ticks: seq<Tick>, i: nat) returns (j: nat)
    requires i <= |ticks| && HistoryAt(kind, s, ticks, i).announced.Some?
    ensures j < i && AnnouncesAt(kind, s, ticks, j, HistoryAt(kind, s, ticks, i).announced.value)
    ensures Undisturbed(kind, s, ticks, j + 1, i)
    decreases i
  {
    hide HistoryAt, AnnouncesAt, Disturbs, MissAt;
    HistoryStart(kind, s, ticks);
    HistoryMoves(kind, s, ticks, i - 1);
    j := i - 1;
    if !AnnouncesAt(kind, s, ticks, j, HistoryAt(kind, s, ticks, i).announced.value) {
      j := AnnouncementHappened(kind, s, ticks, i - 1);
    }
  }

  /** The miss count of the history is the number of misses since some undisturbed point. */
  lemma {:induction false} MissesHappened(kind: LoopKind, s: State, ticks: seq<Tick>, i: nat) returns (j: nat)
    requires i <= |ticks|
    ensures j <= i && Undisturbed(kind, s, ticks, j, i)
    ensures MissCount(kind, s, ticks, j, i) == HistoryAt(kind, s, ticks, i).missRun
    decreases i
  {
    hide HistoryAt, AnnouncesAt, Disturbs, MissAt;
    HistoryStart(kind, s, ticks);
    j := i;
    if HistoryAt(kind, s, ticks, i).missRun > 0 {
      HistoryMoves(kind, s, ticks, i - 1);
      j := MissesHappened(kind, s, ticks, i - 1);
    }
  }

  /** Tick `i` of the run leaves the loop without the agent it had, and is no reset. */
  predicate LosesAgent(kind: LoopKind, s: State, ticks: seq<Tick>, i: nat)
    requires i < |ticks|
  {
    !ticks[i].reset && StateAt(kind, s, ticks, i).agent.Some? && StateAt(kind, s, ticks, i + 1).agent.None?
  }

  /** On every run: if an agent becomes unknown without a reset, then either its process
      exit was published before, with no reset and no identification since, or the loop
      saw six misses with no reset and no identification in between. */
  lemma ExitIsAnnouncedBeforeLoss(kind: LoopKind, restored: Option<Agent>, start: nat, ticks: seq<Tick>, i: nat)
    requires i < |ticks|
    ensures var s := Initial(kind, restored, start);
            LosesAgent(kind, s, ticks, i) ==>
              || (exists j :: 0 <= j < i && AnnouncesAt(kind, s, ticks, j, StateAt(kind, s, ticks, i).agent.value)
                              && Undisturbed(kind, s, ticks, j + 1, i + 1))
              || (exists j :: 0 <= j <= i && SixMisses(kind, s, ticks, j, i))
  {
    var s := Initial(kind, restored, start);
    hide Initial, StateAt, HistoryAt, Disturbs, MissAt, AnnouncesAt, Agrees;
    LossAt(kind, restored, start, ticks, i);
    var here, h := StateAt(kind, s, ticks, i), HistoryAt(kind, s, ticks, i);
    if LosesAgent(kind, s, ticks, i) {
      if h.announced == here.agent {
        var j := AnnouncementHappened(kind, s, ticks, i);
        assert Undisturbed(kind, s, ticks, j + 1, i + 1);
      } else {
        var j := MissesHappened(kind, s, ticks, i);
        assert SixMisses(kind, s, ticks, j, i);
      }
    }
  }

  /** What the history says in the tick that loses the agent. */
  lemma LossAt(kind: LoopKind, restored: Option<Agent>, start: nat, ticks: seq<Tick>, i: nat)
    requires i < |ticks|
    ensures var s := Initial(kind, restored, start);
            var h := HistoryAt(kind, s, ticks, i);
            LosesAgent(kind, s, ticks, i) ==>
            && !Disturbs(kind, s, ticks, i)
            && (h.announced == StateAt(kind, s, ticks, i).agent
                || (MissAt(kind, s, ticks, i) && h.missRun + 1 == MISS_CONFIRMATIONS))
  {
    var s := Initial(kind, restored, start);
    var here, h := StateAt(kind, s, ticks, i), HistoryAt(kind, s, ticks, i);
    assert StateAt(kind, s, ticks, i + 1) == StepTick(kind, here, ticks[i]).0;
    hide Initial, StateAt, HistoryAt, Agrees, Identified, Probed, Misses, StepTick;
    if LosesAgent(kind, s, ticks, i) {
      AgreementOnRuns(kind, restored, start, ticks, i);
      LossIsExplained(kind, here, ticks[i], h);
    }
  }

  // --- The handshake ---

  /** The probe finds the pane shell in front and no agent: the exit is published in the
      same tick, once, as an idle state, and the agent is kept for now. The one exception
      is the spawned loop on content that asks to skip the state update. */
  lemma ExitIsPublishedAtOnce(kind: LoopKind, s: State, t: Tick)
    requires s.agent.Some? && !t.reset && !s.exitReported
    requires Probed(kind, s, t) && Identified(kind, s, t).None? && t.probe.isShell
    ensures var (s', out) := StepTick(kind, s, t);
            && s'.agent == s.agent && s'.pendingClear
            && out == (if kind == Spawned && t.skipContent then []
                       else [Published(s.agent, Idle, false, false, true, t.now)])
            && s'.exitReported == !(kind == Spawned && t.skipContent)
  {
    var s1 := Prepare(kind, s, t);
    var sup := Suppressed(s1, t.now);
    PrepareEffect(kind, s, t);
    ShellStage(kind, s1, sup, t);
    var (s2, out, changed) := ProbeStage(kind, s1, sup, t);
    DueExitStage(kind, s2, sup, t, GroupChanged(s1, t));
    hide ProbeStage, ScreenStage, Prepare, Probes;
    assert out == [];
  }

  lemma ShellStage(kind: LoopKind, s: State, sup: Option<Agent>, t: Tick)
    requires s.agent.Some? && !s.exitReported && Effective(sup, t.probe).None? && t.probe.isShell
    ensures var (s', out, changed) := ProbeStage(kind, s, sup, t);
            && s'.agent == s.agent && ExitDue(s') && out == [] && !changed
  {
  }

  /** A due exit passes every gate of the screen stage. */
  lemma DueExitStage(kind: LoopKind, s: State, sup: Option<Agent>, t: Tick, groupChanged: bool)
    requires ExitDue(s)
    ensures var (s', out) := ScreenStage(kind, s, sup, t, groupChanged, false);
            && s'.agent == s.agent && s'.pendingClear
            && out == (if kind == Spawned && t.skipContent then []
                       else [Published(s.agent, Idle, false, false, true, t.now)])
            && s'.exitReported == !(kind == Spawned && t.skipContent)
  {
    var s1 := if s.graceUntil.Some? then EndGraceForExit(kind, s) else s;
    assert CoreOf(s1) == CoreOf(s) && ExitDue(s1);
    var (s', out) := ScreenStage(kind, s, sup, t, groupChanged, false);
    ScreenStageEffect(kind, s, sup, t, groupChanged, false);
    hide ReadStage, EndGraceForExit;
    assert !SkipsScan(s1, t, false);
    DueExitRead(kind, s1, sup, t, groupChanged);
    hide ScreenStage;
    assert out != [] ==> out[0] in out;
  }

  lemma DueExitRead(kind: LoopKind, s: State, sup: Option<Agent>, t: Tick, groupChanged: bool)
    requires ExitDue(s)
    ensures ReadStage(kind, s, sup, t, groupChanged, false, true).1
            == if kind == Spawned && t.skipContent then [] else [Published(s.agent, Idle, false, false, true, t.now)]
  {
    var s1 := s.(lastScan := SeqOf(s, t));
    SyncKeepsCore(s1, sup, groupChanged, t);
    hide SyncContent;
    var s2 := SyncContent(s1, sup, groupChanged, t);
    DueExitPublishes(s2, t.now);
    hide PublishStage, ClearIdle;
  }

  lemma DueExitPublishes(s: State, now: nat)
    ensures PublishStage(s, EXIT_DETECTION, false, true, now).1 == [Published(s.agent, Idle, false, false, true, now)]
  {
    assert HoldIdle(s, Publishable(EXIT_DETECTION), false, true, now) == (ClearIdle(s), false);
    hide HoldIdle;
  }

  /** Once reported, the next tick that knows the process id probes, lifecycle authority or
      not; unless it identifies an agent, the old one is cleared, and nothing more is said. */
  lemma ReportedExitClearsNext(kind: LoopKind, s: State, t: Tick, h: History)
    requires Agrees(s, h) && s.exitReported && !t.reset && t.pidKnown
    ensures Probed(kind, s, t)
    ensures var (s', out) := StepTick(kind, s, t);
            && s'.agent == Identified(kind, s, t) && !s'.exitReported && !s'.pendingClear
            && (forall p :: p in out ==> !p.exited)
  {
    PrepareEffect(kind, s, t);
    TickEffect(kind, s, t);
    hide StepTick, Prepare, ScreenStage, ProbeStage;
  }

  /** An announced exit is not announced again before an identification or a reset. */
  lemma ExitIsAnnouncedOnce(kind: LoopKind, s: State, t: Tick, h: History)
    requires Agrees(s, h) && h.announced.Some? && !t.reset && Identified(kind, s, t).None?
    ensures forall p :: p in StepTick(kind, s, t).1 ==> !p.exited
  {
    PrepareEffect(kind, s, t);
    TickEffect(kind, s, t);
    hide StepTick, Prepare, Probed;
  }
}

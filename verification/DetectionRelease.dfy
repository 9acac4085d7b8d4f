/** Releasing an agent: how long a release lasts, and that the agent does not come back
    while it does. */
module DetectionRelease {
  import opened Wrappers
  import opened Detection
  import opened DetectionRuns

  // --- One tick ---

  predicate SameRelease(s: State, s': State) {
    s'.release == s.release && s'.releaseActive == s.releaseActive
  }

  /** The release that is due in this tick: a new request before an old one. */
  function Due(s: State, t: Tick): Option<PendingRelease> {
    if t.newRelease.Some? then t.newRelease else s.release
  }

  predicate Running(r: Option<PendingRelease>, now: nat) {
    r.Some? && now < r.value.until
  }

  lemma PrepareRelease(kind: LoopKind, s: State, t: Tick)
    ensures var s1, due := Prepare(kind, s, t), Due(s, t);
            && s1.release == (if Running(due, t.now) then due else None)
            && s1.releaseActive == Running(due, t.now)
            && Suppressed(s1, t.now) == if Running(due, t.now) then Some(due.value.agent) else None
  {
  }

  lemma ProbeKeepsRelease(kind: LoopKind, s: State, sup: Option<Agent>, t: Tick)
    ensures SameRelease(Stamped(s, sup, t), ProbeStage(kind, s, sup, t).0)
  {
    var s1 := Stamped(s, sup, t);
    var found := Effective(sup, t.probe);
    DecideKeepsRelease(s1, found, t.probe.isShell);
    var s2 := Decide(s1, found, t.probe.isShell).0;
    var opens := s.hasProbe && GroupChanged(s, t);
    RememberKeepsRelease(kind, s2, t, found, opens);
    ChangeKeepsRelease(Remember(kind, s2, t, found, opens), t.now);
    hide Stamped, Effective, Decide, Remember, AgentChanged, GroupChanged;
  }

  lemma DecideKeepsRelease(s: State, found: Option<Agent>, isShell: bool)
    ensures SameRelease(s, Decide(s, found, isShell).0)
  {
  }

  lemma RememberKeepsRelease(kind: LoopKind, s: State, t: Tick, found: Option<Agent>, opens: bool)
    ensures SameRelease(s, Remember(kind, s, t, found, opens))
  {
  }

  lemma ChangeKeepsRelease(s: State, now: nat)
    ensures SameRelease(s, AgentChanged(s, now).0)
  {
  }

  lemma PublishKeepsRelease(s: State, d: Shown, changed: bool, exited: bool, now: nat)
    ensures SameRelease(s, PublishStage(s, d, changed, exited, now).0)
  {
    hide HoldIdle, ShouldPublish, Publishable;
    HoldIdleFrame(s, Publishable(d), changed, exited, now);
  }

  lemma ReadKeepsRelease(kind: LoopKind, s: State, sup: Option<Agent>, t: Tick, groupChanged: bool, changed: bool,
                         exited: bool)
    ensures SameRelease(s, ReadStage(kind, s, sup, t, groupChanged, changed, exited).0)
  {
    var s1 := s.(lastScan := SeqOf(s, t));
    var s2 := SyncContent(s1, sup, groupChanged, t);
    assert SameRelease(s, s1) && SameRelease(s1, s2);
    assert SameRelease(s1, ClearIdle(s1)) && SameRelease(s2, ClearIdle(s2));
    PublishKeepsRelease(s2, EXIT_DETECTION, changed, true, t.now);
    if t.screen.Some? {
      PublishKeepsRelease(s2, t.screen.value, changed, false, t.now);
    }
    hide SyncContent, PublishStage, SkipsContent, ClearIdle, SeqOf;
  }

  lemma ScreenKeepsRelease(kind: LoopKind, s: State, sup: Option<Agent>, t: Tick, groupChanged: bool, changed: bool)
    ensures SameRelease(s, ScreenStage(kind, s, sup, t, groupChanged, changed).0)
  {
    var s1 := if s.graceUntil.Some? then EndGraceForExit(kind, s) else s;
    assert SameRelease(s, s1) && SameRelease(s, ClearIdle(s));
    assert s.graceUntil.Some? ==> SameRelease(s, GraceStage(kind, s, t.now));
    ReadKeepsRelease(kind, s1, sup, t, groupChanged, changed, ExitDue(s));
    hide ReadStage, ClearIdle, GraceStage, EndGraceForExit, SkipsScan;
  }

  /** A running release outlasts the tick if and only if no probe of the tick found anything
      but the released agent. */
  lemma TickRelease(kind: LoopKind, s: State, t: Tick)
    ensures var s', sup := StepTick(kind, s, t).0, Suppressed(Prepare(kind, s, t), t.now);
            && s'.releaseActive == sup.Some?
            && (sup.None? ==> s'.release.None?)
            && (sup.Some? ==> s'.release == if Probed(kind, s, t) && t.probe.agent != sup then None else Due(s, t))
  {
    var s1 := Prepare(kind, s, t);
    var sup := Suppressed(s1, t.now);
    PrepareRelease(kind, s, t);
    ProbeKeepsRelease(kind, s1, sup, t);
    var s2 := ProbeStage(kind, s1, sup, t).0;
    assert s2.releaseActive == s1.releaseActive;
    assert s2.release == if sup.Some? && t.probe.agent != sup then None else s1.release;
    hide ProbeStage, ScreenStage, Prepare, Probes, Stamped;
    if Probes(s1, sup, t) {
      ScreenKeepsRelease(kind, s2, sup, t, GroupChanged(s1, t), ProbeStage(kind, s1, sup, t).2);
    } else {
      ScreenKeepsRelease(kind, s1, sup, t, GroupChanged(s1, t), false);
    }
  }

  /** While the release runs, the released agent is not identified; it stays only if it was
      there, and no event of the tick is about it unless it was. */
  lemma SuppressedAgentIsNotNew(kind: LoopKind, s: State, t: Tick, agent: Agent)
    requires Suppressed(Prepare(kind, s, t), t.now) == Some(agent)
    ensures Identified(kind, s, t) != Some(agent)
    ensures StepTick(kind, s, t).0.agent == Some(agent) ==> s.agent == Some(agent) && !t.reset
    ensures forall p :: p in StepTick(kind, s, t).1 && p.agent == Some(agent) ==> s.agent == Some(agent) && !t.reset
  {
    PrepareEffect(kind, s, t);
    TickEffect(kind, s, t);
    hide StepTick, Prepare, Probes;
  }

  // --- Whole runs ---

  /** From tick `lo`, which brings the request, to tick `hi` the release is neither expired
      nor replaced, and no probe finds anything but the released agent. */
  ghost predicate ReleaseRuns(kind: LoopKind, s: State, ticks: seq<Tick>, lo: nat, hi: nat, r: PendingRelease)
    requires lo < hi <= |ticks|
  {
    && ticks[lo].newRelease == Some(r)
    && (forall m :: lo < m < hi ==> ticks[m].newRelease.None?)
    && (forall m :: lo <= m < hi ==> ticks[m].now < r.until)
    && (forall m :: lo <= m < hi && Probed(kind, StateAt(kind, s, ticks, m), ticks[m]) ==>
          ticks[m].probe.agent == Some(r.agent))
  }

  /** On every run, from any state: between the request and its expiry the agent is neither
      taken up nor announced again, resets and screen contents notwithstanding. */
  lemma {:induction false} ReleasedAgentStaysAway(kind: LoopKind, s: State, ticks: seq<Tick>, lo: nat, hi: nat,
                                                  r: PendingRelease)
    requires lo < hi <= |ticks| && ReleaseRuns(kind, s, ticks, lo, hi, r)
    ensures StateAt(kind, s, ticks, hi).release == Some(r)
    ensures forall m :: lo <= m < hi ==> StaysAway(kind, s, ticks, m, r.agent)
    decreases hi
  {
    hide StepTick, StaysAway, Prepare, Probed, Suppressed, ReleaseRuns;
    var m := hi - 1;
    var here, t := StateAt(kind, s, ticks, m), ticks[m];
    LastTickOfRelease(kind, s, ticks, lo, hi, r);
    if lo < m {
      ReleasedAgentStaysAway(kind, s, ticks, lo, m, r);
    }
    ReleaseLasts(kind, here, t, r);
    AwayInTick(kind, s, ticks, m, r.agent);
  }

  /** What the run of a release says about its last tick, and about the ticks before. */
  lemma LastTickOfRelease(kind: LoopKind, s: State, ticks: seq<Tick>, lo: nat, hi: nat, r: PendingRelease)
    requires lo < hi <= |ticks| && ReleaseRuns(kind, s, ticks, lo, hi, r)
    ensures var t := ticks[hi - 1];
            && t.newRelease == (if lo < hi - 1 then None else Some(r)) && t.now < r.until
            && (Probed(kind, StateAt(kind, s, ticks, hi - 1), t) ==> t.probe.agent == Some(r.agent))
    ensures lo < hi - 1 ==> ReleaseRuns(kind, s, ticks, lo, hi - 1, r)
  {
    hide StepTick, Probed, StateAt;
  }

  /** One tick of a running release. */
  lemma ReleaseLasts(kind: LoopKind, s: State, t: Tick, r: PendingRelease)
    requires Due(s, t) == Some(r) && t.now < r.until
    requires Probed(kind, s, t) ==> t.probe.agent == Some(r.agent)
    ensures Suppressed(Prepare(kind, s, t), t.now) == Some(r.agent)
    ensures StepTick(kind, s, t).0.release == Some(r)
  {
    hide StepTick, Prepare, Probed, Suppressed;
    PrepareRelease(kind, s, t);
    TickRelease(kind, s, t);
  }

  /** In tick `m` the agent is not taken up, and an event about it means it was there. */
  predicate StaysAway(kind: LoopKind, s: State, ticks: seq<Tick>, m: nat, agent: Agent)
    requires m < |ticks|
  {
    var before := StateAt(kind, s, ticks, m).agent;
    && (StateAt(kind, s, ticks, m + 1).agent == Some(agent) ==> before == Some(agent))
    && (forall p :: p in OutAt(kind, s, ticks, m) && p.agent == Some(agent) ==> before == Some(agent))
  }

  lemma AwayInTick(kind: LoopKind, s: State, ticks: seq<Tick>, m: nat, agent: Agent)
    requires m < |ticks|
    requires Suppressed(Prepare(kind, StateAt(kind, s, ticks, m), ticks[m]), ticks[m].now) == Some(agent)
    ensures StaysAway(kind, s, ticks, m, agent)
  {
    hide StepTick, Prepare, Suppressed;
    SuppressedAgentIsNotNew(kind, StateAt(kind, s, ticks, m), ticks[m], agent);
  }
}

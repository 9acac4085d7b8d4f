/** Over runs: what makes the loop look at the process table again. */
module DetectionLooks {
  import opened Wrappers
  import opened Detection
  import opened DetectionRuns
  import opened DetectionSchedule

  /** Tick `i` looked, and up to tick `j` nothing did, and nothing was reset. */
  predicate LastLook(kind: LoopKind, s: State, ticks: seq<Tick>, i: nat, j: nat) {
    && i < j < |ticks| && Probed(kind, StateAt(kind, s, ticks, i), ticks[i])
    && forall m :: i < m < j ==> !Probed(kind, StateAt(kind, s, ticks, m), ticks[m]) && !ticks[m].reset
  }

  lemma OneTick(kind: LoopKind, s: State, t: Tick)
    ensures var s' := StepTick(kind, s, t).0;
            if Probed(kind, s, t) then
              s'.lastCheck == t.now && s'.lastPgid == GroupSeen(kind, t, Identified(kind, s, t))
            else t.reset || (s'.lastCheck == s.lastCheck && s'.lastPgid == s.lastPgid)
  {
    hide StepTick, Probed, Identified, GroupSeen;
    TickRemembers(kind, s, t);
  }

  /** Until the next look the loop remembers when it looked and what group it saw. */
  lemma {:induction false} LookIsRemembered(kind: LoopKind, s: State, ticks: seq<Tick>, i: nat, j: nat)
    requires LastLook(kind, s, ticks, i, j)
    ensures var now, found := StateAt(kind, s, ticks, j), Identified(kind, StateAt(kind, s, ticks, i), ticks[i]);
            now.lastCheck == ticks[i].now && now.lastPgid == GroupSeen(kind, ticks[i], found)
    decreases j
  {
    hide StepTick, Probed, Identified, GroupSeen;
    OneTick(kind, StateAt(kind, s, ticks, j - 1), ticks[j - 1]);
    if j - 1 > i {
      LookIsRemembered(kind, s, ticks, i, j - 1);
    }
  }

  /** A known agent is looked at again five seconds after the last look at the latest, unless
      it is being released or a lifecycle integration reports. */
  lemma AgentIsRechecked(kind: LoopKind, s: State, ticks: seq<Tick>, i: nat, j: nat)
    requires LastLook(kind, s, ticks, i, j)
    requires var now, t := StateAt(kind, s, ticks, j), ticks[j];
             && AgentBefore(now, t).Some? && Releasing(now, t).None? && t.pidKnown && !t.lifecycle
             && t.now >= ticks[i].now + 5000
    ensures Probed(kind, StateAt(kind, s, ticks, j), ticks[j])
  {
    LookIsRemembered(kind, s, ticks, i, j);
    LooksIff(kind, StateAt(kind, s, ticks, j), ticks[j]);
    hide Probed, StateAt, LastLook;
  }

  /** Another foreground group than at the last look is looked at in its first tick, whatever
      else is going on. */
  lemma OtherGroupIsLookedAt(kind: LoopKind, s: State, ticks: seq<Tick>, i: nat, j: nat)
    requires LastLook(kind, s, ticks, i, j) && ticks[j].pidKnown && !ticks[j].reset
    requires ticks[j].pgid
             != GroupSeen(kind, ticks[i], Identified(kind, StateAt(kind, s, ticks, i), ticks[i]))
    ensures Probed(kind, StateAt(kind, s, ticks, j), ticks[j])
  {
    LookIsRemembered(kind, s, ticks, i, j);
    LooksIff(kind, StateAt(kind, s, ticks, j), ticks[j]);
    hide Probed, StateAt, LastLook, GroupSeen, Identified;
  }

  /** With the group as it was and an agent that is neither leaving nor restored, nor
      released, there is no look before the five seconds are over. */
  lemma NoLookInBetween(kind: LoopKind, s: State, ticks: seq<Tick>, i: nat, j: nat)
    requires LastLook(kind, s, ticks, i, j) && !ticks[j].reset
    requires Group(ticks[j]) == GroupSeen(kind, ticks[i], Identified(kind, StateAt(kind, s, ticks, i), ticks[i]))
    requires var now, t := StateAt(kind, s, ticks, j), ticks[j];
             && now.agent.Some? && Releasing(now, t).None? && !now.pendingClear && !now.restoreProbe
             && now.acquisition.None? && t.now < ticks[i].now + 5000
    ensures !Probed(kind, StateAt(kind, s, ticks, j), ticks[j])
  {
    hide StepTick, Probed, StateAt, GroupSeen, Identified, Group, Since;
    LookIsRemembered(kind, s, ticks, i, j);
    LooksIff(kind, StateAt(kind, s, ticks, j), ticks[j]);
    NotYet(kind, StateAt(kind, s, ticks, j), ticks[j]);
  }

  lemma NotYet(kind: LoopKind, s: State, t: Tick)
    requires !t.reset && s.agent.Some? && Releasing(s, t).None? && !s.pendingClear && !s.restoreProbe
    requires s.acquisition.None? && t.now < s.lastCheck + 5000 && Group(t) == s.lastPgid
    ensures !LookIsDue(kind, s, t)
  {
    hide Releasing, Group;
  }

  // --- A restored agent ---

  /** So far no look found an agent or gave the restored one up, and nothing was reset. */
  predicate StillRestoring(kind: LoopKind, s: State, ticks: seq<Tick>, i: nat)
    requires i <= |ticks|
  {
    forall m :: 0 <= m < i ==>
      && !ticks[m].reset && Identified(kind, StateAt(kind, s, ticks, m), ticks[m]).None?
      && Decided(kind, StateAt(kind, s, ticks, m), ticks[m]).agent.Some?
  }

  lemma {:induction false} RestoreGoesOn(kind: LoopKind, s: State, ticks: seq<Tick>, i: nat)
    requires i <= |ticks| && s.restoreProbe && StillRestoring(kind, s, ticks, i)
    ensures StateAt(kind, s, ticks, i).restoreProbe
    decreases i
  {
    hide StepTick, Probed, Identified, Decided;
    if i > 0 {
      RestoreGoesOn(kind, s, ticks, i - 1);
      TickRemembers(kind, StateAt(kind, s, ticks, i - 1), ticks[i - 1]);
    }
  }

  /** Only the spawned loop starts with an agent. Until that agent is found or given up, each
      tick looks that knows the pid and is not left to a lifecycle integration; the first one
      with a pid is not. */
  lemma RestoredAgentIsLookedAt(kind: LoopKind, restored: Option<Agent>, start: nat, ticks: seq<Tick>, i: nat)
    requires i < |ticks| && !ticks[i].reset
    requires StillRestoring(kind, Initial(kind, restored, start), ticks, i)
    ensures Initial(kind, restored, start).agent == if kind == Spawned then restored else None
    ensures var s := StateAt(kind, Initial(kind, restored, start), ticks, i);
            && (kind == Spawned && restored.Some? ==>
                  (Probed(kind, s, ticks[i]) <==> ticks[i].pidKnown && !LeftToLifecycle(s, ticks[i])))
            && (i == 0 ==> !LeftToLifecycle(s, ticks[i]))
  {
    var first := Initial(kind, restored, start);
    if kind == Spawned && restored.Some? {
      RestoreGoesOn(kind, first, ticks, i);
    }
    hide StepTick, Probed, StillRestoring;
    LooksIff(kind, StateAt(kind, first, ticks, i), ticks[i]);
  }

  // --- After a release, and after a change on the screen ---

  /** The first tick after a release without an agent looks. */
  lemma ReleaseEndsWithALook(kind: LoopKind, s: State, t: Tick, next: Tick)
    requires Releasing(s, t).Some? && StepTick(kind, s, t).0.agent.None?
    requires !next.reset && next.pidKnown && Releasing(StepTick(kind, s, t).0, next).None?
    ensures Probed(kind, StepTick(kind, s, t).0, next)
  {
    TickRemembers(kind, s, t);
    LooksIff(kind, StepTick(kind, s, t).0, next);
    hide StepTick, Probed;
  }

  /** While no agent is known a change on the screen opens a window, and within its first
      second and a half each tick looks that comes half a second after the last look. */
  lemma ChangeLeadsToALook(kind: LoopKind, s: State, t: Tick, next: Tick)
    requires Watches(kind, s, t) && t.contentChanged && WindowLooked(kind, s, t).None?
    requires var s' := StepTick(kind, s, t).0;
             && !next.reset && next.pidKnown && Releasing(s', next).None? && !next.lifecycle
             && Since(next.now, s'.lastCheck) >= 500 && Since(next.now, t.now) <= 1500
    ensures Probed(kind, StepTick(kind, s, t).0, next)
  {
    assert Releasing(s, t).None?;
    hide StepTick, Probed, Watches, WindowLooked;
    TickRemembers(kind, s, t);
    TickMovesWindow(kind, s, t);
    LooksIff(kind, StepTick(kind, s, t).0, next);
  }

  // --- A shell without an agent ---

  /** Without an agent no exit is pending and nothing is restored. */
  predicate NothingPends(s: State) {
    s.agent.None? ==> !s.pendingClear && !s.restoreProbe
  }

  lemma TickPends(kind: LoopKind, s: State, t: Tick)
    requires NothingPends(s)
    ensures NothingPends(StepTick(kind, s, t).0)
  {
    var s' := StepTick(kind, s, t).0;
    hide StepTick, Prepare, Probed, Identified;
    TickEffect(kind, s, t);
    TickRemembers(kind, s, t);
    PrepareEffect(kind, s, t);
    NoPendingDecision(CoreOf(Prepare(kind, s, t)), Identified(kind, s, t), t.probe.isShell);
    assert CoreOf(s').agent == s'.agent && CoreOf(s').pendingClear == s'.pendingClear;
    hide DecideCore;
  }

  lemma NoPendingDecision(c: Core, found: Option<Agent>, isShell: bool)
    ensures var c' := DecideCore(c, found, isShell).0; c'.agent.None? ==> !c'.pendingClear
  {
  }

  lemma {:induction false} NothingPendsOnRuns(kind: LoopKind, restored: Option<Agent>, start: nat, ticks: seq<Tick>,
                                              i: nat)
    requires i <= |ticks|
    ensures NothingPends(StateAt(kind, Initial(kind, restored, start), ticks, i))
  {
    hide StepTick, NothingPends;
    var s := Initial(kind, restored, start);
    if i == 0 {
      NothingPendsAtFirst(kind, restored, start);
    } else {
      NothingPendsOnRuns(kind, restored, start, ticks, i - 1);
      TickPends(kind, StateAt(kind, s, ticks, i - 1), ticks[i - 1]);
    }
  }

  lemma NothingPendsAtFirst(kind: LoopKind, restored: Option<Agent>, start: nat)
    ensures NothingPends(Initial(kind, restored, start))
  {
  }

  /** A foreground group that was looked at and has no agent is not looked at again, however
      much time goes by, as long as it stays, no window is open and no release ends. */
  lemma ShellIsLeftAlone(kind: LoopKind, restored: Option<Agent>, start: nat, ticks: seq<Tick>, i: nat, j: nat)
    requires var s := Initial(kind, restored, start);
             && LastLook(kind, s, ticks, i, j) && !ticks[j].reset && Group(ticks[j]).Some?
             && Group(ticks[j]) == GroupSeen(kind, ticks[i], Identified(kind, StateAt(kind, s, ticks, i), ticks[i]))
    requires var now := StateAt(kind, Initial(kind, restored, start), ticks, j);
             && now.agent.None? && now.acquisition.None? && Seen(now, ticks[j])
    ensures !Probed(kind, StateAt(kind, Initial(kind, restored, start), ticks, j), ticks[j])
  {
    var s := Initial(kind, restored, start);
    hide StepTick, Probed, StateAt, GroupSeen, Identified, Group, Since, Initial, Seen;
    LookIsRemembered(kind, s, ticks, i, j);
    NothingPendsOnRuns(kind, restored, start, ticks, j);
    LooksIff(kind, StateAt(kind, s, ticks, j), ticks[j]);
  }
}

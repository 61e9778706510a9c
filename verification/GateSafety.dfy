/**
  No session is past the gate while a stop is announced.

  This needs one thing of the runtime: that no login is counted between the moment the idle
  task reads a player count of 0 and the moment it publishes Stopping.
*/
module GateSafety {
  import opened SharedStates
  import opened Lifecycle
  import opened Accounting

  predicate SomeTaskFiring(s: Shared) {
    exists t :: 0 <= t < |s.tasks| && s.tasks[t].phase.Firing?
  }

  /** begin_session does not fall between the idle task's reading of the count and its announcement. */
  predicate NoLateCount(w: World, a: Action) {
    a.Advance? && Is(w, a.l, Uncounted) ==> !SomeTaskFiring(w.shared)
  }

  ghost predicate GateSafe(w: World) {
    && (SomeTaskFiring(w.shared) ==> w.shared.players == 0)
    && (w.shared.server.Stopping? ==> forall l :: l in w.logins ==> !w.logins[l].PastGate())
  }

  lemma NoPlayersNoSessions(w: World)
    requires Accounted(w) && w.shared.players == 0
    ensures forall l :: l in w.logins ==> !w.logins[l].Counted()
  {
    forall l | l in w.logins
      ensures !w.logins[l].Counted()
    {
      assert l !in Guards(w.logins);
    }
  }

  /** Counting a login late is the one step that ends it, at any granularity. */
  lemma StepGateSafe(w: World, a: Action)
    requires Accounted(w) && GateSafe(w) && Enabled(w, a)
    ensures GateSafe(Step(w, a)) <==> NoLateCount(w, a)
  {
    FiringKeepsCountZero(w, a);
    if a.Announces? {
      assert w.shared.tasks[a.t].phase.Firing?;
      NoPlayersNoSessions(w);
    } else if Step(w, a).shared.server.Stopping? {
      NobodyPassesAnnouncedStop(w, a);
    }
  }

  lemma NobodyPassesAnnouncedStop(w: World, a: Action)
    requires GateSafe(w) && Enabled(w, a) && !a.Announces? && Step(w, a).shared.server.Stopping?
    ensures forall l :: l in Step(w, a).logins ==> !Step(w, a).logins[l].PastGate()
  {
    forall l | l in Step(w, a).logins
      ensures !Step(w, a).logins[l].PastGate()
    {
      assert l in w.logins ==> !w.logins[l].PastGate();
    }
  }

  lemma FiringKeepsCountZero(w: World, a: Action)
    requires GateSafe(w) && Enabled(w, a)
    ensures (SomeTaskFiring(Step(w, a).shared) ==> Step(w, a).shared.players == 0) <==> NoLateCount(w, a)
  {
    var v := Step(w, a);
    if t :| 0 <= t < |v.shared.tasks| && v.shared.tasks[t].phase.Firing? {
      if !(a.Wakes? && a.t == t) {
        assert t < |w.shared.tasks| && w.shared.tasks[t].phase.Firing?;
      }
    }
    if t :| 0 <= t < |w.shared.tasks| && w.shared.tasks[t].phase.Firing? {
      if a.Advance? && Is(w, a.l, Uncounted) {
        assert v.shared.tasks[t].phase.Firing?;
      }
    }
  }

  ghost predicate AccountedAndGateSafe(w: World) {
    Accounted(w) && GateSafe(w)
  }

  lemma ReachableGateSafe(runningAtStartup: bool, acts: seq<Action>)
    requires Runs(Init(runningAtStartup), acts, NoLateCount)
    ensures AccountedAndGateSafe(Exec(Init(runningAtStartup), acts, NoLateCount))
  {
    InitAccounted(runningAtStartup);
    forall v, a | AccountedAndGateSafe(v) && Enabled(v, a) && NoLateCount(v, a)
      ensures AccountedAndGateSafe(Step(v, a))
    {
      StepAccounted(v, a);
      StepGateSafe(v, a);
    }
    RunKeeps(Init(runningAtStartup), acts, NoLateCount, AccountedAndGateSafe);
  }

  /**
    With any number of logins: no session that got past the gate coexists with Stopping, so a
    login that a state change wakes in the select loop never reads Stopping there.
  */
  lemma NoSessionDuringStop(runningAtStartup: bool, acts: seq<Action>, l: nat)
    requires Runs(Init(runningAtStartup), acts, NoLateCount)
    requires l in Exec(Init(runningAtStartup), acts, NoLateCount).logins
    ensures var w := Exec(Init(runningAtStartup), acts, NoLateCount);
            && (w.logins[l].PastGate() ==> !w.shared.server.Stopping?)
            && (w.logins[l].Woken? && StepLogin(w, l).logins[l].Waiting? ==> w.shared.server.Starting?)
  {
    ReachableGateSafe(runningAtStartup, acts);
  }

  /**
    A login that holds start_mutex and decides not to start anything does so while the state is
    Starting or Running; one that decides to start leaves Starting behind.
  */
  lemma GateOpensOnLiveServer(w: World, l: nat)
    requires Accounted(w) && GateSafe(w) && Enabled(w, Advance(l))
    ensures Is(w, l, GateClear) && Is(StepLogin(w, l), l, Leaving) ==> w.shared.server.Starting? || w.shared.server.Running?
    ensures Is(StepLogin(w, l), l, Published) ==> StepLogin(w, l).shared.server.Starting?
  {
  }

  /** Code that is not interleaved between await points never counts a login too late. */
  lemma UninterruptedCountsInTime(w: World, a: Action)
    requires Enabled(w, a) && Uninterrupted(w, a)
    ensures NoLateCount(w, a)
  {
    if SomeTaskFiring(w.shared) {
      var t :| 0 <= t < |w.shared.tasks| && w.shared.tasks[t].phase.Firing?;
      assert Actor(a) == TaskThread(t);
    }
  }

  /** So the same holds of every run whose code is not interrupted between await points. */
  lemma NoSessionDuringStopUninterrupted(runningAtStartup: bool, acts: seq<Action>, l: nat)
    requires Runs(Init(runningAtStartup), acts, Uninterrupted)
    requires l in Exec(Init(runningAtStartup), acts, Uninterrupted).logins
    ensures var w := Exec(Init(runningAtStartup), acts, Uninterrupted);
            w.logins[l].PastGate() ==> !w.shared.server.Stopping?
  {
    forall v, a | Enabled(v, a) && Uninterrupted(v, a)
      ensures NoLateCount(v, a)
    {
      UninterruptedCountsInTime(v, a);
    }
    RunsWeaker(Init(runningAtStartup), acts, Uninterrupted, NoLateCount);
    NoSessionDuringStop(runningAtStartup, acts, l);
  }
}

/**
  A stop that is in flight and the published state Stopping: when the one means the other, and
  exactly which steps break the correspondence.
*/
module StopSafety {
  import opened SharedStates
  import opened Lifecycle
  import opened Accounting
  import opened GateSafety
  import opened Wakeup

  predicate StopRunning(s: Shared) {
    exists t :: 0 <= t < |s.tasks| && s.tasks[t].Stopping()
  }

  /** A stop call is in flight and un-aborted if and only if Stopping is published. */
  predicate Faithful(s: Shared) {
    StopRunning(s) <==> s.server.Stopping?
  }

  /**
    The steps that touch the announcement or the stopping task of somebody else: all that can go
    wrong, read off the state before the step.
  */
  predicate Breaks(w: World, a: Action) {
    if w.shared.server.Stopping? then TouchesStop(w, a)
    else a.Announces? && a.t < |w.shared.tasks| && w.shared.tasks[a.t].aborted
  }

  predicate TouchesStop(w: World, a: Action) {
    match a
    case Advance(l) => Is(w, l, Cancelling) || Is(w, l, SawStopped)
    case ProbeSucceeds(_) => true
    case RunArm => true
    case StartFails => true
    case StopPanics(_) => true
    case SyncStep => w.sync.AboutToStop? || w.sync.Arming?
    case _ => false
  }

  lemma TakingTimerSilencesStop(s: Shared)
    requires s.OneLiveTask()
    ensures !StopRunning(TakeTimer(s)) && !StopRunning(Schedule(s))
  {
    TakeTimerSilences(s);
    ScheduleArmsExactlyOne(s);
  }

  lemma SameTasksSameStop(s: Shared, r: Shared)
    requires s.tasks == r.tasks
    ensures StopRunning(s) == StopRunning(r)
  {
  }

  /** Exactly the steps named by `Breaks` end the correspondence, at any granularity. */
  lemma FaithfulUnlessBroken(w: World, a: Action)
    requires Accounted(w) && Faithful(w.shared) && Enabled(w, a)
    ensures Faithful(Step(w, a).shared) <==> !Breaks(w, a)
  {
    match a {
      case Wakes(t) => TaskMoves(w, a, t);
      case Announces(t) => TaskMoves(w, a, t);
      case StopReturned(t, _) => TaskMoves(w, a, t);
      case StopPanics(t) => TaskMoves(w, a, t);
      case _ =>
        TakingTimerSilencesStop(w.shared);
        SameTasksSameStop(w.shared, Step(w, a).shared.(tasks := w.shared.tasks));
    }
  }

  lemma TaskMoves(w: World, a: Action, t: nat)
    requires Accounted(w) && Faithful(w.shared) && Enabled(w, a)
    requires a == Wakes(t) || a == Announces(t) || a == StopPanics(t) || (a.StopReturned? && a.t == t)
    ensures Faithful(Step(w, a).shared) <==> !Breaks(w, a)
  {
    var s, r := w.shared, Step(w, a).shared;
    if u :| 0 <= u < |s.tasks| && s.tasks[u].Stopping() {
      assert u != t ==> r.tasks[u].Stopping();
    }
    if u :| 0 <= u < |r.tasks| && r.tasks[u].Stopping() {
      assert u != t ==> s.tasks[u].Stopping();
    }
    assert r.tasks[t].Stopping() ==> StopRunning(r);
    assert s.tasks[t].Stopping() ==> StopRunning(s);
  }

  // ----- Uninterrupted runs -----

  /** What a thread between two accesses has read still holds. */
  ghost predicate Calm(w: World) {
    && (forall t :: 0 <= t < |w.shared.tasks| && w.shared.tasks[t].phase.Firing? ==> !w.shared.tasks[t].aborted)
    && (forall l :: l in w.logins && w.logins[l].Cancelling? ==> !w.shared.server.Stopping?)
    && (w.sync.AboutToStop? || w.sync.Arming? || w.sync.Adopted? ==> w.shared.server.Running?)
  }

  lemma StepCalm(w: World, a: Action)
    requires Accounted(w) && Calm(w) && Enabled(w, a) && Uninterrupted(w, a)
    ensures Calm(Step(w, a))
  {
    var v := Step(w, a);
    forall l | l in v.logins && v.logins[l].Cancelling?
      ensures !v.shared.server.Stopping?
    {
      if l in w.logins && w.logins[l].Cancelling? {
        assert Actor(a) == LoginThread(l);
      }
    }
    FiringStaysWanted(w, a);
  }

  lemma FiringStaysWanted(w: World, a: Action)
    requires Calm(w) && Enabled(w, a) && Uninterrupted(w, a)
    ensures forall t :: 0 <= t < |Step(w, a).shared.tasks| && Step(w, a).shared.tasks[t].phase.Firing? ==>
                          !Step(w, a).shared.tasks[t].aborted
  {
    var v := Step(w, a);
    forall t | 0 <= t < |v.shared.tasks| && v.shared.tasks[t].phase.Firing?
      ensures !v.shared.tasks[t].aborted
    {
      if t < |w.shared.tasks| && w.shared.tasks[t].phase.Firing? {
        assert Actor(a) == TaskThread(t);
      }
    }
  }

  /** Without interruptions only a late arming task, a late start failure and a panic can break it. */
  lemma UninterruptedBreaks(w: World, a: Action)
    requires Accounted(w) && GateSafe(w) && Calm(w) && Enabled(w, a) && Uninterrupted(w, a)
    ensures Breaks(w, a) <==> w.shared.server.Stopping? && (a.RunArm? || a.StartFails? || a.StopPanics?)
  {
    if a.Advance? && Is(w, a.l, SawStopped) {
      assert w.logins[a.l].PastGate();
    }
    if a.ProbeSucceeds? {
      assert w.logins[a.l].PastGate();
    }
  }

  ghost predicate Orderly(w: World) {
    Accounted(w) && GateSafe(w) && Calm(w)
  }

  lemma StepOrderly(w: World, a: Action)
    requires Orderly(w) && Enabled(w, a) && Uninterrupted(w, a)
    ensures Orderly(Step(w, a))
  {
    StepAccounted(w, a);
    UninterruptedCountsInTime(w, a);
    StepGateSafe(w, a);
    StepCalm(w, a);
  }

  lemma InitOrderly(runningAtStartup: bool)
    ensures Orderly(Init(runningAtStartup)) && Faithful(Init(runningAtStartup).shared)
  {
    InitAccounted(runningAtStartup);
  }

  /**
    The three side conditions: a stop is announced only when no start call is pending, no arming
    task runs while a stop is announced, and no stop panics.  The last is not idle: the RCON
    reply that a stop reads makes it panic for announced lengths below 10 (see module Rcon).
  */
  predicate Tidy(w: World, a: Action) {
    && Uninterrupted(w, a)
    && (a.Announces? ==> w.starts == 0)
    && (a.RunArm? ==> !w.shared.server.Stopping?)
    && !a.StopPanics?
  }

  ghost predicate TidyInvariant(w: World) {
    Orderly(w) && Faithful(w.shared) && (w.shared.server.Stopping? ==> w.starts == 0)
  }

  lemma StepTidy(w: World, a: Action)
    requires TidyInvariant(w) && Enabled(w, a) && Tidy(w, a)
    ensures TidyInvariant(Step(w, a)) && !Breaks(w, a)
  {
    StepOrderly(w, a);
    UninterruptedBreaks(w, a);
    FaithfulUnlessBroken(w, a);
    if a.Advance? && Is(w, a.l, Published) {
      assert w.logins[a.l].PastGate();
    }
  }

  /** Over every run that meets the side conditions, a stop is in flight exactly while Stopping is published. */
  lemma StoppingMeansStopInFlight(runningAtStartup: bool, acts: seq<Action>)
    requires Runs(Init(runningAtStartup), acts, Tidy)
    ensures var s := Exec(Init(runningAtStartup), acts, Tidy).shared;
            StopRunning(s) <==> s.server.Stopping?
  {
    InitOrderly(runningAtStartup);
    forall v, a | TidyInvariant(v) && Enabled(v, a) && Tidy(v, a)
      ensures TidyInvariant(Step(v, a))
    {
      StepTidy(v, a);
    }
    RunKeeps(Init(runningAtStartup), acts, Tidy, TidyInvariant);
  }

  /**
    Over every uninterrupted run, a step taken while the correspondence holds breaks it if and
    only if Stopping is published and it is an arming task, a failing start call or a panic of
    the stop.
  */
  lemma OnlyLateArmStartFailureOrPanicBreaks(runningAtStartup: bool, acts: seq<Action>, a: Action)
    requires Runs(Init(runningAtStartup), acts, Uninterrupted)
    requires var w := Exec(Init(runningAtStartup), acts, Uninterrupted);
             Enabled(w, a) && Uninterrupted(w, a) && Faithful(w.shared)
    ensures var w := Exec(Init(runningAtStartup), acts, Uninterrupted);
            Faithful(Step(w, a).shared) <==> !(w.shared.server.Stopping? && (a.RunArm? || a.StartFails? || a.StopPanics?))
  {
    InitOrderly(runningAtStartup);
    forall v, b | Orderly(v) && Enabled(v, b) && Uninterrupted(v, b)
      ensures Orderly(Step(v, b))
    {
      StepOrderly(v, b);
    }
    RunKeeps(Init(runningAtStartup), acts, Uninterrupted, Orderly);
    var w := Exec(Init(runningAtStartup), acts, Uninterrupted);
    FaithfulUnlessBroken(w, a);
    UninterruptedBreaks(w, a);
  }

  /** No login step ends a stop: the task that is stopping before it is stopping after it. */
  lemma LoginNeverAbortsStop(w: World, a: Action, t: nat)
    requires TidyInvariant(w) && Enabled(w, a) && Tidy(w, a)
    requires t < |w.shared.tasks| && w.shared.tasks[t].Stopping()
    requires Actor(a).LoginThread?
    ensures Step(w, a).shared.tasks[t].Stopping() && Step(w, a).shared.server.Stopping?
  {
    assert StopRunning(w.shared);
    StepTidy(w, a);
    assert !Breaks(w, a);
  }

  /**
    A login that cannot leave the gate loop is waiting for a stop that is really in flight, and
    however that stop returns, the login then gets out of the loop by its own steps.
  */
  lemma StopReturnReleasesGate(w: World, l: nat, ok: bool) returns (t: nat)
    requires TidyInvariant(w) && AllWakeable(w)
    requires l in w.logins && w.logins[l].GateSuspended? && !Enabled(w, Advance(l))
    ensures Enabled(w, StopReturned(t, ok))
    ensures var w1 := Step(w, StopReturned(t, ok));
            && Enabled(w1, Advance(l)) && Enabled(StepLogin(w1, l), Advance(l))
            && Is(StepLogin(StepLogin(w1, l), l), l, GateClear)
  {
    assert Wakeable(w.shared, w.logins[l]);
    t :| 0 <= t < |w.shared.tasks| && w.shared.tasks[t].Stopping();
  }
}

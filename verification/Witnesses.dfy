/**
  Runs that show that the side conditions of GateSafety and StopSafety are needed: each run
  meets all of them but one.
*/
module Witnesses {
  import opened Options
  import opened SharedStates
  import opened Lifecycle
  import opened Accounting
  import opened GateRelease
  import opened GateSafety
  import opened StopSafety

  // ----- One login that moves while everybody else rests -----

  ghost predicate OthersRest(w: World, l: nat) {
    && (forall m :: m in w.logins && m != l ==> w.logins[m].Ended?)
    && (forall t :: 0 <= t < |w.shared.tasks| ==> !w.shared.tasks[t].phase.Firing?)
    && w.sync.Idle?
  }

  ghost predicate AllowsLogins(guard: Guard) {
    forall w, a :: Uninterrupted(w, a) && Actor(a).LoginThread? ==> guard(w, a)
  }

  lemma GoLogin(start: World, w: World, l: nat, guard: Guard) returns (v: World)
    requires Reaches(start, w, guard) && AllowsLogins(guard)
    requires OthersRest(w, l) && Enabled(w, Advance(l))
    ensures v == StepLogin(w, l) && Reaches(start, v, guard) && OthersRest(v, l)
  {
    hide Reaches;
    assert Uninterrupted(w, Advance(l));
    v := Go(start, w, Advance(l), guard);
    assert forall t :: 0 <= t < |w.shared.tasks| ==> v.shared.tasks[t].phase == w.shared.tasks[t].phase;
  }

  /** From the arrival to the wait for start_mutex. */
  lemma Joins(start: World, w: World, l: nat, guard: Guard) returns (v: World)
    requires Reaches(start, w, guard) && AllowsLogins(guard) && OthersRest(w, l) && l !in w.logins
    ensures Reaches(start, v, guard) && OthersRest(v, l)
    ensures v == w.(shared := Cancel(w.shared).(players := w.shared.players + 1), logins := w.logins[l := AtMutex])
  {
    hide Reaches;
    assert Uninterrupted(w, Arrive(l));
    v := Go(start, w, Arrive(l), guard);
    if w.shared.server.Stopping? {
      v := GoLogin(start, v, l, guard);
      v := GoLogin(start, v, l, guard);
    } else {
      v := JoinsUnstopped(start, v, l, guard);
    }
  }

  lemma JoinsUnstopped(start: World, w: World, l: nat, guard: Guard) returns (v: World)
    requires Reaches(start, w, guard) && AllowsLogins(guard) && OthersRest(w, l)
    requires Is(w, l, Parsed) && !w.shared.server.Stopping?
    ensures Reaches(start, v, guard) && OthersRest(v, l)
    ensures v == w.(shared := TakeTimer(w.shared).(players := w.shared.players + 1), logins := w.logins[l := AtMutex])
  {
    hide Reaches;
    v := GoLogin(start, w, l, guard);
    v := GoLogin(start, v, l, guard);
    v := GoLogin(start, v, l, guard);
  }

  /** A session ends, the last one. */
  lemma Leaves(start: World, w: World, l: nat, guard: Guard) returns (v: World)
    requires Reaches(start, w, guard) && AllowsLogins(guard) && OthersRest(w, l)
    requires l in w.logins && w.logins[l].CanExit() && w.shared.players == 1
    ensures Reaches(start, v, guard)
    ensures v == w.(shared := w.shared.(players := 0), logins := w.logins[l := Ended], arms := w.arms + 1)
  {
    hide Reaches;
    assert Uninterrupted(w, Exit(l));
    v := Go(start, w, Exit(l), guard);
    v := GoLogin(start, v, l, guard);
  }

  /** Through the gate of a running server. */
  lemma PassesRunning(start: World, w: World, l: nat, guard: Guard) returns (v: World)
    requires Reaches(start, w, guard) && AllowsLogins(guard) && OthersRest(w, l)
    requires Is(w, l, AtMutex) && w.mutex.None? && w.shared.server.Running?
    ensures Reaches(start, v, guard) && OthersRest(v, l)
    ensures v == w.(logins := w.logins[l := Forwarding])
  {
    hide Reaches;
    v := GoLogin(start, w, l, guard);
    v := GoLogin(start, v, l, guard);
    v := GoLogin(start, v, l, guard);
    assert v == w.(mutex := Some(l), logins := w.logins[l := Leaving]);
    v := GoLogin(start, v, l, guard);
    v := GoLogin(start, v, l, guard);
  }

  /** Into the gate loop, while Stopping is published. */
  lemma BlocksAtGate(start: World, w: World, l: nat, guard: Guard) returns (v: World)
    requires Reaches(start, w, guard) && AllowsLogins(guard) && OthersRest(w, l)
    requires Is(w, l, AtMutex) && w.mutex.None? && w.shared.server.Stopping?
    ensures Reaches(start, v, guard) && OthersRest(v, l)
    ensures v == w.(mutex := Some(l), logins := w.logins[l := GateSuspended(w.shared.version)])
  {
    hide Reaches;
    v := GoLogin(start, w, l, guard);
    v := GoLogin(start, v, l, guard);
    v := GoLogin(start, v, l, guard);
    assert v == w.(mutex := Some(l), logins := w.logins[l := GateLoop(w.shared.version)]);
    v := GoLogin(start, v, l, guard);
  }

  // ----- A late arming task -----

  /** The side conditions of `Tidy` without the one on arming tasks. */
  predicate NoPendingStart(w: World, a: Action) {
    Uninterrupted(w, a) && (a.Announces? ==> w.starts == 0) && !a.StopPanics?
  }

  ghost predicate AllEnded(w: World) {
    (forall m :: m in w.logins ==> w.logins[m].Ended?) && w.sync.Idle? && w.mutex.None? && w.starts == 0
  }

  /** A session joins a running server and leaves again, the only one there. */
  lemma Visit(start: World, w: World, l: nat) returns (v: World)
    requires Reaches(start, w, NoPendingStart) && AllEnded(w) && OthersRest(w, l)
    requires l !in w.logins && w.shared.server.Running? && w.shared.players == 0
    ensures Reaches(start, v, NoPendingStart)
    ensures v == w.(shared := TakeTimer(w.shared), logins := w.logins[l := Ended], arms := w.arms + 1)
  {
    hide Reaches;
    v := Joins(start, w, l, NoPendingStart);
    v := PassesRunning(start, v, l, NoPendingStart);
    v := Leaves(start, v, l, NoPendingStart);
    assert w.logins[l := AtMutex][l := Forwarding][l := Ended] == w.logins[l := Ended];
  }

  /**
    Two sessions in a row leave two arming tasks; the second one runs only after the task of the
    first has announced its stop, and aborts it.  A login that comes now never gets in.  If none
    comes before the new idle task wakes, that task stops the server after all.
  */
  lemma LateArmMayBlockEveryLogin() returns (w: World, blocked: World, recovered: World)
    ensures Reaches(Init(true), w, NoPendingStart) && !Faithful(w.shared)
    ensures Reaches(w, blocked, NoPendingStart) && Stuck(blocked, 2)
    ensures Reaches(w, recovered, NoPendingStart) && recovered.shared.server.Stopped? && Faithful(recovered.shared)
  {
    hide Reaches;
    var start := Init(true);
    ReachesItself(start, NoPendingStart);
    w := Visit(start, start, 0);
    w := Visit(start, w, 1);
    w := LateArm(start, w);
    ReachesItself(w, NoPendingStart);
    blocked := BlockedLogin(w);
    ReachesFurther(start, w, blocked, NoPendingStart);
    ReachedAccounted(true, blocked, NoPendingStart);
    recovered := StopsAfterAll(w);
  }

  ghost predicate LateArmed(w: World) {
    && AllEnded(w) && w.shared.server.Stopping? && w.shared.players == 0 && w.arms == 0
    && w.shared.tasks == [Task(Sleeping, true), Task(StopInFlight, true), Task(Sleeping, false)]
  }

  /** The arming task of the first visit runs, its idle task announces a stop, the second one re-arms. */
  lemma LateArm(start: World, w: World) returns (v: World)
    requires Reaches(start, w, NoPendingStart) && AllEnded(w)
    requires w.shared.players == 0 && w.shared.timer.None? && w.shared.tasks == [Task(Sleeping, true)] && w.arms == 2
    ensures Reaches(start, v, NoPendingStart) && LateArmed(v) && v.logins == w.logins && !StopRunning(v.shared)
  {
    hide Reaches;
    v := Go(start, w, RunArm, NoPendingStart);
    assert v.shared.tasks == [Task(Sleeping, true), Task(Sleeping, false)];
    v := Go(start, v, Wakes(1), NoPendingStart);
    assert v.shared.tasks == [Task(Sleeping, true), Task(Firing, false)];
    v := Go(start, v, Announces(1), NoPendingStart);
    assert v.shared.tasks == [Task(Sleeping, true), Task(StopInFlight, false)];
    v := Go(start, v, RunArm, NoPendingStart);
  }

  lemma BlockedLogin(w: World) returns (v: World)
    requires Reaches(w, w, NoPendingStart) && LateArmed(w) && 2 !in w.logins
    ensures Reaches(w, v, NoPendingStart) && HeldInGate(v, 2) && !Resolvable(v)
  {
    hide Reaches;
    v := Joins(w, w, 2, NoPendingStart);
    v := BlocksAtGate(w, v, 2, NoPendingStart);
  }

  lemma StopsAfterAll(w: World) returns (v: World)
    requires Reaches(w, w, NoPendingStart) && LateArmed(w)
    ensures Reaches(w, v, NoPendingStart) && v.shared.server.Stopped? && Faithful(v.shared)
  {
    hide Reaches;
    v := Go(w, w, Wakes(2), NoPendingStart);
    assert v.shared.tasks == [Task(Sleeping, true), Task(StopInFlight, true), Task(Firing, false)];
    v := Go(w, v, Announces(2), NoPendingStart);
    assert v.shared.tasks == [Task(Sleeping, true), Task(StopInFlight, true), Task(StopInFlight, false)];
    v := Go(w, v, StopReturned(2, true), NoPendingStart);
    assert v.shared.tasks == [Task(Sleeping, true), Task(StopInFlight, true), Task(Finished, false)];
  }

  // ----- A late start failure -----

  /** The side conditions of `Tidy` without the one on start calls. */
  predicate NoLateArm(w: World, a: Action) {
    Uninterrupted(w, a) && (a.RunArm? ==> !w.shared.server.Stopping?) && !a.StopPanics?
  }

  /**
    A client gives up while the start call is pending; the idle task announces its stop, the
    start fails and publishes Stopped over it, and the next login aborts the stop in flight.
  */
  lemma PendingStartLetsLoginAbortStop() returns (w: World, v: World)
    ensures Reaches(Init(false), w, NoLateArm) && !Faithful(w.shared)
    ensures w.shared.tasks == [Task(StopInFlight, false)]
    ensures Is(w, 1, Cancelling) && Enabled(w, Advance(1)) && v == Step(w, Advance(1))
    ensures v.shared.tasks == [Task(StopInFlight, true)]
  {
    hide Reaches;
    var start := Init(false);
    ReachesItself(start, NoLateArm);
    w := AbandonedBoot(start);
    w := StopThenStartFailure(start, w);
    w := Go(start, w, Arrive(1), NoLateArm);
    w := GoLogin(start, w, 1, NoLateArm);
    v := Step(w, Advance(1));
    assert w.shared.tasks[0].Stopping();
  }

  lemma StopThenStartFailure(start: World, w: World) returns (v: World)
    requires Reaches(start, w, NoLateArm) && w.logins == map[0 := Ended] && w.sync.Idle?
    requires w.shared.players == 0 && w.shared.tasks == [] && w.shared.timer == None && w.arms == 1 && w.starts == 1
    requires w.shared.server.Starting?
    ensures Reaches(start, v, NoLateArm) && v.logins == w.logins && v.sync.Idle?
    ensures v.shared.server.Stopped? && v.shared.tasks == [Task(StopInFlight, false)] && v.shared.timer == Some(0)
  {
    hide Reaches;
    v := Go(start, w, RunArm, NoLateArm);
    v := Go(start, v, Wakes(0), NoLateArm);
    assert v.shared.tasks == [Task(Firing, false)];
    v := Go(start, v, Announces(0), NoLateArm);
    assert v.shared.tasks == [Task(StopInFlight, false)];
    v := Go(start, v, StartFails, NoLateArm);
  }

  lemma AbandonedBoot(start: World) returns (w: World)
    requires start == Init(false) && Reaches(start, start, NoLateArm)
    ensures Reaches(start, w, NoLateArm)
    ensures w.shared.server.Starting? && w.shared.players == 0 && w.shared.tasks == [] && w.shared.timer == None
    ensures w.arms == 1 && w.starts == 1 && w.sync.Idle? && w.logins == map[0 := Ended]
  {
    hide Reaches;
    w := Joins(start, start, 0, NoLateArm);
    w := Boots(start, w, 0);
    w := StartsWaiting(start, w, 0);
    w := Leaves(start, w, 0, NoLateArm);
    assert w.logins == map[0 := Ended];
  }

  /** Through the gate of a stopped server. */
  lemma Boots(start: World, w: World, l: nat) returns (v: World)
    requires Reaches(start, w, NoLateArm) && OthersRest(w, l)
    requires Is(w, l, AtMutex) && w.mutex.None? && w.shared.server.Stopped?
    ensures Reaches(start, v, NoLateArm) && OthersRest(v, l)
    ensures v == w.(shared := Publish(w.shared, Starting), logins := w.logins[l := Left], starts := w.starts + 1,
                    startsIssued := w.startsIssued + 1)
  {
    hide Reaches;
    v := SeesStopped(start, w, l);
    v := GoLogin(start, v, l, NoLateArm);
    assert v == Tell(w, Starting).(mutex := Some(l), logins := w.logins[l := Published]);
    v := GoLogin(start, v, l, NoLateArm);
    v := GoLogin(start, v, l, NoLateArm);
  }

  lemma SeesStopped(start: World, w: World, l: nat) returns (v: World)
    requires Reaches(start, w, NoLateArm) && OthersRest(w, l)
    requires Is(w, l, AtMutex) && w.mutex.None? && w.shared.server.Stopped?
    ensures Reaches(start, v, NoLateArm) && OthersRest(v, l)
    ensures v == w.(mutex := Some(l), logins := w.logins[l := SawStopped])
  {
    hide Reaches;
    v := GoLogin(start, w, l, NoLateArm);
    v := GoLogin(start, v, l, NoLateArm);
    v := GoLogin(start, v, l, NoLateArm);
  }

  lemma StartsWaiting(start: World, w: World, l: nat) returns (v: World)
    requires Reaches(start, w, NoLateArm) && OthersRest(w, l)
    requires Is(w, l, Left) && w.shared.server.Starting?
    ensures Reaches(start, v, NoLateArm) && OthersRest(v, l)
    ensures v == w.(logins := w.logins[l := Waiting(w.shared.version)])
  {
    hide Reaches;
    v := GoLogin(start, w, l, NoLateArm);
    v := GoLogin(start, v, l, NoLateArm);
    v := GoLogin(start, v, l, NoLateArm);
  }

  // ----- A stop that panics -----

  /** The side conditions of `Tidy` without the one on panics. */
  predicate OnlyPanics(w: World, a: Action) {
    && Uninterrupted(w, a)
    && (a.Announces? ==> w.starts == 0)
    && (a.RunArm? ==> !w.shared.server.Stopping?)
  }

  /** The stop panics on the RCON reply, Stopping stays, and a login that comes now never gets in. */
  lemma PanickedStopBlocksEveryLogin() returns (w: World)
    ensures Reaches(Init(true), w, OnlyPanics)
    ensures Stuck(w, 0) && !Faithful(w.shared)
  {
    hide Reaches;
    var start := Init(true);
    ReachesItself(start, OnlyPanics);
    w := PanickedStop(start);
    w := Joins(start, w, 0, OnlyPanics);
    w := BlocksAtGate(start, w, 0, OnlyPanics);
    ReachedAccounted(true, w, OnlyPanics);
  }

  lemma PanickedStop(start: World) returns (w: World)
    requires start == Init(true) && Reaches(start, start, OnlyPanics)
    ensures Reaches(start, w, OnlyPanics)
    ensures w.logins == map[] && w.mutex.None? && w.sync.Idle? && w.arms == 0 && w.starts == 0
    ensures w.shared.server.Stopping? && w.shared.tasks == [Task(Panicked, false)]
  {
    hide Reaches;
    w := Go(start, start, Wakes(0), OnlyPanics);
    assert w.shared.tasks == [Task(Firing, false)];
    w := Go(start, w, Announces(0), OnlyPanics);
    assert w.shared.tasks == [Task(StopInFlight, false)];
    w := Go(start, w, StopPanics(0), OnlyPanics);
  }

  // ----- A failed stop -----

  /** The server runs, nobody is there or on the way, and no task is going to stop it. */
  ghost predicate LeftRunning(w: World) {
    && w.shared.server.Running? && w.shared.players == 0 && w.arms == 0 && w.starts == 0 && w.sync.Idle?
    && (forall l :: l in w.logins ==> w.logins[l].Ended?)
    && (forall t :: 0 <= t < |w.shared.tasks| ==> !w.shared.tasks[t].Live() && !w.shared.tasks[t].phase.Firing?)
  }

  /** A stop that fails is not tried again: this is the case that NoOrphanedServer has to name. */
  lemma FailedStopLeavesServerRunning() returns (w: World)
    ensures Reaches(Init(true), w, Uninterrupted)
    ensures LeftRunning(w) && w.shared.tasks == [Task(StopFailed, false)]
  {
    hide Reaches;
    var start := Init(true);
    ReachesItself(start, Uninterrupted);
    w := Go(start, start, Wakes(0), Uninterrupted);
    w := Go(start, w, Announces(0), Uninterrupted);
    w := Go(start, w, StopReturned(0, false), Uninterrupted);
  }

  /** From there only a new connection or the sync loop can move anything. */
  lemma LeftRunningWaits(w: World, a: Action)
    requires LeftRunning(w) && Enabled(w, a)
    ensures a.Arrive? || a.SyncReads?
    ensures a == SyncReads(true) ==> Step(w, a) == w
  {
  }

  // ----- Interleavings inside a block -----

  /** A login counted after the idle task has read 0 is forwarded into a stopping container. */
  lemma LateCountForwardsIntoStop() returns (w: World)
    ensures Reaches(Init(true), w, ANY)
    ensures w.shared.server.Stopping? && Is(w, 0, Forwarding) && !GateSafe(w)
  {
    hide Reaches;
    var start := Init(true);
    ReachesItself(start, ANY);
    w := Go(start, start, Wakes(0), ANY);
    w := ForwardedLate(start, w);
    w := Go(start, w, Announces(0), ANY);
    assert w.logins[0].PastGate();
  }

  ghost predicate LateLogin(w: World, pc: Login, task: Task) {
    && w.logins == map[0 := pc] && w.shared.server.Running? && w.shared.tasks == [task]
    && (w.mutex.None? || pc.HoldsMutex())
  }

  lemma ForwardedLate(start: World, w: World) returns (v: World)
    requires Reaches(start, w, ANY) && w.logins == map[] && w.mutex.None?
    requires w.shared.server.Running? && w.shared.timer == Some(0) && w.shared.tasks == [Task(Firing, false)]
    ensures Reaches(start, v, ANY)
    ensures Is(v, 0, Forwarding) && v.shared.tasks == [Task(Firing, true)]
  {
    hide Reaches;
    v := Go(start, w, Arrive(0), ANY);
    v := Go(start, v, Advance(0), ANY);
    v := Go(start, v, Advance(0), ANY);
    assert LateLogin(v, Uncounted, Task(Firing, true));
    v := LatePassesGate(start, v);
  }

  lemma LatePassesGate(start: World, w: World) returns (v: World)
    requires Reaches(start, w, ANY) && LateLogin(w, Uncounted, Task(Firing, true))
    ensures Reaches(start, v, ANY) && LateLogin(v, Forwarding, Task(Firing, true))
  {
    hide Reaches;
    v := Go(start, w, Advance(0), ANY);
    v := Go(start, v, Advance(0), ANY);
    v := Go(start, v, Advance(0), ANY);
    assert LateLogin(v, GateClear, Task(Firing, true));
    v := Go(start, v, Advance(0), ANY);
    v := Go(start, v, Advance(0), ANY);
    v := Go(start, v, Advance(0), ANY);
  }

  /**
    A login that has not seen Stopping yet takes the timer after the stop was announced: the
    stop is aborted and Stopping stays, although no login is counted late.
  */
  lemma LateCancelAbortsStop() returns (w: World)
    ensures Reaches(Init(true), w, NoLateCount)
    ensures w.shared.server.Stopping? && !StopRunning(w.shared) && w.starts == 0 && w.arms == 0
  {
    hide Reaches;
    var start := Init(true);
    ReachesItself(start, NoLateCount);
    w := Go(start, start, Arrive(0), NoLateCount);
    w := Go(start, w, Advance(0), NoLateCount);
    w := Go(start, w, Wakes(0), NoLateCount);
    w := Go(start, w, Announces(0), NoLateCount);
    w := Go(start, w, Advance(0), NoLateCount);
  }
}

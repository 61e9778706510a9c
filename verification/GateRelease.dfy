/**
  A login that holds start_mutex in the gate loop while Stopping is published: exactly when it,
  and everybody behind it, can still get out.
*/
module GateRelease {
  import opened Options
  import opened SharedStates
  import opened Lifecycle
  import opened Accounting
  import opened GateSafety
  import opened StopSafety
  import opened Wakeup

  predicate HeldInGate(w: World, h: nat) {
    && w.shared.server.Stopping? && w.mutex == Some(h)
    && h in w.logins && w.logins[h].HoldsMutex() && !w.logins[h].PastGate()
  }

  /** On the way to a status probe, which may publish Running. */
  predicate MayProbe(pc: Login) {
    pc.Left? || pc.Subscribing? || pc.Subscribed? || pc.Waiting? || pc.Woken? || pc.Probing?
  }

  /** Has a stop under way, or decided on one, whose return publishes another state. */
  predicate MayStop(task: Task) {
    !task.aborted && (task.phase.Firing? || task.phase.StopInFlight?)
  }

  /** Somebody is left who can replace the published Stopping. */
  ghost predicate Resolvable(w: World) {
    || w.starts > 0
    || w.sync.AboutToStop?
    || (exists t :: 0 <= t < |w.shared.tasks| && MayStop(w.shared.tasks[t]))
    || (exists l :: l in w.logins && MayProbe(w.logins[l]))
  }

  // ----- Nobody left -----

  ghost predicate Stuck(w: World, h: nat) {
    Accounted(w) && HeldInGate(w, h) && !Resolvable(w)
  }

  /** The login in the gate is counted, so an idle task that wakes gives up; arming changes nothing either. */
  lemma StuckStep(w: World, a: Action, h: nat)
    requires Stuck(w, h) && Enabled(w, a)
    ensures Stuck(Step(w, a), h)
    ensures forall l :: l in Step(w, a).logins && Step(w, a).logins[l].PastGate() ==> l in w.logins && w.logins[l].PastGate()
  {
    hide Accounted;
    StepAccounted(w, a);
    if a.Advance? {
      AdvanceStuck(w, a.l, h);
    } else if a.Wakes? || a.Announces? || a.StopReturned? || a.StopPanics? {
      TaskStepStuck(w, a, h);
    } else {
      OtherStepStuck(w, a, h);
    }
  }

  lemma AdvanceStuck(w: World, l: nat, h: nat)
    requires Stuck(w, h) && Enabled(w, Advance(l))
    ensures HeldInGate(StepLogin(w, l), h) && !Resolvable(StepLogin(w, l))
    ensures forall m :: m in w.logins && StepLogin(w, l).logins[m].PastGate() ==> w.logins[m].PastGate()
  {
    hide Guards, Shared.OneLiveTask;
    var v := StepLogin(w, l);
    assert w.logins[l].HoldsMutex() ==> l == h;
    assert v.starts == w.starts && v.sync == w.sync;
    forall t | 0 <= t < |v.shared.tasks|
      ensures !MayStop(v.shared.tasks[t])
    {
      assert !MayStop(w.shared.tasks[t]);
    }
    assert !MayProbe(v.logins[l]);
  }

  lemma TaskStepStuck(w: World, a: Action, h: nat)
    requires Stuck(w, h) && Enabled(w, a) && (a.Wakes? || a.Announces? || a.StopReturned? || a.StopPanics?)
    ensures HeldInGate(Step(w, a), h) && !Resolvable(Step(w, a)) && Step(w, a).logins == w.logins
  {
    assert h in Guards(w.logins);
    assert !MayStop(w.shared.tasks[a.t]);
  }

  lemma OtherStepStuck(w: World, a: Action, h: nat)
    requires Stuck(w, h) && Enabled(w, a)
    requires !a.Advance? && !a.Wakes? && !a.Announces? && !a.StopReturned? && !a.StopPanics?
    ensures HeldInGate(Step(w, a), h) && !Resolvable(Step(w, a))
    ensures forall m :: m in Step(w, a).logins && Step(w, a).logins[m].PastGate() ==> m in w.logins && w.logins[m].PastGate()
  {
    assert h in Guards(w.logins);
    var v := Step(w, a);
    forall t | 0 <= t < |v.shared.tasks|
      ensures !MayStop(v.shared.tasks[t])
    {
      assert t < |w.shared.tasks| ==> !MayStop(w.shared.tasks[t]);
    }
  }

  ghost predicate StuckSince(w: World, v: World, h: nat) {
    Stuck(v, h) && forall l :: l in v.logins && v.logins[l].PastGate() ==> l in w.logins && w.logins[l].PastGate()
  }

  /** Once stuck, always stuck: no login gets past the gate in any continuation whatsoever. */
  lemma StuckForever(w: World, acts: seq<Action>, h: nat)
    requires Stuck(w, h) && Runs(w, acts, ANY)
    ensures Stuck(Exec(w, acts, ANY), h)
    ensures forall l :: l in Exec(w, acts, ANY).logins && Exec(w, acts, ANY).logins[l].PastGate() ==>
                          l in w.logins && w.logins[l].PastGate()
  {
    hide Stuck;
    var kept := v => StuckSince(w, v, h);
    forall v, a | kept(v) && Enabled(v, a)
      ensures kept(Step(v, a))
    {
      StuckStep(v, a, h);
    }
    RunKeeps(w, acts, ANY, kept);
  }

  // ----- Somebody left -----

  /** The state can be made another one than Stopping while the login in the gate stands still. */
  lemma Resolves(w: World, h: nat) returns (v: World)
    requires HeldInGate(w, h) && Resolvable(w)
    ensures Reaches(w, v, ANY) && !v.shared.server.Stopping? && v.shared.version > w.shared.version
    ensures h in v.logins && v.logins[h] == w.logins[h]
  {
    hide Reaches;
    ReachesItself(w, ANY);
    if w.starts > 0 {
      v := Go(w, w, StartFails, ANY);
    } else if w.sync.AboutToStop? {
      v := Go(w, w, SyncStep, ANY);
    } else if t :| 0 <= t < |w.shared.tasks| && MayStop(w.shared.tasks[t]) {
      v := w;
      if w.shared.tasks[t].phase.Firing? {
        v := Go(w, v, Announces(t), ANY);
      }
      v := Go(w, v, StopReturned(t, true), ANY);
    } else {
      var l :| l in w.logins && MayProbe(w.logins[l]);
      v := Probes(w, w, l, h);
    }
  }

  function ToProbe(pc: Login): nat {
    match pc
    case Left => 5
    case Subscribing => 4
    case Subscribed(_) => 3
    case Woken(_) => 3
    case Waiting(_) => 2
    case _ => 1
  }

  lemma Probes(start: World, w: World, l: nat, h: nat) returns (v: World)
    requires Reaches(start, w, ANY) && HeldInGate(w, h) && l in w.logins && MayProbe(w.logins[l])
    ensures Reaches(start, v, ANY) && v.shared.server.Running? && v.shared.version > w.shared.version
    ensures h in v.logins && v.logins[h] == w.logins[h]
    decreases ToProbe(w.logins[l])
  {
    hide Reaches;
    if w.logins[l].Probing? {
      v := Go(start, w, ProbeSucceeds(l), ANY);
    } else {
      var u := Go(start, w, if w.logins[l].Waiting? then BeginProbe(l) else Advance(l), ANY);
      v := Probes(start, u, l, h);
    }
  }

  /** With another state published since, the login walks out of the loop by its own steps. */
  lemma LeavesGate(start: World, w: World, h: nat) returns (v: World)
    requires Reaches(start, w, ANY) && !w.shared.server.Stopping?
    requires h in w.logins && w.logins[h].HoldsMutex() && !w.logins[h].PastGate()
    requires w.logins[h].GateSuspended? ==> w.logins[h].seen != w.shared.version
    ensures Reaches(start, v, ANY) && Is(v, h, GateClear)
  {
    hide Reaches;
    v := Go(start, w, Advance(h), ANY);
    if !w.logins[h].Entered? && !w.logins[h].GateLoop? {
      v := Go(start, v, Advance(h), ANY);
    }
  }

  // ----- Exactly -----

  /**
    At any granularity: the login in the gate can get out if and only if a start call is
    pending, the sync loop is about to publish Stopped, an un-aborted idle task has decided on
    its stop or awaits it, or a login past the gate can still probe.
  */
  lemma GateOpensExactly(w: World, h: nat)
    requires Accounted(w) && AllWakeable(w) && HeldInGate(w, h)
    ensures (exists v :: Reaches(w, v, ANY) && Is(v, h, GateClear)) <==> Resolvable(w)
  {
    if Resolvable(w) {
      assert Wakeable(w.shared, w.logins[h]);
      var v := Resolves(w, h);
      v := LeavesGate(w, v, h);
    } else {
      forall v | Reaches(w, v, ANY)
        ensures !Is(v, h, GateClear)
      {
        var acts :| Runs(w, acts, ANY) && Exec(w, acts, ANY) == v;
        StuckForever(w, acts, h);
      }
    }
  }

  lemma ReachableWakeable(runningAtStartup: bool, acts: seq<Action>, guard: Guard)
    requires Runs(Init(runningAtStartup), acts, guard)
    ensures AllWakeable(Exec(Init(runningAtStartup), acts, guard))
  {
    forall v, a | AllWakeable(v) && Enabled(v, a)
      ensures AllWakeable(Step(v, a))
    {
      StepWakeable(v, a);
    }
    RunKeeps(Init(runningAtStartup), acts, guard, AllWakeable);
  }

  /** So in every state that any interleaving can reach. */
  lemma GateOpensExactlyWhenResolvable(runningAtStartup: bool, before: seq<Action>, h: nat)
    requires Runs(Init(runningAtStartup), before, ANY)
    requires HeldInGate(Exec(Init(runningAtStartup), before, ANY), h)
    ensures var w := Exec(Init(runningAtStartup), before, ANY);
            (exists v :: Reaches(w, v, ANY) && Is(v, h, GateClear)) <==> Resolvable(w)
  {
    ReachableAccounted(runningAtStartup, before, ANY);
    ReachableWakeable(runningAtStartup, before, ANY);
    GateOpensExactly(Exec(Init(runningAtStartup), before, ANY), h);
  }

  /**
    After a run in which no login is counted late, an uninterrupted one for instance: it can get
    out if and only if a stop is in flight, or a start call is pending, or the sync loop has just
    found the container down (which at its await point is over).
  */
  lemma GateOpensExactlyOnStopOrStart(runningAtStartup: bool, before: seq<Action>, h: nat)
    requires Runs(Init(runningAtStartup), before, NoLateCount)
    requires HeldInGate(Exec(Init(runningAtStartup), before, NoLateCount), h)
    ensures var w := Exec(Init(runningAtStartup), before, NoLateCount);
            (exists v :: Reaches(w, v, ANY) && Is(v, h, GateClear)) <==>
            StopRunning(w.shared) || w.starts > 0 || w.sync.AboutToStop?
  {
    var w := Exec(Init(runningAtStartup), before, NoLateCount);
    ReachableAccounted(runningAtStartup, before, NoLateCount);
    ReachableWakeable(runningAtStartup, before, NoLateCount);
    GateOpensExactly(w, h);
    ReachableGateSafe(runningAtStartup, before);
    assert h in Guards(w.logins);
    assert Resolvable(w) <==> StopRunning(w.shared) || w.starts > 0 || w.sync.AboutToStop? by {
      if t :| 0 <= t < |w.shared.tasks| && MayStop(w.shared.tasks[t]) {
        assert w.shared.tasks[t].Stopping();
      }
      if t :| 0 <= t < |w.shared.tasks| && w.shared.tasks[t].Stopping() {
        assert MayStop(w.shared.tasks[t]);
      }
    }
  }
}

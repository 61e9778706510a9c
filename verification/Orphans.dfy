/** No server is left running with nobody connected and nothing scheduled to stop it. */
module Orphans {
  import opened Options
  import opened SharedStates
  import opened Lifecycle
  import opened Accounting

  /** Somebody is going to arm the idle timer. */
  ghost predicate ArmToCome(w: World) {
    || w.arms > 0
    || (exists l :: Is(w, l, LastDropped))
    || w.sync.Adopted?
    || w.sync.Arming?
  }

  /** The task in the timer slot is going to read the count, has just read 0, or its stop failed. */
  ghost predicate TimerInHand(s: Shared) {
    && s.timer.Some? && s.timer.value < |s.tasks|
    && var task := s.tasks[s.timer.value];
       !task.aborted && (task.phase.Sleeping? || task.phase.Firing? || task.phase.StopFailed?)
  }

  ghost predicate Covered(w: World) {
    w.shared.players == 0 && (w.shared.server.Starting? || w.shared.server.Running?) ==>
      ArmToCome(w) || TimerInHand(w.shared) || (exists l :: Is(w, l, Uncounted))
  }

  ghost predicate AccountedAndCovered(w: World) {
    Accounted(w) && Covered(w)
  }

  lemma StepCovered(w: World, a: Action)
    requires Accounted(w) && Covered(w) && Enabled(w, a)
    ensures Covered(Step(w, a))
  {
    var v := Step(w, a);
    if v.shared.players == 0 && (v.shared.server.Starting? || v.shared.server.Running?) {
      if a.Advance? {
        AdvanceCovered(w, a.l);
      } else if a.Exit? {
        assert Is(v, a.l, LastDropped);
      } else if a.Arrive? || a.BeginProbe? || a.ProbeFails? || a.ProbeSucceeds? {
        CountedLoginCovers(w, a, a.l);
      } else {
        OthersCovered(w, a);
      }
    }
  }

  lemma CountedLoginCovers(w: World, a: Action, l: nat)
    requires Accounted(w) && Covered(w) && Enabled(w, a)
    requires (a.Arrive? || a.BeginProbe? || a.ProbeFails? || a.ProbeSucceeds?) && a.l == l
    ensures Covered(Step(w, a))
  {
    if l in w.logins {
      assert l in Guards(w.logins);
      assert w.shared.players > 0;
    } else {
      KeepsMarks(w, Step(w, a), l);
    }
  }

  /** A login that is neither LastDropped nor Uncounted can move without uncovering anything. */
  lemma KeepsMarks(w: World, v: World, l: nat)
    requires forall m :: m != l ==> (m in v.logins <==> m in w.logins)
    requires forall m :: m != l && m in w.logins ==> v.logins[m] == w.logins[m]
    requires l in w.logins ==> !w.logins[l].LastDropped? && !w.logins[l].Uncounted?
    ensures (exists m :: Is(w, m, LastDropped)) ==> exists m :: Is(v, m, LastDropped)
    ensures (exists m :: Is(w, m, Uncounted)) ==> exists m :: Is(v, m, Uncounted)
  {
    if m :| Is(w, m, LastDropped) {
      assert Is(v, m, LastDropped);
    }
    if m :| Is(w, m, Uncounted) {
      assert Is(v, m, Uncounted);
    }
  }

  lemma AdvanceCovered(w: World, l: nat)
    requires Accounted(w) && Covered(w) && Enabled(w, Advance(l))
    ensures Covered(StepLogin(w, l))
  {
    var v := StepLogin(w, l);
    assert l in Guards(w.logins) <==> w.logins[l].Counted();
    if w.logins[l].Counted() {
      assert v.shared.players == w.shared.players > 0;
    } else if w.logins[l].Parsed? {
      KeepsMarks(w, v, l);
    } else if w.logins[l].Cancelling? {
      assert Is(v, l, Uncounted);
    }
  }

  lemma OthersCovered(w: World, a: Action)
    requires Accounted(w) && Covered(w) && Enabled(w, a)
    requires a.Wakes? || a.Announces? || a.StopReturned? || a.StopPanics? || a.RunArm? || a.StartSucceeds? || a.StartFails?
          || a.SyncReads? || a.SyncStep?
    ensures Covered(Step(w, a))
  {
    var v := Step(w, a);
    assert v.logins == w.logins;
    ScheduleArmsExactlyOne(w.shared);
    if l :| Is(w, l, LastDropped) {
      assert Is(v, l, LastDropped);
    }
    if l :| Is(w, l, Uncounted) {
      assert Is(v, l, Uncounted);
    }
  }

  /**
    In every reachable state of any interleaving: if nobody is connected and the server is
    starting or running, then an arming task is on its way, or the task in the timer slot has
    still to act, or the last stop failed, or a login is about to be counted.
  */
  lemma NoOrphanedServer(runningAtStartup: bool, acts: seq<Action>)
    requires Runs(Init(runningAtStartup), acts, ANY)
    ensures var w := Exec(Init(runningAtStartup), acts, ANY);
            w.shared.players == 0 && (w.shared.server.Starting? || w.shared.server.Running?) ==>
              ArmToCome(w) || TimerInHand(w.shared) || exists l :: Is(w, l, Uncounted)
  {
    InitAccounted(runningAtStartup);
    forall v, a | AccountedAndCovered(v) && Enabled(v, a)
      ensures AccountedAndCovered(Step(v, a))
    {
      StepAccounted(v, a);
      StepCovered(v, a);
    }
    RunKeeps(Init(runningAtStartup), acts, ANY, AccountedAndCovered);
  }

  /** Every thread is at an await point. */
  ghost predicate AtAwaitPoints(w: World) {
    && (forall l :: l in w.logins ==> !w.logins[l].MidBlock())
    && !(exists t :: 0 <= t < |w.shared.tasks| && w.shared.tasks[t].phase.Firing?)
    && w.sync.Idle?
  }

  /**
    Seen from the await points: if nobody is connected and the server is starting or running, an
    arming task is pending, or the task in the slot sleeps, or its stop failed.
  */
  lemma NoOrphanAtAwaitPoints(runningAtStartup: bool, acts: seq<Action>)
    requires Runs(Init(runningAtStartup), acts, ANY)
    requires AtAwaitPoints(Exec(Init(runningAtStartup), acts, ANY))
    ensures var w := Exec(Init(runningAtStartup), acts, ANY);
            w.shared.players == 0 && (w.shared.server.Starting? || w.shared.server.Running?) ==>
              || w.arms > 0
              || (w.shared.timer.Some? && w.shared.timer.value < |w.shared.tasks|
                  && (w.shared.tasks[w.shared.timer.value] == Task(Sleeping, false)
                      || w.shared.tasks[w.shared.timer.value] == Task(StopFailed, false)))
  {
    NoOrphanedServer(runningAtStartup, acts);
    var w := Exec(Init(runningAtStartup), acts, ANY);
    assert forall l :: l in w.logins ==> !w.logins[l].LastDropped? && !w.logins[l].Uncounted?;
  }

  // ----- Failed stops -----

  /** The server is left to itself: nobody is connected, it is up, and nothing is scheduled. */
  ghost predicate LeftAlone(w: World) {
    && w.shared.players == 0 && (w.shared.server.Starting? || w.shared.server.Running?)
    && w.arms == 0 && forall t :: 0 <= t < |w.shared.tasks| ==> !w.shared.tasks[t].Live()
  }

  /** At the await points a server is left alone exactly after a failed stop, until somebody comes or re-arms. */
  lemma LeftAloneExactlyAfterFailedStop(runningAtStartup: bool, acts: seq<Action>)
    requires Runs(Init(runningAtStartup), acts, ANY)
    requires AtAwaitPoints(Exec(Init(runningAtStartup), acts, ANY))
    ensures var w := Exec(Init(runningAtStartup), acts, ANY);
            w.shared.players == 0 && (w.shared.server.Starting? || w.shared.server.Running?) ==>
              (LeftAlone(w) <==>
               && w.arms == 0 && w.shared.timer.Some? && w.shared.timer.value < |w.shared.tasks|
               && w.shared.tasks[w.shared.timer.value] == Task(StopFailed, false))
  {
    NoOrphanAtAwaitPoints(runningAtStartup, acts);
    ReachableAccounted(runningAtStartup, acts, ANY);
    var w := Exec(Init(runningAtStartup), acts, ANY);
    assert forall t :: 0 <= t < |w.shared.tasks| && w.shared.tasks[t].Live() ==> w.shared.timer == Some(t);
  }

  predicate StopsSucceed(w: World, a: Action) {
    a.StopReturned? ==> a.ok
  }

  predicate NoneFailed(w: World) {
    forall t :: 0 <= t < |w.shared.tasks| ==> !w.shared.tasks[t].phase.StopFailed?
  }

  lemma StepNoneFailed(w: World, a: Action)
    requires NoneFailed(w) && Enabled(w, a) && StopsSucceed(w, a)
    ensures NoneFailed(Step(w, a))
  {
  }

  /**
    Over every run in which no stop fails, at the await points: a server that starts or runs with
    nobody connected has an arming task pending or an un-aborted sleeping task in the slot.
  */
  lemma NoOrphanUnlessStopFails(runningAtStartup: bool, acts: seq<Action>)
    requires Runs(Init(runningAtStartup), acts, StopsSucceed)
    requires AtAwaitPoints(Exec(Init(runningAtStartup), acts, StopsSucceed))
    ensures var w := Exec(Init(runningAtStartup), acts, StopsSucceed);
            w.shared.players == 0 && (w.shared.server.Starting? || w.shared.server.Running?) ==>
              || w.arms > 0
              || (w.shared.timer.Some? && w.shared.timer.value < |w.shared.tasks|
                  && w.shared.tasks[w.shared.timer.value] == Task(Sleeping, false))
  {
    forall v, a | NoneFailed(v) && Enabled(v, a) && StopsSucceed(v, a)
      ensures NoneFailed(Step(v, a))
    {
      StepNoneFailed(v, a);
    }
    RunKeeps(Init(runningAtStartup), acts, StopsSucceed, NoneFailed);
    RunsWeaker(Init(runningAtStartup), acts, StopsSucceed, ANY);
    NoOrphanAtAwaitPoints(runningAtStartup, acts);
  }
}

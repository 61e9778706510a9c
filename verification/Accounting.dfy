/**
  What holds in every state that any interleaving can reach: the player count is the number of
  live guards, the mutex has the holder the program counters say, and only the task in the
  timer slot is alive.
*/
module Accounting {
  import opened Options
  import opened SharedStates
  import opened Lifecycle

  function Guards(logins: map<nat, Login>): set<nat> {
    set l | l in logins && logins[l].Counted()
  }

  ghost predicate Accounted(w: World) {
    && w.shared.players == |Guards(w.logins)|
    && w.shared.OneLiveTask()
    && (forall l :: l in w.logins && w.logins[l].HoldsMutex() ==> w.mutex == Some(l))
    && (w.mutex.Some? ==> w.mutex.value in w.logins && w.logins[w.mutex.value].HoldsMutex())
  }

  lemma GuardsAfterMove(logins: map<nat, Login>, l: nat, pc: Login)
    ensures Guards(logins[l := pc]) == if pc.Counted() then Guards(logins) + {l} else Guards(logins) - {l}
  {
  }

  lemma MoveCounted(logins: map<nat, Login>, l: nat, pc: Login)
    ensures |Guards(logins[l := pc])| + (if l in logins && logins[l].Counted() then 1 else 0)
         == |Guards(logins)| + (if pc.Counted() then 1 else 0)
  {
    hide Login.Counted;
    GuardsAfterMove(logins, l, pc);
    assert l in Guards(logins) <==> l in logins && logins[l].Counted();
  }

  lemma InitAccounted(runningAtStartup: bool)
    ensures Accounted(Init(runningAtStartup))
  {
    assert Guards(map[]) == {};
  }

  /** One login moves and nothing but its own count, its own hold of the mutex and the tasks change. */
  lemma MoveAccounted(w: World, v: World, l: nat, pc: Login)
    requires Accounted(w) && v.logins == w.logins[l := pc] && v.shared.OneLiveTask()
    requires v.shared.players + (if l in w.logins && w.logins[l].Counted() then 1 else 0)
          == w.shared.players + (if pc.Counted() then 1 else 0)
    requires pc.HoldsMutex() ==> v.mutex == Some(l) && (w.mutex == Some(l) || w.mutex.None?)
    requires !pc.HoldsMutex() ==> v.mutex == if w.mutex == Some(l) then None else w.mutex
    ensures Accounted(v)
  {
    hide Guards, Shared.OneLiveTask, Login.Counted, Login.HoldsMutex;
    MoveCounted(w.logins, l, pc);
  }

  lemma StepAccounted(w: World, a: Action)
    requires Accounted(w) && Enabled(w, a)
    ensures Accounted(Step(w, a))
  {
    match a {
      case Arrive(l) => MoveAccounted(w, Step(w, a), l, Parsed);
      case Advance(l) => AdvanceAccounted(w, l);
      case BeginProbe(l) => MoveAccounted(w, Step(w, a), l, Probing(w.logins[l].seen));
      case ProbeFails(l) => MoveAccounted(w, Step(w, a), l, Waiting(w.logins[l].seen));
      case ProbeSucceeds(l) => PublisherAccounted(w, a, l);
      case Exit(l) => PublisherAccounted(w, a, l);
      case _ => TaskStepAccounted(w, a);
    }
  }

  lemma PublisherAccounted(w: World, a: Action, l: nat)
    requires Accounted(w) && Enabled(w, a) && (a == ProbeSucceeds(l) || a == Exit(l))
    ensures Accounted(Step(w, a))
  {
    assert l in Guards(w.logins);
    MoveAccounted(w, Step(w, a), l, Step(w, a).logins[l]);
  }

  lemma TaskStepAccounted(w: World, a: Action)
    requires Accounted(w) && Enabled(w, a) && Step(w, a).logins == w.logins && Step(w, a).mutex == w.mutex
    requires a.Wakes? || a.Announces? || a.StopReturned? || a.StopPanics? || a.RunArm? || a.StartSucceeds? || a.StartFails?
          || a.SyncReads? || a.SyncStep?
    ensures Accounted(Step(w, a))
  {
    ScheduleArmsExactlyOne(w.shared);
  }

  lemma AdvanceAccounted(w: World, l: nat)
    requires Accounted(w) && Enabled(w, Advance(l))
    ensures Accounted(Step(w, Advance(l)))
  {
    hide StepLogin, CanAdvance;
    var v := StepLogin(w, l);
    AdvanceKeepsTasks(w, l);
    AdvanceCounts(w, l);
    AdvanceHoldsMutex(w, l);
    MoveAccounted(w, v, l, v.logins[l]);
  }

  lemma AdvanceKeepsTasks(w: World, l: nat)
    requires Accounted(w) && Enabled(w, Advance(l))
    ensures StepLogin(w, l).shared.OneLiveTask()
  {
    if w.logins[l].Cancelling? {
      TakeTimerSilences(w.shared);
    }
  }

  lemma AdvanceCounts(w: World, l: nat)
    requires Enabled(w, Advance(l))
    ensures l in StepLogin(w, l).logins && StepLogin(w, l).logins == w.logins[l := StepLogin(w, l).logins[l]]
    ensures StepLogin(w, l).shared.players + (if w.logins[l].Counted() then 1 else 0)
         == w.shared.players + (if StepLogin(w, l).logins[l].Counted() then 1 else 0)
  {
  }

  lemma AdvanceHoldsMutex(w: World, l: nat)
    requires Accounted(w) && Enabled(w, Advance(l))
    ensures var pc, v := StepLogin(w, l).logins[l], StepLogin(w, l);
            && (pc.HoldsMutex() ==> v.mutex == Some(l) && (w.mutex == Some(l) || w.mutex.None?))
            && (!pc.HoldsMutex() ==> v.mutex == if w.mutex == Some(l) then None else w.mutex)
  {
  }

  lemma ReachableAccounted(runningAtStartup: bool, acts: seq<Action>, guard: Guard)
    requires Runs(Init(runningAtStartup), acts, guard)
    ensures Accounted(Exec(Init(runningAtStartup), acts, guard))
  {
    InitAccounted(runningAtStartup);
    forall v, a | Accounted(v) && Enabled(v, a)
      ensures Accounted(Step(v, a))
    {
      StepAccounted(v, a);
    }
    RunKeeps(Init(runningAtStartup), acts, guard, Accounted);
  }

  lemma ReachedAccounted(runningAtStartup: bool, w: World, guard: Guard)
    requires Reaches(Init(runningAtStartup), w, guard)
    ensures Accounted(w)
  {
    var acts :| Runs(Init(runningAtStartup), acts, guard) && Exec(Init(runningAtStartup), acts, guard) == w;
    ReachableAccounted(runningAtStartup, acts, guard);
  }

  /**
    In every reachable state of any interleaving the player count is the number of live
    guards, and a task that is neither over nor aborted is the one in the timer slot.
  */
  lemma PlayerCountIsExact(runningAtStartup: bool, acts: seq<Action>)
    requires Runs(Init(runningAtStartup), acts, ANY)
    ensures var w := Exec(Init(runningAtStartup), acts, ANY);
            && w.shared.players == |Guards(w.logins)|
            && (forall t :: 0 <= t < |w.shared.tasks| && w.shared.tasks[t].Live() ==> w.shared.timer == Some(t))
            && (forall l, m :: l in w.logins && m in w.logins && w.logins[l].HoldsMutex() && w.logins[m].HoldsMutex() ==>
                                 l == m)
  {
    ReachableAccounted(runningAtStartup, acts, ANY);
  }

  /**
    The saturating subtraction never saturates, and the count falls to zero exactly when one
    guard is dropped that then spawns one arming task.
  */
  lemma OneDropSeesEachFallToZero(w: World, a: Action)
    requires Accounted(w) && Enabled(w, a)
    ensures a.Exit? ==> w.shared.players > 0 && Step(w, a).shared.players == w.shared.players - 1
    ensures w.shared.players > 0 && Step(w, a).shared.players == 0 <==> a.Exit? && Is(Step(w, a), a.l, LastDropped)
    ensures Step(w, a).arms == w.arms + 1 <==> a.Advance? && Is(w, a.l, LastDropped)
    ensures Step(w, a).arms > w.arms ==> Is(Step(w, a), a.l, Ended)
  {
    if a.Exit? {
      assert a.l in Guards(w.logins);
    }
  }
}

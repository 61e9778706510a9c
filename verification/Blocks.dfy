/**
  The steps of one thread, taken with nobody in between, do what the corresponding method of
  SharedState does: the transition system and the methods describe the same program.

  Each lemma gives steps of that thread alone; they are an uninterrupted run whenever no other
  thread is inside a block at the start.
*/
module Blocks {
  import opened Options
  import opened SharedStates
  import opened Lifecycle

  lemma RunOf2(w: World, a: Action, b: Action)
    requires Enabled(w, a) && Enabled(Step(w, a), b)
    ensures Runs(w, [a, b], ANY) && Exec(w, [a, b], ANY) == Step(Step(w, a), b)
  {
    RunOfOne(Step(w, a), b, ANY);
    RunOfOne(w, a, ANY);
    RunsConcat(w, [a], [b], ANY);
    assert [a] + [b] == [a, b];
  }

  /** handle_login from cancel_idle_shutdown to begin_session. */
  lemma BeginBlock(w: World, l: nat) returns (acts: seq<Action>)
    requires Is(w, l, Parsed)
    ensures AllBy(acts, LoginThread(l)) && Runs(w, acts, ANY) && Is(Exec(w, acts, ANY), l, AtMutex)
    ensures Undisturbed(w, LoginThread(l)) ==> Runs(w, acts, Uninterrupted)
    ensures Exec(w, acts, ANY).shared == Cancel(w.shared).(players := w.shared.players + 1)
  {
    var step := Advance(l);
    if w.shared.server.Stopping? {
      RunOf2(w, step, step);
      acts := [step, step];
    } else {
      RunOf2(w, step, step);
      var v := Step(Step(w, step), step);
      RunOfOne(v, step, ANY);
      RunsConcat(w, [step, step], [step], ANY);
      acts := [step, step] + [step];
    }
    if Undisturbed(w, LoginThread(l)) {
      OwnRunIsUninterrupted(w, acts, LoginThread(l));
    }
  }

  /** handle_login from the end of the gate loop to the call of wait_for_server or forward. */
  lemma GateBlock(w: World, l: nat) returns (acts: seq<Action>)
    requires Is(w, l, GateClear) && !w.shared.server.Stopping?
    ensures AllBy(acts, LoginThread(l)) && Runs(w, acts, ANY)
    ensures Undisturbed(w, LoginThread(l)) ==> Runs(w, acts, Uninterrupted)
    ensures var v := Exec(w, acts, ANY);
            && v.shared == PassedGate(w.shared) && v.mutex.None?
            && v.startsIssued == w.startsIssued + (if w.shared.server.Stopped? then 1 else 0)
            && v.starts == w.starts + (if w.shared.server.Stopped? then 1 else 0)
            && Is(v, l, if v.shared.server.Starting? then Subscribing else Forwarding)
  {
    var step := Advance(l);
    if w.shared.server.Stopped? {
      RunOf2(w, step, step);
      var v := Step(Step(w, step), step);
      RunOf2(v, step, step);
      RunsConcat(w, [step, step], [step, step], ANY);
      var u := Step(Step(v, step), step);
      RunOfOne(u, step, ANY);
      RunsConcat(w, [step, step] + [step, step], [step], ANY);
      acts := [step, step] + [step, step] + [step];
    } else {
      RunOf2(w, step, step);
      var v := Step(Step(w, step), step);
      RunOfOne(v, step, ANY);
      RunsConcat(w, [step, step], [step], ANY);
      acts := [step, step] + [step];
    }
    if Undisturbed(w, LoginThread(l)) {
      OwnRunIsUninterrupted(w, acts, LoginThread(l));
    }
  }

  /** The idle task from the end of its sleep to its stop call. */
  lemma IdleTaskBlock(w: World, t: nat) returns (acts: seq<Action>)
    requires Enabled(w, Wakes(t))
    ensures AllBy(acts, TaskThread(t)) && Runs(w, acts, ANY)
    ensures Undisturbed(w, TaskThread(t)) ==> Runs(w, acts, Uninterrupted)
    ensures Exec(w, acts, ANY).shared ==
            if w.shared.players == 0 then Announce(Wake(w.shared, t), t) else Wake(w.shared, t)
  {
    if w.shared.players == 0 {
      RunOf2(w, Wakes(t), Announces(t));
      acts := [Wakes(t), Announces(t)];
    } else {
      RunOfOne(w, Wakes(t), ANY);
      acts := [Wakes(t)];
    }
    if Undisturbed(w, TaskThread(t)) {
      OwnRunIsUninterrupted(w, acts, TaskThread(t));
    }
  }

  /** One whole round of the sync loop. */
  lemma SyncBlock(w: World, running: bool) returns (acts: seq<Action>)
    requires w.sync.Idle?
    ensures AllBy(acts, SyncThread) && Runs(w, acts, ANY) && Exec(w, acts, ANY).sync.Idle?
    ensures Undisturbed(w, SyncThread) ==> Runs(w, acts, Uninterrupted)
    ensures Exec(w, acts, ANY).shared == Synced(w.shared, running)
  {
    var first := SyncReads(running);
    var v := Step(w, first);
    if v.sync.Idle? {
      RunOfOne(w, first, ANY);
      acts := [first];
    } else if v.sync.AboutToStop? {
      RunOf2(w, first, SyncStep);
      acts := [first, SyncStep];
    } else {
      var u := Step(v, SyncStep);
      RunOf2(w, first, SyncStep);
      if w.shared.players == 0 {
        RunOf2(u, SyncStep, SyncStep);
        RunsConcat(w, [first, SyncStep], [SyncStep, SyncStep], ANY);
        acts := [first, SyncStep] + [SyncStep, SyncStep];
      } else {
        RunOfOne(u, SyncStep, ANY);
        RunsConcat(w, [first, SyncStep], [SyncStep], ANY);
        acts := [first, SyncStep] + [SyncStep];
      }
    }
    if Undisturbed(w, SyncThread) {
      OwnRunIsUninterrupted(w, acts, SyncThread);
    }
  }

  /** The rest of the idle task, once its stop has returned. */
  lemma StopReturnBlock(w: World, t: nat, ok: bool) returns (acts: seq<Action>)
    requires Enabled(w, StopReturned(t, ok))
    ensures AllBy(acts, TaskThread(t)) && Runs(w, acts, ANY)
    ensures Undisturbed(w, TaskThread(t)) ==> Runs(w, acts, Uninterrupted)
    ensures Exec(w, acts, ANY).shared == StopReturns(w.shared, t, ok)
  {
    acts := [StopReturned(t, ok)];
    RunOfOne(w, acts[0], ANY);
    if Undisturbed(w, TaskThread(t)) {
      OwnRunIsUninterrupted(w, acts, TaskThread(t));
    }
  }

  /** The end of a session: its guard is dropped, and spawns an arming task if the count is then 0. */
  lemma DropBlock(w: World, l: nat) returns (acts: seq<Action>)
    requires Enabled(w, Exit(l))
    ensures AllBy(acts, LoginThread(l)) && Runs(w, acts, ANY)
    ensures Undisturbed(w, LoginThread(l)) ==> Runs(w, acts, Uninterrupted)
    ensures var v := Exec(w, acts, ANY);
            && v.shared == Leave(w.shared) && Is(v, l, Ended)
            && v.arms == w.arms + (if v.shared.players == 0 then 1 else 0)
  {
    if Leave(w.shared).players == 0 {
      RunOf2(w, Exit(l), Advance(l));
      acts := [Exit(l), Advance(l)];
    } else {
      RunOfOne(w, Exit(l), ANY);
      acts := [Exit(l)];
    }
    if Undisturbed(w, LoginThread(l)) {
      OwnRunIsUninterrupted(w, acts, LoginThread(l));
    }
  }

  /** A spawned arming task. */
  lemma ArmBlock(w: World) returns (acts: seq<Action>)
    requires w.arms > 0
    ensures AllBy(acts, Elsewhere) && Runs(w, acts, ANY)
    ensures Undisturbed(w, Elsewhere) ==> Runs(w, acts, Uninterrupted)
    ensures Exec(w, acts, ANY).shared == Schedule(w.shared) && Exec(w, acts, ANY).arms == w.arms - 1
  {
    acts := [RunArm];
    RunOfOne(w, RunArm, ANY);
    if Undisturbed(w, Elsewhere) {
      OwnRunIsUninterrupted(w, acts, Elsewhere);
    }
  }
}

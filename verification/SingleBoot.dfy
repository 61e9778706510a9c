/** How many `docker.start` calls the gate under `start_mutex` lets through. */
module SingleBoot {
  import opened Options
  import opened SharedStates
  import opened Lifecycle
  import opened Accounting

  /** Start calls that the present state has already made unavoidable or still permits. */
  function Credit(w: World): nat {
    var stopped := if w.shared.server.Stopped? then 1 else 0;
    if w.mutex.Some? && Is(w, w.mutex.value, SawStopped) then 1
    else if w.mutex.Some? && Is(w, w.mutex.value, Published) then 1 + stopped
    else stopped
  }

  /** Start calls issued and still permitted, less the publications of Stopped that paid for them. */
  function Potential(w: World): int {
    w.startsIssued + Credit(w) - w.stoppedPublished
  }

  /** No step of any thread raises it. */
  lemma PotentialNeverRises(w: World, a: Action)
    requires Accounted(w) && Enabled(w, a)
    ensures Potential(Step(w, a)) <= Potential(w)
  {
    if a.Advance? {
      AdvanceNeverRaises(w, a.l);
    } else {
      CreditMovesWithStopped(w, a);
    }
  }

  lemma CreditMovesWithStopped(w: World, a: Action)
    requires Accounted(w) && Enabled(w, a) && !a.Advance?
    ensures Step(w, a).startsIssued == w.startsIssued
    ensures Credit(Step(w, a)) + w.stoppedPublished <= Credit(w) + Step(w, a).stoppedPublished
  {
    var v := Step(w, a);
    assert v.mutex == w.mutex;
    if w.mutex.Some? {
      var h := w.mutex.value;
      assert v.logins[h] == w.logins[h];
    }
  }

  lemma AdvanceNeverRaises(w: World, l: nat)
    requires Accounted(w) && Enabled(w, Advance(l))
    ensures Potential(StepLogin(w, l)) <= Potential(w)
  {
    if w.logins[l].HoldsMutex() {
      assert w.mutex == Some(l);
    } else if w.mutex.Some? {
      var h := w.mutex.value;
      assert StepLogin(w, l).logins[h] == w.logins[h];
    }
  }

  lemma RunPotential(w: World, acts: seq<Action>, guard: Guard)
    requires Accounted(w) && Runs(w, acts, guard)
    ensures Accounted(Exec(w, acts, guard)) && Potential(Exec(w, acts, guard)) <= Potential(w)
  {
    var kept := v => Accounted(v) && Potential(v) <= Potential(w);
    forall v, a | kept(v) && Enabled(v, a)
      ensures kept(Step(v, a))
    {
      StepAccounted(v, a);
      PotentialNeverRises(v, a);
    }
    RunKeeps(w, acts, guard, kept);
  }

  /**
    In every stretch of every run, at the finest granularity: the start calls issued are at most
    those that the state at its beginning permits, and one more for each Stopped published in it.
  */
  lemma StartsArePaidFor(runningAtStartup: bool, before: seq<Action>, acts: seq<Action>)
    requires Runs(Init(runningAtStartup), before, ANY)
    requires Runs(Exec(Init(runningAtStartup), before, ANY), acts, ANY)
    ensures var w := Exec(Init(runningAtStartup), before, ANY);
            var v := Exec(w, acts, ANY);
            && v.startsIssued - w.startsIssued <= Credit(w) + (v.stoppedPublished - w.stoppedPublished)
            && (w.mutex.None? ==> Credit(w) <= 1)
  {
    ReachableAccounted(runningAtStartup, before, ANY);
    RunPotential(Exec(Init(runningAtStartup), before, ANY), acts, ANY);
  }

  /** From the beginning: one start at most, and one more per Stopped published. */
  lemma StartsAreBounded(runningAtStartup: bool, acts: seq<Action>)
    requires Runs(Init(runningAtStartup), acts, ANY)
    ensures var w := Exec(Init(runningAtStartup), acts, ANY);
            w.startsIssued <= 1 + w.stoppedPublished
  {
    InitAccounted(runningAtStartup);
    RunPotential(Init(runningAtStartup), acts, ANY);
  }

  predicate NoStopped(w: World, a: Action) {
    Enabled(w, a) && Step(w, a).stoppedPublished == w.stoppedPublished
  }

  lemma {:induction false} NoStoppedCounts(w: World, acts: seq<Action>)
    requires Runs(w, acts, NoStopped)
    ensures Exec(w, acts, NoStopped).stoppedPublished == w.stoppedPublished
    decreases |acts|
  {
    if acts == [] {
    } else {
      NoStoppedCounts(Step(w, acts[0]), acts[1..]);
    }
  }

  /** From any reachable state with start_mutex free, until Stopped is published again, at most one start. */
  lemma OneStartUntilStopped(runningAtStartup: bool, before: seq<Action>, acts: seq<Action>)
    requires Runs(Init(runningAtStartup), before, ANY)
    requires Runs(Exec(Init(runningAtStartup), before, ANY), acts, NoStopped)
    requires Exec(Init(runningAtStartup), before, ANY).mutex.None?
    ensures var w := Exec(Init(runningAtStartup), before, ANY);
            Exec(w, acts, NoStopped).startsIssued <= w.startsIssued + 1
  {
    ReachableAccounted(runningAtStartup, before, ANY);
    var w := Exec(Init(runningAtStartup), before, ANY);
    RunPotential(w, acts, NoStopped);
    NoStoppedCounts(w, acts);
  }

  // ----- The logins that meet on a stopped server -----

  /** A login that has not got a start issued or found one under way; or one that is over. */
  predicate BeforeStart(pc: Login) {
    pc.Parsed? || pc.Cancelling? || pc.Uncounted? || pc.AtMutex? || pc.Entered? || pc.GateSubscribing?
    || pc.GateLoop? || pc.GateSuspended? || pc.GateClear? || pc.SawStopped? || pc.Published? || pc.Ended?
  }

  /**
    The server is stopped, no arming or idle task can act, and no login has passed the gate yet;
    n starts have been issued.  While a start is being decided the state may already be Starting.
  */
  ghost predicate Rested(w: World, n: nat) {
    && w.startsIssued == n && w.arms == 0
    && (forall t :: 0 <= t < |w.shared.tasks| ==> !w.shared.tasks[t].Live() && !w.shared.tasks[t].phase.Firing?)
    && !w.sync.Adopted? && !w.sync.Arming?
    && w.shared.server == (if w.mutex.Some? && Is(w, w.mutex.value, Published) then Starting else Stopped)
    && (forall l :: l in w.logins ==> BeforeStart(w.logins[l]))
  }

  ghost predicate OneBoot(w: World, n: nat) {
    && Accounted(w) && w.startsIssued + Credit(w) <= n + 1
    && (Rested(w, n) || w.startsIssued == n + 1)
  }

  /** No Stopped is published and the sync loop adopts nothing. */
  predicate NoOutsideHelp(w: World, a: Action) {
    NoStopped(w, a) && !(a.SyncStep? && Step(w, a).sync.Adopted?)
  }

  lemma StepOneBoot(w: World, a: Action, n: nat)
    requires OneBoot(w, n) && Enabled(w, a) && NoOutsideHelp(w, a)
    ensures OneBoot(Step(w, a), n)
  {
    hide Accounted, Credit;
    StepAccounted(w, a);
    PotentialNeverRises(w, a);
    if w.startsIssued == n {
      StepRested(w, a, n);
    } else {
      StartsNeverFall(w, a);
    }
  }

  lemma StartsNeverFall(w: World, a: Action)
    requires Enabled(w, a)
    ensures w.startsIssued <= Step(w, a).startsIssued
  {
  }

  lemma StepRested(w: World, a: Action, n: nat)
    requires Accounted(w) && Rested(w, n) && Enabled(w, a) && NoOutsideHelp(w, a)
    ensures Rested(Step(w, a), n) || Step(w, a).startsIssued == n + 1
  {
    if a.Advance? {
      AdvanceRested(w, a.l, n);
    } else {
      OtherStepsRested(w, a, n);
    }
  }

  lemma OtherStepsRested(w: World, a: Action, n: nat)
    requires Accounted(w) && Rested(w, n) && Enabled(w, a) && NoOutsideHelp(w, a) && !a.Advance?
    ensures Rested(Step(w, a), n)
  {
    var v := Step(w, a);
    assert v.mutex == w.mutex;
    if w.mutex.Some? {
      assert v.logins[w.mutex.value] == w.logins[w.mutex.value];
    }
  }

  lemma AdvanceRested(w: World, l: nat, n: nat)
    requires Accounted(w) && Rested(w, n) && Enabled(w, Advance(l))
    ensures Rested(StepLogin(w, l), n) || StepLogin(w, l).startsIssued == n + 1
  {
    assert BeforeStart(w.logins[l]);
    if w.logins[l].HoldsMutex() {
      assert w.mutex == Some(l);
    } else if w.mutex.Some? {
      assert StepLogin(w, l).logins[w.mutex.value] == w.logins[w.mutex.value];
    }
  }

  /**
    From any reachable state in which the server is stopped and at rest, whatever happened
    before, and however many logins meet there, those included that waited for the stop: as long
    as nothing publishes Stopped and the container is not started from outside, exactly one more
    start has been issued once any of them has got through the gate.
  */
  lemma LoginsShareOneStart(runningAtStartup: bool, before: seq<Action>, acts: seq<Action>, l: nat)
    requires Runs(Init(runningAtStartup), before, ANY)
    requires var w := Exec(Init(runningAtStartup), before, ANY);
             w.shared.server.Stopped? && Rested(w, w.startsIssued) && Runs(w, acts, NoOutsideHelp)
    requires l in Exec(Exec(Init(runningAtStartup), before, ANY), acts, NoOutsideHelp).logins
    requires !BeforeStart(Exec(Exec(Init(runningAtStartup), before, ANY), acts, NoOutsideHelp).logins[l])
    ensures var w := Exec(Init(runningAtStartup), before, ANY);
            Exec(w, acts, NoOutsideHelp).startsIssued == w.startsIssued + 1
  {
    var w := Exec(Init(runningAtStartup), before, ANY);
    ReachableAccounted(runningAtStartup, before, ANY);
    var kept := v => OneBoot(v, w.startsIssued);
    forall v, a | kept(v) && Enabled(v, a) && NoOutsideHelp(v, a)
      ensures kept(Step(v, a))
    {
      StepOneBoot(v, a, w.startsIssued);
    }
    RunKeeps(w, acts, NoOutsideHelp, kept);
  }

  /** The beginning is such a state, and so is the end of a successful idle stop with logins in the gate. */
  lemma RestAfterStop(w: World, t: nat)
    requires Accounted(w) && Enabled(w, StopReturned(t, true)) && w.arms == 0 && w.sync.Idle?
    requires forall u :: 0 <= u < |w.shared.tasks| ==> !w.shared.tasks[u].phase.Firing?
    requires forall l :: l in w.logins ==> BeforeStart(w.logins[l]) && !w.logins[l].Published?
    ensures Rested(Step(w, StopReturned(t, true)), w.startsIssued) && Rested(Init(false), 0)
  {
    assert w.shared.tasks[t].Live();
  }
}

/**
  The container lifecycle as a transition system: any number of logins, idle tasks, arming
  tasks and start calls, and the sync loop, all on the shared state of module SharedStates.

  A step is ONE access to shared data, so every interleaving of the threads of the runtime is a
  run. The sections under the `idle_timer` lock, none of which awaits, are one step each, and
  taking the lock is assumed never to suspend. A task that an external call resumes publishes in
  the step in which the call returns. An abort takes effect at once unless the task has just read
  a player count of 0; a task that is being polled out of its sleep or its stop at that very
  moment is not modelled.

  `Uninterrupted` picks out the runs in which the code between two await points is not
  interleaved with anything else.
*/
module Lifecycle {
  import opened Options
  import opened SharedStates

  /** Where a login stands; the number is the version its watch receiver has seen. */
  datatype Login =
    | Parsed                      // login start parsed, cancel_idle_shutdown comes next
    | Cancelling                  // did not see Stopping, takes the timer next
    | Uncounted                   // cancel_idle_shutdown is over, begin_session comes next
    | AtMutex                     // awaits start_mutex
    | Entered                     // holds start_mutex, reads the state for the first time
    | GateSubscribing             // saw Stopping, subscribes next
    | GateLoop(seen: nat)         // reads the state at the head of the gate loop
    | GateSuspended(seen: nat)    // awaits a change in the gate loop
    | GateClear                   // did not see Stopping, asks whether the state is Stopped
    | SawStopped                  // publishes Starting next
    | Published                   // spawns the start task next
    | Leaving                     // releases start_mutex next
    | Left                        // asks whether the server is already running
    | Subscribing                 // in wait_for_server_with, subscribes next
    | Subscribed(seen: nat)       // takes the snapshot next
    | Waiting(seen: nat)          // suspended in the select loop
    | Woken(seen: nat)            // its receiver reported a change, reads the state next
    | Probing(seen: nat)          // awaits the status probe
    | Draining                    // consumes outstanding keepalive answers
    | Forwarding
    | Bailing                     // writes the disconnect packet before giving up
    | LastDropped                 // its guard saw the count reach 0, spawns the arming task next
    | Ended
  {
    /** A SessionGuard exists. */
    predicate Counted() {
      !Parsed? && !Cancelling? && !Uncounted? && !LastDropped? && !Ended?
    }

    predicate HoldsMutex() {
      Entered? || GateSubscribing? || GateLoop? || GateSuspended? || GateClear? || SawStopped?
      || Published? || Leaving?
    }

    /** Has got past the loop that waits for a stop to resolve. */
    predicate PastGate() {
      Counted() && !AtMutex? && !Entered? && !GateSubscribing? && !GateLoop? && !GateSuspended?
    }

    /** Stands between two accesses that no await separates. */
    predicate MidBlock() {
      Cancelling? || Uncounted? || (HoldsMutex() && !GateSuspended?) || Left? || Subscribed?
      || Woken? || LastDropped?
    }

    predicate CanExit() {
      Waiting? || Draining? || Forwarding? || Bailing?
    }
  }

  datatype Sync =
    | Idle
    | AboutToStop    // the container does not run, and Running was read
    | AboutToAdopt   // the container runs, and Stopped was read
    | Adopted        // has published Running, reads the player count next
    | Arming         // read 0 players, arms the timer next

  datatype World = World(
    shared: Shared,
    logins: map<nat, Login>,
    mutex: Option<nat>,
    arms: nat,              // arming tasks that have not run yet
    starts: nat,            // docker.start calls that have not returned yet
    sync: Sync,
    startsIssued: nat,
    stoppedPublished: nat)

  datatype Action =
    | Arrive(l: nat)
    | Advance(l: nat)            // the next access of a login that has a determined one
    | BeginProbe(l: nat)
    | ProbeFails(l: nat)
    | ProbeSucceeds(l: nat)
    | Exit(l: nat)               // the connection ends and its guard is dropped
    | Wakes(t: nat)
    | Announces(t: nat)
    | StopReturned(t: nat, ok: bool)
    | StopPanics(t: nat)         // the stop unwinds: the task ends and publishes nothing
    | RunArm
    | StartSucceeds
    | StartFails
    | SyncReads(running: bool)
    | SyncStep

  /** The world right after start-up, before any connection is accepted. */
  function Init(runningAtStartup: bool): World {
    World(if runningAtStartup then Adopt(Fresh()) else Fresh(),
          map[], None, 0, 0, Idle, 0, 0)
  }

  function Tell(w: World, state: ServerState): World {
    w.(shared := Publish(w.shared, state),
       stoppedPublished := w.stoppedPublished + if state.Stopped? then 1 else 0)
  }

  function Move(w: World, l: nat, pc: Login): World {
    w.(logins := w.logins[l := pc])
  }

  predicate Is(w: World, l: nat, pc: Login) {
    l in w.logins && w.logins[l] == pc
  }

  predicate CanAdvance(w: World, pc: Login) {
    match pc
    case AtMutex => w.mutex.None?
    case GateSuspended(seen) => seen != w.shared.version
    case Waiting(seen) => seen != w.shared.version
    case Probing(_) => false
    case Forwarding => false
    case Bailing => false
    case Ended => false
    case _ => true
  }

  predicate Enabled(w: World, a: Action) {
    match a
    case Arrive(l) => l !in w.logins
    case Advance(l) => l in w.logins && CanAdvance(w, w.logins[l])
    case BeginProbe(l) => l in w.logins && w.logins[l].Waiting?
    case ProbeFails(l) => l in w.logins && w.logins[l].Probing?
    case ProbeSucceeds(l) => l in w.logins && w.logins[l].Probing?
    case Exit(l) => l in w.logins && w.logins[l].CanExit()
    case Wakes(t) => w.shared.Holds(t, Sleeping) && !w.shared.tasks[t].aborted
    case Announces(t) => w.shared.Holds(t, Firing)
    case StopReturned(t, _) => w.shared.Holds(t, StopInFlight) && !w.shared.tasks[t].aborted
    case StopPanics(t) => w.shared.Holds(t, StopInFlight) && !w.shared.tasks[t].aborted
    case RunArm => w.arms > 0
    case StartSucceeds => w.starts > 0
    case StartFails => w.starts > 0
    case SyncReads(_) => w.sync.Idle?
    case SyncStep => !w.sync.Idle?
  }

  function StepLogin(w: World, l: nat): World
    requires l in w.logins
  {
    var s := w.shared;
    match w.logins[l]
    case Parsed => Move(w, l, if s.server.Stopping? then Uncounted else Cancelling)
    case Cancelling => Move(w.(shared := TakeTimer(s)), l, Uncounted)
    case Uncounted => Move(w.(shared := s.(players := s.players + 1)), l, AtMutex)
    case AtMutex => Move(w.(mutex := Some(l)), l, Entered)
    case Entered => Move(w, l, if s.server.Stopping? then GateSubscribing else GateClear)
    case GateSubscribing => Move(w, l, GateLoop(s.version))
    case GateLoop(seen) => Move(w, l, if s.server.Stopping? then GateSuspended(seen) else GateClear)
    case GateSuspended(_) => Move(w, l, GateLoop(s.version))
    case GateClear => Move(w, l, if s.server.Stopped? then SawStopped else Leaving)
    case SawStopped => Move(Tell(w, Starting), l, Published)
    case Published => Move(w.(starts := w.starts + 1, startsIssued := w.startsIssued + 1), l, Leaving)
    case Leaving => Move(w.(mutex := None), l, Left)
    case Left => Move(w, l, if s.server.Running? then Forwarding else Subscribing)
    case Subscribing => Move(w, l, Subscribed(s.version))
    case Subscribed(_) => Move(w, l, if s.server.Stopped? then Bailing else Waiting(s.version))
    case Waiting(_) => Move(w, l, Woken(s.version))
    case Woken(seen) =>
      Move(w, l, match s.server
                 case Running => Draining
                 case Stopped => Bailing
                 case _ => Waiting(seen))
    case Draining => Move(w, l, Forwarding)
    case LastDropped => Move(w.(arms := w.arms + 1), l, Ended)
    case _ => w
  }

  function StepSync(w: World): World {
    match w.sync
    case Idle => w
    case AboutToStop => Tell(w, Stopped).(sync := Idle)
    case AboutToAdopt =>
      if w.shared.server.Stopped? then Tell(w, Running).(sync := Adopted) else w.(sync := Idle)
    case Adopted => w.(sync := if w.shared.players == 0 then Arming else Idle)
    case Arming => w.(shared := Schedule(w.shared), sync := Idle)
  }

  function Step(w: World, a: Action): World
    requires Enabled(w, a)
  {
    match a
    case Arrive(l) => Move(w, l, Parsed)
    case Advance(l) => StepLogin(w, l)
    case BeginProbe(l) => Move(w, l, Probing(w.logins[l].seen))
    case ProbeFails(l) => Move(w, l, Waiting(w.logins[l].seen))
    case ProbeSucceeds(l) => Move(Tell(w, Running), l, Draining)
    case Exit(l) =>
      Move(w.(shared := Leave(w.shared)), l, if Leave(w.shared).players == 0 then LastDropped else Ended)
    case Wakes(t) => w.(shared := Wake(w.shared, t))
    case Announces(t) => w.(shared := Announce(w.shared, t))
    case StopReturned(t, ok) =>
      w.(shared := StopReturns(w.shared, t, ok),
         stoppedPublished := w.stoppedPublished + if ok then 1 else 0)
    case StopPanics(t) => w.(shared := MoveTask(w.shared, t, Panicked))
    case RunArm => w.(shared := Schedule(w.shared), arms := w.arms - 1)
    case StartSucceeds => w.(starts := w.starts - 1)
    case StartFails => Tell(w, Stopped).(starts := w.starts - 1)
    case SyncReads(running) =>
      w.(sync := if !running && w.shared.server.Running? then AboutToStop
                 else if running && w.shared.server.Stopped? then AboutToAdopt
                 else Idle)
    case SyncStep => StepSync(w)
  }

  // ----- Runs -----

  /** A restriction on the steps of a run. */
  type Guard = (World, Action) -> bool

  const ANY: Guard := (w, a) => true

  /** `acts` can be taken from w, one after the other, and each step passes the guard. */
  predicate Runs(w: World, acts: seq<Action>, guard: Guard)
    decreases |acts|
  {
    acts == [] || (Enabled(w, acts[0]) && guard(w, acts[0]) && Runs(Step(w, acts[0]), acts[1..], guard))
  }

  function Exec(w: World, acts: seq<Action>, guard: Guard): World
    requires Runs(w, acts, guard)
    decreases |acts|
  {
    if acts == [] then w else Exec(Step(w, acts[0]), acts[1..], guard)
  }

  lemma RunOfOne(w: World, a: Action, guard: Guard)
    requires Enabled(w, a) && guard(w, a)
    ensures Runs(w, [a], guard) && Exec(w, [a], guard) == Step(w, a)
  {
    var acts := [a];
    assert acts[0] == a && acts[1..] == [];
    assert Runs(Step(w, a), acts[1..], guard) && Exec(Step(w, a), acts[1..], guard) == Step(w, a);
  }

  lemma {:induction false} RunsConcat(w: World, xs: seq<Action>, ys: seq<Action>, guard: Guard)
    requires Runs(w, xs, guard) && Runs(Exec(w, xs, guard), ys, guard)
    ensures Runs(w, xs + ys, guard)
    ensures Exec(w, xs + ys, guard) == Exec(Exec(w, xs, guard), ys, guard)
    decreases |xs|
  {
    if xs == [] {
      assert xs + ys == ys;
    } else {
      assert (xs + ys)[0] == xs[0] && (xs + ys)[1..] == xs[1..] + ys;
      RunsConcat(Step(w, xs[0]), xs[1..], ys, guard);
    }
  }

  lemma {:induction false} RunsWeaker(w: World, acts: seq<Action>, strong: Guard, weak: Guard)
    requires Runs(w, acts, strong)
    requires forall v, a :: Enabled(v, a) && strong(v, a) ==> weak(v, a)
    ensures Runs(w, acts, weak) && Exec(w, acts, weak) == Exec(w, acts, strong)
    decreases |acts|
  {
    if acts == [] {
    } else {
      RunsWeaker(Step(w, acts[0]), acts[1..], strong, weak);
    }
  }

  /** What every step keeps holds at the end of every run. */
  lemma {:induction false} RunKeeps(w: World, acts: seq<Action>, guard: Guard, kept: World -> bool)
    requires kept(w) && Runs(w, acts, guard)
    requires forall v, a :: kept(v) && Enabled(v, a) && guard(v, a) ==> kept(Step(v, a))
    ensures kept(Exec(w, acts, guard))
    decreases |acts|
  {
    if acts == [] {
    } else {
      RunKeeps(Step(w, acts[0]), acts[1..], guard, kept);
    }
  }

  ghost predicate Reaches(w: World, v: World, guard: Guard) {
    exists acts :: Runs(w, acts, guard) && Exec(w, acts, guard) == v
  }

  lemma ReachesItself(w: World, guard: Guard)
    ensures Reaches(w, w, guard)
  {
    assert Runs(w, [], guard);
  }

  lemma ReachesFurther(start: World, w: World, v: World, guard: Guard)
    requires Reaches(start, w, guard) && Reaches(w, v, guard)
    ensures Reaches(start, v, guard)
  {
    var acts :| Runs(start, acts, guard) && Exec(start, acts, guard) == w;
    var more :| Runs(w, more, guard) && Exec(w, more, guard) == v;
    RunsConcat(start, acts, more, guard);
  }

  /** Extends a run by one step. */
  lemma Go(start: World, w: World, a: Action, guard: Guard) returns (v: World)
    requires Reaches(start, w, guard) && Enabled(w, a) && guard(w, a)
    ensures v == Step(w, a) && Reaches(start, v, guard)
  {
    v := Step(w, a);
    var acts :| Runs(start, acts, guard) && Exec(start, acts, guard) == w;
    RunOfOne(w, a, guard);
    RunsConcat(start, acts, [a], guard);
  }

  // ----- Uninterrupted runs -----

  datatype Thread = LoginThread(l: nat) | TaskThread(t: nat) | SyncThread | Elsewhere

  function Actor(a: Action): Thread {
    match a
    case Arrive(l) => LoginThread(l)
    case Advance(l) => LoginThread(l)
    case BeginProbe(l) => LoginThread(l)
    case ProbeFails(l) => LoginThread(l)
    case ProbeSucceeds(l) => LoginThread(l)
    case Exit(l) => LoginThread(l)
    case Wakes(t) => TaskThread(t)
    case Announces(t) => TaskThread(t)
    case StopReturned(t, _) => TaskThread(t)
    case StopPanics(t) => TaskThread(t)
    case SyncReads(_) => SyncThread
    case SyncStep => SyncThread
    case _ => Elsewhere
  }

  /** No other thread than this one is between two accesses that no await separates. */
  predicate Undisturbed(w: World, thread: Thread) {
    && (forall l :: l in w.logins && w.logins[l].MidBlock() ==> thread == LoginThread(l))
    && (forall t :: 0 <= t < |w.shared.tasks| && w.shared.tasks[t].phase.Firing? ==> thread == TaskThread(t))
    && (!w.sync.Idle? ==> thread == SyncThread)
  }

  predicate Uninterrupted(w: World, a: Action) {
    Undisturbed(w, Actor(a))
  }

  predicate AllBy(acts: seq<Action>, thread: Thread) {
    forall a :: a in acts ==> Actor(a) == thread
  }

  /** A thread's own steps do not put another thread between two accesses. */
  lemma OwnStepKeepsOthersAway(w: World, a: Action)
    requires Enabled(w, a) && Undisturbed(w, Actor(a))
    ensures Undisturbed(Step(w, a), Actor(a))
  {
    var v := Step(w, a);
    forall t | 0 <= t < |v.shared.tasks| && v.shared.tasks[t].phase.Firing?
      ensures Actor(a) == TaskThread(t)
    {
      if !(a.Wakes? && a.t == t) {
        assert t < |w.shared.tasks| && w.shared.tasks[t].phase.Firing?;
      }
    }
  }

  /** So a run of one thread alone is uninterrupted if it begins while no other is in a block. */
  lemma {:induction false} OwnRunIsUninterrupted(w: World, acts: seq<Action>, thread: Thread)
    requires Runs(w, acts, ANY) && AllBy(acts, thread) && Undisturbed(w, thread)
    ensures Runs(w, acts, Uninterrupted) && Exec(w, acts, Uninterrupted) == Exec(w, acts, ANY)
    decreases |acts|
  {
    if acts == [] {
    } else {
      assert acts[0] in acts && forall a :: a in acts[1..] ==> a in acts;
      OwnStepKeepsOthersAway(w, acts[0]);
      OwnRunIsUninterrupted(Step(w, acts[0]), acts[1..], thread);
    }
  }
}

/**
  The state that every connection, the idle task and the sync loop share (src/state.rs).

  `Shared` is the value of that state at one moment; the functions on it say what each
  operation means.  The class `SharedState` updates the fields in place, as the program does,
  and every method is proved to do what the function of the same purpose says.

  A spawned idle task is named by its position in `tasks`; a `JoinHandle` is that number.
  The watch channel is the published value together with the number of publications.
*/
module SharedStates {
  import opened Options

  datatype ServerState = Stopped | Starting | Running | Stopping

  /** Where a spawned idle task stands. */
  datatype Phase =
    | Sleeping      // in the idle sleep
    | Firing        // has read a player count of 0, has not yet published Stopping
    | StopInFlight  // Stopping published, the container stop is being awaited
    | Finished      // returned without a failure
    | StopFailed    // the stop failed and Running was published again
    | Panicked      // the stop panicked and nothing was published

  datatype Task = Task(phase: Phase, aborted: bool) {
    predicate Live() {
      !aborted && (phase.Sleeping? || phase.Firing? || phase.StopInFlight?)
    }

    predicate Stopping() {
      !aborted && phase.StopInFlight?
    }
  }

  datatype Shared = Shared(
    server: ServerState,
    version: nat,
    players: nat,
    timer: Option<nat>,
    tasks: seq<Task>)
  {
    /** Only the task whose handle is in the timer slot can still act. */
    ghost predicate OneLiveTask() {
      && (timer.Some? ==> timer.value < |tasks|)
      && forall t :: 0 <= t < |tasks| && tasks[t].Live() ==> timer == Some(t)
    }

    predicate Holds(t: nat, phase: Phase) {
      t < |tasks| && tasks[t].phase == phase
    }
  }

  function Fresh(): Shared {
    Shared(Stopped, 0, 0, None, [])
  }

  function Publish(s: Shared, state: ServerState): Shared {
    s.(server := state, version := s.version + 1)
  }

  function Abort(tasks: seq<Task>, t: nat): seq<Task> {
    if t < |tasks| then tasks[t := tasks[t].(aborted := true)] else tasks
  }

  /** Empties the timer slot and aborts the task whose handle was there. */
  function TakeTimer(s: Shared): Shared {
    match s.timer
    case None => s
    case Some(t) => s.(timer := None, tasks := Abort(s.tasks, t))
  }

  function Cancel(s: Shared): Shared {
    if s.server.Stopping? then s else TakeTimer(s)
  }

  function Schedule(s: Shared): Shared {
    var taken := TakeTimer(s);
    taken.(timer := Some(|s.tasks|), tasks := taken.tasks + [Task(Sleeping, false)])
  }

  function Adopt(s: Shared): Shared {
    if !s.server.Stopped? then s
    else if s.players == 0 then Schedule(Publish(s, Running))
    else Publish(s, Running)
  }

  function MoveTask(s: Shared, t: nat, phase: Phase): Shared
    requires t < |s.tasks|
  {
    s.(tasks := s.tasks[t := s.tasks[t].(phase := phase)])
  }

  /** The idle sleep of task t is over and it reads the player count. */
  function Wake(s: Shared, t: nat): Shared
    requires t < |s.tasks|
  {
    MoveTask(s, t, if s.players > 0 then Finished else Firing)
  }

  /** Task t announces the stop it is about to make. */
  function Announce(s: Shared, t: nat): Shared
    requires t < |s.tasks|
  {
    Publish(MoveTask(s, t, StopInFlight), Stopping)
  }

  /** The stop made by task t returns. */
  function StopReturns(s: Shared, t: nat, ok: bool): Shared
    requires t < |s.tasks|
  {
    if ok then Publish(MoveTask(s, t, Finished), Stopped)
    else Publish(MoveTask(s, t, StopFailed), Running)
  }

  function Leave(s: Shared): Shared {
    s.(players := if s.players == 0 then 0 else s.players - 1)
  }

  /** One round of the sync loop once the container has answered whether it runs. */
  function Synced(s: Shared, running: bool): Shared {
    if !running && s.server.Running? then Publish(s, Stopped)
    else if running && s.server.Stopped? then Adopt(s)
    else s
  }

  /** The decision a login takes under start_mutex. */
  function PassedGate(s: Shared): Shared {
    if s.server.Stopped? then Publish(s, Starting) else s
  }

  /** Taking the timer leaves no live task at all; nothing else changes. */
  lemma TakeTimerSilences(s: Shared)
    requires s.OneLiveTask()
    ensures TakeTimer(s).OneLiveTask()
    ensures forall t :: 0 <= t < |s.tasks| ==> !TakeTimer(s).tasks[t].Live()
    ensures forall t :: 0 <= t < |s.tasks| ==> TakeTimer(s).tasks[t].phase == s.tasks[t].phase
    ensures TakeTimer(s).timer == None && |TakeTimer(s).tasks| == |s.tasks|
    ensures TakeTimer(s).(timer := s.timer, tasks := s.tasks) == s
  {
  }

  /** After re-arming, the new sleeping task is the only live one. */
  lemma ScheduleArmsExactlyOne(s: Shared)
    requires s.OneLiveTask()
    ensures Schedule(s).OneLiveTask()
    ensures Schedule(s).timer == Some(|s.tasks|) && Schedule(s).Holds(|s.tasks|, Sleeping)
    ensures forall t :: 0 <= t < |Schedule(s).tasks| ==>
                          (Schedule(s).tasks[t].Live() <==> t == |s.tasks|)
    ensures |Schedule(s).tasks| == |s.tasks| + 1
    ensures forall t :: 0 <= t < |s.tasks| ==> Schedule(s).tasks[t].phase == s.tasks[t].phase
    ensures Schedule(s).(timer := s.timer, tasks := s.tasks) == s
  {
    TakeTimerSilences(s);
  }

  class SharedState {
    var server: ServerState
    var version: nat
    var playerCount: nat
    var idleTimer: Option<nat>
    var tasks: seq<Task>

    ghost function View(): Shared
      reads this
    {
      Shared(server, version, playerCount, idleTimer, tasks)
    }

    ghost predicate Valid()
      reads this
    {
      View().OneLiveTask()
    }

    constructor ()
      ensures Valid()
      ensures server == Stopped && playerCount == 0 && idleTimer == None && tasks == []
      ensures View() == Fresh()
    {
      server, version, playerCount, idleTimer, tasks := Stopped, 0, 0, None, [];
    }

    method SetState(state: ServerState)
      requires Valid()
      modifies this`server, this`version
      ensures Valid()
      ensures server == state && version == old(version) + 1
      ensures View() == Publish(old(View()), state)
    {
      server := state;
      version := version + 1;
    }

    method AddPlayer() returns (count: nat)
      requires Valid()
      modifies this`playerCount
      ensures Valid()
      ensures View() == old(View()).(players := count) && count == old(playerCount) + 1
    {
      playerCount := playerCount + 1;
      count := playerCount;
    }

    /** The count saturates at 0, and so does the number reported. */
    method RemovePlayer() returns (remaining: nat)
      requires Valid()
      modifies this`playerCount
      ensures Valid()
      ensures View() == Leave(old(View())) && remaining == playerCount
      ensures old(playerCount) > 0 ==> remaining + 1 == old(playerCount)
      ensures old(playerCount) == 0 ==> remaining == 0
    {
      var previous := playerCount;
      playerCount := if previous == 0 then 0 else previous - 1;
      remaining := if previous == 0 then 0 else previous - 1;
    }

    method CancelIdleShutdown()
      requires Valid()
      modifies this`idleTimer, this`tasks
      ensures Valid()
      ensures View() == Cancel(old(View()))
      ensures old(server).Stopping? ==> tasks == old(tasks)
      ensures !old(server).Stopping? ==> forall t :: 0 <= t < |tasks| ==> !tasks[t].Live()
    {
      if server.Stopping? {
        return;
      }
      TakeTimerSilences(View());
      if idleTimer.Some? {
        var handle := idleTimer.value;
        idleTimer := None;
        tasks := Abort(tasks, handle);
      }
    }

    /** Returning from this method stands for holding a `SessionGuard`. */
    method BeginSession()
      requires Valid()
      modifies this`playerCount
      ensures Valid()
      ensures playerCount == old(playerCount) + 1
      ensures View() == old(View()).(players := old(playerCount) + 1)
    {
      var _ := AddPlayer();
    }

    /** Dropping a `SessionGuard`; `arm` tells whether an arming task is spawned. */
    method DropSession() returns (arm: bool)
      requires Valid()
      modifies this`playerCount
      ensures Valid()
      ensures View() == Leave(old(View()))
      ensures arm <==> playerCount == 0
    {
      var remaining := RemovePlayer();
      arm := remaining == 0;
    }

    method ScheduleIdleShutdown()
      requires Valid()
      modifies this`idleTimer, this`tasks
      ensures Valid()
      ensures View() == Schedule(old(View()))
      ensures forall t :: 0 <= t < |tasks| ==> (tasks[t].Live() <==> t == |old(tasks)|)
    {
      ScheduleArmsExactlyOne(View());
      var spawned := |tasks|;
      if idleTimer.Some? {
        var handle := idleTimer.value;
        idleTimer := None;
        tasks := Abort(tasks, handle);
      }
      tasks := tasks + [Task(Sleeping, false)];
      idleTimer := Some(spawned);
    }

    method AdoptRunning()
      requires Valid()
      modifies this`server, this`version, this`idleTimer, this`tasks
      ensures Valid()
      ensures View() == Adopt(old(View()))
      ensures !old(server).Stopped? ==> unchanged(this)
      ensures old(server).Stopped? ==> server.Running?
      ensures old(server).Stopped? && playerCount == 0 ==> idleTimer == Some(|old(tasks)|) && |tasks| == |old(tasks)| + 1
      ensures playerCount > 0 ==> tasks == old(tasks) && idleTimer == old(idleTimer)
    {
      var adopted := server.Stopped?;
      if adopted {
        server := Running;
        version := version + 1;
      }
      if adopted && playerCount == 0 {
        ScheduleIdleShutdown();
      }
    }

    /** The idle task from the end of its sleep up to the stop call; `stop` tells whether it makes one. */
    method IdleTaskWakes(t: nat) returns (stop: bool)
      requires Valid() && t < |tasks| && tasks[t] == Task(Sleeping, false)
      modifies this`server, this`version, this`tasks
      ensures Valid()
      ensures stop <==> playerCount == 0
      ensures !stop ==> tasks[t].phase.Finished? && server == old(server) && version == old(version)
      ensures forall u :: 0 <= u < |tasks| && u != t ==> u < |old(tasks)| && tasks[u] == old(tasks)[u]
      ensures !stop ==> View() == Wake(old(View()), t)
      ensures stop ==> View() == Announce(Wake(old(View()), t), t)
      ensures stop ==> tasks[t].Stopping() && server.Stopping?
    {
      if playerCount > 0 {
        tasks := tasks[t := tasks[t].(phase := Finished)];
        return false;
      }
      SetState(Stopping);
      tasks := tasks[t := tasks[t].(phase := StopInFlight)];
      stop := true;
      assert tasks == old(tasks)[t := Task(Firing, false)][t := Task(StopInFlight, false)];
    }

    /** The rest of the idle task, once the stop has returned. */
    method IdleTaskStopped(t: nat, ok: bool)
      requires Valid() && t < |tasks| && tasks[t].Stopping()
      modifies this`server, this`version, this`tasks
      ensures Valid()
      ensures View() == StopReturns(old(View()), t, ok)
      ensures server == (if ok then Stopped else Running) && version == old(version) + 1
      ensures tasks == old(tasks)[t := Task(if ok then Finished else StopFailed, false)]
      ensures forall u :: 0 <= u < |tasks| ==> !tasks[u].Live()
    {
      if ok {
        SetState(Stopped);
        tasks := tasks[t := tasks[t].(phase := Finished)];
      } else {
        SetState(Running);
        tasks := tasks[t := tasks[t].(phase := StopFailed)];
      }
    }

    /**
      What a login does under start_mutex once no stop is in flight (src/proxy.rs): `spawn` tells
      whether it starts the container, `wait` whether it has to wait for the server.
    */
    method PassGate() returns (spawn: bool, wait: bool)
      requires Valid() && !server.Stopping?
      modifies this`server, this`version
      ensures Valid()
      ensures View() == PassedGate(old(View()))
      ensures spawn <==> old(server).Stopped?
      ensures wait <==> server.Starting?
      ensures if spawn then server == Starting && version == old(version) + 1 else unchanged(this)
    {
      spawn := server.Stopped?;
      if spawn {
        SetState(Starting);
      }
      wait := !server.Running?;
    }

    /** The body of the sync loop in main, after `is_running` has answered. */
    method SyncRound(running: bool)
      requires Valid()
      modifies this`server, this`version, this`idleTimer, this`tasks
      ensures Valid()
      ensures View() == Synced(old(View()), running)
      ensures old(server).Starting? || old(server).Stopping? ==> unchanged(this)
      ensures old(server).Stopped? || old(server).Running? ==> server == (if running then Running else Stopped)
    {
      var current := server;
      match (running, current) {
        case (false, Running) => SetState(Stopped);
        case (true, Stopped) => AdoptRunning();
        case _ =>
      }
    }
  }
}

/**
  Where a login can get to, and when: what sends it to the backend, what turns it away, and that
  nothing else does.
*/
module LoginProgress {
  import opened Options
  import opened SharedStates
  import opened Lifecycle
  import opened Wakeup

  // ----- Publications -----

  /** Each state has its publishers and no others. */
  lemma OnlyThesePublish(w: World, a: Action)
    requires Enabled(w, a)
    ensures var v := Step(w, a);
            var published := v.shared.version != w.shared.version;
            && (published && v.shared.server == Stopping <==> a.Announces?)
            && (published && v.shared.server == Starting <==> a.Advance? && Is(w, a.l, SawStopped))
            && (published && v.shared.server == Running <==>
                || a.ProbeSucceeds? || (a.StopReturned? && !a.ok)
                || (a.SyncStep? && w.sync.AboutToAdopt? && w.shared.server == Stopped))
            && (published && v.shared.server == Stopped <==>
                a.StartFails? || (a.StopReturned? && a.ok) || (a.SyncStep? && w.sync.AboutToStop?))
            && (!published ==> v.shared.server == w.shared.server)
  {
  }

  /** A start that fails is over and makes every login in the wait give up; one that succeeds says nothing. */
  lemma StartFailureReachesWaiters(w: World, l: nat)
    requires AllWakeable(w) && w.starts > 0 && l in w.logins
    ensures var v := Step(w, StartFails);
            && v.shared.server == Stopped && v.starts == w.starts - 1
            && (w.logins[l].Waiting? || w.logins[l].Subscribing? ==>
                Enabled(v, Advance(l)) && Enabled(StepLogin(v, l), Advance(l)) &&
                Is(StepLogin(StepLogin(v, l), l), l, Bailing))
            && (w.logins[l].Subscribed? || w.logins[l].Woken? ==>
                Enabled(v, Advance(l)) && Is(StepLogin(v, l), l, Bailing))
    ensures Step(w, StartSucceeds) == w.(starts := w.starts - 1)
  {
    StepWakeable(w, StartFails);
    FailureReachesWaiter(Step(w, StartFails), l);
  }

  // ----- Tasks -----

  /** An idle task that finds players is over; one that finds none is about to stop the server. */
  lemma WakesToStopExactly(w: World, t: nat)
    requires Enabled(w, Wakes(t))
    ensures var v := Step(w, Wakes(t));
            && v.shared.tasks[t].phase == (if w.shared.players == 0 then Firing else Finished)
            && v.shared.(tasks := w.shared.tasks) == w.shared
            && (w.shared.players == 0 ==> Enabled(v, Announces(t)))
            && (w.shared.players > 0 ==> forall a :: Actor(a) == TaskThread(t) ==> !Enabled(v, a))
  {
  }

  // ----- What moves a login where -----

  /** A login is turned away only because it has read Stopped. */
  lemma TurnedAwayOnlyOnStopped(w: World, a: Action, l: nat)
    requires Enabled(w, a) && Is(Step(w, a), l, Bailing) && !Is(w, l, Bailing)
    ensures a == Advance(l) && w.shared.server == Stopped
    ensures l in w.logins && (w.logins[l].Subscribed? || w.logins[l].Woken?)
  {
  }

  /** And it is let through only because it has read Running, or its own probe has succeeded. */
  lemma LetThroughOnlyOnRunning(w: World, a: Action, l: nat)
    requires Enabled(w, a)
    ensures Is(Step(w, a), l, Draining) && !Is(w, l, Draining) ==>
              Step(w, a).shared.server == Running && (a == ProbeSucceeds(l) || (a == Advance(l) && w.logins[l].Woken?))
    ensures Is(Step(w, a), l, Forwarding) && !Is(w, l, Forwarding) ==>
              a == Advance(l) && (Is(w, l, Draining) || (Is(w, l, Left) && w.shared.server == Running))
  {
  }

  /** Is being handed to the backend, or about to be. */
  predicate LetThrough(w: World, l: nat) {
    Is(w, l, Draining) || Is(w, l, Forwarding)
  }

  ghost predicate RunningSeenIn(w: World, acts: seq<Action>, l: nat, i: nat) {
    && i <= |acts| && Runs(w, acts[..i], ANY)
    && var v := Exec(w, acts[..i], ANY);
       v.shared.server == Running && l in v.logins && v.logins[l].PastGate()
  }

  /** In every run, a login that is let through has been past the gate while Running was published. */
  lemma {:induction false} LetThroughAfterRunning(w: World, acts: seq<Action>, l: nat) returns (i: nat)
    requires Runs(w, acts, ANY) && !LetThrough(w, l) && LetThrough(Exec(w, acts, ANY), l)
    ensures RunningSeenIn(w, acts, l, i)
    decreases |acts|
  {
    var v := Step(w, acts[0]);
    LetThroughOnlyOnRunning(w, acts[0], l);
    if !LetThrough(v, l) {
      var j := LetThroughAfterRunning(v, acts[1..], l);
      i := j + 1;
      assert acts[..i][0] == acts[0] && acts[..i][1..] == acts[1..][..j];
    } else if Is(v, l, Draining) {
      i := 1;
      assert acts[..1] == [acts[0]];
      RunOfOne(w, acts[0], ANY);
    } else {
      i := 0;
      assert acts[..0] == [];
    }
  }

  /** Woken for nothing, a login goes back to sleep until the next publication. */
  lemma SleepsAgain(w: World, l: nat)
    requires l in w.logins && Enabled(w, Advance(l))
    ensures w.logins[l].GateSuspended? && w.shared.server == Stopping ==>
              Enabled(StepLogin(w, l), Advance(l)) &&
              var v := StepLogin(StepLogin(w, l), l);
              v.logins[l].GateSuspended? && !Enabled(v, Advance(l)) && v.shared == w.shared
    ensures w.logins[l].Waiting? && (w.shared.server == Starting || w.shared.server == Stopping) ==>
              Enabled(StepLogin(w, l), Advance(l)) &&
              var v := StepLogin(StepLogin(w, l), l);
              v.logins[l].Waiting? && !Enabled(v, Advance(l)) && v.shared == w.shared
  {
  }

  // ----- The way in -----

  /** How far it is to the backend by the login's own steps. */
  function Distance(w: World, pc: Login): nat {
    match pc
    case Parsed => 20
    case Cancelling => 19
    case Uncounted => 18
    case AtMutex => 17
    case Entered => 16
    case GateSubscribing => 15
    case GateSuspended(_) => 15
    case GateLoop(_) => 14
    case GateClear => 13
    case SawStopped => 12
    case Published => 11
    case Leaving => 10
    case Left => 9
    case Subscribing => 8
    case Subscribed(_) => 7
    case Woken(seen) => if seen == w.shared.version then 5 else 7
    case Waiting(seen) => if seen == w.shared.version then 4 else 6
    case Probing(_) => 3
    case Draining => 2
    case _ => 1
  }

  /** The way is free: no stop is announced, nobody else holds start_mutex, and nothing turns the login away. */
  predicate WayIsFree(w: World, l: nat) {
    && l in w.logins && w.shared.server != Stopping
    && var pc := w.logins[l];
       && !pc.Bailing? && !pc.LastDropped? && !pc.Ended?
       && (pc.GateSuspended? ==> pc.seen != w.shared.version)
       && (if pc.HoldsMutex() then w.mutex == Some(l) else pc.PastGate() || w.mutex.None?)
       && (pc.Leaving? || pc.Left? || pc.Subscribing? || pc.Subscribed? || pc.Woken? || pc.Waiting? ==>
             w.shared.server != Stopped)
       && (pc.SawStopped? ==> w.shared.server == Stopped)
       && (pc.Published? ==> w.shared.server == Starting)
  }

  /** The start call that the login will have issued on its way. */
  function StartOnTheWay(w: World, pc: Login): nat {
    if pc.SawStopped? || pc.Published? then 1
    else if w.shared.server == Stopped && !pc.PastGate() then 1
    else if w.shared.server == Stopped && pc.GateClear? then 1
    else 0
  }

  function NextOnTheWay(w: World, l: nat): Action
    requires l in w.logins
  {
    match w.logins[l]
    case Probing(_) => ProbeSucceeds(l)
    case Waiting(seen) => if seen == w.shared.version then BeginProbe(l) else Advance(l)
    case _ => Advance(l)
  }

  ghost predicate GetsCloser(w: World, v: World, l: nat) {
    && WayIsFree(w, l) && WayIsFree(v, l) && Distance(v, v.logins[l]) < Distance(w, w.logins[l])
    && v.startsIssued + StartOnTheWay(v, v.logins[l]) == w.startsIssued + StartOnTheWay(w, w.logins[l])
  }

  lemma NextGetsCloser(w: World, l: nat)
    requires WayIsFree(w, l) && !Is(w, l, Forwarding)
    ensures Actor(NextOnTheWay(w, l)) == LoginThread(l) && Enabled(w, NextOnTheWay(w, l))
    ensures GetsCloser(w, Step(w, NextOnTheWay(w, l)), l)
  {
    hide GetsCloser, StepLogin;
    var pc := w.logins[l];
    if pc.HoldsMutex() {
      NextInGate(w, l);
    } else if pc.PastGate() {
      NextPastGate(w, l);
    } else {
      NextBeforeGate(w, l);
    }
  }

  lemma NextBeforeGate(w: World, l: nat)
    requires WayIsFree(w, l) && !w.logins[l].HoldsMutex() && !w.logins[l].PastGate()
    ensures NextOnTheWay(w, l) == Advance(l) && Enabled(w, Advance(l)) && GetsCloser(w, StepLogin(w, l), l)
  {
  }

  lemma NextInGate(w: World, l: nat)
    requires WayIsFree(w, l) && w.logins[l].HoldsMutex()
    ensures NextOnTheWay(w, l) == Advance(l) && Enabled(w, Advance(l)) && GetsCloser(w, StepLogin(w, l), l)
  {
  }

  lemma NextPastGate(w: World, l: nat)
    requires WayIsFree(w, l) && w.logins[l].PastGate() && !w.logins[l].HoldsMutex() && !w.logins[l].Forwarding?
    ensures Actor(NextOnTheWay(w, l)) == LoginThread(l) && Enabled(w, NextOnTheWay(w, l))
    ensures GetsCloser(w, Step(w, NextOnTheWay(w, l)), l)
  {
    hide GetsCloser, StepLogin;
    if NextOnTheWay(w, l) == Advance(l) {
      NextByItself(w, l);
    } else {
      NextByProbe(w, l);
    }
  }

  lemma NextByItself(w: World, l: nat)
    requires WayIsFree(w, l) && w.logins[l].PastGate() && !w.logins[l].HoldsMutex() && !w.logins[l].Forwarding?
    requires NextOnTheWay(w, l) == Advance(l)
    ensures Enabled(w, Advance(l)) && GetsCloser(w, StepLogin(w, l), l)
  {
  }

  lemma NextByProbe(w: World, l: nat)
    requires WayIsFree(w, l) && NextOnTheWay(w, l) != Advance(l)
    ensures Actor(NextOnTheWay(w, l)) == LoginThread(l) && Enabled(w, NextOnTheWay(w, l))
    ensures GetsCloser(w, Step(w, NextOnTheWay(w, l)), l)
  {
  }

  /**
    A login whose way is free gets to the backend by its own steps alone, its probe among them,
    and on a stopped server it issues exactly one start on its way.
  */
  lemma {:induction false} EveryLoginGetsThrough(w: World, l: nat) returns (acts: seq<Action>)
    requires WayIsFree(w, l)
    ensures AllBy(acts, LoginThread(l)) && Runs(w, acts, ANY)
    ensures var v := Exec(w, acts, ANY);
            && Is(v, l, Forwarding)
            && v.startsIssued == w.startsIssued + StartOnTheWay(w, w.logins[l])
    decreases if l in w.logins then Distance(w, w.logins[l]) else 0
  {
    hide Distance, StepLogin;
    if Is(w, l, Forwarding) {
      acts := [];
    } else {
      var a := NextOnTheWay(w, l);
      NextGetsCloser(w, l);
      var rest := EveryLoginGetsThrough(Step(w, a), l);
      acts := [a] + rest;
      assert acts[0] == a && acts[1..] == rest;
    }
  }

  /** A session can end wherever it awaits something past the gate, and then it is counted no more. */
  lemma EverySessionCanEnd(w: World, l: nat)
    requires l in w.logins
    requires w.logins[l].Waiting? || w.logins[l].Draining? || w.logins[l].Forwarding? || w.logins[l].Bailing?
    ensures Enabled(w, Exit(l)) && !Step(w, Exit(l)).logins[l].Counted()
    ensures Step(w, Exit(l)).shared.(players := w.shared.players) == w.shared
    ensures w.shared.players > 0 ==> Step(w, Exit(l)).shared.players == w.shared.players - 1
  {
  }
}

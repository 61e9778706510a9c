/**
  No wake-up is lost: a login that is suspended on its watch receiver, and whose receiver has
  nothing new to report, is not waiting for something that has already happened.
*/
module Wakeup {
  import opened SharedStates
  import opened Lifecycle

  ghost predicate Wakeable(s: Shared, pc: Login) {
    match pc
    case GateLoop(seen) => seen <= s.version
    case GateSuspended(seen) => seen <= s.version && (seen == s.version ==> s.server.Stopping?)
    case Waiting(seen) => seen <= s.version && (seen == s.version ==> !s.server.Stopped?)
    case Probing(seen) => seen <= s.version && (seen == s.version ==> !s.server.Stopped?)
    case Woken(seen) => seen <= s.version
    case _ => true
  }

  ghost predicate AllWakeable(w: World) {
    forall l :: l in w.logins ==> Wakeable(w.shared, w.logins[l])
  }

  /** The published value changes only together with the version, and the version never goes back. */
  lemma VersionMarksEveryChange(w: World, a: Action)
    requires Enabled(w, a)
    ensures w.shared.version <= Step(w, a).shared.version
    ensures Step(w, a).shared.version == w.shared.version ==> Step(w, a).shared.server == w.shared.server
  {
  }

  lemma StepWakeable(w: World, a: Action)
    requires AllWakeable(w) && Enabled(w, a)
    ensures AllWakeable(Step(w, a))
  {
    var v := Step(w, a);
    VersionMarksEveryChange(w, a);
    forall l | l in v.logins
      ensures Wakeable(v.shared, v.logins[l])
    {
      if l in w.logins && v.logins[l] == w.logins[l] {
        assert Wakeable(w.shared, w.logins[l]);
      } else if l in w.logins {
        assert Wakeable(w.shared, w.logins[l]);
        MovedLoginWakeable(w, a, l);
      }
    }
  }

  lemma MovedLoginWakeable(w: World, a: Action, l: nat)
    requires Enabled(w, a) && l in w.logins && Wakeable(w.shared, w.logins[l])
    requires Step(w, a).logins[l] != w.logins[l]
    ensures Wakeable(Step(w, a).shared, Step(w, a).logins[l])
  {
    assert Actor(a) == LoginThread(l);
  }

  /**
    In every state that any interleaving of publishers, subscriptions, snapshots and
    notifications can reach: a login asleep in the select loop with nothing to report is not
    missing a Stopped, and one asleep in the gate loop with nothing to report still has a stop
    to wait for.  Equivalently, once the awaited event has been published the login can run.
  */
  lemma NoLostWakeup(runningAtStartup: bool, acts: seq<Action>, l: nat)
    requires Runs(Init(runningAtStartup), acts, ANY)
    requires l in Exec(Init(runningAtStartup), acts, ANY).logins
    ensures var w := Exec(Init(runningAtStartup), acts, ANY);
            var pc := w.logins[l];
            && (pc.Waiting? && w.shared.server.Stopped? ==> Enabled(w, Advance(l)))
            && (pc.GateSuspended? && !w.shared.server.Stopping? ==> Enabled(w, Advance(l)))
  {
    forall v, a | AllWakeable(v) && Enabled(v, a)
      ensures AllWakeable(Step(v, a))
    {
      StepWakeable(v, a);
    }
    RunKeeps(Init(runningAtStartup), acts, ANY, AllWakeable);
    assert Wakeable(Exec(Init(runningAtStartup), acts, ANY).shared, Exec(Init(runningAtStartup), acts, ANY).logins[l]);
  }

  /**
    A start that has failed reaches every login in wait_for_server_with, wherever it stands in
    it: by its own next steps, two at most, it gives up, whether the failure comes after it has
    subscribed or came before.  A login whose probe is under way does so once the probe fails.
  */
  lemma FailureReachesWaiter(w: World, l: nat)
    requires AllWakeable(w) && w.shared.server.Stopped?
    requires l in w.logins
    ensures w.logins[l].Waiting? || w.logins[l].Subscribing? ==>
              && Enabled(w, Advance(l)) && Enabled(StepLogin(w, l), Advance(l))
              && Is(StepLogin(StepLogin(w, l), l), l, Bailing)
    ensures w.logins[l].Subscribed? || w.logins[l].Woken? ==>
              Enabled(w, Advance(l)) && Is(StepLogin(w, l), l, Bailing)
    ensures w.logins[l].Probing? ==>
              var v := Step(w, ProbeFails(l));
              && Enabled(v, Advance(l)) && Enabled(StepLogin(v, l), Advance(l))
              && Is(StepLogin(StepLogin(v, l), l), l, Bailing)
  {
    assert Wakeable(w.shared, w.logins[l]);
  }

  /**
    A waiter on a running server goes through the draining loop into forwarding by its own next
    three steps if it has not seen the current version; otherwise it cannot move by itself.
  */
  lemma SuccessReachesWaiter(w: World, l: nat)
    requires w.shared.server.Running?
    requires l in w.logins && w.logins[l].Waiting?
    ensures w.logins[l].seen != w.shared.version ==>
              && Enabled(w, Advance(l)) && Enabled(StepLogin(w, l), Advance(l))
              && Is(StepLogin(StepLogin(w, l), l), l, Draining)
              && Enabled(StepLogin(StepLogin(w, l), l), Advance(l))
              && Is(StepLogin(StepLogin(StepLogin(w, l), l), l), l, Forwarding)
    ensures w.logins[l].seen == w.shared.version ==> !Enabled(w, Advance(l))
  {
  }

  /** The login neither probes nor is cut off, and nobody publishes anything. */
  function Quiet(l: nat): Guard {
    (w: World, a: Action) =>
      a != BeginProbe(l) && a != Exit(l) && (Enabled(w, a) ==> Step(w, a).shared.version == w.shared.version)
  }

  ghost predicate Unaware(w: World, l: nat) {
    w.shared.server.Running? && Is(w, l, Waiting(w.shared.version))
  }

  /** Its own probe and its end apart, only a publication moves such a login. */
  lemma StepUnaware(w: World, a: Action, l: nat)
    requires Unaware(w, l) && Enabled(w, a) && Quiet(l)(w, a)
    ensures Unaware(Step(w, a), l)
  {
    VersionMarksEveryChange(w, a);
  }

  /**
    The other case: a login whose snapshot already is Running enters the select loop with
    nothing to report, and stays there in every continuation until it probes or somebody
    publishes, for only a Stopped snapshot is acted upon.
  */
  lemma RunningSnapshotIsNotSeen(w: World, l: nat, acts: seq<Action>)
    requires w.shared.server.Running? && l in w.logins && w.logins[l].Subscribed?
    requires Runs(StepLogin(w, l), acts, Quiet(l))
    ensures Unaware(StepLogin(w, l), l)
    ensures Unaware(Exec(StepLogin(w, l), acts, Quiet(l)), l)
  {
    var kept := v => Unaware(v, l);
    forall v, a | kept(v) && Enabled(v, a) && Quiet(l)(v, a)
      ensures kept(Step(v, a))
    {
      StepUnaware(v, a, l);
    }
    RunKeeps(StepLogin(w, l), acts, Quiet(l), kept);
  }
}

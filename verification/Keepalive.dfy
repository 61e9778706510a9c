/**
  The counter of unanswered keepalives (src/proxy.rs), which is bounded below by 0, as a function
  of what was sent and what was consumed, and what its being 0 means.
*/
module Keepalives {
  datatype Event =
    | Query    // a keepalive was sent
    | Answer   // a login plugin response was consumed
    | Other    // any other packet was consumed

  /** The counter after the events, in the order in which they happened. */
  function Unanswered(trace: seq<Event>): nat {
    if trace == [] then 0 else Counted(Unanswered(trace[..|trace| - 1]), trace[|trace| - 1])
  }

  function Counted(n: nat, e: Event): nat {
    match e
    case Query => n + 1
    case Answer => if n == 0 then 0 else n - 1
    case Other => n
  }

  function Weight(e: Event): int {
    match e
    case Query => 1
    case Answer => -1
    case Other => 0
  }

  /** Queries minus answers. */
  function Balance(trace: seq<Event>): int {
    if trace == [] then 0 else Balance(trace[..|trace| - 1]) + Weight(trace[|trace| - 1])
  }

  function Count(trace: seq<Event>, e: Event): nat {
    if trace == [] then 0
    else Count(trace[..|trace| - 1], e) + if trace[|trace| - 1] == e then 1 else 0
  }

  lemma {:induction false} BalanceCounts(trace: seq<Event>)
    ensures Balance(trace) == Count(trace, Query) - Count(trace, Answer)
    ensures |trace| == Count(trace, Query) + Count(trace, Answer) + Count(trace, Other)
  {
    if trace == [] {
    } else {
      BalanceCounts(trace[..|trace| - 1]);
    }
  }

  lemma UnansweredNext(trace: seq<Event>, e: Event)
    ensures Unanswered(trace + [e]) == Counted(Unanswered(trace), e)
    ensures Balance(trace + [e]) == Balance(trace) + Weight(e)
    ensures forall f :: Count(trace + [e], f) == Count(trace, f) + if e == f then 1 else 0
  {
    assert (trace + [e])[..|trace|] == trace;
  }

  // ----- The counter is a maximum -----

  /** The counter is the greatest surplus of queries over answers in any final part of the run. */
  lemma {:induction false} CounterIsMaxOverSuffixes(trace: seq<Event>)
    ensures forall k :: 0 <= k <= |trace| ==> Balance(trace[k..]) <= Unanswered(trace)
    ensures exists k :: 0 <= k <= |trace| && Balance(trace[k..]) == Unanswered(trace)
  {
    if trace == [] {
      assert Balance(trace[0..]) == 0;
    } else {
      var n := |trace| - 1;
      var init, e := trace[..n], trace[n];
      CounterIsMaxOverSuffixes(init);
      forall k | 0 <= k <= n
        ensures Balance(trace[k..]) == Balance(init[k..]) + Weight(e)
      {
        assert trace[k..] == init[k..] + [e];
        UnansweredNext(init[k..], e);
      }
      assert trace[|trace|..] == [];
      if Unanswered(init) + Weight(e) < 0 {
        assert Balance(trace[|trace|..]) == Unanswered(trace);
      } else {
        var k :| 0 <= k <= |init| && Balance(init[k..]) == Unanswered(init);
        assert Balance(trace[k..]) == Unanswered(trace);
      }
    }
  }

  /** If no prefix has more answers than queries, the counter never saturates: it is the balance. */
  lemma {:induction false} NoSaturation(trace: seq<Event>)
    requires NeverAhead(trace)
    ensures Unanswered(trace) == Balance(trace)
  {
    if trace == [] {
    } else {
      var init := trace[..|trace| - 1];
      forall k | 0 <= k <= |init|
        ensures Balance(init[..k]) >= 0
      {
        assert init[..k] == trace[..k];
      }
      NoSaturation(init);
      assert trace[..|trace|] == trace;
    }
  }

  lemma {:induction false} BalanceSplits(trace: seq<Event>, k: nat)
    requires k <= |trace|
    ensures Balance(trace) == Balance(trace[..k]) + Balance(trace[k..])
    decreases |trace|
  {
    if k == |trace| {
      assert trace[..k] == trace && trace[k..] == [];
    } else {
      var n := |trace| - 1;
      var init := trace[..n];
      BalanceSplits(init, k);
      assert init[..k] == trace[..k];
      assert trace[k..] == init[k..] + [trace[n]];
      UnansweredNext(init[k..], trace[n]);
    }
  }

  /** No prefix has more answers than queries: the client never answered ahead of a query. */
  predicate NeverAhead(trace: seq<Event>) {
    forall k :: 0 <= k <= |trace| ==> Balance(trace[..k]) >= 0
  }

  /** With the counter at 0, as many answers as queries were consumed exactly if none came ahead of its query. */
  lemma ZeroAndBalanced(trace: seq<Event>)
    requires Unanswered(trace) == 0
    ensures Count(trace, Answer) >= Count(trace, Query)
    ensures Count(trace, Answer) == Count(trace, Query) <==> NeverAhead(trace)
  {
    BalanceCounts(trace);
    CounterIsMaxOverSuffixes(trace);
    assert trace[0..] == trace;
    if NeverAhead(trace) {
      NoSaturation(trace);
    }
    if Balance(trace) == 0 {
      forall k | 0 <= k <= |trace|
        ensures Balance(trace[..k]) >= 0
      {
        BalanceSplits(trace, k);
      }
    }
  }

  // ----- Matching queries with answers -----

  /** Some queries are each matched with an answer consumed later, no two with the same one. */
  ghost predicate Matches(trace: seq<Event>, m: map<nat, nat>) {
    && (forall i :: i in m ==> i < m[i] < |trace| && trace[i].Query? && trace[m[i]].Answer?)
    && (forall i, j :: i in m && j in m && m[i] == m[j] ==> i == j)
  }

  /** The queries that m leaves without an answer. */
  function Open(trace: seq<Event>, m: map<nat, nat>): set<nat> {
    set i: nat | i < |trace| && trace[i].Query? && i !in m
  }

  /** One more event leaves a matching a matching, and opens it if it is a query. */
  lemma OpenNext(trace: seq<Event>, e: Event, m: map<nat, nat>)
    requires Matches(trace, m)
    ensures Matches(trace + [e], m)
    ensures Open(trace + [e], m) == Open(trace, m) + if e.Query? then {|trace|} else {}
  {
  }

  /** An answer that comes next can be given to an open query. */
  lemma GiveAnswer(trace: seq<Event>, m: map<nat, nat>, q: nat)
    requires Matches(trace, m) && q in Open(trace, m)
    ensures Matches(trace + [Answer], m[q := |trace|])
    ensures Open(trace + [Answer], m[q := |trace|]) == Open(trace, m) - {q}
  {
  }

  /** Without the answer that came last, the query it was given to is open. */
  lemma TakeAnswer(trace: seq<Event>, m: map<nat, nat>, q: nat)
    requires Matches(trace + [Answer], m) && q in m && m[q] == |trace|
    ensures Matches(trace, m - {q})
    ensures Open(trace, m - {q}) == Open(trace + [Answer], m) + {q} && q !in Open(trace + [Answer], m)
  {
    forall i | i in m - {q}
      ensures i < m[i] < |trace| && trace[i].Query? && trace[m[i]].Answer?
    {
      assert (trace + [Answer])[i] == trace[i];
    }
    assert (trace + [Answer])[q] == trace[q];
  }

  lemma MatchesBefore(trace: seq<Event>, e: Event, m: map<nat, nat>)
    requires Matches(trace + [e], m) && forall i :: i in m ==> m[i] != |trace|
    ensures Matches(trace, m)
  {
    forall i | i in m
      ensures i < m[i] < |trace| && trace[i].Query? && trace[m[i]].Answer?
    {
      assert (trace + [e])[i] == trace[i] && (trace + [e])[m[i]] == trace[m[i]];
    }
  }

  /** A matching that leaves exactly as many queries open as the counter says. */
  lemma {:induction false} BestMatching(trace: seq<Event>) returns (m: map<nat, nat>)
    ensures Matches(trace, m) && |Open(trace, m)| == Unanswered(trace)
  {
    if trace == [] {
      m := map[];
      assert Open(trace, m) == {};
    } else {
      var init, e := trace[..|trace| - 1], trace[|trace| - 1];
      assert trace == init + [e];
      m := BestMatching(init);
      if e.Answer? && Unanswered(init) > 0 {
        var q :| q in Open(init, m);
        GiveAnswer(init, m, q);
        m := m[q := |init|];
      } else {
        OpenNext(init, e, m);
        assert |init| !in Open(init, m);
      }
    }
  }

  /** No matching leaves fewer queries open than the counter says. */
  lemma {:induction false} NoBetterMatching(trace: seq<Event>, m: map<nat, nat>)
    requires Matches(trace, m)
    ensures |Open(trace, m)| >= Unanswered(trace)
    decreases |trace|
  {
    if trace == [] {
    } else {
      var init, e := trace[..|trace| - 1], trace[|trace| - 1];
      assert trace == init + [e];
      if q :| q in m && m[q] == |init| {
        assert trace[m[q]].Answer?;
        TakeAnswer(init, m, q);
        NoBetterMatching(init, m - {q});
      } else {
        MatchesBefore(init, e, m);
        OpenNext(init, e, m);
        NoBetterMatching(init, m);
        assert |init| !in Open(init, m);
      }
    }
  }

  /** The counter is 0 if and only if every query can be given an answer of its own, consumed after it. */
  lemma CounterIsZeroIffAllMatched(trace: seq<Event>)
    ensures Unanswered(trace) == 0 <==> exists m :: Matches(trace, m) && Open(trace, m) == {}
  {
    var best := BestMatching(trace);
    if Unanswered(trace) == 0 {
      assert Matches(trace, best) && Open(trace, best) == {};
    }
    if m :| Matches(trace, m) && Open(trace, m) == {} {
      NoBetterMatching(trace, m);
    }
  }
}

/**
  wait_for_server_with (src/proxy.rs): the select loop and the loop that drains outstanding
  keepalive answers.

  Which branch of the `select!` is ready next is the environment's choice, given as a script.
  A packet read inside the `select!` is dropped when another branch is ready first, and what it
  has taken from the stream by then is lost.
*/
module Waiting {
  import opened Bytes
  import opened Streams
  import opened Packets
  import opened Keepalives
  import opened StatusCodec
  import opened SharedStates

  const LOGIN_PLUGIN_RESPONSE: i32 := 0x02

  /** "redoxide:keepalive" */
  const KEEPALIVE_CHANNEL: seq<byte> :=
    [114, 101, 100, 111, 120, 105, 100, 101, 58, 107, 101, 101, 112, 97, 108, 105, 118, 101]

  /** One round of the loop: the deadline is checked first, then one branch is taken. */
  datatype Round =
    | DeadlinePassed
    | ProbeTick(up: bool)
    | KeepaliveTick(written: bool)
    | StateChanged(state: ServerState)
    | ChannelClosed
    | ClientPacket
    | CancelledRead(took: nat)    // a read is dropped half-way, for the branch of the next round

  datatype Verdict =
    | Ready
    | Undecided        // the script is over and the loop still runs
    | StartFailed
    | StartupTimeout
    | WriteFailed
    | StateChannelClosed
    | Disconnected
    | AnswerTimeout

  /**
    What the wait comes to: the client bytes it leaves unread, what was sent and consumed in
    which order, and whether it has published Running itself.
  */
  datatype Outcome = Outcome(verdict: Verdict, rest: seq<byte>, trace: seq<Event>, published: bool)

  function EventOf(p: RawPacket): Event {
    if p.id == LOGIN_PLUGIN_RESPONSE then Answer else Other
  }

  // ----- The meaning -----

  function Selected(script: seq<Round>, s: seq<byte>, trace: seq<Event>): Outcome
    decreases |script|
  {
    if script == [] then Outcome(Undecided, s, trace, false)
    else match script[0]
      case DeadlinePassed => Outcome(StartupTimeout, s, trace, false)
      case ProbeTick(up) =>
        if up then Outcome(Ready, s, trace, true) else Selected(script[1..], s, trace)
      case KeepaliveTick(written) =>
        if written then Selected(script[1..], s, trace + [Query]) else Outcome(WriteFailed, s, trace, false)
      case StateChanged(state) =>
        if state.Running? then Outcome(Ready, s, trace, false)
        else if state.Stopped? then Outcome(StartFailed, s, trace, false)
        else Selected(script[1..], s, trace)
      case ChannelClosed => Outcome(StateChannelClosed, s, trace, false)
      case CancelledRead(took) => Selected(script[1..], s[Torn(s, took)..], trace)
      case ClientPacket =>
        match ReadFrame(s)
        case Err(_) => Outcome(Disconnected, s, trace, false)
        case Ok(f) => Selected(script[1..], s[f.used..], trace + [EventOf(f.packet)])
  }

  /** A round that, taken by itself, lets the loop go on. */
  predicate Harmless(r: Round) {
    r == ProbeTick(false) || r == KeepaliveTick(true) || r.ClientPacket? || r.CancelledRead?
    || (r.StateChanged? && (r.state.Starting? || r.state.Stopping?))
  }

  /** No read is dropped that has taken a byte. */
  predicate Untorn(script: seq<Round>, s: seq<byte>)
    decreases |script|
  {
    script == [] || !Harmless(script[0]) ||
    match script[0]
    case ClientPacket => ReadFrame(s).Ok? ==> Untorn(script[1..], s[ReadFrame(s).value.used..])
    case CancelledRead(took) => Torn(s, took) == 0 && Untorn(script[1..], s)
    case _ => Untorn(script[1..], s)
  }

  /** Where the loop stands after one more harmless round. */
  function After(r: Round, s: seq<byte>, trace: seq<Event>): (seq<byte>, seq<Event>)
    requires Harmless(r) && (r.ClientPacket? ==> ReadFrame(s).Ok?)
  {
    match r
    case KeepaliveTick(_) => (s, trace + [Query])
    case ClientPacket => (s[ReadFrame(s).value.used..], trace + [EventOf(ReadFrame(s).value.packet)])
    case CancelledRead(took) => (s[Torn(s, took)..], trace)
    case _ => (s, trace)
  }

  /** `patience` packets come in time; the next one that is waited for does not. */
  function Drained(s: seq<byte>, trace: seq<Event>, patience: nat, published: bool): Outcome
    decreases |s|
  {
    if Unanswered(trace) == 0 then Outcome(Ready, s, trace, published)
    else if patience == 0 then Outcome(AnswerTimeout, s, trace, published)
    else match ReadFrame(s)
      case Err(_) => Outcome(Disconnected, s, trace, published)
      case Ok(f) => Drained(s[f.used..], trace + [EventOf(f.packet)], patience - 1, published)
  }

  function Waited(snapshot: ServerState, script: seq<Round>, s: seq<byte>, patience: nat): Outcome {
    if snapshot.Stopped? then Outcome(StartFailed, s, [], false)
    else
      var o := Selected(script, s, []);
      if o.verdict.Ready? then Drained(o.rest, o.trace, patience, o.published) else o
  }

  /** What remains of s after n packets, if there are as many. */
  function SkipPackets(s: seq<byte>, n: nat): Result<seq<byte>> {
    if n == 0 then Ok(s)
    else match ReadFrame(s)
      case Err(e) => Err(e)
      case Ok(f) => SkipPackets(s[f.used..], n - 1)
  }

  function Consumed(trace: seq<Event>): nat {
    Count(trace, Answer) + Count(trace, Other)
  }

  // ----- What is consumed -----

  /** The outcome continues from a point where `done` stood: it has consumed whole packets since. */
  ghost predicate Continues(s: seq<byte>, done: seq<Event>, o: Outcome) {
    && Consumed(done) <= Consumed(o.trace)
    && SkipPackets(s, Consumed(o.trace) - Consumed(done)) == Ok(o.rest)
    && Count(o.trace, Answer) - Count(done, Answer)
       == Answers(ReadAll(s).0) - Answers(ReadAll(o.rest).0)
  }

  function Answers(ps: seq<RawPacket>): nat {
    if ps == [] then 0 else (if ps[0].id == LOGIN_PLUGIN_RESPONSE then 1 else 0) + Answers(ps[1..])
  }

  lemma OnePacketFurther(s: seq<byte>, done: seq<Event>, o: Outcome)
    requires ReadFrame(s).Ok?
    requires Continues(s[ReadFrame(s).value.used..], done + [EventOf(ReadFrame(s).value.packet)], o)
    ensures Continues(s, done, o)
  {
    hide ReadFrame;
    var f := ReadFrame(s).value;
    UnansweredNext(done, EventOf(f.packet));
    assert ReadAll(s).0 == [f.packet] + ReadAll(s[f.used..]).0;
    assert ReadAll(s).0[1..] == ReadAll(s[f.used..]).0;
  }

  lemma OneQueryFurther(s: seq<byte>, done: seq<Event>, o: Outcome)
    requires Continues(s, done + [Query], o)
    ensures Continues(s, done, o)
  {
    UnansweredNext(done, Query);
  }

  lemma {:induction false} SelectConsumes(script: seq<Round>, s: seq<byte>, done: seq<Event>)
    requires Untorn(script, s)
    ensures Continues(s, done, Selected(script, s, done))
    decreases |script|
  {
    hide ReadFrame, Torn;
    if script == [] || !Harmless(script[0]) {
    } else if script[0].KeepaliveTick? {
      SelectConsumes(script[1..], s, done + [Query]);
      OneQueryFurther(s, done, Selected(script, s, done));
    } else if script[0].ClientPacket? {
      if ReadFrame(s).Ok? {
        var f := ReadFrame(s).value;
        SelectConsumes(script[1..], s[f.used..], done + [EventOf(f.packet)]);
        OnePacketFurther(s, done, Selected(script, s, done));
      }
    } else {
      SelectConsumes(script[1..], s, done);
    }
  }

  lemma {:induction false} DrainConsumes(s: seq<byte>, done: seq<Event>, patience: nat, published: bool)
    ensures Continues(s, done, Drained(s, done, patience, published))
    decreases |s|
  {
    hide ReadFrame;
    if Unanswered(done) == 0 || patience == 0 || ReadFrame(s).Err? {
    } else {
      var f := ReadFrame(s).value;
      DrainConsumes(s[f.used..], done + [EventOf(f.packet)], patience - 1, published);
      OnePacketFurther(s, done, Drained(s, done, patience, published));
    }
  }

  lemma {:induction false} SkipTwice(s: seq<byte>, m: nat, n: nat)
    requires SkipPackets(s, m).Ok?
    ensures SkipPackets(s, m + n) == SkipPackets(SkipPackets(s, m).value, n)
    decreases m
  {
    hide ReadFrame;
    if m == 0 {
    } else {
      SkipTwice(s[ReadFrame(s).value.used..], m - 1, n);
    }
  }

  /** Skipping packets leaves the end of the stream as it was. */
  lemma {:induction false} SkipLeavesSuffix(s: seq<byte>, n: nat)
    requires SkipPackets(s, n).Ok?
    ensures |SkipPackets(s, n).value| <= |s|
    ensures SkipPackets(s, n).value == s[|s| - |SkipPackets(s, n).value|..]
    decreases n
  {
    hide ReadFrame;
    if n == 0 {
    } else {
      SkipLeavesSuffix(s[ReadFrame(s).value.used..], n - 1);
    }
  }

  // ----- In whatever way the reads end: nothing is reordered -----

  predicate IsSuffix(r: seq<byte>, s: seq<byte>) {
    |r| <= |s| && r == s[|s| - |r|..]
  }

  lemma SuffixOfSuffix(r: seq<byte>, s: seq<byte>, n: nat)
    requires n <= |s| && IsSuffix(r, s[n..])
    ensures IsSuffix(r, s)
  {
  }

  lemma {:induction false} SelectLeavesSuffix(script: seq<Round>, s: seq<byte>, trace: seq<Event>)
    ensures IsSuffix(Selected(script, s, trace).rest, s)
    decreases |script|
  {
    hide ReadFrame, Torn;
    if script == [] || !Harmless(script[0]) || (script[0].ClientPacket? && ReadFrame(s).Err?) {
    } else {
      var (s1, t1) := After(script[0], s, trace);
      SelectLeavesSuffix(script[1..], s1, t1);
      SuffixOfSuffix(Selected(script, s, trace).rest, s, |s| - |s1|);
    }
  }

  /** Whatever the reads took, what the wait leaves is an end of the client's stream, without a gap. */
  lemma WaitLeavesSuffix(snapshot: ServerState, script: seq<Round>, s: seq<byte>, patience: nat)
    ensures IsSuffix(Waited(snapshot, script, s, patience).rest, s)
  {
    hide ReadFrame, Drained;
    if !snapshot.Stopped? {
      var o := Selected(script, s, []);
      SelectLeavesSuffix(script, s, []);
      if o.verdict.Ready? {
        var d := Drained(o.rest, o.trace, patience, o.published);
        DrainConsumes(o.rest, o.trace, patience, o.published);
        SkipLeavesSuffix(o.rest, Consumed(d.trace) - Consumed(o.trace));
        assert IsSuffix(d.rest, o.rest);
        SuffixOfSuffix(d.rest, s, |s| - |o.rest|);
      }
    }
  }

  // ----- Whole packets -----

  /** What the loop leaves starts right behind the packets it has consumed. */
  predicate Aligned(s: seq<byte>, o: Outcome) {
    SkipPackets(s, Consumed(o.trace)) == Ok(o.rest)
  }

  ghost predicate AlwaysAligned(start: seq<byte>, script: seq<Round>, s: seq<byte>, trace: seq<Event>) {
    forall i :: 0 <= i <= |script| ==> Aligned(start, Selected(script[..i], s, trace))
  }

  /**
    After every round the loop stands at a packet boundary, right behind the packets it has
    counted, if and only if no read has been dropped with bytes in hand.
  */
  lemma AlignedExactlyIfUntorn(script: seq<Round>, s: seq<byte>)
    ensures (forall i :: 0 <= i <= |script| ==> Aligned(s, Selected(script[..i], s, []))) <==> Untorn(script, s)
  {
    AlignedFrom(s, script, s, []);
  }

  lemma {:induction false} AlignedFrom(start: seq<byte>, script: seq<Round>, s: seq<byte>, trace: seq<Event>)
    requires SkipPackets(start, Consumed(trace)) == Ok(s)
    ensures AlwaysAligned(start, script, s, trace) <==> Untorn(script, s)
    decreases |script|
  {
    hide ReadFrame, Torn, SkipPackets, Consumed;
    if script == [] || !Harmless(script[0]) || (script[0].ClientPacket? && ReadFrame(s).Err?) {
      forall i | 0 <= i <= |script|
        ensures Aligned(start, Selected(script[..i], s, trace))
      {
        assert i > 0 ==> script[..i][0] == script[0];
      }
    } else {
      hide Aligned, AlwaysAligned, Selected;
      var (s1, t1) := After(script[0], s, trace);
      AlwaysAlignedNext(start, script, s, trace);
      AfterStaysAligned(start, script[0], s, trace);
      if SkipPackets(start, Consumed(t1)) == Ok(s1) {
        AlignedFrom(start, script[1..], s1, t1);
      }
    }
  }

  lemma SelectedNext(script: seq<Round>, s: seq<byte>, trace: seq<Event>, i: nat)
    requires 0 < i <= |script| && Harmless(script[0]) && (script[0].ClientPacket? ==> ReadFrame(s).Ok?)
    ensures var (s1, t1) := After(script[0], s, trace);
            Selected(script[..i], s, trace) == Selected(script[1..][..i - 1], s1, t1)
  {
    hide ReadFrame, Torn;
    assert script[..i][0] == script[0] && script[..i][1..] == script[1..][..i - 1];
  }

  lemma AlwaysAlignedNext(start: seq<byte>, script: seq<Round>, s: seq<byte>, trace: seq<Event>)
    requires SkipPackets(start, Consumed(trace)) == Ok(s)
    requires script != [] && Harmless(script[0]) && (script[0].ClientPacket? ==> ReadFrame(s).Ok?)
    ensures var (s1, t1) := After(script[0], s, trace);
            && (AlwaysAligned(start, script, s, trace) <==> AlwaysAligned(start, script[1..], s1, t1))
            && (AlwaysAligned(start, script[1..], s1, t1) ==> SkipPackets(start, Consumed(t1)) == Ok(s1))
  {
    hide ReadFrame, Torn, After, SkipPackets, Consumed;
    var (s1, t1) := After(script[0], s, trace);
    var tail := script[1..];
    assert Aligned(start, Selected(script[..0], s, trace));
    assert Selected(tail[..0], s1, t1) == Outcome(Undecided, s1, t1, false);
    hide Selected;
    if AlwaysAligned(start, script, s, trace) {
      forall j | 0 <= j <= |tail|
        ensures Aligned(start, Selected(tail[..j], s1, t1))
      {
        SelectedNext(script, s, trace, j + 1);
      }
    }
    if AlwaysAligned(start, tail, s1, t1) {
      forall i | 0 <= i <= |script|
        ensures Aligned(start, Selected(script[..i], s, trace))
      {
        if i > 0 {
          SelectedNext(script, s, trace, i);
          assert Aligned(start, Selected(tail[..i - 1], s1, t1));
        }
      }
      assert Aligned(start, Selected(tail[..0], s1, t1));
    }
  }

  lemma AfterStaysAligned(start: seq<byte>, r: Round, s: seq<byte>, trace: seq<Event>)
    requires SkipPackets(start, Consumed(trace)) == Ok(s)
    requires Harmless(r) && (r.ClientPacket? ==> ReadFrame(s).Ok?)
    ensures SkipPackets(start, Consumed(After(r, s, trace).1)) == Ok(After(r, s, trace).0) <==>
            (r.CancelledRead? ==> Torn(s, r.took) == 0)
  {
    hide ReadFrame, Torn;
    match r {
      case KeepaliveTick(_) => UnansweredNext(trace, Query);
      case ClientPacket =>
        UnansweredNext(trace, EventOf(ReadFrame(s).value.packet));
        SkipTwice(start, Consumed(trace), 1);
        assert SkipPackets(s[ReadFrame(s).value.used..], 0) == Ok(s[ReadFrame(s).value.used..]);
      case CancelledRead(took) => assert |s[Torn(s, took)..]| == |s| - Torn(s, took);
      case _ =>
    }
  }

  /**
    However the wait ends, the bytes it leaves are the client bytes after as many whole packets
    as it has consumed, provided that no read was dropped with bytes in hand.
  */
  lemma WaitConsumesWholePackets(snapshot: ServerState, script: seq<Round>, s: seq<byte>, patience: nat)
    requires snapshot.Stopped? || Untorn(script, s)
    ensures var o := Waited(snapshot, script, s, patience);
            && SkipPackets(s, Consumed(o.trace)) == Ok(o.rest)
            && Count(o.trace, Answer) == Answers(ReadAll(s).0) - Answers(ReadAll(o.rest).0)
  {
    hide ReadFrame;
    if !snapshot.Stopped? {
      var o := Selected(script, s, []);
      SelectConsumes(script, s, []);
      if o.verdict.Ready? {
        DrainConsumes(o.rest, o.trace, patience, o.published);
        SkipTwice(s, Consumed(o.trace), Consumed(Drained(o.rest, o.trace, patience, o.published).trace) - Consumed(o.trace));
      }
    }
  }

  // ----- How the select loop ends -----

  predicate FirstDecisive(script: seq<Round>, i: nat) {
    i < |script| && !Harmless(script[i]) && forall j :: 0 <= j < i ==> Harmless(script[j])
  }

  /** Unless the client goes away first, the first decisive round decides how the loop ends. */
  lemma {:induction false} FirstDecisiveRoundDecides(script: seq<Round>, s: seq<byte>, trace: seq<Event>, i: nat)
    requires FirstDecisive(script, i) && !Selected(script, s, trace).verdict.Disconnected?
    ensures var o := Selected(script, s, trace);
            match script[i]
            case DeadlinePassed => o.verdict.StartupTimeout?
            case ProbeTick(_) => o.verdict.Ready? && o.published
            case KeepaliveTick(_) => o.verdict.WriteFailed?
            case StateChanged(state) =>
              !o.published && if state.Running? then o.verdict.Ready? else o.verdict.StartFailed?
            case ChannelClosed => o.verdict.StateChannelClosed?
            case _ => false
    ensures Selected(script, s, trace).published <==> script[i] == ProbeTick(true)
    decreases i
  {
    hide ReadFrame;
    if i == 0 {
    } else {
      assert Harmless(script[0]);
      var s1, t1 := s, trace;
      if script[0].KeepaliveTick? {
        t1 := trace + [Query];
      } else if script[0].ClientPacket? {
        s1 := s[ReadFrame(s).value.used..];
        t1 := trace + [EventOf(ReadFrame(s).value.packet)];
      } else if script[0].CancelledRead? {
        s1 := s[Torn(s, script[0].took)..];
      }
      assert Selected(script, s, trace) == Selected(script[1..], s1, t1);
      FirstDecisiveRoundDecides(script[1..], s1, t1, i - 1);
    }
  }

  // ----- What Ready means -----

  lemma {:induction false} DrainedReady(s: seq<byte>, trace: seq<Event>, patience: nat, published: bool)
    ensures var o := Drained(s, trace, patience, published);
            o.verdict.Ready? ==> Unanswered(o.trace) == 0
    decreases |s|
  {
    hide ReadFrame;
    if Unanswered(trace) == 0 || patience == 0 || ReadFrame(s).Err? {
    } else {
      var f := ReadFrame(s).value;
      DrainedReady(s[f.used..], trace + [EventOf(f.packet)], patience - 1, published);
    }
  }

  /**
    The wait succeeds only if every keepalive it sent can be given an answer of its own that was
    consumed after it, whatever else the client sent.
  */
  lemma ReadyMeansAllAnswered(snapshot: ServerState, script: seq<Round>, s: seq<byte>, patience: nat)
    requires Waited(snapshot, script, s, patience).verdict.Ready?
    ensures var trace := Waited(snapshot, script, s, patience).trace;
            exists m :: Matches(trace, m) && Open(trace, m) == {}
  {
    var o := Selected(script, s, []);
    DrainedReady(o.rest, o.trace, patience, o.published);
    CounterIsZeroIffAllMatched(Waited(snapshot, script, s, patience).trace);
  }

  /**
    On success the answers in the client's stream are those the wait has consumed and those that
    are forwarded.  The wait has consumed exactly as many as it sent keepalives if and only if the
    client never answered ahead of a keepalive; then every further answer, whoever it is for, is
    forwarded, and otherwise the wait has swallowed more.
  */
  lemma AnswersAreShared(snapshot: ServerState, script: seq<Round>, s: seq<byte>, patience: nat)
    requires Waited(snapshot, script, s, patience).verdict.Ready?
    ensures var o := Waited(snapshot, script, s, patience);
            && Count(o.trace, Answer) >= Count(o.trace, Query)
            && (Count(o.trace, Answer) == Count(o.trace, Query) <==> NeverAhead(o.trace))
            && (Untorn(script, s) ==>
                && Answers(ReadAll(s).0) == Count(o.trace, Answer) + Answers(ReadAll(o.rest).0)
                && (NeverAhead(o.trace) <==>
                    Answers(ReadAll(s).0) == Count(o.trace, Query) + Answers(ReadAll(o.rest).0)))
  {
    hide ReadFrame, ReadAll, Answers, Untorn;
    if Untorn(script, s) {
      WaitConsumesWholePackets(snapshot, script, s, patience);
    }
    var selected := Selected(script, s, []);
    DrainedReady(selected.rest, selected.trace, patience, selected.published);
    ZeroAndBalanced(Waited(snapshot, script, s, patience).trace);
  }

  /**
    If the client sends no more answers than it was sent queries, then on success it has been
    relieved of every one of them: as many were consumed as queries were sent, and none is left
    in the bytes that are forwarded.  (A client may well send more: AnswersAreShared covers it.)
  */
  lemma NoAnswerIsForwarded(snapshot: ServerState, script: seq<Round>, s: seq<byte>, patience: nat)
    requires Waited(snapshot, script, s, patience).verdict.Ready?
    requires Untorn(script, s)
    requires Answers(ReadAll(s).0) <= Count(Waited(snapshot, script, s, patience).trace, Query)
    ensures var o := Waited(snapshot, script, s, patience);
            && Count(o.trace, Answer) == Count(o.trace, Query)
            && Answers(ReadAll(o.rest).0) == 0
  {
    hide ReadFrame, ReadAll, Answers, Waited, Untorn;
    AnswersAreShared(snapshot, script, s, patience);
  }

  // ----- The code -----

  /** The keepalives with the ids 0 to n - 1. */
  function KeepalivesSent(n: nat): seq<byte> {
    if n == 0 then []
    else KeepalivesSent(n - 1) + WireBytes(PluginRequest(ToI32(LengthAsU32(n - 1)), KEEPALIVE_CHANNEL))
  }

  /** What the client has been sent when the wait is over. */
  function Written(o: Outcome, disconnectJson: seq<byte>): seq<byte> {
    KeepalivesSent(Count(o.trace, Query)) +
    if o.verdict.StartFailed? || o.verdict.StartupTimeout? then WireBytes(StringPacket(DISCONNECT_ID, disconnectJson))
    else []
  }

  /** The id after this one, in 32 bits. */
  function NextId(id: i32): i32 {
    ToI32((ToU32(id) + 1) % TWO_TO_THE_32)
  }

  lemma NextIdCounts(n: nat)
    ensures NextId(ToI32(LengthAsU32(n))) == ToI32(LengthAsU32(n + 1))
  {
    var low, high := n % TWO_TO_THE_32, n / TWO_TO_THE_32;
    assert ToU32(ToI32(low)) == low;
    assert n + 1 == (low + 1) + high * TWO_TO_THE_32;
    assert (n + 1) % TWO_TO_THE_32 == (low + 1) % TWO_TO_THE_32;
  }

  lemma OneMoreKeepalive(n: nat)
    ensures KeepalivesSent(n + 1) ==
            KeepalivesSent(n) + WireBytes(PluginRequest(ToI32(LengthAsU32(n)), KEEPALIVE_CHANNEL))
    ensures NextId(ToI32(LengthAsU32(n))) == ToI32(LengthAsU32(n + 1))
  {
    hide WireBytes, PluginRequest;
    NextIdCounts(n);
  }

  lemma NothingYet()
    ensures Unanswered([]) == 0 && Count([], Query) == 0 && KeepalivesSent(0) == [] && ToI32(LengthAsU32(0)) == 0
  {
  }

  /** The whole wait: the snapshot taken when subscribing, the select loop, the draining loop. */
  method WaitForServer(reader: Reader, snapshot: ServerState, script: seq<Round>, patience: nat,
                       disconnectJson: seq<byte>)
    returns (verdict: Verdict, published: bool, written: seq<byte>)
    requires reader.Valid()
    modifies reader
    ensures reader.Valid()
    ensures var o := Waited(snapshot, script, old(reader.Rest()), patience);
            && verdict == o.verdict && published == o.published
            && written == Written(o, disconnectJson)
            && (!verdict.Disconnected? ==> reader.Rest() == o.rest)
  {
    hide Selected, Drained, WireBytes, Unanswered, Count, LengthAsU32;
    NothingYet();
    if snapshot.Stopped? {
      var packet := EncodeLoginDisconnect(disconnectJson);
      return StartFailed, false, packet;
    }
    ghost var o := Selected(script, reader.Rest(), []);
    var unanswered;
    verdict, published, written, unanswered := SelectLoop(reader, script, disconnectJson);
    if verdict.Ready? {
      verdict := DrainAnswers(reader, unanswered, patience, o.trace, published);
      DrainSendsNothing(o.rest, o.trace, patience, published);
    }
  }

  method SelectLoop(reader: Reader, script: seq<Round>, disconnectJson: seq<byte>)
    returns (verdict: Verdict, published: bool, written: seq<byte>, unanswered: nat)
    requires reader.Valid()
    modifies reader
    ensures reader.Valid()
    ensures var o := Selected(script, old(reader.Rest()), []);
            && verdict == o.verdict && published == o.published
            && written == Written(o, disconnectJson)
            && unanswered == Unanswered(o.trace)
            && (!verdict.Disconnected? ==> reader.Rest() == o.rest)
  {
    hide ReadFrame, Torn, WireBytes, PluginRequest, KeepalivesSent, Unanswered, Count, NextId, LengthAsU32;
    NothingYet();
    ghost var s := reader.Rest();
    ghost var trace: seq<Event> := [];
    unanswered, written, published := 0, [], false;
    var keepaliveId: i32 := 0;
    var i := 0;
    while true
      invariant reader.Valid() && 0 <= i <= |script| && !published
      invariant unanswered == Unanswered(trace) && written == KeepalivesSent(Count(trace, Query))
      invariant keepaliveId == ToI32(LengthAsU32(Count(trace, Query)))
      invariant Selected(script, s, []) == Selected(script[i..], reader.Rest(), trace)
      decreases |script| - i
    {
      if i == |script| {
        return Undecided, false, written, unanswered;
      }
      var round := script[i];
      i := i + 1;
      match round {
        case DeadlinePassed =>
          var packet := EncodeLoginDisconnect(disconnectJson);
          return StartupTimeout, false, written + packet, unanswered;
        case ProbeTick(up) =>
          if up {
            return Ready, true, written, unanswered;
          }
        case KeepaliveTick(ok) =>
          var packet := EncodeLoginPluginRequest(keepaliveId, KEEPALIVE_CHANNEL);
          if !ok {
            return WriteFailed, false, written, unanswered;
          }
          UnansweredNext(trace, Query);
          OneMoreKeepalive(Count(trace, Query));
          trace := trace + [Query];
          written := written + packet;
          keepaliveId := NextId(keepaliveId);
          unanswered := unanswered + 1;
        case StateChanged(state) =>
          match state {
            case Running => return Ready, false, written, unanswered;
            case Stopped =>
              var packet := EncodeLoginDisconnect(disconnectJson);
              return StartFailed, false, written + packet, unanswered;
            case _ =>
          }
        case ChannelClosed =>
          return StateChannelClosed, false, written, unanswered;
        case ClientPacket =>
          var packet := NextPacket(reader);
          if packet.Err? {
            return Disconnected, false, written, unanswered;
          }
          UnansweredNext(trace, EventOf(packet.value));
          trace := trace + [EventOf(packet.value)];
          if packet.value.id == LOGIN_PLUGIN_RESPONSE {
            unanswered := if unanswered == 0 then 0 else unanswered - 1;
          }
        case CancelledRead(took) => DropRead(reader, took);
      }
    }
  }

  lemma {:induction false} DrainSendsNothing(s: seq<byte>, trace: seq<Event>, patience: nat, published: bool)
    ensures var o := Drained(s, trace, patience, published);
            && Count(o.trace, Query) == Count(trace, Query) && o.published == published
            && (o.verdict.Ready? || o.verdict.Disconnected? || o.verdict.AnswerTimeout?)
    decreases |s|
  {
    hide ReadFrame;
    if Unanswered(trace) == 0 || patience == 0 || ReadFrame(s).Err? {
    } else {
      var f := ReadFrame(s).value;
      UnansweredNext(trace, EventOf(f.packet));
      DrainSendsNothing(s[f.used..], trace + [EventOf(f.packet)], patience - 1, published);
    }
  }

  lemma DrainStep(s: seq<byte>, trace: seq<Event>, patience: nat, published: bool)
    requires Unanswered(trace) > 0 && patience > 0 && ReadFrame(s).Ok?
    ensures var f := ReadFrame(s).value;
            Drained(s, trace, patience, published) ==
            Drained(s[f.used..], trace + [EventOf(f.packet)], patience - 1, published)
  {
    hide ReadFrame;
  }

  /** The loop after the select loop; it ends on every input, for each packet takes bytes away. */
  method DrainAnswers(reader: Reader, outstanding: nat, patience: nat, ghost before: seq<Event>, ghost published: bool)
    returns (verdict: Verdict)
    requires reader.Valid() && outstanding == Unanswered(before)
    modifies reader
    ensures reader.Valid()
    ensures verdict == Drained(old(reader.Rest()), before, patience, published).verdict
    ensures !verdict.Disconnected? ==> reader.Rest() == Drained(old(reader.Rest()), before, patience, published).rest
  {
    hide ReadFrame;
    ghost var s, trace := reader.Rest(), before;
    ghost var outcome := Drained(s, before, patience, published);
    var unanswered, left := outstanding, patience;
    while unanswered > 0
      invariant reader.Valid() && unanswered == Unanswered(trace)
      invariant outcome == Drained(reader.Rest(), trace, left, published)
      decreases |reader.Rest()|
    {
      if left == 0 {
        return AnswerTimeout;
      }
      ghost var here := reader.Rest();
      var packet := NextPacket(reader);
      if packet.Err? {
        return Disconnected;
      }
      ghost var next := trace + [EventOf(packet.value)];
      assert outcome == Drained(reader.Rest(), next, left - 1, published) by {
        DrainStep(here, trace, left, published);
      }
      assert Unanswered(next) == Counted(unanswered, EventOf(packet.value)) by {
        UnansweredNext(trace, EventOf(packet.value));
      }
      trace, left := next, left - 1;
      if packet.value.id == LOGIN_PLUGIN_RESPONSE {
        unanswered := unanswered - 1;
      }
    }
    verdict := Ready;
  }

  /** A read that has got hold of `took` bytes at most when it is dropped. */
  method DropRead(reader: Reader, took: nat)
    requires reader.Valid()
    modifies reader
    ensures reader.Valid()
    ensures reader.Rest() == old(reader.Rest())[Torn(old(reader.Rest()), took)..]
  {
    hide Torn;
    var buf := new byte[Torn(reader.Rest(), took)];
    var _ := reader.ReadExact(buf);
  }

  /** Reads a packet and drops its frame. */
  method NextPacket(reader: Reader) returns (packet: Result<RawPacket>)
    requires reader.Valid()
    modifies reader
    ensures reader.Valid()
    ensures packet.Ok? <==> ReadFrame(old(reader.Rest())).Ok?
    ensures packet.Ok? ==> packet.value == ReadFrame(old(reader.Rest())).value.packet
    ensures packet.Ok? ==> reader.Rest() == old(reader.Rest())[ReadFrame(old(reader.Rest())).value.used..]
  {
    hide ReadFrame;
    var result := ReadPacket(reader);
    if result.Err? {
      return Err(result.error);
    }
    packet := Ok(result.value.0);
  }
}

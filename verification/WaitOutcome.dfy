/**
  How wait_for_server_with ends and what it consumes, told by the script and the client's packets
  alone: how many packets, which ones, and that it takes no packet more than it must.
*/
module WaitOutcomes {
  import opened Bytes
  import opened Varints
  import opened Packets
  import opened Handshakes
  import opened Keepalives
  import opened SharedStates
  import opened StatusCodec
  import opened Utf8
  import opened Waiting

  // ----- The script alone -----

  /** All other rounds let the loop go on. */
  lemma OnlyTheseDecide(r: Round)
    ensures Harmless(r) <==>
            && r != DeadlinePassed && r != ChannelClosed
            && r != ProbeTick(true) && r != KeepaliveTick(false)
            && r != StateChanged(Running) && r != StateChanged(Stopped)
  {
  }

  /** How many packets the script has the loop read before a round decides. */
  function Reads(script: seq<Round>): nat {
    if script == [] || !Harmless(script[0]) then 0
    else (if script[0].ClientPacket? then 1 else 0) + Reads(script[1..])
  }

  /** How many keepalives it has the loop send. */
  function Ticks(script: seq<Round>): nat {
    if script == [] || !Harmless(script[0]) then 0
    else (if script[0].KeepaliveTick? then 1 else 0) + Ticks(script[1..])
  }

  /** Unless the client goes away, as many packets are consumed and queries sent as the script says. */
  lemma {:induction false} SelectCounts(script: seq<Round>, s: seq<byte>, trace: seq<Event>)
    requires !Selected(script, s, trace).verdict.Disconnected?
    ensures var o := Selected(script, s, trace);
            && Consumed(o.trace) == Consumed(trace) + Reads(script)
            && Count(o.trace, Query) == Count(trace, Query) + Ticks(script)
    decreases |script|
  {
    hide ReadFrame, Torn;
    if script == [] || !Harmless(script[0]) {
    } else {
      var (s1, t1) := Waiting.After(script[0], s, trace);
      AfterCounts(script[0], s, trace);
      SelectCounts(script[1..], s1, t1);
    }
  }

  lemma AfterCounts(r: Round, s: seq<byte>, trace: seq<Event>)
    requires Harmless(r) && (r.ClientPacket? ==> ReadFrame(s).Ok?)
    ensures var (s1, t1) := Waiting.After(r, s, trace);
            && Consumed(t1) == Consumed(trace) + (if r.ClientPacket? then 1 else 0)
            && Count(t1, Query) == Count(trace, Query) + (if r.KeepaliveTick? then 1 else 0)
  {
    hide ReadFrame, Torn;
    match r {
      case KeepaliveTick(_) => UnansweredNext(trace, Query);
      case ClientPacket => UnansweredNext(trace, EventOf(ReadFrame(s).value.packet));
      case _ =>
    }
  }

  // ----- The script and the packets -----

  /** What happens in the loop, in order, if the client's packets are ps. */
  function Events(script: seq<Round>, ps: seq<RawPacket>): seq<Event> {
    if script == [] || !Harmless(script[0]) then []
    else
      match script[0]
      case KeepaliveTick(_) => [Query] + Events(script[1..], ps)
      case ClientPacket => if ps == [] then [] else [Heard(ps[0])] + Events(script[1..], ps[1..])
      case _ => Events(script[1..], ps)
  }

  /** Packet 2 is a login plugin response. */
  function Heard(p: RawPacket): (e: Event)
    ensures e == EventOf(p)
  {
    if p.id == 2 then Answer else Other
  }

  /**
    With no read torn: the client goes away exactly if it sends fewer packets than the script
    reads; otherwise the events are those of its first packets.
  */
  lemma {:induction false} SelectReplays(script: seq<Round>, s: seq<byte>, trace: seq<Event>)
    requires Untorn(script, s)
    ensures var o, ps := Selected(script, s, trace), ReadAll(s).0;
            && (o.verdict.Disconnected? <==> |ps| < Reads(script))
            && o.trace == trace + Events(script, ps)
            && (!o.verdict.Disconnected? ==> SkipPackets(s, Reads(script)) == Ok(o.rest))
    decreases |script|
  {
    hide ReadFrame, Torn;
    if script == [] || !Harmless(script[0]) {
      assert trace + [] == trace;
    } else if script[0].ClientPacket? {
      if ReadFrame(s).Ok? {
        var f := ReadFrame(s).value;
        var ps1 := ReadAll(s[f.used..]).0;
        SelectReplays(script[1..], s[f.used..], trace + [EventOf(f.packet)]);
        assert ReadAll(s).0 == [f.packet] + ps1;
        assert ReadAll(s).0[1..] == ps1;
        assert trace + [EventOf(f.packet)] + Events(script[1..], ps1)
            == trace + ([EventOf(f.packet)] + Events(script[1..], ps1));
      } else {
        assert trace + [] == trace;
      }
    } else if script[0].KeepaliveTick? {
      SelectReplays(script[1..], s, trace + [Query]);
      var rest := Events(script[1..], ReadAll(s).0);
      assert trace + [Query] + rest == trace + ([Query] + rest);
    } else {
      SelectReplays(script[1..], s, trace);
    }
  }

  // ----- The draining loop -----

  function AllHeard(ps: seq<RawPacket>): (es: seq<Event>)
    ensures |es| == |ps|
  {
    if ps == [] then [] else [Heard(ps[0])] + AllHeard(ps[1..])
  }

  /** Keepalives still open when `trace` is followed by the first n of the packets. */
  function OpenAfter(trace: seq<Event>, ps: seq<RawPacket>, n: nat): nat
    requires n <= |ps|
  {
    Unanswered(trace + AllHeard(ps[..n]))
  }

  lemma OpenAfterNext(trace: seq<Event>, ps: seq<RawPacket>, n: nat)
    requires 0 < n <= |ps|
    ensures OpenAfter(trace, ps, n) == OpenAfter(trace + [Heard(ps[0])], ps[1..], n - 1)
    ensures trace + AllHeard(ps[..n]) == trace + [Heard(ps[0])] + AllHeard(ps[1..][..n - 1])
  {
    assert ps[..n][1..] == ps[1..][..n - 1];
    assert trace + ([Heard(ps[0])] + AllHeard(ps[1..][..n - 1])) == trace + [Heard(ps[0])] + AllHeard(ps[1..][..n - 1]);
  }

  /** What the draining loop comes to when it takes n of the packets in s. */
  ghost predicate DrainsBy(s: seq<byte>, trace: seq<Event>, patience: nat, published: bool, n: nat) {
    && n <= |ReadAll(s).0| && n <= patience
    && var o, ps := Drained(s, trace, patience, published), ReadAll(s).0;
       && o.trace == trace + AllHeard(ps[..n]) && SkipPackets(s, n) == Ok(o.rest) && o.published == published
       && (forall j :: 0 <= j < n ==> OpenAfter(trace, ps, j) > 0)
       && (o.verdict.Ready? || o.verdict.AnswerTimeout? || o.verdict.Disconnected?)
       && (o.verdict.Ready? <==> OpenAfter(trace, ps, n) == 0)
       && (o.verdict.AnswerTimeout? <==> n == patience && OpenAfter(trace, ps, n) > 0)
       && (o.verdict.Disconnected? <==> n == |ps| < patience && OpenAfter(trace, ps, n) > 0)
  }

  /**
    It takes packets one by one while a keepalive is open, and not one more; it gives up when as
    many as come in time have been taken, or the client sends no more.
  */
  lemma {:induction false} DrainTakesNoMore(s: seq<byte>, trace: seq<Event>, patience: nat, published: bool) returns (n: nat)
    ensures DrainsBy(s, trace, patience, published, n)
    decreases |s|
  {
    hide ReadFrame, DrainsBy;
    if Unanswered(trace) == 0 || patience == 0 || ReadFrame(s).Err? {
      n := 0;
      DrainsNothing(s, trace, patience, published);
    } else {
      var f := ReadFrame(s).value;
      var m := DrainTakesNoMore(s[f.used..], trace + [EventOf(f.packet)], patience - 1, published);
      n := m + 1;
      DrainsOneMore(s, trace, patience, published, m);
    }
  }

  lemma DrainsNothing(s: seq<byte>, trace: seq<Event>, patience: nat, published: bool)
    requires Unanswered(trace) == 0 || patience == 0 || ReadFrame(s).Err?
    ensures DrainsBy(s, trace, patience, published, 0)
  {
    hide ReadFrame;
    assert trace + AllHeard(ReadAll(s).0[..0]) == trace;
  }

  lemma DrainsOneMore(s: seq<byte>, trace: seq<Event>, patience: nat, published: bool, m: nat)
    requires Unanswered(trace) != 0 && patience > 0 && ReadFrame(s).Ok?
    requires var f := ReadFrame(s).value;
             DrainsBy(s[f.used..], trace + [EventOf(f.packet)], patience - 1, published, m)
    ensures DrainsBy(s, trace, patience, published, m + 1)
  {
    hide ReadFrame, Unanswered, AllHeard, OpenAfter;
    var f := ReadFrame(s).value;
    var ps, tail := ReadAll(s).0, ReadAll(s[f.used..]).0;
    assert ps == [f.packet] + tail && ps[1..] == tail;
    DrainStep(s, trace, patience, published);
    hide Drained, ReadAll;
    OpenAfterNext(trace, ps, m + 1);
    OpenAtFirst(trace, ps);
    forall j | 0 <= j < m + 1
      ensures OpenAfter(trace, ps, j) > 0
    {
      if j > 0 {
        OpenAfterNext(trace, ps, j);
      }
    }
  }

  lemma OpenAtFirst(trace: seq<Event>, ps: seq<RawPacket>)
    ensures OpenAfter(trace, ps, 0) == Unanswered(trace)
  {
    assert trace + AllHeard(ps[..0]) == trace;
  }

  lemma AllHeardCounts(trace: seq<Event>, ps: seq<RawPacket>, n: nat)
    requires n <= |ps|
    ensures Consumed(trace + AllHeard(ps[..n])) == Consumed(trace) + n
    ensures Count(trace + AllHeard(ps[..n]), Query) == Count(trace, Query)
    decreases n
  {
    if n == 0 {
      assert trace + AllHeard(ps[..0]) == trace;
    } else {
      OpenAfterNext(trace, ps, n);
      UnansweredNext(trace, Heard(ps[0]));
      AllHeardCounts(trace + [Heard(ps[0])], ps[1..], n - 1);
    }
  }

  // ----- The whole wait -----

  /** The first round that decides is a probe that succeeds or the news that the server runs. */
  predicate ServerComesUp(script: seq<Round>) {
    exists i :: 0 <= i < |script| && FirstDecisive(script, i) && (script[i] == ProbeTick(true) || script[i] == StateChanged(Running))
  }

  predicate NothingDecides(script: seq<Round>) {
    forall i :: 0 <= i < |script| ==> Harmless(script[i])
  }

  lemma {:induction false} FirstDecisiveOrNone(script: seq<Round>) returns (i: nat)
    ensures NothingDecides(script) || FirstDecisive(script, i)
  {
    if script == [] || !Harmless(script[0]) {
      i := 0;
    } else {
      i := FirstDecisiveOrNone(script[1..]);
      i := i + 1;
    }
  }

  /** While nothing decides, the loop goes on or loses the client. */
  lemma {:induction false} UndecidedScript(script: seq<Round>, s: seq<byte>, trace: seq<Event>)
    requires NothingDecides(script)
    ensures var o := Selected(script, s, trace);
            (o.verdict.Undecided? || o.verdict.Disconnected?) && !o.published
    decreases |script|
  {
    hide ReadFrame, Torn;
    if script == [] {
    } else if script[0].ClientPacket? && ReadFrame(s).Err? {
    } else {
      var (s1, t1) := Waiting.After(script[0], s, trace);
      assert Harmless(script[0]);
      assert forall i :: 0 <= i < |script[1..]| ==> script[1..][i] == script[i + 1];
      UndecidedScript(script[1..], s1, t1);
    }
  }

  lemma SelectReadyExactly(script: seq<Round>, s: seq<byte>, trace: seq<Event>)
    ensures var o := Selected(script, s, trace);
            o.verdict.Ready? <==> ServerComesUp(script) && !o.verdict.Disconnected?
  {
    hide Selected, Harmless;
    var i := FirstDecisiveOrNone(script);
    if NothingDecides(script) {
      UndecidedScript(script, s, trace);
    } else if !Selected(script, s, trace).verdict.Disconnected? {
      FirstDecisiveRoundDecides(script, s, trace, i);
      OnlyTheseDecide(script[i]);
      if j :| 0 <= j < |script| && FirstDecisive(script, j) && (script[j] == ProbeTick(true) || script[j] == StateChanged(Running)) {
        assert i == j;
      }
    }
  }

  lemma {:induction false} ReadAllSkips(s: seq<byte>, n: nat)
    requires n <= |ReadAll(s).0|
    ensures SkipPackets(s, n).Ok? && ReadAll(SkipPackets(s, n).value).0 == ReadAll(s).0[n..]
    decreases n
  {
    hide ReadFrame;
    if n == 0 {
    } else {
      var f := ReadFrame(s).value;
      assert ReadAll(s).0 == [f.packet] + ReadAll(s[f.used..]).0;
      ReadAllSkips(s[f.used..], n - 1);
    }
  }

  /** Enough packets come, and in time, to close every keepalive. */
  ghost predicate AllAnsweredBy(trace: seq<Event>, ps: seq<RawPacket>, patience: nat, n: nat) {
    n <= |ps| && n <= patience && OpenAfter(trace, ps, n) == 0
  }

  lemma DrainSucceedsExactly(s: seq<byte>, trace: seq<Event>, patience: nat, published: bool)
    ensures Drained(s, trace, patience, published).verdict.Ready? <==>
            exists n :: AllAnsweredBy(trace, ReadAll(s).0, patience, n)
  {
    hide Drained, OpenAfter, ReadAll, SkipPackets, AllHeard;
    var n := DrainTakesNoMore(s, trace, patience, published);
    if m :| AllAnsweredBy(trace, ReadAll(s).0, patience, m) {
      assert m >= n;
    }
    assert OpenAfter(trace, ReadAll(s).0, n) == 0 ==> AllAnsweredBy(trace, ReadAll(s).0, patience, n);
  }

  /**
    With no read torn, told by the script and the client's packets: the wait succeeds exactly if
    the server comes up, the client sends what is read until then, and behind it, in time, enough
    to close every keepalive.
  */
  lemma WaitSucceedsExactly(snapshot: ServerState, script: seq<Round>, s: seq<byte>, patience: nat)
    requires Untorn(script, s)
    ensures var ps, k := ReadAll(s).0, Reads(script);
            Waited(snapshot, script, s, patience).verdict.Ready? <==>
            && !snapshot.Stopped? && ServerComesUp(script) && k <= |ps|
            && exists n :: AllAnsweredBy(Events(script, ps), ps[k..], patience, n)
  {
    hide Selected, Drained, Untorn, AllAnsweredBy, Events, ServerComesUp, SkipPackets, ReadAll, Reads;
    var sel, ps, k := Selected(script, s, []), ReadAll(s).0, Reads(script);
    SelectReplays(script, s, []);
    SelectReadyExactly(script, s, []);
    assert [] + Events(script, ps) == Events(script, ps);
    if k <= |ps| {
      ReadAllSkips(s, k);
      DrainSucceedsExactly(sel.rest, sel.trace, patience, sel.published);
    }
  }

  /** And then it has consumed just these packets, not one more, and dropped nothing else. */
  lemma WaitTakesJustThese(snapshot: ServerState, script: seq<Round>, s: seq<byte>, patience: nat) returns (n: nat)
    requires Untorn(script, s) && Waited(snapshot, script, s, patience).verdict.Ready?
    ensures var o, ps, k := Waited(snapshot, script, s, patience), ReadAll(s).0, Reads(script);
            && k <= |ps| && AllAnsweredBy(Events(script, ps), ps[k..], patience, n)
            && (forall j :: 0 <= j < n ==> OpenAfter(Events(script, ps), ps[k..], j) > 0)
            && o.trace == Events(script, ps) + AllHeard(ps[k..][..n])
            && SkipPackets(s, k + n) == Ok(o.rest)
  {
    hide Selected, Drained, Untorn, OpenAfter, AllHeard, Events, SkipPackets, ReadAll, Reads;
    var sel, ps, k := Selected(script, s, []), ReadAll(s).0, Reads(script);
    SelectReplays(script, s, []);
    assert [] + Events(script, ps) == Events(script, ps);
    ReadAllSkips(s, k);
    n := DrainTakesNoMore(sel.rest, sel.trace, patience, sel.published);
    SkipTwice(s, k, n);
  }

  lemma NoEvents()
    ensures Consumed([]) == 0 && Count([], Query) == 0
  {
  }

  /** Torn reads or not: the wait has consumed what the script read, and behind it the least that closes every keepalive. */
  lemma WaitConsumesNoMore(snapshot: ServerState, script: seq<Round>, s: seq<byte>, patience: nat) returns (n: nat)
    requires Waited(snapshot, script, s, patience).verdict.Ready?
    ensures var o, sel := Waited(snapshot, script, s, patience), Selected(script, s, []);
            && Consumed(o.trace) == Reads(script) + n && Count(o.trace, Query) == Ticks(script)
            && n <= |ReadAll(sel.rest).0|
            && SkipPackets(sel.rest, n) == Ok(o.rest)
            && (forall j :: 0 <= j < n ==> OpenAfter(sel.trace, ReadAll(sel.rest).0, j) > 0)
            && (o.published <==> sel.published)
  {
    hide ReadFrame, Selected, Drained, OpenAfter, AllHeard, Consumed, SkipPackets, ReadAll;
    var sel := Selected(script, s, []);
    SelectCounts(script, s, []);
    n := DrainTakesNoMore(sel.rest, sel.trace, patience, sel.published);
    AllHeardCounts(sel.trace, ReadAll(sel.rest).0, n);
    NoEvents();
  }

  /** A start that has failed before the login subscribed ends the wait at once, with nothing read. */
  lemma StoppedSnapshotEndsWait(script: seq<Round>, s: seq<byte>, patience: nat)
    ensures Waited(Stopped, script, s, patience) == Outcome(StartFailed, s, [], false)
  {
  }

  /** Otherwise a failure in the select loop is the failure of the wait. */
  lemma SelectFailureEndsWait(snapshot: ServerState, script: seq<Round>, s: seq<byte>, patience: nat)
    requires snapshot != Stopped && !Selected(script, s, []).verdict.Ready?
    ensures Waited(snapshot, script, s, patience) == Selected(script, s, [])
  {
  }

  // ----- What the client is sent -----

  /** The packets sent to the client during the wait. */
  function Sent(n: nat): seq<RawPacket> {
    if n == 0 then [] else Sent(n - 1) + [PluginRequest(ToI32(LengthAsU32(n - 1)), KEEPALIVE_CHANNEL)]
  }

  lemma {:induction false} WireStreamSnoc(ps: seq<RawPacket>, p: RawPacket)
    ensures WireStream(ps + [p]) == WireStream(ps) + WireBytes(p)
  {
    hide WireBytes;
    if ps == [] {
      assert [p][1..] == [] && WireStream([p]) == WireBytes(p) + WireStream([]);
    } else {
      WireStreamSnoc(ps[1..], p);
      assert (ps + [p])[1..] == ps[1..] + [p];
    }
  }

  lemma {:induction false} AllFitSnoc(ps: seq<RawPacket>, p: RawPacket)
    requires AllFit(ps) && Fits(p)
    ensures AllFit(ps + [p])
  {
    if ps == [] {
      assert [p][1..] == [];
    } else {
      AllFitSnoc(ps[1..], p);
      assert (ps + [p])[1..] == ps[1..] + [p];
    }
  }

  lemma {:induction false} SentOnTheWire(n: nat)
    ensures |Sent(n)| == n && AllFit(Sent(n)) && WireStream(Sent(n)) == KeepalivesSent(n)
    ensures forall k :: 0 <= k < n ==> Sent(n)[k] == PluginRequest(ToI32(LengthAsU32(k)), KEEPALIVE_CHANNEL)
  {
    hide WireBytes, Fits;
    if n == 0 {
    } else {
      SentOnTheWire(n - 1);
      var p := PluginRequest(ToI32(LengthAsU32(n - 1)), KEEPALIVE_CHANNEL);
      PluginRequestFits(ToI32(LengthAsU32(n - 1)), KEEPALIVE_CHANNEL);
      WireStreamSnoc(Sent(n - 1), p);
      AllFitSnoc(Sent(n - 1), p);
    }
  }

  /** A keepalive as the client finds it: packet 4, message id k modulo 2^32, the channel as a string. */
  ghost predicate IsKeepalive(p: RawPacket, k: nat) {
    && p.id == 4
    && Varint(p.data).Ok? && (Varint(p.data).value - k) % 0x1_0000_0000 == 0
    && StringAt(p.data[Width(p.data).value..]).Ok?
    && var channel := StringAt(p.data[Width(p.data).value..]).value.0;
       && |channel| == |"redoxide:keepalive"|
       && forall i :: 0 <= i < |channel| ==> channel[i] == "redoxide:keepalive"[i] as int
  }

  lemma SentIsKeepalive(k: nat)
    ensures IsKeepalive(PluginRequest(ToI32(LengthAsU32(k)), KEEPALIVE_CHANNEL), k)
  {
    hide Varint, Width, StringAt, Scan, Leb128;
    var id := ToI32(LengthAsU32(k));
    ChannelIsText();
    PluginPayload(id, KEEPALIVE_CHANNEL);
    CastIsTheCongruentValue(LengthAsU32(k), id);
    var q := (id - LengthAsU32(k)) / 0x1_0000_0000;
    assert id - k == (q - k / 0x1_0000_0000) * 0x1_0000_0000;
  }

  lemma ChannelIsText()
    ensures ValidUtf8(KEEPALIVE_CHANNEL) && |KEEPALIVE_CHANNEL| <= MAX_STRING_LEN
    ensures |KEEPALIVE_CHANNEL| == |"redoxide:keepalive"|
    ensures forall i :: 0 <= i < |KEEPALIVE_CHANNEL| ==> KEEPALIVE_CHANNEL[i] == "redoxide:keepalive"[i] as int
  {
    hide Scan;
    ChannelSpells();
    AsciiIsValid(KEEPALIVE_CHANNEL);
  }

  lemma ChannelSpells()
    ensures |KEEPALIVE_CHANNEL| == |"redoxide:keepalive"| == 18
    ensures forall i :: 0 <= i < |KEEPALIVE_CHANNEL| ==> KEEPALIVE_CHANNEL[i] == "redoxide:keepalive"[i] as int
    ensures forall i :: 0 <= i < |KEEPALIVE_CHANNEL| ==> KEEPALIVE_CHANNEL[i] < 128
  {
  }

  lemma {:induction false} AsciiIsValid(t: seq<byte>)
    requires forall i :: 0 <= i < |t| ==> t[i] < 128
    ensures ValidUtf8(t)
  {
    if t == [] {
    } else {
      AsciiIsValid(t[1..]);
    }
  }

  /** What is written reads as the keepalives in order, and behind them the disconnect if the start failed or took too long. */
  lemma WrittenReadsAs(o: Outcome, json: seq<byte>)
    requires Fits(StringPacket(DISCONNECT_ID, json))
    ensures var (ps, end) := ReadAll(Written(o, json));
            var n := Count(o.trace, Query);
            && end == UnexpectedEof
            && |ps| == n + (if o.verdict == StartFailed || o.verdict == StartupTimeout then 1 else 0)
            && (forall k :: 0 <= k < n ==> IsKeepalive(ps[k], k))
            && (|ps| > n ==> ps[n].id == 0 && JsonIn(ps[n].data) == Ok(json))
  {
    hide WireBytes, Fits, ReadAll, IsKeepalive, JsonIn;
    var n := Count(o.trace, Query);
    SentOnTheWire(n);
    var last := StringPacket(DISCONNECT_ID, json);
    var ps := if o.verdict.StartFailed? || o.verdict.StartupTimeout? then Sent(n) + [last] else Sent(n);
    WireStreamSnoc(Sent(n), last);
    AllFitSnoc(Sent(n), last);
    assert KeepalivesSent(n) + [] == KeepalivesSent(n);
    assert Written(o, json) == WireStream(ps);
    StreamRoundTrip(ps);
    DisconnectReads(json);
    forall k | 0 <= k < n
      ensures IsKeepalive(ps[k], k)
    {
      SentIsKeepalive(k);
    }
  }

  lemma DisconnectReads(json: seq<byte>)
    requires Fits(StringPacket(DISCONNECT_ID, json))
    ensures StringPacket(DISCONNECT_ID, json).id == 0
    ensures JsonIn(StringPacket(DISCONNECT_ID, json).data) == Ok(json)
  {
    JsonRoundTrip(json);
  }
}

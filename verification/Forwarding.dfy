/**
  One login connection from its first byte to the backend (src/proxy.rs): handle_connection_inner,
  handle_login and forward, as far as the client's bytes are concerned.  The result says which
  bytes the backend gets, as a function of the bytes the client sends.
*/
module Forwarding {
  import opened Bytes
  import opened Streams
  import opened Varints
  import opened Packets
  import opened Handshakes
  import opened Keepalives
  import opened Waiting
  import opened WaitOutcomes
  import opened SharedStates
  import opened Options
  import opened Utf8

  const LOGIN_START_ID: i32 := 0x00
  const LOGIN_STATE: i32 := 2

  /** What the environment does to one connection. */
  datatype Surroundings = Surroundings(
    running: bool,            // the state is Running when the login leaves the gate
    snapshot: ServerState,    // what it finds when it subscribes
    script: seq<Round>,
    patience: nat,
    connects: bool,           // the connection to the backend succeeds
    copied: nat)              // how many bytes the copy gets through before either side closes

  // ----- The meaning -----

  /** The two packets every login starts with, in canonical form, and what follows them. */
  datatype Greeting = Greeting(handshakeRaw: seq<byte>, loginRaw: seq<byte>, rest: seq<byte>)

  function Greeted(s: seq<byte>, known: seq<byte> -> bool): Option<Greeting> {
    match ReadFrame(s)
    case Err(_) => None
    case Ok(h) =>
      match ParsedHandshake(h.packet.data)
      case Err(_) => None
      case Ok(handshake) =>
        if !known(handshake.serverAddress) || handshake.nextState != LOGIN_STATE then None
        else LoginStarted(h.raw, s[h.used..])
  }

  function LoginStarted(handshakeRaw: seq<byte>, s: seq<byte>): Option<Greeting> {
    match ReadFrame(s)
    case Err(_) => None
    case Ok(l) =>
      if l.packet.id != LOGIN_START_ID || ParsedLoginStart(l.packet.data).Err? then None
      else Some(Greeting(handshakeRaw, l.raw, s[l.used..]))
  }

  /** The client bytes that are left for the backend once the login may be forwarded. */
  function AfterWait(s: seq<byte>, env: Surroundings): Option<seq<byte>> {
    if env.running then Some(s)
    else
      var o := Waited(env.snapshot, env.script, s, env.patience);
      if o.verdict.Ready? then Some(o.rest) else None
  }

  function Prefix(s: seq<byte>, n: nat): (r: seq<byte>)
    ensures r <= s && |r| == if n <= |s| then n else |s|
  {
    if n <= |s| then s[..n] else s
  }

  /** All that the backend receives. */
  function BackendBytes(s: seq<byte>, known: seq<byte> -> bool, env: Surroundings): Option<seq<byte>> {
    match Greeted(s, known)
    case None => None
    case Some(g) =>
      match AfterWait(g.rest, env)
      case None => None
      case Some(rest) =>
        if env.connects then Some(g.handshakeRaw + g.loginRaw + Prefix(rest, env.copied)) else None
  }

  // ----- What holds of it -----

  /** The first two packets are two frames read one after the other. */
  lemma GreetingIsTwoFrames(s: seq<byte>, known: seq<byte> -> bool)
    requires Greeted(s, known).Some?
    ensures var g := Greeted(s, known).value;
            && ReadFrame(s).Ok? && ReadFrame(s[ReadFrame(s).value.used..]).Ok?
            && g.handshakeRaw == ReadFrame(s).value.raw
            && g.loginRaw == ReadFrame(s[ReadFrame(s).value.used..]).value.raw
            && SkipPackets(s, 2) == Ok(g.rest)
  {
    hide ReadFrame, ParsedHandshake, ParsedLoginStart;
    var s1 := s[ReadFrame(s).value.used..];
    assert SkipPackets(s, 2) == SkipPackets(s1, 1);
    assert SkipPackets(s1, 1) == SkipPackets(s1[ReadFrame(s1).value.used..], 0);
  }

  /** How many packets the wait consumes. */
  function Dropped(s: seq<byte>, env: Surroundings): nat {
    if env.running then 0 else Consumed(Waited(env.snapshot, env.script, s, env.patience).trace)
  }

  /** The login does not wait, or no read of its wait is dropped with bytes in hand. */
  predicate NoReadTorn(s: seq<byte>, env: Surroundings) {
    env.running || Untorn(env.script, s)
  }

  lemma WaitSkipsPackets(s: seq<byte>, env: Surroundings)
    requires AfterWait(s, env).Some?
    ensures IsSuffix(AfterWait(s, env).value, s)
    ensures NoReadTorn(s, env) ==> SkipPackets(s, Dropped(s, env)) == Ok(AfterWait(s, env).value)
  {
    hide Waited, Consumed, Untorn;
    if !env.running {
      WaitLeavesSuffix(env.snapshot, env.script, s, env.patience);
      if Untorn(env.script, s) {
        WaitConsumesWholePackets(env.snapshot, env.script, s, env.patience);
      }
    }
  }

  /**
    Whatever the client sends and however the wait goes: the backend gets the canonical frame of
    the first packet, the canonical frame of the second, and then the client's bytes from some
    point on, in order and without a gap.  If no read was dropped with bytes in hand, what is
    missing in between is exactly the whole packets that the wait consumed.
  */
  lemma BytesAreConserved(s: seq<byte>, known: seq<byte> -> bool, env: Surroundings) returns (rest: seq<byte>)
    requires BackendBytes(s, known, env).Some?
    ensures var g := Greeted(s, known).value;
            && BackendBytes(s, known, env).value == g.handshakeRaw + g.loginRaw + Prefix(rest, env.copied)
            && SkipPackets(s, 2) == Ok(g.rest)
            && IsSuffix(rest, g.rest)
            && (NoReadTorn(g.rest, env) ==> SkipPackets(s, 2 + Dropped(g.rest, env)) == Ok(rest))
    ensures IsSuffix(rest, s)
  {
    hide ReadFrame, Dropped, AfterWait, Greeted, NoReadTorn;
    var g := Greeted(s, known).value;
    GreetingIsTwoFrames(s, known);
    WaitSkipsPackets(g.rest, env);
    rest := AfterWait(g.rest, env).value;
    SkipTwice(s, 2, Dropped(g.rest, env));
    SkipLeavesSuffix(s, 2);
    SuffixOfSuffix(rest, s, |s| - |g.rest|);
  }

  /** The length prefix of the frame at the front of s is in its shortest form. */
  predicate MinimalPrefix(s: seq<byte>) {
    Varint(s).Ok? && Width(s).value == |Encoded(Varint(s).value)|
  }

  /**
    The canonical frames of the greeting are the very bytes the client sent if and only if it
    wrote both length prefixes in their shortest form.
  */
  lemma GreetingByteForByte(s: seq<byte>, known: seq<byte> -> bool)
    requires Greeted(s, known).Some?
    ensures var g := Greeted(s, known).value;
            && |g.rest| <= |s|
            && (g.handshakeRaw + g.loginRaw + g.rest == s <==>
                MinimalPrefix(s) && ReadFrame(s).Ok? && MinimalPrefix(s[ReadFrame(s).value.used..]))
  {
    hide ReadFrame, Width, Varint, Leb128, ParsedHandshake, ParsedLoginStart;
    GreetingIsTwoFrames(s, known);
    var f := ReadFrame(s).value;
    var s1 := s[f.used..];
    var l := ReadFrame(s1).value;
    FrameLength(s);
    FrameLength(s1);
    FrameIsCanonical(s, []);
    FrameIsCanonical(s1, []);
    assert Greeted(s, known).value.rest == s1[l.used..];
    SplicedEqual(s, f.raw, l.raw, f.used, l.used);
  }

  /** Replacing two consecutive pieces by pieces that are no longer leaves s as it was only piece by piece. */
  lemma SplicedEqual(s: seq<byte>, a: seq<byte>, b: seq<byte>, m: nat, n: nat)
    requires m + n <= |s| && |a| <= m && |b| <= n
    ensures a + b + s[m..][n..] == s <==> a == s[..m] && b == s[m..][..n]
  {
    var out := a + b + s[m..][n..];
    if out == s {
      assert |a| == m && |b| == n;
      assert out[..m] == a && out[m..m + n] == b;
    }
    if a == s[..m] && b == s[m..][..n] {
      assert out == s;
    }
  }

  /**
    A login that finds the server running reaches the backend byte for byte, all of it, if and
    only if the client wrote both length prefixes in their shortest form.
  */
  lemma ByteForByte(s: seq<byte>, known: seq<byte> -> bool, env: Surroundings)
    requires BackendBytes(s, known, env).Some? && env.running && env.copied >= |s|
    ensures BackendBytes(s, known, env).value == s <==>
            MinimalPrefix(s) && ReadFrame(s).Ok? && MinimalPrefix(s[ReadFrame(s).value.used..])
  {
    hide ReadFrame, Greeted, MinimalPrefix;
    GreetingByteForByte(s, known);
  }

  /**
    The answers among the client's packets after the greeting are shared between the wait and the
    backend.  If the client never answered ahead of a keepalive, the backend's part is all of them
    but one for each keepalive: answers to the backend's own queries are not swallowed.
  */
  lemma BackendGetsItsAnswers(s: seq<byte>, known: seq<byte> -> bool, env: Surroundings) returns (rest: seq<byte>)
    requires BackendBytes(s, known, env).Some? && !env.running
    ensures var g := Greeted(s, known).value;
            var trace := Waited(env.snapshot, env.script, g.rest, env.patience).trace;
            && BackendBytes(s, known, env).value == g.handshakeRaw + g.loginRaw + Prefix(rest, env.copied)
            && (Untorn(env.script, g.rest) ==>
                && SkipPackets(g.rest, Consumed(trace)) == Ok(rest)
                && (NeverAhead(trace) <==>
                    Answers(ReadAll(g.rest).0) == Count(trace, Query) + Answers(ReadAll(rest).0)))
  {
    hide Waited, ReadAll, Count, Answers, Greeted, Consumed, NeverAhead, SkipPackets, Untorn;
    var g := Greeted(s, known).value;
    rest := AfterWait(g.rest, env).value;
    WaitSkipsPackets(g.rest, env);
    AnswersAreShared(env.snapshot, env.script, g.rest, env.patience);
  }

  /**
    A client that sends no more answers than it was sent keepalives has none of them passed on:
    what the backend gets after the greeting holds no login plugin response in packet position.
  */
  lemma BackendGetsNoAnswer(s: seq<byte>, env: Surroundings)
    requires AfterWait(s, env).Some? && !env.running && Untorn(env.script, s)
    requires Answers(ReadAll(s).0) <= Count(Waited(env.snapshot, env.script, s, env.patience).trace, Query)
    ensures Answers(ReadAll(AfterWait(s, env).value).0) == 0
  {
    hide Waited, ReadAll, Count, Answers, Untorn;
    NoAnswerIsForwarded(env.snapshot, env.script, s, env.patience);
  }

  /**
    How many packets the wait keeps from the backend: those the script read before the server came
    up, and behind them the least that closes every keepalive.
  */
  lemma DroppedExactly(s: seq<byte>, env: Surroundings) returns (n: nat)
    requires AfterWait(s, env).Some? && !env.running
    ensures var sel := Selected(env.script, s, []);
            && Dropped(s, env) == Reads(env.script) + n
            && n <= |ReadAll(sel.rest).0| && SkipPackets(sel.rest, n) == Ok(AfterWait(s, env).value)
            && forall j :: 0 <= j < n ==> OpenAfter(sel.trace, ReadAll(sel.rest).0, j) > 0
  {
    hide Selected, Waited, ReadAll, OpenAfter, SkipPackets, Consumed;
    n := WaitConsumesNoMore(env.snapshot, env.script, s, env.patience);
  }

  // ----- Who gets through -----

  /**
    The backend gets something exactly if the first packet is a handshake for a known address
    with next state 2, the second is a packet 0 that starts with a user name, the wait succeeds
    and the backend can be reached.
  */
  lemma GetsThroughExactly(s: seq<byte>, known: seq<byte> -> bool, env: Surroundings)
    ensures BackendBytes(s, known, env).Some? <==>
            && env.connects
            && ReadFrame(s).Ok? && ParsedHandshake(ReadFrame(s).value.packet.data).Ok?
            && known(ParsedHandshake(ReadFrame(s).value.packet.data).value.serverAddress)
            && ParsedHandshake(ReadFrame(s).value.packet.data).value.nextState == 2
            && var s1 := s[ReadFrame(s).value.used..];
               && ReadFrame(s1).Ok? && ReadFrame(s1).value.packet.id == 0
               && StringAt(ReadFrame(s1).value.packet.data).Ok?
               && AfterWait(s1[ReadFrame(s1).value.used..], env).Some?
  {
    hide ReadFrame, ParsedHandshake, StringAt, AfterWait;
  }

  /** When the wait lets a login through: at once on a running server, otherwise as the script and the packets say. */
  lemma WaitLetsThroughExactly(s: seq<byte>, env: Surroundings)
    requires NoReadTorn(s, env)
    ensures var ps, k := ReadAll(s).0, Reads(env.script);
            AfterWait(s, env).Some? <==>
            || env.running
            || (&& env.snapshot != Stopped && ServerComesUp(env.script) && k <= |ps|
                && exists n :: AllAnsweredBy(Events(env.script, ps), ps[k..], env.patience, n))
    ensures env.running ==> AfterWait(s, env) == Some(s)
  {
    hide Waited, ReadAll, Events, ServerComesUp, AllAnsweredBy, Reads, Untorn;
    if !env.running {
      WaitSucceedsExactly(env.snapshot, env.script, s, env.patience);
    }
  }

  /** On the wire: of all well-formed handshakes and login starts, just these get through, and with these bytes. */
  lemma WellFormedGetsThroughExactly(id: i32, version: i32, address: seq<byte>, port: nat, next: i32,
                                     loginId: i32, name: seq<byte>, tail: seq<byte>, rest: seq<byte>,
                                     known: seq<byte> -> bool, env: Surroundings)
    requires port < 0x1_0000 && ValidUtf8(address) && |address| <= MAX_STRING_LEN
    requires ValidUtf8(name) && |name| <= MAX_STRING_LEN && Fits(RawPacket(loginId, StringBytes(name) + tail))
    ensures var h := WireBytes(RawPacket(id, HandshakeBytes(version, address, port, next)));
            var l := WireBytes(RawPacket(loginId, StringBytes(name) + tail));
            && (BackendBytes(h + (l + rest), known, env).Some? <==>
                known(UpToNul(address)) && next == 2 && loginId == 0 && AfterWait(rest, env).Some? && env.connects)
            && (BackendBytes(h + (l + rest), known, env).Some? ==>
                BackendBytes(h + (l + rest), known, env).value == h + l + Prefix(AfterWait(rest, env).value, env.copied))
  {
    hide ReadFrame, WireBytes, ParsedHandshake, StringAt, Scan, AfterWait, Prefix, StringBytes, UpToNul;
    var hp, lp := RawPacket(id, HandshakeBytes(version, address, port, next)), RawPacket(loginId, StringBytes(name) + tail);
    var h, l := WireBytes(hp), WireBytes(lp);
    AnyHandshakeFits(id, version, address, port, next);
    HandshakeRoundTrip(version, address, port, next, []);
    assert hp.data + [] == hp.data;
    PacketRoundTrip(hp, l + rest);
    PacketRoundTrip(lp, rest);
    LoginStartRoundTrip(name, tail);
    assert (h + (l + rest))[|h|..] == l + rest && (l + rest)[|l|..] == rest;
  }

  lemma AnyHandshakeFits(id: i32, version: i32, address: seq<byte>, port: nat, next: i32)
    requires port < 0x1_0000 && |address| <= MAX_STRING_LEN
    ensures Fits(RawPacket(id, HandshakeBytes(version, address, port, next)))
  {
    EncodedLength(id);
    EncodedLength(version);
    EncodedLength(next);
    EncodedLength(|address|);
    assert StringBytes(address) == Encoded(|address|) + address;
  }

  function HandshakePacket(id: i32, version: i32, address: seq<byte>, port: nat): RawPacket
    requires port < 0x1_0000
  {
    RawPacket(id, HandshakeBytes(version, address, port, LOGIN_STATE))
  }

  function LoginStartPacket(name: seq<byte>, tail: seq<byte>): RawPacket {
    RawPacket(LOGIN_START_ID, StringBytes(name) + tail)
  }

  lemma HandshakePacketFits(id: i32, version: i32, address: seq<byte>, port: nat)
    requires port < 0x1_0000 && |address| <= MAX_STRING_LEN
    ensures Fits(HandshakePacket(id, version, address, port))
  {
    AnyHandshakeFits(id, version, address, port, LOGIN_STATE);
  }

  lemma HandshakeIsGreeted(f: Frame, parsed: Handshake, wire: seq<byte>, s: seq<byte>, known: seq<byte> -> bool)
    requires ReadFrame(wire + s) == Ok(f) && f.used == |wire|
    requires ParsedHandshake(f.packet.data) == Ok(parsed)
    requires known(parsed.serverAddress) && parsed.nextState == LOGIN_STATE
    ensures Greeted(wire + s, known) == LoginStarted(f.raw, s)
  {
    hide ReadFrame, ParsedHandshake, LoginStarted;
    assert (wire + s)[|wire|..] == s;
  }

  lemma LoginIsStarted(handshakeRaw: seq<byte>, name: seq<byte>, tail: seq<byte>, rest: seq<byte>)
    requires ValidUtf8(name) && |name| <= MAX_STRING_LEN && Fits(LoginStartPacket(name, tail))
    ensures var l := WireBytes(LoginStartPacket(name, tail));
            LoginStarted(handshakeRaw, l + rest) == Some(Greeting(handshakeRaw, l, rest))
  {
    hide ReadFrame, WireBytes, ParsedLoginStart, Scan, StringBytes;
    var p := LoginStartPacket(name, tail);
    PacketRoundTrip(p, rest);
    LoginStartRoundTrip(name, tail);
    assert (WireBytes(p) + rest)[|WireBytes(p)|..] == rest;
  }

  /**
    Every well-formed login for a known address, of whatever protocol version and with whatever
    behind the user name, gets through once the server is there: the backend receives the
    client's own two packets and what is left after the wait.
  */
  lemma WellFormedLoginGetsThrough(id: i32, version: i32, address: seq<byte>, port: nat, name: seq<byte>,
                                   tail: seq<byte>, rest: seq<byte>, known: seq<byte> -> bool, env: Surroundings)
    requires port < 0x1_0000 && ValidUtf8(address) && |address| <= MAX_STRING_LEN && known(UpToNul(address))
    requires ValidUtf8(name) && |name| <= MAX_STRING_LEN && Fits(LoginStartPacket(name, tail))
    ensures var h, l := WireBytes(HandshakePacket(id, version, address, port)), WireBytes(LoginStartPacket(name, tail));
            BackendBytes(h + (l + rest), known, env) ==
            if AfterWait(rest, env).Some? && env.connects
            then Some(h + l + Prefix(AfterWait(rest, env).value, env.copied)) else None
  {
    hide ReadFrame, WireBytes, ParsedHandshake, Scan, AfterWait, Prefix, StringBytes, Greeted, LoginStarted;
    var h, l := HandshakePacket(id, version, address, port), WireBytes(LoginStartPacket(name, tail));
    HandshakePacketFits(id, version, address, port);
    HandshakeRoundTrip(version, address, port, LOGIN_STATE, []);
    assert h.data + [] == h.data;
    PacketRoundTrip(h, l + rest);
    HandshakeIsGreeted(Frame(h, WireBytes(h), |WireBytes(h)|), Handshake(version, UpToNul(address), LOGIN_STATE),
                       WireBytes(h), l + rest, known);
    LoginIsStarted(WireBytes(h), name, tail, rest);
  }

  /** What is waiting when the server comes up while a read has got hold of `took` bytes of a packet. */
  lemma TornReadIsLost(s: seq<byte>, took: nat, env: Surroundings)
    requires ReadFrame(s).Ok? && took < ReadFrame(s).value.used
    requires !env.running && !env.snapshot.Stopped? && env.script == [CancelledRead(took), StateChanged(Running)]
    ensures AfterWait(s, env) == Some(s[took..])
  {
    hide ReadFrame, Torn;
    TornIsPartOfPacket(s, took);
    assert env.script[1..] == [StateChanged(Running)];
    var t := s[Torn(s, took)..];
    assert Selected(env.script[1..], t, []) == Outcome(Ready, t, [], false);
  }

  /**
    Conservation fails for every well-formed login that is still sending its next packet when the
    server comes up: the bytes a dropped read had in hand are missing, and if there were any, what
    the backend gets after the greeting begins inside that packet.
  */
  lemma TornPacketReachesBackend(id: i32, version: i32, address: seq<byte>, port: nat, name: seq<byte>,
                                 tail: seq<byte>, next: RawPacket, rest: seq<byte>, took: nat,
                                 known: seq<byte> -> bool, env: Surroundings)
    requires port < 0x1_0000 && ValidUtf8(address) && |address| <= MAX_STRING_LEN && known(UpToNul(address))
    requires ValidUtf8(name) && |name| <= MAX_STRING_LEN && Fits(LoginStartPacket(name, tail))
    requires Fits(next) && took < |WireBytes(next)|
    requires !env.running && !env.snapshot.Stopped? && env.script == [CancelledRead(took), StateChanged(Running)]
    requires env.connects && env.copied >= |WireBytes(next)| + |rest|
    ensures var h, l := WireBytes(HandshakePacket(id, version, address, port)), WireBytes(LoginStartPacket(name, tail));
            BackendBytes(h + (l + (WireBytes(next) + rest)), known, env) == Some(h + l + (WireBytes(next)[took..] + rest))
  {
    hide ReadFrame, WireBytes, Scan, AfterWait, StringBytes, BackendBytes, Fits;
    var s := WireBytes(next) + rest;
    PacketRoundTrip(next, rest);
    TornReadIsLost(s, took, env);
    assert s[took..] == WireBytes(next)[took..] + rest;
    WellFormedLoginGetsThrough(id, version, address, port, name, tail, s, known, env);
    assert Prefix(s[took..], env.copied) == s[took..];
  }

  /**
    The byte-for-byte promise fails for every such login whose handshake is below 128 bytes and is
    sent with a padded length: the code accepts it, and the backend gets one byte less than the
    client sent.
  */
  lemma PaddedHandshakeIsRewritten(id: i32, version: i32, address: seq<byte>, port: nat, name: seq<byte>,
                                   tail: seq<byte>, rest: seq<byte>, known: seq<byte> -> bool, env: Surroundings)
    requires port < 0x1_0000 && ValidUtf8(address) && |address| <= MAX_STRING_LEN && known(UpToNul(address))
    requires ValidUtf8(name) && |name| <= MAX_STRING_LEN && Fits(LoginStartPacket(name, tail))
    requires BodyLength(HandshakePacket(id, version, address, port)) < 128
    requires env.running && env.connects && env.copied >= |rest|
    ensures var h, l := HandshakePacket(id, version, address, port), WireBytes(LoginStartPacket(name, tail));
            && BackendBytes(PaddedBytes(h) + (l + rest), known, env) == Some(WireBytes(h) + l + rest)
            && WireBytes(h) + l + rest != PaddedBytes(h) + (l + rest)
  {
    hide ReadFrame, WireBytes, PaddedBytes, ParsedHandshake, Scan, StringBytes, Greeted, LoginStarted, BodyLength;
    var h, l := HandshakePacket(id, version, address, port), WireBytes(LoginStartPacket(name, tail));
    HandshakeRoundTrip(version, address, port, LOGIN_STATE, []);
    assert h.data + [] == h.data;
    PaddedPacketIsRewritten(h, l + rest);
    HandshakeIsGreeted(Frame(h, WireBytes(h), |PaddedBytes(h)|), Handshake(version, UpToNul(address), LOGIN_STATE),
                       PaddedBytes(h), l + rest, known);
    LoginIsStarted(WireBytes(h), name, tail, rest);
    assert Prefix(rest, env.copied) == rest;
    assert |WireBytes(h) + l + rest| < |PaddedBytes(h) + (l + rest)|;
  }

  // ----- The code -----

  /** From the first byte of the connection; `disconnectJson` is the text of a failed start. */
  method HandleConnection(reader: Reader, known: seq<byte> -> bool, env: Surroundings, disconnectJson: seq<byte>)
    returns (backend: Option<seq<byte>>)
    requires reader.Valid()
    modifies reader
    ensures backend == BackendBytes(old(reader.Rest()), known, env)
  {
    hide ReadFrame, ParsedHandshake, ParsedLoginStart, AfterWait, Prefix;
    var handshakePacket := ReadPacket(reader);
    if handshakePacket.Err? {
      return None;
    }
    var handshake := ParseHandshake(handshakePacket.value.0.data);
    if handshake.Err? {
      return None;
    }
    if !known(handshake.value.serverAddress) {
      return None;
    }
    if handshake.value.nextState != LOGIN_STATE {
      return None;
    }
    backend := HandleLogin(reader, handshakePacket.value.1, env, disconnectJson);
  }

  method HandleLogin(reader: Reader, handshakeRaw: seq<byte>, env: Surroundings, disconnectJson: seq<byte>)
    returns (backend: Option<seq<byte>>)
    requires reader.Valid()
    modifies reader
    ensures backend ==
            match LoginStarted(handshakeRaw, old(reader.Rest()))
            case None => None
            case Some(g) =>
              match AfterWait(g.rest, env)
              case None => None
              case Some(rest) =>
                if env.connects then Some(g.handshakeRaw + g.loginRaw + Prefix(rest, env.copied)) else None
  {
    hide ReadFrame, ParsedLoginStart, Waited, Prefix;
    var loginStart := ReadPacket(reader);
    if loginStart.Err? {
      return None;
    }
    if loginStart.value.0.id != LOGIN_START_ID {
      return None;
    }
    var username := ParseLoginStart(loginStart.value.0.data);
    if username.Err? {
      return None;
    }
    if !env.running {
      var verdict, _, _ := WaitForServer(reader, env.snapshot, env.script, env.patience, disconnectJson);
      if !verdict.Ready? {
        return None;
      }
    }
    if !env.connects {
      return None;
    }
    var sent := Forward(reader, handshakeRaw, loginStart.value.1, env.copied);
    backend := Some(sent);
  }

  /** What is written to the backend: the two frames, then the client's stream as it comes. */
  method Forward(reader: Reader, handshakeRaw: seq<byte>, loginRaw: seq<byte>, copied: nat) returns (sent: seq<byte>)
    requires reader.Valid()
    modifies reader
    ensures sent == handshakeRaw + loginRaw + Prefix(old(reader.Rest()), copied)
  {
    sent := handshakeRaw;
    sent := sent + loginRaw;
    ghost var s := reader.Rest();
    ghost var head := sent;
    var n := 0;
    while n < copied && reader.pos < |reader.input|
      invariant reader.Valid() && n <= copied && n <= |s|
      invariant reader.Rest() == s[n..] && sent == head + s[..n]
      decreases copied - n
    {
      var b := reader.ReadU8();
      assert s[..n + 1] == s[..n] + [s[n]];
      sent := sent + [b.value];
      n := n + 1;
    }
    assert Prefix(s, copied) == s[..n];
  }
}

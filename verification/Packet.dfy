/**
  Length-prefixed packets and strings (src/protocol/packet.rs), after the "Packet format"
  section of wiki.vg's Protocol page.
*/
module Packets {
  import opened Bytes
  import opened Streams
  import opened Varints

  const MAX_PACKET_LEN := 2_097_151

  datatype RawPacket = RawPacket(id: i32, data: seq<byte>)

  /** A packet that has been read: its canonical bytes, and how many bytes were consumed. */
  datatype Frame = Frame(packet: RawPacket, raw: seq<byte>, used: nat)

  // ----- The meaning -----

  /** The bytes a packet takes on the wire; the cast of the length keeps 32 bits of it. */
  function WireBytes(p: RawPacket): seq<byte> {
    Leb128(LengthAsU32(BodyLength(p))) + Encoded(p.id) + p.data
  }

  function BodyLength(p: RawPacket): nat {
    |Encoded(p.id)| + |p.data|
  }

  predicate Fits(p: RawPacket) {
    BodyLength(p) <= MAX_PACKET_LEN
  }

  /** The packet inside a frame body. */
  function Body(buf: seq<byte>): Result<RawPacket> {
    match Varint(buf)
    case Err(e) => Err(e)
    case Ok(id) => Ok(RawPacket(id, buf[Width(buf).value..]))
  }

  function ReadFrame(s: seq<byte>): (r: Result<Frame>)
    ensures r.Ok? ==> 0 < r.value.used <= |s|
  {
    match Varint(s)
    case Err(e) => Err(e)
    case Ok(len) =>
      var w := Width(s).value;
      if len < 0 then Err(NegativeLength)
      else if len > MAX_PACKET_LEN then Err(LengthExceedsMax)
      else if |s| < w + len then Err(UnexpectedEof)
      else
        var buf := s[w..w + len];
        match Body(buf)
        case Err(e) => Err(e)
        case Ok(p) => Ok(Frame(p, Encoded(len) + buf, w + len))
  }

  // ----- One packet -----

  /** What a frame with a well-formed prefix and enough bytes behind it reads as. */
  lemma ReadFrameParts(prefix: seq<byte>, buf: seq<byte>, suffix: seq<byte>)
    requires Width(prefix) == Ok(|prefix|) && Varint(prefix) == Ok(|buf|) && |buf| <= MAX_PACKET_LEN
    ensures ReadFrame(prefix + buf + suffix) ==
            match Body(buf)
            case Err(e) => Err(e)
            case Ok(p) => Ok(Frame(p, Encoded(|buf|) + buf, |prefix| + |buf|))
  {
    var s := prefix + buf + suffix;
    assert s == prefix + (buf + suffix);
    WidthIgnoresSuffix(prefix, buf + suffix);
    assert s[|prefix|..|prefix| + |buf|] == buf;
  }

  lemma BodyRoundTrip(p: RawPacket)
    ensures Body(Encoded(p.id) + p.data) == Ok(p)
  {
    RoundTrip(p.id, p.data);
    assert (Encoded(p.id) + p.data)[|Encoded(p.id)|..] == p.data;
  }

  /** Reading undoes encoding for every id and payload that fit, whatever follows. */
  lemma PacketRoundTrip(p: RawPacket, suffix: seq<byte>)
    requires Fits(p)
    ensures ReadFrame(WireBytes(p) + suffix) == Ok(Frame(p, WireBytes(p), |WireBytes(p)|))
  {
    hide Width, Varint, Leb128, Body;
    var buf := Encoded(p.id) + p.data;
    RoundTrip(|buf|, []);
    assert Encoded(|buf|) + [] == Encoded(|buf|);
    assert WireBytes(p) == Encoded(|buf|) + buf;
    assert WireBytes(p) + suffix == Encoded(|buf|) + buf + suffix;
    ReadFrameParts(Encoded(|buf|), buf, suffix);
    BodyRoundTrip(p);
  }

  /** The payload read from a frame is what the announced length leaves beside the id. */
  lemma FrameLength(s: seq<byte>)
    requires ReadFrame(s).Ok?
    ensures Varint(s).Ok? && 0 <= Varint(s).value <= MAX_PACKET_LEN
    ensures var w, len := Width(s).value, Varint(s).value;
            && ReadFrame(s).value.used == w + len <= |s|
            && Body(s[w..w + len]) == Ok(ReadFrame(s).value.packet)
            && ReadFrame(s).value.raw == Encoded(len) + s[w..w + len]
            && |ReadFrame(s).value.packet.data| + Width(s[w..w + len]).value == len
  {
  }

  /** When a frame reads, and as what: a length of 0 to 2097151, then that many bytes, an id and the data. */
  lemma FrameByParts(s: seq<byte>)
    ensures ReadFrame(s).Ok? <==>
            && Varint(s).Ok? && 0 <= Varint(s).value <= 2_097_151
            && Width(s).value + Varint(s).value <= |s|
            && Varint(s[Width(s).value..Width(s).value + Varint(s).value]).Ok?
    ensures ReadFrame(s).Ok? ==>
              var f, start := ReadFrame(s).value, Width(s).value;
              && f.used == start + Varint(s).value <= |s|
              && f.packet.id == Varint(s[start..f.used]).value
              && |f.packet.data| <= f.used - start && f.packet.data == s[f.used - |f.packet.data|..f.used]
              && start + Width(s[start..f.used]).value + |f.packet.data| == f.used
    ensures Varint(s).Ok? && Varint(s).value < 0 ==> ReadFrame(s) == Err(NegativeLength)
    ensures Varint(s).Ok? && Varint(s).value > 2_097_151 ==> ReadFrame(s) == Err(LengthExceedsMax)
    ensures Varint(s).Ok? && 0 <= Varint(s).value <= 2_097_151 && |s| < Width(s).value + Varint(s).value ==>
              ReadFrame(s) == Err(UnexpectedEof)
  {
    hide Width, ValueOf;
  }

  /** On the wire: the number of bytes that follow the length, then the id, then the data to the end. */
  lemma WireLayout(p: RawPacket)
    requires BodyLength(p) < TWO_TO_THE_31
    ensures var w := WireBytes(p);
            && Varint(w).Ok? && Varint(w).value == |w| - Width(w).value
            && Varint(w[Width(w).value..]) == Ok(p.id)
            && |p.data| <= |w| && w[|w| - |p.data|..] == p.data
            && Width(w).value + Width(w[Width(w).value..]).value + |p.data| == |w|
    ensures |WireBytes(p)| >= 2
  {
    hide Width, ValueOf, Leb128;
    var len: i32 := BodyLength(p);
    var body := Encoded(p.id) + p.data;
    RoundTrip(len, body);
    RoundTrip(p.id, p.data);
    EncodedLength(len);
    EncodedLength(p.id);
    var w := WireBytes(p);
    assert w == Encoded(len) + body;
    assert w[|Encoded(len)|..] == body;
    assert body[|Encoded(p.id)|..] == p.data;
  }

  /** Whatever has been read fits: its shortest encoding is within the bound. */
  lemma ReadPacketsFit(s: seq<byte>)
    requires ReadFrame(s).Ok?
    ensures Fits(ReadFrame(s).value.packet)
  {
    FrameLength(s);
    EncoderIsShortest(s[Width(s).value..Width(s).value + Varint(s).value]);
  }

  lemma OversizedIsReported(p: RawPacket, suffix: seq<byte>)
    requires !Fits(p) && BodyLength(p) < TWO_TO_THE_31
    ensures ReadFrame(WireBytes(p) + suffix) == Err(LengthExceedsMax)
  {
    var len: i32 := BodyLength(p);
    assert WireBytes(p) + suffix == Encoded(len) + (Encoded(p.id) + p.data + suffix);
    RoundTrip(len, Encoded(p.id) + p.data + suffix);
  }

  /** Reading gives back the packet if and only if it fits; up to 2^31 the excess is reported as such. */
  lemma PacketRoundTripExactly(p: RawPacket, suffix: seq<byte>)
    ensures Fits(p) <==> |Encoded(p.id)| + |p.data| <= 2_097_151
    ensures (ReadFrame(WireBytes(p) + suffix).Ok? && ReadFrame(WireBytes(p) + suffix).value.packet == p) <==> Fits(p)
    ensures !Fits(p) && BodyLength(p) < TWO_TO_THE_31 ==> ReadFrame(WireBytes(p) + suffix) == Err(LengthExceedsMax)
  {
    if Fits(p) {
      PacketRoundTrip(p, suffix);
    } else {
      if BodyLength(p) < TWO_TO_THE_31 {
        OversizedIsReported(p, suffix);
      }
      if ReadFrame(WireBytes(p) + suffix).Ok? {
        ReadPacketsFit(WireBytes(p) + suffix);
      }
    }
  }

  lemma LengthPrefixIsShort(len: i32)
    requires 0 <= len <= MAX_PACKET_LEN
    ensures |Encoded(len)| <= 3
  {
    hide Leb128, Pow128;
    EncodedLength(len);
    SmallPowers();
  }

  /**
    The frame that is handed on instead of the consumed bytes: it reads as the same packet and as
    itself, it is never longer than what was consumed, and it is what was consumed exactly when
    the client wrote the length in as few bytes as possible.
  */
  lemma FrameIsCanonical(s: seq<byte>, suffix: seq<byte>)
    requires ReadFrame(s).Ok?
    ensures var f := ReadFrame(s).value;
            && ReadFrame(f.raw + suffix) == Ok(Frame(f.packet, f.raw, |f.raw|))
            && |f.raw| <= f.used
            && (f.raw == s[..f.used] <==> Width(s).value == |Encoded(Varint(s).value)|)
  {
    hide Width, Leb128, Body, ReadFrame;
    FrameLength(s);
    var w, len := Width(s).value, Varint(s).value;
    var buf := s[w..w + len];
    RoundTrip(len, []);
    assert Encoded(len) + [] == Encoded(len);
    ReadFrameParts(Encoded(len), buf, suffix);
    EncoderIsShortest(s);
    LengthPrefixIsShort(len);
    assert s[..w + len] == s[..w] + buf;
    if Encoded(len) + buf == s[..w] + buf {
      assert |Encoded(len)| == w;
    }
  }

  /** A frame taken apart: the length prefix, the body, and what follows. */
  lemma FrameParts(s: seq<byte>) returns (prefix: seq<byte>, buf: seq<byte>, rest: seq<byte>)
    requires ReadFrame(s).Ok?
    ensures s == prefix + buf + rest && s[..ReadFrame(s).value.used] == prefix + buf
    ensures Width(prefix) == Ok(|prefix|) && Varint(prefix) == Ok(|buf|) && |buf| <= MAX_PACKET_LEN
  {
    FrameLength(s);
    var w, len := Width(s).value, Varint(s).value;
    prefix, buf, rest := s[..w], s[w..w + len], s[w + len..];
    assert s == prefix + buf + rest && s[..w + len] == prefix + buf;
    WidthIsTerminated(s);
    assert prefix[..w] == prefix;
    WidthOfTerminated(prefix, w);
  }

  /** A length below 128 with an empty second byte behind it is a length prefix too, but not the shortest. */
  function PaddedBytes(p: RawPacket): seq<byte>
    requires BodyLength(p) < 128
  {
    [BodyLength(p) + 128, 0] + (Encoded(p.id) + p.data)
  }

  lemma PaddedLength(n: nat)
    requires n < 128
    ensures Width([n + 128, 0]) == Ok(2) && Varint([n + 128, 0]) == Ok(n) && Encoded(n) == [n]
  {
    var t := [n + 128, 0];
    assert t[..2] == t;
    WidthOfTerminated(t, 2);
    assert t[1..] == [0] && [0][1..] == [];
    assert Base128([0]) == 0;
    assert Base128(t) == n;
  }

  /** It is accepted, and what is handed on is one byte shorter than what was sent. */
  lemma PaddedPacketIsRewritten(p: RawPacket, suffix: seq<byte>)
    requires BodyLength(p) < 128
    ensures ReadFrame(PaddedBytes(p) + suffix) == Ok(Frame(p, WireBytes(p), |PaddedBytes(p)|))
    ensures |WireBytes(p)| == |PaddedBytes(p)| - 1 && WireBytes(p) != PaddedBytes(p)
  {
    hide Width, Varint, Leb128, Body;
    var prefix, buf := [BodyLength(p) + 128, 0], Encoded(p.id) + p.data;
    PaddedLength(|buf|);
    ReadFrameParts(prefix, buf, suffix);
    BodyRoundTrip(p);
    assert WireBytes(p) == Encoded(|buf|) + buf;
  }

  /** Reading depends only on the bytes of the frame. */
  lemma ReadFrameIgnoresSuffix(s: seq<byte>, suffix: seq<byte>)
    requires ReadFrame(s).Ok?
    ensures ReadFrame(s + suffix) == ReadFrame(s)
    ensures ReadFrame(s[..ReadFrame(s).value.used]) == ReadFrame(s)
  {
    var prefix, buf, rest := FrameParts(s);
    assert s + suffix == prefix + buf + (rest + suffix);
    assert prefix + buf == prefix + buf + [];
    ReadFrameParts(prefix, buf, rest + suffix);
    ReadFrameParts(prefix, buf, rest);
    ReadFrameParts(prefix, buf, []);
  }

  // ----- A read that is dropped -----

  /** After how many bytes a read is over, well or badly; past the end of s it waits for more. */
  function ReadNeeds(s: seq<byte>): (n: nat)
    ensures n > 0
  {
    match Width(s)
    case Err(e) => if e.VarIntTooLong? then 5 else |s| + 1
    case Ok(w) => if 0 <= ValueOf(s[..w]) <= MAX_PACKET_LEN then w + ValueOf(s[..w]) else w
  }

  /** What is gone from the stream when a read is dropped that has got hold of `took` bytes at most. */
  function Torn(s: seq<byte>, took: nat): (n: nat)
    ensures n <= |s| && n <= took
  {
    if took < ReadNeeds(s) && took <= |s| then took
    else if ReadNeeds(s) <= |s| then ReadNeeds(s) - 1
    else |s|
  }

  /** It is less than a packet, and can be any part of one. */
  lemma TornIsPartOfPacket(s: seq<byte>, took: nat)
    requires ReadFrame(s).Ok?
    ensures Torn(s, took) < ReadFrame(s).value.used
    ensures took < ReadFrame(s).value.used ==> Torn(s, took) == took
  {
    FrameLength(s);
  }

  /** On what a dropped read had taken it had not come to an end. */
  lemma TornIsUnfinished(s: seq<byte>, took: nat)
    ensures ReadFrame(s[..Torn(s, took)]) == Err(UnexpectedEof)
  {
    hide ValueOf;
    var n := Torn(s, took);
    var t := s[..n];
    RunContinues(s);
    if Width(s).Ok? && Width(s).value <= n {
      var w := Width(s).value;
      WidthIsTerminated(s);
      assert t[..w] == s[..w];
      WidthOfTerminated(t, w);
    } else {
      assert forall i :: 0 <= i < n ==> t[i] == s[i];
      RejectsTooLong(t);
    }
  }

  // ----- A stream of packets -----

  /** Everything that can be read from s, one packet after the other, and how it ends. */
  function ReadAll(s: seq<byte>): (seq<RawPacket>, Failure)
    decreases |s|
  {
    match ReadFrame(s)
    case Err(e) => ([], e)
    case Ok(f) =>
      var (rest, end) := ReadAll(s[f.used..]);
      ([f.packet] + rest, end)
  }

  lemma ReadAllNext(p: RawPacket, rest: seq<byte>)
    requires Fits(p)
    ensures ReadAll(WireBytes(p) + rest) == ([p] + ReadAll(rest).0, ReadAll(rest).1)
  {
    PacketRoundTrip(p, rest);
    assert (WireBytes(p) + rest)[|WireBytes(p)|..] == rest;
  }

  predicate AllFit(ps: seq<RawPacket>) {
    ps == [] || (Fits(ps[0]) && AllFit(ps[1..]))
  }

  lemma NothingToRead()
    ensures ReadAll([]) == ([], UnexpectedEof)
  {
    RejectsTooLong([]);
  }

  function WireStream(ps: seq<RawPacket>): seq<byte> {
    if ps == [] then [] else WireBytes(ps[0]) + WireStream(ps[1..])
  }

  /** A stream of encoded packets reads back as exactly those packets and then ends. */
  lemma {:induction false} StreamRoundTrip(ps: seq<RawPacket>)
    requires AllFit(ps)
    ensures ReadAll(WireStream(ps)) == (ps, UnexpectedEof)
  {
    if ps == [] {
      NothingToRead();
    } else {
      StreamRoundTrip(ps[1..]);
      var rest := WireStream(ps[1..]);
      assert ReadAll(WireBytes(ps[0]) + rest) == ([ps[0]] + ps[1..], UnexpectedEof) by {
        ReadAllNext(ps[0], rest);
      }
      assert [ps[0]] + ps[1..] == ps;
    }
  }

  /** A packet that is cut anywhere is not taken for another one. */
  lemma CutPacket(p: RawPacket, k: nat)
    requires Fits(p) && k < |WireBytes(p)|
    ensures ReadFrame(WireBytes(p)[..k]) == Err(UnexpectedEof)
  {
    var len: i32 := BodyLength(p);
    var t := WireBytes(p)[..k];
    assert WireBytes(p) == Encoded(len) + (Encoded(p.id) + p.data);
    if k < |Encoded(len)| {
      assert t == Encoded(len)[..k];
      PartOfEncoding(len, k);
    } else {
      assert t == Encoded(len) + (Encoded(p.id) + p.data)[..k - |Encoded(len)|];
      RoundTrip(len, (Encoded(p.id) + p.data)[..k - |Encoded(len)|]);
    }
  }

  /** How many of the packets lie wholly within the first k bytes. */
  function WholePackets(ps: seq<RawPacket>, k: nat): (n: nat)
    ensures n <= |ps|
  {
    if ps == [] || k < |WireBytes(ps[0])| then 0 else 1 + WholePackets(ps[1..], k - |WireBytes(ps[0])|)
  }

  lemma {:induction false} WholePacketsAreWhole(ps: seq<RawPacket>, k: nat)
    ensures |WireStream(ps[..WholePackets(ps, k)])| <= k
    ensures WholePackets(ps, k) < |ps| ==> k < |WireStream(ps[..WholePackets(ps, k) + 1])|
  {
    if ps == [] || k < |WireBytes(ps[0])| {
      assert ps != [] ==> ps[..1][1..] == [];
    } else {
      WholePacketsAreWhole(ps[1..], k - |WireBytes(ps[0])|);
      var n := WholePackets(ps[1..], k - |WireBytes(ps[0])|);
      assert ps[..1 + n][1..] == ps[1..][..n];
      assert n < |ps[1..]| ==> ps[..2 + n][1..] == ps[1..][..n + 1];
    }
  }

  /** A stream that is cut anywhere gives the packets before the cut, and then the end of input. */
  lemma {:induction false} CutStream(ps: seq<RawPacket>, k: nat)
    requires k <= |WireStream(ps)| && AllFit(ps)
    ensures ReadAll(WireStream(ps)[..k]) == (ps[..WholePackets(ps, k)], UnexpectedEof)
  {
    hide ReadFrame;
    if ps == [] {
      NothingToRead();
    } else {
      var first := WireBytes(ps[0]);
      if k < |first| {
        assert WireStream(ps)[..k] == first[..k];
        CutPacket(ps[0], k);
      } else {
        CutStream(ps[1..], k - |first|);
        CutLater(ps, k);
      }
    }
  }

  lemma CutLater(ps: seq<RawPacket>, k: nat)
    requires ps != [] && Fits(ps[0]) && |WireBytes(ps[0])| <= k <= |WireStream(ps)|
    requires var j := k - |WireBytes(ps[0])|;
             ReadAll(WireStream(ps[1..])[..j]) == (ps[1..][..WholePackets(ps[1..], j)], UnexpectedEof)
    ensures ReadAll(WireStream(ps)[..k]) == (ps[..WholePackets(ps, k)], UnexpectedEof)
  {
    hide ReadFrame, WireBytes, ReadAll;
    var first := WireBytes(ps[0]);
    var n := WholePackets(ps[1..], k - |first|);
    var rest := WireStream(ps[1..])[..k - |first|];
    assert WireStream(ps)[..k] == first + rest;
    assert ReadAll(first + rest) == ([ps[0]] + ps[1..][..n], UnexpectedEof) by {
      ReadAllNext(ps[0], rest);
    }
    assert ps[..1 + n] == [ps[0]] + ps[1..][..n];
    assert WholePackets(ps, k) == 1 + n;
  }

  // ----- The code -----

  /** Reads one packet; the second result is the frame in canonical form, not the bytes consumed. */
  method ReadPacket(reader: Reader) returns (res: Result<(RawPacket, seq<byte>)>)
    requires reader.Valid()
    modifies reader
    ensures reader.Valid()
    ensures res == match ReadFrame(old(reader.Rest()))
                   case Ok(f) => Ok((f.packet, f.raw))
                   case Err(e) => Err(e)
    ensures res.Ok? ==> reader.Rest() == old(reader.Rest())[ReadFrame(old(reader.Rest())).value.used..]
  {
    ghost var s := reader.Rest();
    var rawLength := ReadVarint(reader);
    if rawLength.Err? {
      return Err(rawLength.error);
    }
    var length := rawLength.value;
    if length < 0 {
      return Err(NegativeLength);
    }
    if length > MAX_PACKET_LEN {
      return Err(LengthExceedsMax);
    }
    ghost var w := Width(s).value;
    var buf := new byte[length];
    var ok := reader.ReadExact(buf);
    if !ok {
      return Err(UnexpectedEof);
    }
    assert buf[..] == s[w..w + length];
    var lenBytes := EncodeVarint(length);
    var raw := lenBytes + buf[..];

    var cursor := new Reader(buf[..]);
    var id := ReadVarintSync(cursor);
    if id.Err? {
      return Err(id.error);
    }
    var data := cursor.Rest();
    res := Ok((RawPacket(id.value, data), raw));
    assert s[w..][length..] == s[w + length..];
  }

  method EncodePacket(id: i32, data: seq<byte>) returns (buf: seq<byte>)
    ensures buf == WireBytes(RawPacket(id, data))
  {
    var idBytes := EncodeVarint(id);
    var total := |idBytes| + |data|;
    var lenBytes := EncodeVarint(ToI32(LengthAsU32(total)));
    buf := [];
    buf := buf + lenBytes;
    buf := buf + idBytes;
    buf := buf + data;
  }
}

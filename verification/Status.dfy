/**
  Status responses, disconnects and plugin requests (src/status.rs), and what the version probe
  (src/proxy.rs) reads back.  The JSON is a string of bytes whose structure does not matter here.
*/
module StatusCodec {
  import opened Bytes
  import opened Streams
  import opened Varints
  import opened Packets
  import opened Handshakes
  import opened Utf8

  const STATUS_ID: i32 := 0x00
  const DISCONNECT_ID: i32 := 0x00
  const PLUGIN_REQUEST_ID: i32 := 0x04

  function StringPacket(id: i32, t: seq<byte>): RawPacket {
    RawPacket(id, StringBytes(t))
  }

  function PluginRequest(messageId: i32, channel: seq<byte>): RawPacket {
    RawPacket(PLUGIN_REQUEST_ID, Encoded(messageId) + StringBytes(channel))
  }

  /** The bytes the probe takes for JSON out of a reply. */
  function ProbedJson(s: seq<byte>): Result<seq<byte>> {
    match ReadFrame(s)
    case Err(e) => Err(e)
    case Ok(f) =>
      if f.packet.id != STATUS_ID then Err(UnexpectedId) else JsonIn(f.packet.data)
  }

  function JsonIn(data: seq<byte>): Result<seq<byte>> {
    match Varint(data)
    case Err(e) => Err(e)
    case Ok(len) =>
      var start := Width(data).value;
      if len < 0 || |data| < start + len then Err(OutOfBounds) else Ok(data[start..start + len])
  }

  lemma StatusLength(json: seq<byte>)
    ensures BodyLength(StringPacket(STATUS_ID, json)) == 1 + |Leb128(LengthAsU32(|json|))| + |json|
  {
    assert Encoded(0) == [0];
  }

  lemma JsonRoundTrip(json: seq<byte>)
    requires |json| < TWO_TO_THE_31
    ensures JsonIn(StringBytes(json)) == Ok(json)
  {
    RoundTrip(|json|, json);
    var data := Encoded(|json|) + json;
    assert data[|Encoded(|json|)|..|Encoded(|json|)| + |json|] == json;
    assert StringBytes(json) == data;
  }

  /** JSON that has been sliced out of a payload leaves room for its own length in it. */
  lemma JsonFitsPayload(data: seq<byte>)
    requires JsonIn(data).Ok?
    ensures |Leb128(LengthAsU32(|JsonIn(data).value|))| + |JsonIn(data).value| <= |data|
  {
    hide Leb128, ValueOf, Run;
    EncoderIsShortest(data);
  }

  /** Through frame, packet and string, the probe gets the very bytes of the JSON. */
  lemma ProbeReadsStatus(json: seq<byte>, suffix: seq<byte>)
    requires Fits(StringPacket(STATUS_ID, json))
    ensures ProbedJson(WireBytes(StringPacket(STATUS_ID, json)) + suffix) == Ok(json)
  {
    StatusLength(json);
    PacketRoundTrip(StringPacket(STATUS_ID, json), suffix);
    JsonRoundTrip(json);
  }

  /** It does so for no JSON whose packet exceeds the frame bound: the string bound plays no part. */
  lemma ProbeReadsStatusExactly(json: seq<byte>, suffix: seq<byte>)
    ensures ProbedJson(WireBytes(StringPacket(STATUS_ID, json)) + suffix) == Ok(json) <==>
            Fits(StringPacket(STATUS_ID, json))
  {
    if Fits(StringPacket(STATUS_ID, json)) {
      ProbeReadsStatus(json, suffix);
    } else if ProbedJson(WireBytes(StringPacket(STATUS_ID, json)) + suffix) == Ok(json) {
      ReadJsonFits(WireBytes(StringPacket(STATUS_ID, json)) + suffix);
    }
  }

  lemma ReadJsonFits(s: seq<byte>)
    requires ProbedJson(s).Ok?
    ensures Fits(StringPacket(STATUS_ID, ProbedJson(s).value))
  {
    ReadPacketsFit(s);
    var p := ReadFrame(s).value.packet;
    EncodedLength(p.id);
    JsonFitsPayload(p.data);
    StatusLength(ProbedJson(s).value);
  }

  /** Packet 0 carries the status and, in the login state, the disconnect; packet 4 the plugin request. */
  lemma ServerPacketIds(json: seq<byte>, messageId: i32, channel: seq<byte>, suffix: seq<byte>)
    requires Fits(StringPacket(STATUS_ID, json)) && |channel| <= MAX_STRING_LEN
    ensures var status := ReadFrame(WireBytes(StringPacket(STATUS_ID, json)) + suffix);
            && status.Ok? && status.value.packet.id == 0
            && JsonIn(status.value.packet.data) == Ok(json)
    ensures var disconnect := ReadFrame(WireBytes(StringPacket(DISCONNECT_ID, json)) + suffix);
            && disconnect.Ok? && disconnect.value.packet.id == 0
            && JsonIn(disconnect.value.packet.data) == Ok(json)
    ensures var query := ReadFrame(WireBytes(PluginRequest(messageId, channel)) + suffix);
            query.Ok? && query.value.packet.id == 4
  {
    PacketRoundTrip(StringPacket(STATUS_ID, json), suffix);
    StatusLength(json);
    JsonRoundTrip(json);
    PluginRequestFits(messageId, channel);
    PacketRoundTrip(PluginRequest(messageId, channel), suffix);
  }

  /** What the probe takes for JSON: the string in a packet with id 0, its bounds checked and nothing else. */
  lemma ProbeByParts(s: seq<byte>)
    ensures ProbedJson(s).Ok? <==>
            && ReadFrame(s).Ok? && ReadFrame(s).value.packet.id == 0
            && var data := ReadFrame(s).value.packet.data;
               Varint(data).Ok? && 0 <= Varint(data).value <= |data| - Width(data).value
    ensures ProbedJson(s).Ok? ==>
              var data := ReadFrame(s).value.packet.data;
              && |ProbedJson(s).value| == Varint(data).value
              && ProbedJson(s).value == data[Width(data).value..Width(data).value + Varint(data).value]
  {
    hide ReadFrame, Width, ValueOf;
  }

  /** A client reads a keepalive as the query it is. */
  lemma PluginRequestRoundTrip(messageId: i32, channel: seq<byte>, suffix: seq<byte>)
    requires ValidUtf8(channel) && |channel| <= MAX_STRING_LEN
    ensures ReadFrame(WireBytes(PluginRequest(messageId, channel)) + suffix).Ok?
    ensures ReadFrame(WireBytes(PluginRequest(messageId, channel)) + suffix).value.packet ==
            PluginRequest(messageId, channel)
  {
    PluginRequestFits(messageId, channel);
    PacketRoundTrip(PluginRequest(messageId, channel), suffix);
  }

  /** Its payload reads as the message id and then the channel. */
  lemma PluginPayload(messageId: i32, channel: seq<byte>)
    requires ValidUtf8(channel) && |channel| <= MAX_STRING_LEN
    ensures var data := Encoded(messageId) + StringBytes(channel);
            && Width(data) == Ok(|Encoded(messageId)|) && Varint(data) == Ok(messageId)
            && StringAt(data[|Encoded(messageId)|..]) == Ok((channel, |StringBytes(channel)|))
  {
    RoundTrip(messageId, StringBytes(channel));
    StringRoundTrip(channel, []);
    var data := Encoded(messageId) + StringBytes(channel);
    assert data[|Encoded(messageId)|..] == StringBytes(channel) + [];
  }

  lemma PluginRequestFits(messageId: i32, channel: seq<byte>)
    requires |channel| <= MAX_STRING_LEN
    ensures Fits(PluginRequest(messageId, channel))
  {
    EncodedLength(PLUGIN_REQUEST_ID);
    EncodedLength(messageId);
    EncodedLength(|channel|);
    assert StringBytes(channel) == Encoded(|channel|) + channel;
  }

  method EncodeStatusResponse(json: seq<byte>) returns (buf: seq<byte>)
    ensures buf == WireBytes(StringPacket(STATUS_ID, json))
  {
    var text := EncodeString(json);
    buf := EncodePacket(STATUS_ID, text);
  }

  method EncodeLoginDisconnect(json: seq<byte>) returns (buf: seq<byte>)
    ensures buf == WireBytes(StringPacket(DISCONNECT_ID, json))
  {
    var text := EncodeString(json);
    buf := EncodePacket(DISCONNECT_ID, text);
  }

  method EncodeLoginPluginRequest(messageId: i32, channel: seq<byte>) returns (buf: seq<byte>)
    ensures buf == WireBytes(PluginRequest(messageId, channel))
  {
    var payload: seq<byte> := [];
    var id := EncodeVarint(messageId);
    payload := payload + id;
    var text := EncodeString(channel);
    payload := payload + text;
    buf := EncodePacket(PLUGIN_REQUEST_ID, payload);
  }

  /** The part of the version probe that decodes the reply, up to the JSON bytes. */
  method ReadProbeReply(stream: Reader) returns (res: Result<seq<byte>>)
    requires stream.Valid()
    modifies stream
    ensures stream.Valid()
    ensures res == ProbedJson(old(stream.Rest()))
  {
    var reply := ReadPacket(stream);
    if reply.Err? {
      return Err(reply.error);
    }
    var packet := reply.value.0;
    if packet.id != STATUS_ID {
      return Err(UnexpectedId);
    }
    res := SliceJson(packet.data);
  }

  method SliceJson(data: seq<byte>) returns (res: Result<seq<byte>>)
    ensures res == JsonIn(data)
  {
    hide ValueOf, Run, Leb128;
    var cursor := new Reader(data);
    var jsonLen := ReadVarintSync(cursor);
    if jsonLen.Err? {
      return Err(jsonLen.error);
    }
    assert cursor.Rest() == data[Width(data).value..];
    var start := cursor.pos;
    if jsonLen.value < 0 || start + jsonLen.value > |data| {
      return Err(OutOfBounds);
    }
    res := Ok(data[start..start + jsonLen.value]);
  }
}

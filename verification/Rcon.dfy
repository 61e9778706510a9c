/** RCON packets (src/docker.rs), after "Basic Packet Structure" of the Source RCON Protocol. */
module Rcon {
  import opened Bytes
  import opened Streams
  import opened Utf8

  const MAX_RCON_PACKET_LEN := 4096 + 10

  /** The payload is given by its bytes; they are what the program keeps if they are UTF-8. */
  datatype RconPacket = RconPacket(id: i32, kind: i32, payload: seq<byte>)

  // ----- The meaning -----

  function LittleEndian(v: i32): (t: seq<byte>)
    ensures |t| == 4
  {
    var u0 := ToU32(v);
    var u1 := u0 / 256;
    var u2 := u1 / 256;
    [u0 % 256, u1 % 256, u2 % 256, u2 / 256]
  }

  function FromLittleEndian(t: seq<byte>): i32
    requires |t| == 4
  {
    ToI32(t[0] as int + 256 * (t[1] as int + 256 * (t[2] as int + 256 * t[3] as int)))
  }

  lemma LittleEndianRoundTrip(v: i32)
    ensures FromLittleEndian(LittleEndian(v)) == v
  {
  }

  /** Four bytes, the least significant first, are the i32 that is congruent to their number modulo 2^32. */
  lemma LeastSignificantFirst(t: seq<byte>, v: i32)
    requires |t| == 4
    ensures var n := t[0] as int + 256 * t[1] as int + 65536 * t[2] as int + 16777216 * t[3] as int;
            && (FromLittleEndian(t) == v <==> (v - n) % 0x1_0000_0000 == 0)
            && (LittleEndian(v) == t <==> (v - n) % 0x1_0000_0000 == 0)
  {
    hide ToI32, ToU32;
    var n := NumberOf(t);
    CastIsTheCongruentValue(n, v);
    DigitsOf(t, ToU32(v));
  }

  function NumberOf(t: seq<byte>): u32
    requires |t| == 4
  {
    t[0] as int + 256 * t[1] as int + 65536 * t[2] as int + 16777216 * t[3] as int
  }

  lemma DigitsOf(t: seq<byte>, u: u32)
    requires |t| == 4
    ensures [u % 256, u / 256 % 256, u / 256 / 256 % 256, u / 256 / 256 / 256] == t <==> u == NumberOf(t)
  {
    var u1, u2 := u / 256, u / 256 / 256;
    assert u == u % 256 + 256 * u1 && u1 == u1 % 256 + 256 * u2 && u2 == u2 % 256 + 256 * (u2 / 256);
    if u == NumberOf(t) {
      assert u1 == t[1] as int + 256 * t[2] as int + 65536 * t[3] as int;
      assert u2 == t[2] as int + 256 * t[3] as int;
    }
  }

  function RconBytes(p: RconPacket): seq<byte> {
    LittleEndian(ToI32(LengthAsU32(10 + |p.payload|))) + LittleEndian(p.id) + LittleEndian(p.kind) + p.payload + [0, 0]
  }

  /** On the wire: the length of what follows it, id, kind, payload and two zero bytes. */
  lemma RconLayout(p: RconPacket)
    requires |p.payload| + 10 < TWO_TO_THE_31
    ensures var t := RconBytes(p);
            && |t| == 14 + |p.payload|
            && FromLittleEndian(t[0..4]) == 10 + |p.payload|
            && FromLittleEndian(t[4..8]) == p.id
            && FromLittleEndian(t[8..12]) == p.kind
            && t[12..12 + |p.payload|] == p.payload
            && t[12 + |p.payload|] == 0 && t[13 + |p.payload|] == 0
  {
    hide LittleEndian, FromLittleEndian;
    var t := RconBytes(p);
    LittleEndianRoundTrip(10 + |p.payload|);
    LittleEndianRoundTrip(p.id);
    LittleEndianRoundTrip(p.kind);
    assert t[0..4] == LittleEndian(10 + |p.payload|);
    assert t[4..8] == LittleEndian(p.id);
    assert t[8..12] == LittleEndian(p.kind);
  }

  /** The packet in a body; the slices of the program are out of range if it is too short. */
  function RconBody(body: seq<byte>): Result<RconPacket> {
    if |body| < 10 then Err(SlicePanic)
    else Ok(RconPacket(FromLittleEndian(body[0..4]), FromLittleEndian(body[4..8]), body[8..|body| - 2]))
  }

  /** The packet at the front of s, and how many bytes it takes. */
  function RconAt(s: seq<byte>): Result<(RconPacket, nat)> {
    if |s| < 4 then Err(UnexpectedEof)
    else
      var length := FromLittleEndian(s[..4]);
      if length < 0 then Err(NegativeLength)
      else if length > MAX_RCON_PACKET_LEN then Err(LengthExceedsMax)
      else if |s| < 4 + length then Err(UnexpectedEof)
      else match RconBody(s[4..4 + length])
           case Err(e) => Err(e)
           case Ok(p) => Ok((p, 4 + length))
  }

  // ----- What holds of it -----

  lemma RconParts(prefix: seq<byte>, body: seq<byte>, suffix: seq<byte>)
    requires |prefix| == 4 && FromLittleEndian(prefix) == |body|
    ensures RconAt(prefix + (body + suffix)) ==
            if |body| > MAX_RCON_PACKET_LEN then Err(LengthExceedsMax)
            else match RconBody(body)
                 case Err(e) => Err(e)
                 case Ok(p) => Ok((p, 4 + |body|))
  {
    var s := prefix + (body + suffix);
    assert s[..4] == prefix;
    assert s[4..4 + |body|] == body;
  }

  lemma RconBodyRoundTrip(p: RconPacket)
    ensures RconBody(LittleEndian(p.id) + LittleEndian(p.kind) + p.payload + [0, 0]) == Ok(p)
  {
    var body := LittleEndian(p.id) + LittleEndian(p.kind) + p.payload + [0, 0];
    assert body[0..4] == LittleEndian(p.id);
    assert body[4..8] == LittleEndian(p.kind);
    assert body[8..|body| - 2] == p.payload;
    LittleEndianRoundTrip(p.id);
    LittleEndianRoundTrip(p.kind);
  }

  /** Receiving undoes sending if and only if the payload has at most 4096 bytes. */
  lemma RconRoundTrip(p: RconPacket, suffix: seq<byte>)
    requires |p.payload| + 10 < TWO_TO_THE_31
    ensures RconAt(RconBytes(p) + suffix) ==
            if |p.payload| <= 4096 then Ok((p, |RconBytes(p)|)) else Err(LengthExceedsMax)
  {
    hide RconBody, RconAt, LittleEndian, FromLittleEndian;
    var body := LittleEndian(p.id) + LittleEndian(p.kind) + p.payload + [0, 0];
    var prefix := LittleEndian(|body|);
    assert RconBytes(p) == prefix + body;
    assert RconBytes(p) + suffix == prefix + (body + suffix);
    LittleEndianRoundTrip(|body|);
    RconParts(prefix, body, suffix);
    RconBodyRoundTrip(p);
  }

  /** With the announced body there, the slices are in range exactly for lengths from 10 to the cap. */
  lemma RconSlicesInRange(s: seq<byte>)
    requires |s| >= 4 && FromLittleEndian(s[..4]) >= 0 && |s| >= 4 + FromLittleEndian(s[..4])
    ensures RconAt(s).Ok? <==> 10 <= FromLittleEndian(s[..4]) <= 4106
    ensures RconAt(s) == Err(SlicePanic) <==> FromLittleEndian(s[..4]) < 10
  {
  }

  /** When a packet is received, and as what; the last two bytes of its body are dropped whatever they are. */
  lemma RconByParts(s: seq<byte>)
    ensures RconAt(s).Ok? <==>
            |s| >= 4 && 10 <= FromLittleEndian(s[..4]) <= 4106 && 4 + FromLittleEndian(s[..4]) <= |s|
    ensures RconAt(s).Ok? ==>
              var (p, used) := RconAt(s).value;
              && used == 4 + FromLittleEndian(s[..4])
              && p.id == FromLittleEndian(s[4..8]) && p.kind == FromLittleEndian(s[8..12])
              && p.payload == s[12..used - 2]
    ensures |s| >= 4 && FromLittleEndian(s[..4]) < 0 ==> RconAt(s) == Err(NegativeLength)
    ensures |s| >= 4 && FromLittleEndian(s[..4]) > 4106 ==> RconAt(s) == Err(LengthExceedsMax)
  {
    hide FromLittleEndian;
    if RconAt(s).Ok? {
      var body := s[4..4 + FromLittleEndian(s[..4])];
      SliceOfSlice(s, 4, 4 + |body|, 0, 4);
      SliceOfSlice(s, 4, 4 + |body|, 4, 8);
      SliceOfSlice(s, 4, 4 + |body|, 8, |body| - 2);
    }
  }

  lemma SliceOfSlice(s: seq<byte>, i: nat, j: nat, m: nat, n: nat)
    requires i <= j <= |s| && m <= n <= j - i
    ensures s[i..j][m..n] == s[i + m..i + n]
  {
    assert forall k :: 0 <= k < n - m ==> s[i..j][m..n][k] == s[i..j][m + k] == s[i + m..i + n][k];
  }

  // ----- The code -----

  method RconSend(stream: seq<byte>, p: RconPacket) returns (written: seq<byte>)
    ensures written == stream + RconBytes(p)
  {
    var length := ToI32(LengthAsU32(4 + 4 + |p.payload| + 2));
    var buf: seq<byte> := [];
    buf := buf + LittleEndian(length);
    buf := buf + LittleEndian(p.id);
    buf := buf + LittleEndian(p.kind);
    buf := buf + p.payload;
    buf := buf + [0, 0];
    written := stream + buf;
  }

  method RconRecv(stream: Reader) returns (res: Result<RconPacket>)
    requires stream.Valid()
    modifies stream
    ensures stream.Valid()
    ensures res == match RconAt(old(stream.Rest()))
                   case Ok((p, _)) => Ok(p)
                   case Err(e) => Err(e)
    ensures res.Ok? ==> stream.Rest() == old(stream.Rest())[RconAt(old(stream.Rest())).value.1..]
  {
    ghost var s := stream.Rest();
    var lenBuf := new byte[4];
    var ok := stream.ReadExact(lenBuf);
    if !ok {
      return Err(UnexpectedEof);
    }
    var length := FromLittleEndian(lenBuf[..]);
    if length < 0 {
      return Err(NegativeLength);
    }
    if length > MAX_RCON_PACKET_LEN {
      return Err(LengthExceedsMax);
    }
    var body := new byte[length];
    ok := stream.ReadExact(body);
    if !ok {
      return Err(UnexpectedEof);
    }
    assert body[..] == s[4..4 + length];
    assert s[4..][length..] == s[4 + length..];
    if body.Length < 4 || body.Length < 8 {
      return Err(SlicePanic);
    }
    var id := FromLittleEndian(body[0..4]);
    var kind := FromLittleEndian(body[4..8]);
    var end := if body.Length < 2 then 0 else body.Length - 2;
    if end < 8 {
      return Err(SlicePanic);
    }
    assert body[0..4] == body[..][0..4] && body[4..8] == body[..][4..8] && body[8..end] == body[..][8..end];
    res := Ok(RconPacket(id, kind, body[8..end]));
  }
}

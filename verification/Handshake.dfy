/** Strings, the handshake and the login start (src/protocol/packet.rs, src/protocol/handshake.rs). */
module Handshakes {
  import opened Bytes
  import opened Streams
  import opened Varints
  import opened Utf8

  const MAX_STRING_LEN := 131_072

  /** `address` is the UTF-8 form of the string the program keeps. */
  datatype Handshake = Handshake(protocolVersion: i32, serverAddress: seq<byte>, nextState: i32)

  // ----- The meaning -----

  function StringBytes(t: seq<byte>): seq<byte> {
    Leb128(LengthAsU32(|t|)) + t
  }

  /** The string at the front of s, and how many bytes it takes. */
  function StringAt(s: seq<byte>): (r: Result<(seq<byte>, nat)>)
    ensures r.Ok? ==> r.value.1 <= |s|
  {
    match Varint(s)
    case Err(e) => Err(e)
    case Ok(len) =>
      var w := Width(s).value;
      if len < 0 then Err(NegativeLength)
      else if len > MAX_STRING_LEN then Err(LengthExceedsMax)
      else if |s| < w + len then Err(UnexpectedEof)
      else if !ValidUtf8(s[w..w + len]) then Err(InvalidUtf8)
      else Ok((s[w..w + len], w + len))
  }

  /** What follows the address: two bytes of port, which are skipped, and the next state. */
  function AfterAddress(s: seq<byte>): Result<i32> {
    if |s| < 2 then Err(UnexpectedEof) else Varint(s[2..])
  }

  function ParsedHandshake(s: seq<byte>): Result<Handshake> {
    match Varint(s)
    case Err(e) => Err(e)
    case Ok(version) =>
      var s1 := s[Width(s).value..];
      match StringAt(s1)
      case Err(e) => Err(e)
      case Ok((address, used)) =>
        match AfterAddress(s1[used..])
        case Err(e) => Err(e)
        case Ok(next) => Ok(Handshake(version, UpToNul(address), next))
  }

  function ParsedLoginStart(s: seq<byte>): Result<seq<byte>> {
    match StringAt(s)
    case Err(e) => Err(e)
    case Ok((name, _)) => Ok(name)
  }

  // ----- What holds of it -----

  /** What a string with a well-formed length and enough bytes behind it reads as. */
  lemma StringParts(prefix: seq<byte>, t: seq<byte>, suffix: seq<byte>)
    requires Width(prefix) == Ok(|prefix|) && Varint(prefix) == Ok(|t|)
    ensures StringAt(prefix + (t + suffix)) ==
            if |t| > MAX_STRING_LEN then Err(LengthExceedsMax)
            else if !ValidUtf8(t) then Err(InvalidUtf8)
            else Ok((t, |prefix + t|))
  {
    var s := prefix + (t + suffix);
    WidthIgnoresSuffix(prefix, t + suffix);
    assert s[|prefix|..|prefix| + |t|] == t;
  }

  /** When a string reads, and as what: a length of 0 to 131072, then that many bytes of UTF-8. */
  lemma StringByParts(s: seq<byte>)
    ensures StringAt(s).Ok? <==>
            && Varint(s).Ok? && 0 <= Varint(s).value <= 131_072
            && Width(s).value + Varint(s).value <= |s|
            && ValidUtf8(s[Width(s).value..Width(s).value + Varint(s).value])
    ensures StringAt(s).Ok? ==>
              var (t, used) := StringAt(s).value;
              used == Width(s).value + |t| && |t| == Varint(s).value && t == s[Width(s).value..used]
    ensures Varint(s).Ok? && Varint(s).value < 0 ==> StringAt(s) == Err(NegativeLength)
    ensures Varint(s).Ok? && Varint(s).value > 131_072 ==> StringAt(s) == Err(LengthExceedsMax)
  {
    hide Width, ValueOf, Scan;
  }

  /** Reading a string gives it back if it is UTF-8 and within the bound, and says what is wrong otherwise. */
  lemma StringRoundTrip(t: seq<byte>, suffix: seq<byte>)
    requires |t| < TWO_TO_THE_31
    ensures StringAt(StringBytes(t) + suffix) ==
            if |t| > MAX_STRING_LEN then Err(LengthExceedsMax)
            else if !ValidUtf8(t) then Err(InvalidUtf8)
            else Ok((t, |StringBytes(t)|))
  {
    RoundTrip(|t|, []);
    assert Encoded(|t|) + [] == Encoded(|t|);
    StringParts(Encoded(|t|), t, suffix);
    assert StringBytes(t) + suffix == Encoded(|t|) + (t + suffix);
  }

  lemma StringIgnoresSuffix(s: seq<byte>, suffix: seq<byte>)
    requires StringAt(s).Ok?
    ensures StringAt(s + suffix) == StringAt(s)
  {
    WidthIgnoresSuffix(s, suffix);
    var w, len := Width(s).value, Varint(s).value;
    assert (s + suffix)[w..w + len] == s[w..w + len];
  }

  /** The bytes of a handshake packet after its id. */
  function HandshakeBytes(version: i32, address: seq<byte>, port: nat, next: i32): seq<byte>
    requires port < 0x1_0000
  {
    Encoded(version) + StringBytes(address) + [port / 256, port % 256] + Encoded(next)
  }

  /** On the wire: version, length and bytes of the address, the port with its high byte first, next state. */
  lemma HandshakeLayout(version: i32, address: seq<byte>, port: nat, next: i32)
    requires port < 0x1_0000 && |address| < TWO_TO_THE_31
    ensures var v, a, n := |Encoded(version)|, |Encoded(|address|)| + |address|, |Encoded(next)|;
            var t := HandshakeBytes(version, address, port, next);
            && |t| == v + a + 2 + n
            && Varint(t) == Ok(version) && Width(t) == Ok(v)
            && Varint(t[v..]) == Ok(|address|) && t[v + a - |address|..v + a] == address
            && t[v + a] as int * 256 + t[v + a + 1] as int == port
            && Varint(t[v + a + 2..]) == Ok(next) && Width(t[v + a + 2..]) == Ok(n)
  {
    hide Width, Varint, Leb128;
    var v, a := |Encoded(version)|, |Encoded(|address|)| + |address|;
    var t := HandshakeBytes(version, address, port, next);
    var tail := [port / 256, port % 256] + Encoded(next);
    assert StringBytes(address) == Encoded(|address|) + address;
    assert t == Encoded(version) + (Encoded(|address|) + (address + tail));
    RoundTrip(version, Encoded(|address|) + (address + tail));
    RoundTrip(|address|, address + tail);
    assert t[v..] == Encoded(|address|) + (address + tail);
    RoundTrip(next, []);
    assert Encoded(next) + [] == Encoded(next);
    assert t[v + a + 2..] == Encoded(next);
  }

  /** A handshake taken apart: the version, the string with the address, and what follows it. */
  lemma HandshakeParts(prefix: seq<byte>, version: i32, s1: seq<byte>)
    requires Width(prefix) == Ok(|prefix|) && Varint(prefix) == Ok(version)
    ensures ParsedHandshake(prefix + s1) ==
            match StringAt(s1)
            case Err(e) => Err(e)
            case Ok((address, used)) =>
              match AfterAddress(s1[used..])
              case Err(e) => Err(e)
              case Ok(next) => Ok(Handshake(version, UpToNul(address), next))
  {
    WidthIgnoresSuffix(prefix, s1);
    assert (prefix + s1)[|prefix|..] == s1;
  }

  lemma AfterAddressRoundTrip(port: nat, next: i32, tail: seq<byte>)
    requires port < 0x1_0000
    ensures AfterAddress([port / 256, port % 256] + (Encoded(next) + tail)) == Ok(next)
  {
    RoundTrip(next, tail);
    assert ([port / 256, port % 256] + (Encoded(next) + tail))[2..] == Encoded(next) + tail;
  }

  lemma Regroup(a: seq<byte>, b: seq<byte>, c: seq<byte>, d: seq<byte>, tail: seq<byte>)
    ensures a + b + c + d + tail == a + (b + (c + (d + tail)))
  {
  }

  /**
    Parsing a handshake gives its version, its address up to the first NUL and its next state,
    for every port and whatever follows; it fails exactly when the address is too long or no UTF-8.
  */
  lemma HandshakeRoundTrip(version: i32, address: seq<byte>, port: nat, next: i32, tail: seq<byte>)
    requires port < 0x1_0000 && |address| < TWO_TO_THE_31
    ensures ParsedHandshake(HandshakeBytes(version, address, port, next) + tail) ==
            if |address| > MAX_STRING_LEN then Err(LengthExceedsMax)
            else if !ValidUtf8(address) then Err(InvalidUtf8)
            else Ok(Handshake(version, UpToNul(address), next))
  {
    hide Varint, StringAt, AfterAddress, Scan, Leb128, UpToNul;
    var s2 := [port / 256, port % 256] + (Encoded(next) + tail);
    var s1 := StringBytes(address) + s2;
    Regroup(Encoded(version), StringBytes(address), [port / 256, port % 256], Encoded(next), tail);
    RoundTrip(version, []);
    assert Encoded(version) + [] == Encoded(version);
    HandshakeParts(Encoded(version), version, s1);
    StringRoundTrip(address, s2);
    assert s1[|StringBytes(address)|..] == s2;
    AfterAddressRoundTrip(port, next, tail);
  }

  /** The parsed address is UTF-8 again, has no NUL, and is the address sent if that had none. */
  lemma AddressUpToNul(address: seq<byte>)
    requires ValidUtf8(address)
    ensures ValidUtf8(UpToNul(address)) && 0 !in UpToNul(address) && UpToNul(address) <= address
    ensures UpToNul(address) == address <==> 0 !in address
    ensures 0 in address ==> |UpToNul(address)| < |address| && address[|UpToNul(address)|] == 0
  {
    NulCutsBetweenCharacters(address, BOUNDARY);
    UpToNulIsPrefix(address);
    var t := UpToNul(address);
    if |t| < |address| {
      assert address[|t|] in address;
    }
  }

  /** The user name does not depend on what follows it, which differs between protocol versions. */
  lemma LoginStartIgnoresTail(s: seq<byte>, tail: seq<byte>)
    requires ParsedLoginStart(s).Ok?
    ensures ParsedLoginStart(s + tail) == ParsedLoginStart(s)
  {
    StringIgnoresSuffix(s, tail);
  }

  lemma LoginStartRoundTrip(name: seq<byte>, tail: seq<byte>)
    requires ValidUtf8(name) && |name| <= MAX_STRING_LEN
    ensures ParsedLoginStart(StringBytes(name) + tail) == Ok(name)
  {
    StringRoundTrip(name, tail);
  }

  // ----- The code -----

  method EncodeString(t: seq<byte>) returns (buf: seq<byte>)
    ensures buf == StringBytes(t)
  {
    buf := EncodeVarint(ToI32(LengthAsU32(|t|)));
    buf := buf + t;
  }

  method ReadStringSync(cursor: Reader) returns (res: Result<seq<byte>>)
    requires cursor.Valid()
    modifies cursor
    ensures cursor.Valid()
    ensures res == match StringAt(old(cursor.Rest()))
                   case Ok((t, _)) => Ok(t)
                   case Err(e) => Err(e)
    ensures res.Ok? ==> cursor.Rest() == old(cursor.Rest())[StringAt(old(cursor.Rest())).value.1..]
  {
    ghost var s := cursor.Rest();
    var rawLen := ReadVarintSync(cursor);
    if rawLen.Err? {
      return Err(rawLen.error);
    }
    var len := rawLen.value;
    if len < 0 {
      return Err(NegativeLength);
    }
    if len > MAX_STRING_LEN {
      return Err(LengthExceedsMax);
    }
    ghost var w := Width(s).value;
    var bytes := new byte[len];
    var ok := cursor.ReadExact(bytes);
    if !ok {
      return Err(UnexpectedEof);
    }
    assert bytes[..] == s[w..w + len];
    assert s[w..][len..] == s[w + len..];
    if !ValidUtf8(bytes[..]) {
      return Err(InvalidUtf8);
    }
    res := Ok(bytes[..]);
  }

  method ParseHandshake(data: seq<byte>) returns (res: Result<Handshake>)
    ensures res == ParsedHandshake(data)
  {
    hide Varint, Width, StringAt, Scan, UpToNul;
    var cursor := new Reader(data);
    var version := ReadVarintSync(cursor);
    if version.Err? {
      return Err(version.error);
    }
    var address := ReadStringSync(cursor);
    if address.Err? {
      return Err(address.error);
    }
    var portBytes := new byte[2];
    var ok := cursor.ReadExact(portBytes);
    if !ok {
      return Err(UnexpectedEof);
    }
    var next := ReadVarintSync(cursor);
    if next.Err? {
      return Err(next.error);
    }
    res := Ok(Handshake(version.value, UpToNul(address.value), next.value));
  }

  method ParseLoginStart(data: seq<byte>) returns (res: Result<seq<byte>>)
    ensures res == ParsedLoginStart(data)
  {
    var cursor := new Reader(data);
    res := ReadStringSync(cursor);
  }
}

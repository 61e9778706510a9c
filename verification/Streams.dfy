/** The bytes a peer has sent, and how far they have been read. */
module Streams {
  import opened Bytes

  class Reader {
    const input: seq<byte>
    var pos: nat

    ghost predicate Valid()
      reads this
    {
      pos <= |input|
    }

    /** What has not been read yet. */
    function Rest(): seq<byte>
      reads this
      requires Valid()
    {
      input[pos..]
    }

    constructor (input: seq<byte>)
      ensures Valid() && this.input == input && Rest() == input
    {
      this.input := input;
      pos := 0;
    }

    method ReadU8() returns (r: Result<byte>)
      requires Valid()
      modifies this
      ensures Valid()
      ensures r == if old(Rest()) == [] then Err(UnexpectedEof) else Ok(old(Rest())[0])
      ensures r.Ok? ==> Rest() == old(Rest())[1..]
    {
      if pos == |input| {
        return Err(UnexpectedEof);
      }
      r := Ok(input[pos]);
      pos := pos + 1;
    }

    /** Fills the whole buffer, or fails and leaves the end of the input. */
    method ReadExact(buf: array<byte>) returns (ok: bool)
      requires Valid()
      modifies this, buf
      ensures Valid()
      ensures ok <==> buf.Length <= |old(Rest())|
      ensures !ok ==> Rest() == []
      ensures ok ==> buf[..] == old(Rest())[..buf.Length] && Rest() == old(Rest())[buf.Length..]
    {
      if |input| - pos < buf.Length {
        pos := |input|;
        return false;
      }
      var start := pos;
      for i := 0 to buf.Length
        invariant pos == start
        invariant buf[..i] == input[start..start + i]
      {
        buf[i] := input[start + i];
      }
      assert buf[..] == buf[..buf.Length] == old(Rest())[..buf.Length];
      pos := start + buf.Length;
      assert Rest() == old(Rest())[buf.Length..];
      ok := true;
    }
  }
}

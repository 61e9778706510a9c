/** Bytes, 32-bit integers and the errors of the wire code. */
module Bytes {
  type byte = b: int | 0 <= b < 256

  const TWO_TO_THE_31 := 0x8000_0000
  const TWO_TO_THE_32 := 0x1_0000_0000

  type i32 = v: int | -TWO_TO_THE_31 <= v < TWO_TO_THE_31
  type u32 = v: int | 0 <= v < TWO_TO_THE_32

  /** Two's complement, as the `as` casts of the program do it. */
  function ToU32(v: i32): (u: u32)
    ensures ToI32(u) == v
  {
    if v < 0 then v + TWO_TO_THE_32 else v
  }

  function ToI32(u: u32): i32 {
    if u >= TWO_TO_THE_31 then u - TWO_TO_THE_32 else u
  }

  /** The cast is two's complement: the one value in range that is congruent modulo 2^32. */
  lemma CastIsTheCongruentValue(u: u32, v: i32)
    ensures (v - u) % 0x1_0000_0000 == 0 <==> v == ToI32(u)
    ensures (v - u) % 0x1_0000_0000 == 0 <==> u == ToU32(v)
  {
    if (v - u) % 0x1_0000_0000 == 0 {
      var k := (v - u) / 0x1_0000_0000;
      assert v - u == k * 0x1_0000_0000;
      assert k == 0 || k == -1;
    }
  }

  lemma ToI32Injective(u: u32, v: u32)
    requires ToI32(u) == ToI32(v)
    ensures u == v
  {
  }

  /** A length that is cast to i32 (and read back as u32) loses what exceeds 32 bits. */
  function LengthAsU32(n: nat): u32 {
    n % TWO_TO_THE_32
  }

  datatype Failure =
    | UnexpectedEof
    | VarIntTooLong
    | NegativeLength
    | LengthExceedsMax
    | InvalidUtf8
    | UnexpectedId
    | OutOfBounds
    | SlicePanic      // the program would panic on a slice out of range

  datatype Result<+T> = Ok(value: T) | Err(error: Failure)
}

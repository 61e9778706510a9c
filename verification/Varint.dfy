/**
  VarInt (src/protocol/varint.rs): base-128 groups, least significant first, the high bit of a
  byte telling that another one follows; at most five bytes, cut to 32 bits.  Compare LEB128 in
  section 7.6 of DWARF 5.
*/
module Varints {
  import opened Bytes
  import opened Streams

  // ----- The meaning -----

  predicate Continues(b: byte) {
    b >= 128
  }

  /** One whole encoding: continuation bytes, then one byte without the continuation bit. */
  predicate Terminated(t: seq<byte>) {
    t != [] && !Continues(t[|t| - 1]) && forall i :: 0 <= i < |t| - 1 ==> Continues(t[i])
  }

  /** The base-128 number the low seven bits spell, with unbounded precision. */
  function Base128(t: seq<byte>): nat {
    if t == [] then 0 else t[0] % 128 + 128 * Base128(t[1..])
  }

  function ValueOf(t: seq<byte>): i32 {
    ToI32(Base128(t) % TWO_TO_THE_32)
  }

  /** The number of continuation bytes at the front. */
  function Run(s: seq<byte>): (n: nat)
    ensures n <= |s|
  {
    if s == [] || !Continues(s[0]) then 0 else 1 + Run(s[1..])
  }

  /** How many bytes of s the VarInt at its front takes. */
  function Width(s: seq<byte>): (r: Result<nat>)
    ensures r.Ok? ==> 1 <= r.value <= 5 && r.value <= |s|
  {
    if Run(s) >= 5 then Err(VarIntTooLong)
    else if Run(s) == |s| then Err(UnexpectedEof)
    else Ok(Run(s) + 1)
  }

  function Varint(s: seq<byte>): Result<i32> {
    match Width(s)
    case Ok(n) => Ok(ValueOf(s[..n]))
    case Err(e) => Err(e)
  }

  /** The shortest encoding. */
  function Leb128(u: nat): (t: seq<byte>)
    ensures t != []
  {
    if u < 128 then [u] else [u % 128 + 128] + Leb128(u / 128)
  }

  function Encoded(v: i32): seq<byte> {
    Leb128(ToU32(v))
  }

  // ----- What the decoder accepts -----

  lemma {:induction false} RunContinues(s: seq<byte>)
    ensures forall i :: 0 <= i < Run(s) ==> Continues(s[i])
    ensures Run(s) < |s| ==> !Continues(s[Run(s)])
  {
    if s == [] || !Continues(s[0]) {
    } else {
      RunContinues(s[1..]);
    }
  }

  lemma RunIsUnique(s: seq<byte>, n: nat)
    requires n <= |s| && (n < |s| ==> !Continues(s[n])) && forall i :: 0 <= i < n ==> Continues(s[i])
    ensures Run(s) == n
  {
    RunContinues(s);
  }

  lemma WidthIsTerminated(s: seq<byte>)
    requires Width(s).Ok?
    ensures Terminated(s[..Width(s).value])
  {
    RunContinues(s);
  }

  /** A terminated string of at most five bytes at the front decides what is read. */
  lemma WidthOfTerminated(s: seq<byte>, n: nat)
    requires 1 <= n <= |s| && n <= 5 && Terminated(s[..n])
    ensures Width(s) == Ok(n)
  {
    var t := s[..n];
    assert forall i :: 0 <= i < n ==> s[i] == t[i];
    RunIsUnique(s, n - 1);
  }

  /**
    Exactly zero to four continuation bytes followed by a terminating one are accepted, and the
    value is the i32 that is congruent to the base-128 number modulo 2^32.
  */
  lemma AcceptsUpToFiveBytes(s: seq<byte>)
    ensures Varint(s).Ok? <==> exists n :: 1 <= n <= 5 && n <= |s| && Terminated(s[..n])
    ensures forall n :: 1 <= n <= 5 && n <= |s| && Terminated(s[..n]) ==>
                          Width(s) == Ok(n) && Varint(s) == Ok(ToI32(Base128(s[..n]) % TWO_TO_THE_32))
    ensures forall n :: 1 <= n <= 5 && n <= |s| && Terminated(s[..n]) ==>
                          Varint(s).Ok? && (Varint(s).value - Base128(s[..n])) % 0x1_0000_0000 == 0
  {
    hide Run, Width, Base128;
    if Width(s).Ok? {
      WidthIsTerminated(s);
    }
    forall n | 1 <= n <= 5 && n <= |s| && Terminated(s[..n])
      ensures Width(s) == Ok(n) && (ValueOf(s[..n]) - Base128(s[..n])) % 0x1_0000_0000 == 0
    {
      WidthOfTerminated(s, n);
      ValueIsCongruent(s[..n]);
    }
  }

  lemma ValueIsCongruent(t: seq<byte>)
    ensures (ValueOf(t) - Base128(t)) % 0x1_0000_0000 == 0
  {
    hide Base128;
    var n := Base128(t);
    CastIsTheCongruentValue(n % TWO_TO_THE_32, ToI32(n % TWO_TO_THE_32));
    var k := (ToI32(n % TWO_TO_THE_32) - n % TWO_TO_THE_32) / 0x1_0000_0000;
    assert ValueOf(t) - n == (k - n / 0x1_0000_0000) * 0x1_0000_0000;
  }

  /** The same byte by byte: seven bits each, the least significant first, and 128 for "more follows". */
  lemma VarintByDigits(s: seq<byte>)
    ensures |s| >= 1 && s[0] < 128 ==> Width(s) == Ok(1) && Varint(s).Ok? && Varint(s).value == s[0]
    ensures |s| >= 2 && s[0] >= 128 && s[1] < 128 ==>
              Width(s) == Ok(2) && Varint(s).Ok? && Varint(s).value == (s[0] - 128) as int + 128 * s[1] as int
    ensures |s| >= 3 && s[0] >= 128 && s[1] >= 128 && s[2] < 128 ==>
              && Width(s) == Ok(3) && Varint(s).Ok?
              && Varint(s).value == (s[0] - 128) as int + 128 * (s[1] - 128) as int + 16384 * s[2] as int
    ensures |s| >= 4 && s[0] >= 128 && s[1] >= 128 && s[2] >= 128 && s[3] < 128 ==>
              && Width(s) == Ok(4) && Varint(s).Ok?
              && Varint(s).value == (s[0] - 128) as int + 128 * (s[1] - 128) as int + 16384 * (s[2] - 128) as int
                                    + 2097152 * s[3] as int
    ensures |s| >= 5 && s[0] >= 128 && s[1] >= 128 && s[2] >= 128 && s[3] >= 128 && s[4] < 128 ==>
              && Width(s) == Ok(5) && Varint(s).Ok?
              && (Varint(s).value - ((s[0] - 128) as int + 128 * (s[1] - 128) as int + 16384 * (s[2] - 128) as int
                                     + 2097152 * (s[3] - 128) as int + 268435456 * s[4] as int)) % 0x1_0000_0000 == 0
  {
    hide Width, Varint, Horner, Run;
    RunContinues(s);
    WidthByRun(s);
    if Width(s).Ok? {
      var n := Width(s).value;
      DigitsSpell(s, n);
      UnrolledHorner(s, n);
    }
  }

  lemma UnrolledHorner(s: seq<byte>, n: nat)
    requires 1 <= n <= 5 && n <= |s| && s[n - 1] < 128 && forall i :: 0 <= i < n - 1 ==> s[i] >= 128
    ensures n == 1 ==> Horner(s, 0, n) == s[0]
    ensures n == 2 ==> Horner(s, 0, n) == (s[0] - 128) as int + 128 * s[1] as int
    ensures n == 3 ==> Horner(s, 0, n) == (s[0] - 128) as int + 128 * (s[1] - 128) as int + 16384 * s[2] as int
    ensures n == 4 ==> Horner(s, 0, n) == (s[0] - 128) as int + 128 * (s[1] - 128) as int
                                          + 16384 * (s[2] - 128) as int + 2097152 * s[3] as int
    ensures n == 5 ==> Horner(s, 0, n) == (s[0] - 128) as int + 128 * (s[1] - 128) as int
                                          + 16384 * (s[2] - 128) as int + 2097152 * (s[3] - 128) as int
                                          + 268435456 * s[4] as int
  {
    assert Horner(s, n, n) == 0;
    assert Horner(s, n - 1, n) == s[n - 1];
    assert n >= 2 ==> Horner(s, n - 2, n) == (s[n - 2] - 128) as int + 128 * Horner(s, n - 1, n);
    assert n >= 3 ==> Horner(s, n - 3, n) == (s[n - 3] - 128) as int + 128 * Horner(s, n - 2, n);
    assert n >= 4 ==> Horner(s, n - 4, n) == (s[n - 4] - 128) as int + 128 * Horner(s, n - 3, n);
    assert n >= 5 ==> Horner(s, n - 5, n) == (s[n - 5] - 128) as int + 128 * Horner(s, n - 4, n);
  }

  lemma WidthByRun(s: seq<byte>)
    ensures Run(s) < 5 && Run(s) < |s| <==> Width(s).Ok?
    ensures Width(s).Ok? ==> Width(s).value == Run(s) + 1
  {
  }

  /** The number that the first n bytes spell. */
  lemma DigitsSpell(s: seq<byte>, n: nat)
    requires Width(s) == Ok(n)
    ensures Varint(s).Ok? && (Varint(s).value - Horner(s, 0, n)) % 0x1_0000_0000 == 0
    ensures n <= 4 ==> Varint(s).value == Horner(s, 0, n)
  {
    hide Run, Width, Base128, Pow128;
    ValueIsCongruent(s[..n]);
    Base128Below(s[..n]);
    HornerIsBase128(s, 0, n);
    assert s[0..n] == s[..n];
    if n <= 4 {
      Pow128Monotonic(n, 4);
      assert |s[..n]| == n;
      SmallPowers();
    }
  }

  /** The number the low seven bits of s[i..n] spell. */
  function Horner(s: seq<byte>, i: nat, n: nat): nat
    requires i <= n <= |s|
    decreases n - i
  {
    if i == n then 0 else s[i] % 128 + 128 * Horner(s, i + 1, n)
  }

  lemma {:induction false} HornerIsBase128(s: seq<byte>, i: nat, n: nat)
    requires i <= n <= |s|
    ensures Horner(s, i, n) == Base128(s[i..n])
    decreases n - i
  {
    if i == n {
    } else {
      HornerIsBase128(s, i + 1, n);
      assert s[i..n][1..] == s[i + 1..n];
    }
  }

  /** Otherwise it fails: too long exactly when five continuation bytes come first. */
  lemma RejectsTooLong(s: seq<byte>)
    ensures Varint(s) == Err(VarIntTooLong) <==> |s| >= 5 && forall i :: 0 <= i < 5 ==> s[i] >= 128
    ensures Varint(s) == Err(UnexpectedEof) <==> |s| < 5 && forall i :: 0 <= i < |s| ==> s[i] >= 128
  {
    RunContinues(s);
  }

  /** Appending bytes does not change what has been read. */
  lemma WidthIgnoresSuffix(s: seq<byte>, suffix: seq<byte>)
    requires Width(s).Ok?
    ensures Width(s + suffix) == Width(s) && Varint(s + suffix) == Varint(s)
  {
    var n := Width(s).value;
    WidthIsTerminated(s);
    assert (s + suffix)[..n] == s[..n];
    WidthOfTerminated(s + suffix, n);
  }

  // ----- Numbers and digits -----

  function Pow128(n: nat): nat {
    if n == 0 then 1 else 128 * Pow128(n - 1)
  }

  lemma Base128Below(t: seq<byte>)
    ensures Base128(t) < Pow128(|t|)
  {
  }

  lemma SmallPowers()
    ensures Pow128(0) == 1 && Pow128(1) == 128 && Pow128(2) == 16384 && Pow128(3) == 2097152
    ensures Pow128(4) == 268435456 && Pow128(5) == 34359738368
  {
    assert Pow128(1) == 128;
    assert Pow128(2) == 16384;
    assert Pow128(3) == 2097152;
    assert Pow128(4) == 268435456;
  }

  lemma Pow128Monotonic(m: nat, n: nat)
    requires m <= n
    ensures Pow128(m) <= Pow128(n)
    decreases n - m
  {
    if m < n {
      Pow128Monotonic(m, n - 1);
    }
  }

  lemma {:induction false} Base128Snoc(t: seq<byte>, b: byte)
    ensures Base128(t + [b]) == Base128(t) + (b % 128) * Pow128(|t|)
  {
    if t == [] {
      assert t + [b] == [b];
      assert Base128([b][1..]) == 0;
    } else {
      assert (t + [b])[1..] == t[1..] + [b];
      Base128Snoc(t[1..], b);
    }
  }

  /** Two encodings of the same length spell the same number only if they are the same. */
  lemma {:induction false} DigitsAreUnique(s: seq<byte>, t: seq<byte>)
    requires |s| == |t| && Terminated(s) && Terminated(t) && Base128(s) == Base128(t)
    ensures s == t
  {
    assert s[0] % 128 == t[0] % 128 && Base128(s[1..]) == Base128(t[1..]);
    if |s| == 1 {
      assert s == [s[0]] && t == [t[0]];
    } else {
      assert Continues(s[0]) && Continues(t[0]);
      TerminatedTail(s);
      TerminatedTail(t);
      DigitsAreUnique(s[1..], t[1..]);
      assert s == [s[0]] + s[1..] && t == [t[0]] + t[1..];
    }
  }

  lemma TerminatedTail(t: seq<byte>)
    requires Terminated(t) && |t| > 1
    ensures Terminated(t[1..])
  {
    forall i | 0 <= i < |t[1..]| - 1
      ensures Continues(t[1..][i])
    {
      assert t[1..][i] == t[i + 1];
    }
  }

  lemma {:induction false} LebSpells(u: nat)
    ensures Terminated(Leb128(u)) && Base128(Leb128(u)) == u
  {
    if u < 128 {
      assert Leb128(u)[1..] == [];
    } else {
      var rest := Leb128(u / 128);
      LebSpells(u / 128);
      assert Leb128(u)[1..] == rest;
      var t := Leb128(u);
      forall i | 0 <= i < |t| - 1
        ensures Continues(t[i])
      {
        assert i > 0 ==> t[i] == rest[i - 1];
      }
      assert t[|t| - 1] == rest[|rest| - 1];
    }
  }

  /** No encoding has fewer bytes than Leb128. */
  lemma {:induction false} LebIsShort(u: nat, n: nat)
    requires n >= 1 && u < Pow128(n)
    ensures |Leb128(u)| <= n
  {
    if u < 128 {
    } else {
      if n == 1 {
        SmallPowers();
      } else {
        assert u / 128 < Pow128(n - 1);
        LebIsShort(u / 128, n - 1);
      }
    }
  }

  /** What is encoded is the value modulo 2^32, in groups of seven bits; only the last byte is below 128. */
  lemma EncodedSpells(v: i32)
    ensures Base128(Encoded(v)) == if v < 0 then v + 0x1_0000_0000 else v
    ensures Encoded(v)[|Encoded(v)| - 1] < 128
    ensures forall i :: 0 <= i < |Encoded(v)| - 1 ==> Encoded(v)[i] >= 128
  {
    hide Base128, Leb128;
    LebSpells(ToU32(v));
    CastIsTheCongruentValue(ToU32(v), v);
    assert ToU32(v) == if v < 0 then v + 0x1_0000_0000 else v;
  }

  lemma EncodedLength(v: i32)
    ensures 1 <= |Encoded(v)| <= 5
    ensures forall n :: 1 <= n <= 5 ==> (|Encoded(v)| <= n <==> ToU32(v) < Pow128(n))
  {
    SmallPowers();
    LebIsShort(ToU32(v), 5);
    LebSpells(ToU32(v));
    Base128Below(Encoded(v));
    forall n: nat | 1 <= n <= 5
      ensures |Encoded(v)| <= n <==> ToU32(v) < Pow128(n)
    {
      if ToU32(v) < Pow128(n) {
        LebIsShort(ToU32(v), n);
      }
      if |Encoded(v)| <= n {
        Pow128Monotonic(|Encoded(v)|, n);
      }
    }
  }

  // ----- Encoder and decoder together -----

  lemma ReadsWhatIsSpelt(t: seq<byte>, v: i32, suffix: seq<byte>)
    requires Terminated(t) && |t| <= 5 && Base128(t) == ToU32(v)
    ensures Width(t + suffix) == Ok(|t|) && Varint(t + suffix) == Ok(v)
  {
    assert (t + suffix)[..|t|] == t;
    WidthOfTerminated(t + suffix, |t|);
  }

  /** Decoding undoes encoding, for every i32 and whatever follows. */
  lemma RoundTrip(v: i32, suffix: seq<byte>)
    ensures Width(Encoded(v) + suffix) == Ok(|Encoded(v)|)
    ensures Varint(Encoded(v) + suffix) == Ok(v)
  {
    EncodedLength(v);
    LebSpells(ToU32(v));
    ReadsWhatIsSpelt(Encoded(v), v, suffix);
  }

  /** A proper part of an encoding is not an encoding: the reader asks for more. */
  lemma PartOfEncoding(v: i32, k: nat)
    requires k < |Encoded(v)|
    ensures Varint(Encoded(v)[..k]) == Err(UnexpectedEof)
  {
    EncodedLength(v);
    LebSpells(ToU32(v));
    RejectsTooLong(Encoded(v)[..k]);
  }

  /** No accepted encoding of a value is shorter, and up to four bytes none is different. */
  lemma EncoderIsShortest(s: seq<byte>)
    requires Varint(s).Ok?
    ensures |Encoded(Varint(s).value)| <= Width(s).value
    ensures |Encoded(Varint(s).value)| == Width(s).value <= 4 ==> s[..Width(s).value] == Encoded(Varint(s).value)
  {
    hide Run, Width, Leb128, Base128, Pow128;
    var n, v := Width(s).value, Varint(s).value;
    WidthIsTerminated(s);
    EncodedLength(v);
    if n <= 4 {
      SpeltByUpToFour(s[..n], v);
      if |Encoded(v)| == n {
        LebSpells(ToU32(v));
        DigitsAreUnique(s[..n], Encoded(v));
      }
    }
  }

  /** Up to four bytes nothing is cut. */
  lemma SpeltByUpToFour(t: seq<byte>, v: i32)
    requires 1 <= |t| <= 4 && ValueOf(t) == v
    ensures Base128(t) == ToU32(v) && |Encoded(v)| <= |t|
  {
    hide Leb128, Base128;
    Base128Below(t);
    Pow128Monotonic(|t|, 4);
    SmallPowers();
    ToI32Injective(Base128(t) % TWO_TO_THE_32, ToU32(v));
    EncodedLength(v);
  }

  /**
    Five bytes decode to v exactly when the first four spell its low 28 bits and the low four
    bits of the fifth are its top four: bits 4 to 6 of the fifth byte are dropped.
  */
  lemma FifthByteIsCut(t: seq<byte>, v: i32)
    requires |t| == 5 && Terminated(t)
    ensures Varint(t) == Ok(v) <==>
            Base128(t[..4]) == ToU32(v) % 0x1000_0000 && t[4] % 16 == ToU32(v) / 0x1000_0000
  {
    hide Run, Width, Base128, Pow128;
    assert t[..5] == t;
    WidthOfTerminated(t, 5);
    assert t == t[..4] + [t[4]];
    Base128Snoc(t[..4], t[4]);
    Base128Below(t[..4]);
    SmallPowers();
    var low, high, u := Base128(t[..4]), t[4], ToU32(v);
    assert Base128(t) % TWO_TO_THE_32 == low + (high % 16) * 0x1000_0000 by {
      assert high == high / 16 * 16 + high % 16;
      assert Base128(t) == low + (high % 16) * 0x1000_0000 + (high / 16) * TWO_TO_THE_32;
    }
    if Varint(t) == Ok(v) {
      ToI32Injective(Base128(t) % TWO_TO_THE_32, u);
    }
  }

  // ----- The code -----

  /** Bitwise or. */
  function BitOr(a: nat, b: nat): nat
    decreases a + b
  {
    if a == 0 && b == 0 then 0
    else (if a % 2 == 1 || b % 2 == 1 then 1 else 0) + 2 * BitOr(a / 2, b / 2)
  }

  function Pow2(n: nat): nat {
    if n == 0 then 1 else 2 * Pow2(n - 1)
  }

  /** `b << shift` on 32 bits. */
  function Shl(b: nat, shift: nat): u32 {
    b * Pow2(shift) % TWO_TO_THE_32
  }

  lemma {:induction false} OrWithZero(x: nat)
    ensures BitOr(0, x) == x
  {
    if x == 0 {
    } else {
      OrWithZero(x / 2);
    }
  }

  /** Or-ing in a number whose low k bits are 0, where the other has no more than those, is adding it. */
  lemma {:induction false} OrIsSum(r: nat, x: nat, k: nat)
    requires r < Pow2(k)
    ensures BitOr(r, x * Pow2(k)) == r + x * Pow2(k)
    decreases k
  {
    if k == 0 {
      OrWithZero(x);
    } else {
      var y := x * Pow2(k - 1);
      assert x * Pow2(k) == 2 * y by {
        assert Pow2(k) == 2 * Pow2(k - 1);
      }
      OrIsSum(r / 2, x, k - 1);
      if r > 0 || y > 0 {
        OrHalves(r, y);
      }
    }
  }

  lemma OrHalves(r: nat, y: nat)
    requires r > 0 || y > 0
    ensures BitOr(r, 2 * y) == r % 2 + 2 * BitOr(r / 2, y)
  {
    assert 2 * y / 2 == y && 2 * y % 2 == 0;
  }

  lemma {:induction false} Pow2Of7(k: nat)
    ensures Pow2(7 * k) == Pow128(k)
  {
    if k == 0 {
    } else {
      var n := 7 * (k - 1);
      Pow2Of7(k - 1);
      assert Pow2(n + 1) == 2 * Pow2(n);
      assert Pow2(n + 2) == 4 * Pow2(n);
      assert Pow2(n + 3) == 8 * Pow2(n);
      assert Pow2(n + 4) == 16 * Pow2(n);
      assert Pow2(n + 5) == 32 * Pow2(n);
      assert Pow2(n + 6) == 64 * Pow2(n);
      assert Pow2(n + 7) == 128 * Pow2(n);
    }
  }

  /** What `result |= (byte & 0x7f) << shift` leaves in `result`, on 32 bits. */
  function Or(result: u32, b: byte, shift: nat): nat {
    BitOr(result, Shl(b % 128, shift))
  }

  /** Up to the fourth byte nothing is shifted out. */
  lemma OrAddsGroup(r: u32, b: byte, k: nat)
    requires k <= 3 && r < Pow128(k)
    ensures Or(r, b, 7 * k) == r + b % 128 * Pow128(k) < TWO_TO_THE_32
  {
    hide BitOr, Pow2, Pow128;
    Pow2Of7(k);
    GroupFits(b % 128, k);
    OrIsSum(r, b % 128, 7 * k);
  }

  lemma GroupFits(x: nat, k: nat)
    requires x < 128 && k <= 3
    ensures x * Pow128(k) + Pow128(k) <= Pow128(4) == 0x1000_0000
  {
    hide Pow128;
    SmallPowers();
    assert k == 0 || k == 1 || k == 2 || k == 3;
  }

  /** Of the fifth byte only the low four bits stay. */
  lemma OrAddsLastGroup(r: u32, b: byte)
    requires r < 0x1000_0000
    ensures Or(r, b, 28) == r + b % 16 * 0x1000_0000 == (r + b % 128 * 0x1000_0000) % TWO_TO_THE_32
  {
    hide BitOr, Pow2, Pow128;
    Pow2Of7(4);
    SmallPowers();
    var high := (b % 128) / 16;
    assert b % 128 == high * 16 + b % 16;
    assert b % 128 * 0x1000_0000 == high * TWO_TO_THE_32 + b % 16 * 0x1000_0000;
    OrIsSum(r, b % 16, 28);
  }

  /** The accumulator spells the bytes read so far; nothing is cut before the fifth. */
  lemma Accumulates(t: seq<byte>, b: byte)
    requires |t| <= 4 && Base128(t) < TWO_TO_THE_32
    ensures Or(Base128(t), b, 7 * |t|) == Base128(t + [b]) % TWO_TO_THE_32
    ensures |t| <= 3 ==> Base128(t + [b]) < TWO_TO_THE_32
  {
    hide Base128, Pow128, Or;
    Base128Snoc(t, b);
    Base128Below(t);
    SmallPowers();
    if |t| <= 3 {
      OrAddsGroup(Base128(t), b, |t|);
    } else {
      OrAddsLastGroup(Base128(t), b);
    }
  }

  /** The asynchronous reader, one byte at a time. */
  method ReadVarint(r: Reader) returns (res: Result<i32>)
    requires r.Valid()
    modifies r
    ensures r.Valid()
    ensures res == Varint(old(r.Rest()))
    ensures res.Ok? ==> r.Rest() == old(r.Rest())[Width(old(r.Rest())).value..]
  {
    hide Or, Leb128, Pow128;
    ghost var s := r.Rest();
    var result: u32, shift := 0, 0;
    ghost var k := 0;
    while true
      invariant r.Valid() && shift == 7 * k && 0 <= k < 5 && k <= |s|
      invariant r.Rest() == s[k..]
      invariant forall i :: 0 <= i < k ==> Continues(s[i])
      invariant result == Base128(s[..k])
      decreases 5 - k
    {
      var next := r.ReadU8();
      if next.Err? {
        RejectsTooLong(s);
        return Err(next.error);
      }
      var b := next.value;
      assert s[..k + 1] == s[..k] + [b];
      Accumulates(s[..k], b);
      result := Or(result, b, shift);
      if b < 128 {
        WidthOfTerminated(s, k + 1);
        return Ok(ToI32(result));
      }
      shift := shift + 7;
      if shift >= 35 {
        RejectsTooLong(s);
        return Err(VarIntTooLong);
      }
      k := k + 1;
    }
  }

  /** The synchronous reader, through a buffer of one byte. */
  method ReadVarintSync(cursor: Reader) returns (res: Result<i32>)
    requires cursor.Valid()
    modifies cursor
    ensures cursor.Valid()
    ensures res == Varint(old(cursor.Rest()))
    ensures res.Ok? ==> cursor.Rest() == old(cursor.Rest())[Width(old(cursor.Rest())).value..]
  {
    hide Or, Leb128, Pow128;
    ghost var s := cursor.Rest();
    var result: u32, shift := 0, 0;
    ghost var k := 0;
    while true
      invariant cursor.Valid() && shift == 7 * k && 0 <= k < 5 && k <= |s|
      invariant cursor.Rest() == s[k..]
      invariant forall i :: 0 <= i < k ==> Continues(s[i])
      invariant result == Base128(s[..k])
      decreases 5 - k
    {
      var buf := new byte[1];
      var ok := cursor.ReadExact(buf);
      if !ok {
        RejectsTooLong(s);
        return Err(UnexpectedEof);
      }
      assert buf[0] == buf[..][0] == s[k];
      assert s[..k + 1] == s[..k] + [buf[0]];
      Accumulates(s[..k], buf[0]);
      result := Or(result, buf[0], shift);
      if buf[0] < 128 {
        WidthOfTerminated(s, k + 1);
        return Ok(ToI32(result));
      }
      shift := shift + 7;
      if shift >= 35 {
        RejectsTooLong(s);
        return Err(VarIntTooLong);
      }
      k := k + 1;
    }
  }

  lemma OrHighBit(b: nat)
    requires b < 128
    ensures BitOr(b, 0x80) == b + 128
  {
    Pow2Of7(1);
    SmallPowers();
    OrIsSum(b, 1, 7);
  }

  method EncodeVarint(value: i32) returns (buf: seq<byte>)
    ensures buf == Encoded(value)
  {
    buf := [];
    var rest: nat := ToU32(value);
    while true
      invariant buf + Leb128(rest) == Encoded(value)
      decreases rest
    {
      var b := rest % 128;
      var more := rest / 128 != 0;
      rest := rest / 128;
      if more {
        OrHighBit(b);
        b := BitOr(b, 0x80);
      }
      buf := buf + [b];
      if !more {
        break;
      }
    }
  }
}

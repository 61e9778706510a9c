/**
  Well-formed UTF-8.  The scanner decides byte by byte, as a library does; `Character` is the
  grammar of section 4 of RFC 3629, and the two are proved to agree.
*/
module Utf8 {
  import opened Bytes
  import opened Options

  /** How many bytes of the present character are missing, and the range of the next one. */
  datatype Expect = Expect(more: nat, low: byte, high: byte)

  const BOUNDARY := Expect(0, 0x80, 0xBF)

  function Lead(b: byte): Option<Expect> {
    if b <= 0x7F then Some(BOUNDARY)
    else if 0xC2 <= b <= 0xDF then Some(Expect(1, 0x80, 0xBF))
    else if b == 0xE0 then Some(Expect(2, 0xA0, 0xBF))
    else if b == 0xED then Some(Expect(2, 0x80, 0x9F))
    else if 0xE1 <= b <= 0xEF then Some(Expect(2, 0x80, 0xBF))
    else if b == 0xF0 then Some(Expect(3, 0x90, 0xBF))
    else if 0xF1 <= b <= 0xF3 then Some(Expect(3, 0x80, 0xBF))
    else if b == 0xF4 then Some(Expect(3, 0x80, 0x8F))
    else None
  }

  function After(e: Expect, b: byte): Option<Expect> {
    if e.more == 0 then Lead(b)
    else if e.low <= b <= e.high then Some(Expect(e.more - 1, 0x80, 0xBF))
    else None
  }

  predicate Scan(s: seq<byte>, e: Expect) {
    if s == [] then e.more == 0 else After(e, s[0]).Some? && Scan(s[1..], After(e, s[0]).value)
  }

  predicate ValidUtf8(s: seq<byte>) {
    Scan(s, BOUNDARY)
  }

  // ----- The grammar -----

  predicate Tail(b: byte) {
    0x80 <= b <= 0xBF
  }

  predicate Character(c: seq<byte>) {
    || (|c| == 1 && c[0] <= 0x7F)
    || (|c| == 2 && 0xC2 <= c[0] <= 0xDF && Tail(c[1]))
    || (|c| == 3 && Tail(c[2]) &&
          ((c[0] == 0xE0 && 0xA0 <= c[1] <= 0xBF) || (0xE1 <= c[0] <= 0xEC && Tail(c[1])) ||
           (c[0] == 0xED && 0x80 <= c[1] <= 0x9F) || (0xEE <= c[0] <= 0xEF && Tail(c[1]))))
    || (|c| == 4 && Tail(c[2]) && Tail(c[3]) &&
          ((c[0] == 0xF0 && 0x90 <= c[1] <= 0xBF) || (0xF1 <= c[0] <= 0xF3 && Tail(c[1])) ||
           (c[0] == 0xF4 && 0x80 <= c[1] <= 0x8F)))
  }

  /** A text is well-formed if and only if it is empty or a character followed by a well-formed text. */
  lemma GrammarOfText(s: seq<byte>)
    ensures ValidUtf8(s) <==>
            s == [] || exists n :: 1 <= n <= 4 && n <= |s| && Character(s[..n]) && ValidUtf8(s[n..])
  {
    if s != [] {
      forall n | 1 <= n <= 4 && n <= |s| && Character(s[..n])
        ensures ValidUtf8(s) <==> ValidUtf8(s[n..])
      {
        CharacterIsSkipped(s, n);
      }
      if ValidUtf8(s) {
        FirstCharacter(s);
      }
    }
  }

  lemma CharacterIsSkipped(s: seq<byte>, n: nat)
    requires 1 <= n <= 4 && n <= |s| && Character(s[..n])
    ensures ValidUtf8(s) <==> ValidUtf8(s[n..])
  {
    if n >= 2 {
      TailsAreSkipped(s[1..], Lead(s[0]).value);
      assert s[1..][n - 1..] == s[n..];
    }
  }

  /** The scanner goes through the expected bytes of a character. */
  lemma {:induction false} TailsAreSkipped(s: seq<byte>, e: Expect)
    requires 0 < e.more <= |s| && e.low <= s[0] <= e.high && forall i :: 1 <= i < e.more ==> Tail(s[i])
    ensures Scan(s, e) <==> ValidUtf8(s[e.more..])
    decreases e.more
  {
    if e.more <= 1 {
    } else {
      TailsAreSkipped(s[1..], Expect(e.more - 1, 0x80, 0xBF));
      assert s[1..][e.more - 1..] == s[e.more..];
    }
  }

  lemma {:induction false} ScanNeedsTails(s: seq<byte>, e: Expect)
    requires Scan(s, e) && 0 < e.more
    ensures e.more <= |s| && e.low <= s[0] <= e.high && forall i :: 1 <= i < e.more ==> Tail(s[i])
    decreases e.more
  {
    if e.more <= 1 {
    } else {
      ScanNeedsTails(s[1..], Expect(e.more - 1, 0x80, 0xBF));
      forall i | 1 <= i < e.more
        ensures Tail(s[i])
      {
        assert s[i] == s[1..][i - 1];
      }
    }
  }

  lemma FirstCharacter(s: seq<byte>)
    requires s != [] && ValidUtf8(s)
    ensures exists n :: 1 <= n <= 4 && n <= |s| && Character(s[..n]) && ValidUtf8(s[n..])
  {
    var e := Lead(s[0]).value;
    if e.more > 0 {
      ScanNeedsTails(s[1..], e);
    }
    var n := e.more + 1;
    assert Character(s[..n]);
    CharacterIsSkipped(s, n);
  }

  // ----- Code points -----

  /** A Unicode scalar value: a code point that is no surrogate. */
  predicate Scalar(c: int) {
    0 <= c <= 0x10FFFF && !(0xD800 <= c <= 0xDFFF)
  }

  /** The table of section 3 of RFC 3629, each code point in the first row it fits. */
  function Utf8Of(c: int): seq<byte>
    requires Scalar(c)
  {
    if c <= 0x7F then [c]
    else if c <= 0x7FF then [0xC0 + c / 64, 0x80 + c % 64]
    else if c <= 0xFFFF then [0xE0 + c / 4096, 0x80 + c / 64 % 64, 0x80 + c % 64]
    else [0xF0 + c / 262144, 0x80 + c / 4096 % 64, 0x80 + c / 64 % 64, 0x80 + c % 64]
  }


  lemma OneOrTwoBytes(t: seq<byte>) returns (c: int)
    requires |t| <= 2 && Character(t)
    ensures Scalar(c) && Utf8Of(c) == t
  {
    c := if |t| == 1 then t[0] else 64 * (t[0] - 0xC0) as int + (t[1] - 0x80) as int;
  }

  lemma ThreeBytes(t: seq<byte>) returns (c: int)
    requires |t| == 3 && Character(t)
    ensures Scalar(c) && Utf8Of(c) == t
  {
    var x, y, z := (t[0] - 0xE0) as int, (t[1] - 0x80) as int, (t[2] - 0x80) as int;
    var c1 := 64 * x + y;
    c := 64 * c1 + z;
    assert c1 / 64 == x && c1 % 64 == y && c / 64 == c1 && c % 64 == z && c / 4096 == x;
    assert 0x800 <= c <= 0xFFFF && Scalar(c);
  }

  lemma FourBytes(t: seq<byte>) returns (c: int)
    requires |t| == 4 && Character(t)
    ensures Scalar(c) && Utf8Of(c) == t
  {
    hide Utf8Of;
    var x, y, z, v := (t[0] - 0xF0) as int, (t[1] - 0x80) as int, (t[2] - 0x80) as int, (t[3] - 0x80) as int;
    c := 262144 * x + 4096 * y + 64 * z + v;
    assert 0x10000 <= c <= 0x10FFFF;
    SplitFour(x, y, z, v);
    FourthRow(c);
  }

  lemma SplitFour(x: nat, y: nat, z: nat, v: nat)
    requires y < 64 && z < 64 && v < 64
    ensures var c := 262144 * x + 4096 * y + 64 * z + v;
            c / 262144 == x && c / 4096 % 64 == y && c / 64 % 64 == z && c % 64 == v
  {
    var c := 262144 * x + 4096 * y + 64 * z + v;
    assert c / 4096 == 64 * x + y;
    assert c / 64 == 64 * (64 * x + y) + z;
  }

  lemma FourthRow(c: int)
    requires 0x10000 <= c <= 0x10FFFF
    ensures Scalar(c) && Utf8Of(c) == [0xF0 + c / 262144, 0x80 + c / 4096 % 64, 0x80 + c / 64 % 64, 0x80 + c % 64]
    ensures var x, y := c / 262144, c / 4096 % 64;
            && 0 <= x <= 4 && (x == 0 ==> y >= 0x10) && (x == 4 ==> y <= 0x0F)
  {
    var x, y := c / 262144, c / 4096 % 64;
    assert c / 4096 == 64 * x + y;
  }

  lemma ScalarIsCharacter(c: int)
    requires Scalar(c)
    ensures Character(Utf8Of(c))
  {
    if c <= 0x7FF {
      ShortCharacter(c);
    } else if c <= 0xFFFF {
      ThirdRow(c);
      ThirdRowCharacter(c / 4096, c / 64 % 64, c % 64);
    } else {
      FourthRow(c);
      FourthRowCharacter(c / 262144, c / 4096 % 64, c / 64 % 64, c % 64);
    }
  }

  lemma ShortCharacter(c: int)
    requires 0 <= c <= 0x7FF
    ensures Scalar(c) && Character(Utf8Of(c))
  {
  }

  lemma ThirdRow(c: int)
    requires Scalar(c) && 0x800 <= c <= 0xFFFF
    ensures Utf8Of(c) == [0xE0 + c / 4096, 0x80 + c / 64 % 64, 0x80 + c % 64]
    ensures var x, y := c / 4096, c / 64 % 64;
            && 0 <= x <= 15 && (x == 0 ==> y >= 0x20) && (x == 13 ==> y <= 0x1F)
  {
    var x, y := c / 4096, c / 64 % 64;
    assert c / 64 == 64 * x + y;
  }

  lemma ThirdRowCharacter(x: nat, y: nat, z: nat)
    requires x <= 15 && y < 64 && z < 64 && (x == 0 ==> y >= 0x20) && (x == 13 ==> y <= 0x1F)
    ensures Character([0xE0 + x, 0x80 + y, 0x80 + z])
  {
  }

  lemma FourthRowCharacter(x: nat, y: nat, z: nat, v: nat)
    requires x <= 4 && y < 64 && z < 64 && v < 64 && (x == 0 ==> y >= 0x10) && (x == 4 ==> y <= 0x0F)
    ensures Character([0xF0 + x, 0x80 + y, 0x80 + z, 0x80 + v])
  {
  }

  /** The code point that a character stands for. */
  lemma CharacterIsScalar(t: seq<byte>) returns (c: int)
    requires Character(t)
    ensures Scalar(c) && Utf8Of(c) == t
  {
    hide Utf8Of;
    if |t| <= 2 {
      c := OneOrTwoBytes(t);
    } else if |t| == 3 {
      c := ThreeBytes(t);
    } else {
      c := FourBytes(t);
    }
  }

  /** Exactly the encodings of sequences of scalar values are well-formed. */
  lemma {:induction false} WellFormedIsEncoded(s: seq<byte>)
    ensures ValidUtf8(s) <==> exists cs: seq<int> :: AllScalars(cs) && TextOf(cs) == s
    decreases |s|
  {
    if ValidUtf8(s) {
      var cs := Decoded(s);
    }
    if cs: seq<int> :| AllScalars(cs) && TextOf(cs) == s {
      EncodedIsWellFormed(cs);
    }
  }

  predicate AllScalars(cs: seq<int>) {
    forall i :: 0 <= i < |cs| ==> Scalar(cs[i])
  }

  function TextOf(cs: seq<int>): seq<byte>
    requires AllScalars(cs)
  {
    if cs == [] then [] else Utf8Of(cs[0]) + TextOf(cs[1..])
  }

  lemma {:induction false} EncodedIsWellFormed(cs: seq<int>)
    requires AllScalars(cs)
    ensures ValidUtf8(TextOf(cs))
  {
    hide Scan, Character, Scalar, Utf8Of;
    if cs == [] {
      GrammarOfText([]);
    } else {
      EncodedIsWellFormed(cs[1..]);
      ScalarIsCharacter(cs[0]);
      LongestCharacter(Utf8Of(cs[0]));
      var s, n := TextOf(cs), |Utf8Of(cs[0])|;
      assert s[..n] == Utf8Of(cs[0]) && s[n..] == TextOf(cs[1..]);
      GrammarOfText(s);
    }
  }

  lemma LongestCharacter(t: seq<byte>)
    requires Character(t)
    ensures 1 <= |t| <= 4
  {
  }

  lemma {:induction false} Decoded(s: seq<byte>) returns (cs: seq<int>)
    requires ValidUtf8(s)
    ensures AllScalars(cs) && TextOf(cs) == s
    decreases |s|
  {
    hide Scan, Character, Scalar, Utf8Of;
    GrammarOfText(s);
    if s == [] {
      cs := [];
    } else {
      var n :| 1 <= n <= 4 && n <= |s| && Character(s[..n]) && ValidUtf8(s[n..]);
      var c := CharacterIsScalar(s[..n]);
      var rest := Decoded(s[n..]);
      cs := [c] + rest;
      assert cs[1..] == rest;
    }
  }

  // ----- The split at NUL -----

  /** What precedes the first NUL byte: the first piece of a split at NUL. */
  function UpToNul(s: seq<byte>): seq<byte> {
    if s == [] || s[0] == 0 then [] else [s[0]] + UpToNul(s[1..])
  }

  lemma {:induction false} UpToNulIsPrefix(s: seq<byte>)
    ensures UpToNul(s) <= s && 0 !in UpToNul(s)
    ensures |UpToNul(s)| < |s| ==> s[|UpToNul(s)|] == 0
  {
    if s == [] || s[0] == 0 {
    } else {
      UpToNulIsPrefix(s[1..]);
    }
  }

  /** No byte of a longer character is NUL, so the split does not cut a character in two. */
  lemma {:induction false} NulCutsBetweenCharacters(s: seq<byte>, e: Expect)
    requires Scan(s, e) && (e.more > 0 ==> e.low > 0)
    ensures Scan(UpToNul(s), e)
  {
    if s == [] || s[0] == 0 {
    } else {
      NulCutsBetweenCharacters(s[1..], After(e, s[0]).value);
      assert UpToNul(s)[1..] == UpToNul(s[1..]);
    }
  }
}

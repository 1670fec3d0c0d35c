/** Well-formed UTF-8, by the grammar of section 4 of RFC 3629. */
module Utf8 {
  import opened Common

  predicate Tail(b: byte) {
    0x80 <= b <= 0xBF
  }

  /** The length of the first character, or 0 if none is well-formed there. */
  function CharLength(s: seq<byte>): (n: nat)
    ensures n <= |s|
    ensures forall i | 1 <= i < n :: Tail(s[i])
    ensures n > 0 ==> !Tail(s[0])
  {
    if s == [] then 0
    else if s[0] <= 0x7F then 1
    else if 0xC2 <= s[0] <= 0xDF && |s| >= 2 && Tail(s[1]) then 2
    else if 0xE0 <= s[0] <= 0xEF && |s| >= 3 && Tail(s[1]) && Tail(s[2])
            && (s[0] == 0xE0 ==> s[1] >= 0xA0) && (s[0] == 0xED ==> s[1] <= 0x9F) then 3
    else if 0xF0 <= s[0] <= 0xF4 && |s| >= 4 && Tail(s[1]) && Tail(s[2]) && Tail(s[3])
            && (s[0] == 0xF0 ==> s[1] >= 0x90) && (s[0] == 0xF4 ==> s[1] <= 0x8F) then 4
    else 0
  }

  predicate Valid(s: seq<byte>)
    decreases |s|
  {
    s == [] || (CharLength(s) > 0 && Valid(s[CharLength(s)..]))
  }

  /** A character reads the same whatever follows it. */
  lemma CharLengthPrefix(a: seq<byte>, b: seq<byte>)
    requires CharLength(a) > 0 || (CharLength(a + b) <= |a| && a != [])
    ensures CharLength(a + b) == CharLength(a)
  {
    var s := a + b;
    assert forall i | 0 <= i < |a| :: s[i] == a[i];
  }

  lemma {:induction false} ValidConcat(a: seq<byte>, b: seq<byte>)
    requires Valid(a)
    ensures Valid(a + b) <==> Valid(b)
    decreases |a|
  {
    if a == [] {
      assert a + b == b;
    } else {
      var n := CharLength(a);
      CharLengthPrefix(a, b);
      assert (a + b)[n..] == a[n..] + b;
      ValidConcat(a[n..], b);
    }
  }

  /** No character reaches over the start of another. */
  lemma {:induction false} ValidPrefix(a: seq<byte>, b: seq<byte>)
    requires Valid(a + b) && (b == [] || !Tail(b[0]))
    ensures Valid(a)
    decreases |a|
  {
    if a != [] && b != [] {
      var n := CharLength(a + b);
      assert (a + b)[|a|] == b[0];
      CharLengthPrefix(a, b);
      assert (a + b)[n..] == a[n..] + b;
      ValidPrefix(a[n..], b);
    } else {
      assert b == [] ==> a + b == a;
    }
  }

  /** Text put behind text is well-formed exactly if both are. */
  lemma ValidSplit(a: seq<byte>, b: seq<byte>)
    requires b == [] || !Tail(b[0])
    ensures Valid(a + b) <==> Valid(a) && Valid(b)
  {
    if Valid(a + b) {
      ValidPrefix(a, b);
    }
    if Valid(a) {
      ValidConcat(a, b);
    }
  }

  /** Well-formed text starts with the start of a character. */
  lemma StartsWithCharacter(s: seq<byte>)
    requires Valid(s) && s != []
    ensures !Tail(s[0])
  {
  }

  /** A split at a line feed. */
  lemma ValidAtAscii(a: seq<byte>, c: byte, b: seq<byte>)
    requires c <= 0x7F
    ensures Valid(a + [c] + b) <==> Valid(a) && Valid(b)
  {
    ValidSplit(a, [c] + b);
    assert a + [c] + b == a + ([c] + b);
    assert CharLength([c] + b) == 1 && ([c] + b)[1..] == b;
  }

  // ---- The characters themselves ----

  /** A Unicode scalar value: any code point but the surrogates. */
  predicate Scalar(c: int) {
    0 <= c <= 0xD7FF || 0xE000 <= c <= 0x10FFFF
  }

  /** The encoding of a scalar value, by the table in section 3 of RFC 3629. */
  function EncodeScalar(c: int): seq<byte>
    requires Scalar(c)
  {
    if c < 0x80 then [c as byte]
    else if c < 0x800 then [(0xC0 + c / 64) as byte, (0x80 + c % 64) as byte]
    else if c < 0x1_0000 then [(0xE0 + c / 4096) as byte, (0x80 + c / 64 % 64) as byte, (0x80 + c % 64) as byte]
    else [(0xF0 + c / 262144) as byte, (0x80 + c / 4096 % 64) as byte, (0x80 + c / 64 % 64) as byte, (0x80 + c % 64) as byte]
  }

  /** Every scalar value's encoding is read as one character, whatever follows. */
  lemma ScalarIsCharacter(c: int, rest: seq<byte>)
    requires Scalar(c)
    ensures CharLength(EncodeScalar(c) + rest) == |EncodeScalar(c)|
  {
  }

  lemma Digits(a: int, b: int)
    requires 0 <= b < 64
    ensures (a * 64 + b) / 64 == a && (a * 64 + b) % 64 == b
  {
  }

  lemma TwoBytes(a: byte, b: byte) returns (c: int)
    requires 0xC2 <= a <= 0xDF && Tail(b)
    ensures Scalar(c) && EncodeScalar(c) == [a, b]
  {
    c := (a as int - 0xC0) * 64 + (b as int - 0x80);
    Digits(a as int - 0xC0, b as int - 0x80);
  }

  lemma ThreeBytes(a: byte, b: byte, d: byte) returns (c: int)
    requires 0xE0 <= a <= 0xEF && Tail(b) && Tail(d) && (a == 0xE0 ==> b >= 0xA0) && (a == 0xED ==> b <= 0x9F)
    ensures Scalar(c) && EncodeScalar(c) == [a, b, d]
  {
    var high := (a as int - 0xE0) * 64 + (b as int - 0x80);
    c := high * 64 + (d as int - 0x80);
    Digits(a as int - 0xE0, b as int - 0x80);
    Digits(high, d as int - 0x80);
    assert c / 4096 == c / 64 / 64;
  }

  lemma FourBytes(a: byte, b: byte, d: byte, e: byte) returns (c: int)
    requires 0xF0 <= a <= 0xF4 && Tail(b) && Tail(d) && Tail(e) && (a == 0xF0 ==> b >= 0x90) && (a == 0xF4 ==> b <= 0x8F)
    ensures Scalar(c) && EncodeScalar(c) == [a, b, d, e]
  {
    var top := (a as int - 0xF0) * 64 + (b as int - 0x80);
    var high := top * 64 + (d as int - 0x80);
    c := high * 64 + (e as int - 0x80);
    Digits(a as int - 0xF0, b as int - 0x80);
    Digits(top, d as int - 0x80);
    Digits(high, e as int - 0x80);
    assert c / 4096 == c / 64 / 64 && c / 262144 == c / 4096 / 64;
  }

  /** And every character that is read is the encoding of a scalar value. */
  lemma CharacterIsScalar(s: seq<byte>) returns (c: int)
    requires CharLength(s) > 0
    ensures Scalar(c) && s[..CharLength(s)] == EncodeScalar(c)
  {
    var n := CharLength(s);
    if n == 1 {
      c := s[0] as int;
    } else if n == 2 {
      c := TwoBytes(s[0], s[1]);
    } else if n == 3 {
      c := ThreeBytes(s[0], s[1], s[2]);
    } else {
      c := FourBytes(s[0], s[1], s[2], s[3]);
    }
  }

  function EncodeText(cs: seq<int>): seq<byte>
    requires forall c | c in cs :: Scalar(c)
  {
    if cs == [] then [] else EncodeScalar(cs[0]) + EncodeText(cs[1..])
  }

  /** Encoded text is well-formed, */
  lemma {:induction false} TextIsValid(cs: seq<int>)
    requires forall c | c in cs :: Scalar(c)
    ensures Valid(EncodeText(cs))
  {
    if cs != [] {
      var rest := EncodeText(cs[1..]);
      TextIsValid(cs[1..]);
      ScalarIsCharacter(cs[0], rest);
      assert EncodeText(cs)[|EncodeScalar(cs[0])|..] == rest;
    }
  }

  /** and nothing else is. */
  lemma {:induction false} ValidIsText(s: seq<byte>) returns (cs: seq<int>)
    requires Valid(s)
    ensures (forall c | c in cs :: Scalar(c)) && EncodeText(cs) == s
    decreases |s|
  {
    if s == [] {
      cs := [];
    } else {
      var n := CharLength(s);
      var c := CharacterIsScalar(s);
      var rest := ValidIsText(s[n..]);
      cs := [c] + rest;
      assert cs[1..] == rest && s == s[..n] + s[n..];
    }
  }
}

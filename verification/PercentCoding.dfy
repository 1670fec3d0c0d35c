/** `percent_encode` of coordinator/src/storage.rs and the query string it protects, with the decoder of
    sections 2.1 and 2.3 of RFC 3986. */
module PercentCoding {
  import opened Common
  import opened Strings

  const HEX := "0123456789ABCDEF"

  /** Section 2.3 of RFC 3986. */
  predicate Unreserved(c: char) {
    'A' <= c <= 'Z' || 'a' <= c <= 'z' || '0' <= c <= '9' || c in "-_.~"
  }

  function EncodeByte(b: byte): string {
    if Unreserved(b as char) then [b as char] else ['%', HEX[b / 16], HEX[b % 16]]
  }

  function Encode(s: seq<byte>): string {
    if s == [] then "" else EncodeByte(s[0]) + Encode(s[1..])
  }

  lemma EncodeAt(out: string, s: seq<byte>, i: nat)
    requires i < |s|
    ensures out + Encode(s[i..]) == out + EncodeByte(s[i]) + Encode(s[i + 1..])
  {
    assert s[i..][1..] == s[i + 1..];
  }

  method PercentEncode(s: seq<byte>) returns (out: string)
    ensures out == Encode(s)
  {
    out := "";
    for i := 0 to |s|
      invariant out + Encode(s[i..]) == Encode(s)
    {
      EncodeAt(out, s, i);
      if Unreserved(s[i] as char) {
        out := out + [s[i] as char];
      } else {
        out := out + ['%', HEX[s[i] / 16], HEX[s[i] % 16]];
      }
    }
  }

  /** Section 2.1 of RFC 3986: either case of a hexadecimal digit is read. */
  function HexValue(c: char): Option<byte> {
    if '0' <= c <= '9' then Some((c as int - '0' as int) as byte)
    else if 'A' <= c <= 'F' then Some((c as int - 'A' as int + 10) as byte)
    else if 'a' <= c <= 'f' then Some((c as int - 'a' as int + 10) as byte)
    else None
  }

  /** The first encoded byte and what follows it. */
  function DecodeByte(t: string): Option<(byte, string)>
    requires t != ""
  {
    if t[0] != '%' then
      if Unreserved(t[0]) then Some((t[0] as byte, t[1..])) else None
    else if |t| < 3 || HexValue(t[1]).None? || HexValue(t[2]).None? then None
    else Some((HexValue(t[1]).value * 16 + HexValue(t[2]).value, t[3..]))
  }

  function Decode(t: string): Option<seq<byte>>
    decreases |t|
  {
    if t == "" then Some([])
    else
      match DecodeByte(t)
      case None => None
      case Some((b, rest)) =>
        match Decode(rest)
        case None => None
        case Some(s) => Some([b] + s)
  }

  lemma HexDigits(n: byte)
    requires n < 16
    ensures HexValue(HEX[n]) == Some(n)
    ensures Unreserved(HEX[n])
  {
  }

  lemma DecodeEncodeByte(b: byte, rest: string)
    ensures DecodeByte(EncodeByte(b) + rest) == Some((b, rest))
  {
    if !Unreserved(b as char) {
      HexDigits(b / 16);
      HexDigits(b % 16);
      assert (EncodeByte(b) + rest)[3..] == rest;
    }
  }

  /** The decoder undoes the encoder on every byte string. */
  lemma {:induction false} DecodeEncode(s: seq<byte>)
    ensures Decode(Encode(s)) == Some(s)
  {
    if s != [] {
      DecodeEncodeByte(s[0], Encode(s[1..]));
      DecodeEncode(s[1..]);
      assert s == [s[0]] + s[1..];
      assert Encode(s) != "";
    }
  }

  lemma EncodeInjective(a: seq<byte>, b: seq<byte>)
    requires Encode(a) == Encode(b)
    ensures a == b
  {
    DecodeEncode(a);
    DecodeEncode(b);
  }

  /** Only unreserved characters and `%` come out, so no `/`, `&` or `=`. */
  lemma {:induction false} EncodedAlphabet(s: seq<byte>)
    ensures forall c | c in Encode(s) :: Unreserved(c) || c == '%'
  {
    if s != [] {
      EncodedAlphabet(s[1..]);
      HexDigits(s[0] / 16);
      HexDigits(s[0] % 16);
    }
  }

  /** Letters, digits, hyphen, period, underscore and tilde, by their codes. */
  predicate StandsForItself(b: byte) {
    65 <= b <= 90 || 97 <= b <= 122 || 48 <= b <= 57 || b == 45 || b == 46 || b == 95 || b == 126
  }

  /** The code of a hexadecimal digit, in upper case from ten on. */
  function UpperHex(n: int): int {
    if n < 10 then 48 + n else 55 + n
  }

  /** One byte, exactly: itself if unreserved, else a percent sign and its two digits in upper case, as section 2.1 of
      RFC 3986 asks of producers. */
  lemma EncodeOne(b: byte)
    ensures StandsForItself(b) ==> Encode([b]) == [b as char]
    ensures !StandsForItself(b) ==>
              |Encode([b])| == 3 && Encode([b])[0] == '%'
              && Encode([b])[1] as int == UpperHex(b as int / 16) && Encode([b])[2] as int == UpperHex(b as int % 16)
  {
    assert [b][1..] == [];
    assert Encode([b]) == EncodeByte(b) + [];
    HexCode(b / 16);
    HexCode(b % 16);
  }

  lemma HexCode(n: byte)
    requires n < 16
    ensures HEX[n] as int == UpperHex(n as int)
  {
  }

  /** Byte strings are encoded piece by piece. */
  lemma {:induction false} EncodeConcat(a: seq<byte>, b: seq<byte>)
    ensures Encode(a + b) == Encode(a) + Encode(b)
  {
    if a == [] {
      assert a + b == b;
    } else {
      SliceConcat(a, b, 1);
      EncodeConcat(a[1..], b);
      Assoc(EncodeByte(a[0]), Encode(a[1..]), Encode(b));
    }
  }

  // ---- The signed query string ----

  const QUERY_HEAD := "X-Amz-Algorithm=AWS4-HMAC-SHA256&X-Amz-Credential="
  const QUERY_DATE := "X-Amz-Date="
  const QUERY_EXPIRES := "X-Amz-Expires="
  const QUERY_TAIL := "X-Amz-SignedHeaders=host"

  function ExpiresPart(expires: string): string {
    QUERY_EXPIRES + (expires + "&" + QUERY_TAIL)
  }

  /** `canonical_qs`, from the credential's bytes, the date and the printed expiry. */
  function CanonicalQuery(credential: seq<byte>, datetime: string, expires: string): string {
    QUERY_HEAD + (Encode(credential) + "&" + (QUERY_DATE + (datetime + "&" + ExpiresPart(expires))))
  }

  /** The query string spelt out. */
  lemma QueryForm(credential: seq<byte>, datetime: string, expires: string)
    ensures CanonicalQuery(credential, datetime, expires)
         == "X-Amz-Algorithm=AWS4-HMAC-SHA256&X-Amz-Credential=" + Encode(credential) + "&X-Amz-Date=" + datetime
            + "&X-Amz-Expires=" + expires + "&X-Amz-SignedHeaders=host"
  {
    var e := Encode(credential);
    assert "&X-Amz-Date=" == "&" + "X-Amz-Date=" && "&X-Amz-Expires=" == "&" + "X-Amz-Expires=";
    assert "&X-Amz-SignedHeaders=host" == "&" + "X-Amz-SignedHeaders=host";
    Regrouped(QUERY_HEAD, e, QUERY_DATE, datetime, QUERY_EXPIRES, expires, QUERY_TAIL);
  }

  lemma Regrouped(h: string, e: string, d: string, dt: string, x: string, ex: string, t: string)
    ensures h + (e + "&" + (d + (dt + "&" + (x + (ex + "&" + t))))) == h + e + ("&" + d) + dt + ("&" + x) + ex + ("&" + t)
  {
  }

  /** Whatever bytes the credential holds, the query string tells its three values apart. */
  lemma QueryDetermines(c1: seq<byte>, d1: string, x1: string, c2: seq<byte>, d2: string, x2: string)
    requires '&' !in d1 && '&' !in d2 && '&' !in x1 && '&' !in x2
    requires CanonicalQuery(c1, d1, x1) == CanonicalQuery(c2, d2, x2)
    ensures c1 == c2 && d1 == d2 && x1 == x2
  {
    var r1, r2 := ExpiresPart(x1), ExpiresPart(x2);
    var q1, q2 := QUERY_DATE + (d1 + "&" + r1), QUERY_DATE + (d2 + "&" + r2);
    EncodedAlphabet(c1);
    EncodedAlphabet(c2);
    CancelPrefix(QUERY_HEAD, Encode(c1) + "&" + q1, Encode(c2) + "&" + q2);
    SplitUnique('&', Encode(c1), q1, Encode(c2), q2);
    EncodeInjective(c1, c2);
    CancelPrefix(QUERY_DATE, d1 + "&" + r1, d2 + "&" + r2);
    SplitUnique('&', d1, r1, d2, r2);
    CancelPrefix(QUERY_EXPIRES, x1 + "&" + QUERY_TAIL, x2 + "&" + QUERY_TAIL);
    SplitUnique('&', x1, QUERY_TAIL, x2, QUERY_TAIL);
  }
}

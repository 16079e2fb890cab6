/** rawurlencode / rawurldecode: percent-encoding as in section 2.1 of RFC 3986.
    Every character that is not unreserved (section 2.3 of RFC 3986) and fits
    in one byte becomes '%' and two upper-case hexadecimal digits; decoding
    turns every '%' followed by two hexadecimal digits (either case) back into
    that byte and keeps every other character. */
module Percent {

  /** ALPHA / DIGIT / "-" / "." / "_" / "~" */
  predicate Unreserved(c: char)
  {
    ('A' <= c <= 'Z') || ('a' <= c <= 'z') || ('0' <= c <= '9') || c == '-' || c == '.' || c == '_' || c == '~'
  }

  predicate IsHex(c: char)
  {
    ('0' <= c <= '9') || ('A' <= c <= 'F') || ('a' <= c <= 'f')
  }

  function HexDigit(n: nat): (c: char)
    requires n < 16
    ensures IsHex(c)
  {
    "0123456789ABCDEF"[n]
  }

  function HexValue(c: char): (n: nat)
    requires IsHex(c)
    ensures n < 16
  {
    if '0' <= c <= '9' then c as int - '0' as int
    else if 'A' <= c <= 'F' then c as int - 'A' as int + 10
    else c as int - 'a' as int + 10
  }

  lemma HexRoundTrip(n: nat)
    requires n < 16
    ensures HexValue(HexDigit(n)) == n
  {
  }

  /** The encoding of one character. */
  function EncodeChar(c: char): (e: string)
    ensures e == [c] || (|e| == 3 && e[0] == '%')
    ensures e == [c] ==> c != '%'
  {
    if Unreserved(c) || c as int >= 256 then [c]
    else ['%', HexDigit(c as int / 16), HexDigit(c as int % 16)]
  }

  /** rawurlencode. */
  function Encode(s: string): (e: string)
    ensures |e| >= |s|
  {
    if s == [] then [] else EncodeChar(s[0]) + Encode(s[1..])
  }

  /** rawurldecode. */
  function Decode(e: string): (s: string)
    ensures |s| <= |e|
    decreases |e|
  {
    if e == [] then []
    else if |e| >= 3 && e[0] == '%' && IsHex(e[1]) && IsHex(e[2]) then
      [(16 * HexValue(e[1]) + HexValue(e[2])) as char] + Decode(e[3..])
    else [e[0]] + Decode(e[1..])
  }

  /** Decoding what encoding produced gives the key back. */
  lemma {:induction false} DecodeEncode(s: string)
    ensures Decode(Encode(s)) == s
  {
    if s != [] {
      var c := s[0];
      var e := Encode(s);
      DecodeEncode(s[1..]);
      assert e == EncodeChar(c) + Encode(s[1..]);
      if Unreserved(c) || c as int >= 256 {
        assert e[1..] == Encode(s[1..]);
      } else {
        HexRoundTrip(c as int / 16);
        HexRoundTrip(c as int % 16);
        assert e[3..] == Encode(s[1..]);
        assert (16 * HexValue(e[1]) + HexValue(e[2])) as char == c;
      }
    }
  }

  /** Two keys with the same encoding are the same key. */
  lemma EncodeInjective(a: string, b: string)
    requires Encode(a) == Encode(b)
    ensures a == b
  {
    DecodeEncode(a);
    DecodeEncode(b);
  }
}

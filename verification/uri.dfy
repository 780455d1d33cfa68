/**
 * `encodeURIComponent` (section 19.2.6.5 of ECMA-262): the string is taken as
 * UTF-8 bytes, and every byte that is not an unreserved character of section
 * 2.3 of RFC 2396 is written as `%` and two upper-case hexadecimal digits.
 * `DecodeURIComponent` is the inverse used to state what the encoding keeps.
 */
module UriEncoding {
  import opened Wrappers
  import opened Sequences

  type Byte = b: int | 0 <= b < 256

  /** Letters, digits and `- _ . ! ~ * ' ( )`: the characters left as they are. */
  predicate IsUnreserved(c: char) {
    || ('A' <= c <= 'Z') || ('a' <= c <= 'z') || ('0' <= c <= '9')
    || c == '-' || c == '_' || c == '.' || c == '!' || c == '~' || c == '*' || c == '\'' || c == '(' || c == ')'
  }

  /** The UTF-8 encoding of one Unicode scalar value. */
  function Utf8Char(c: char): (u: seq<Byte>)
    ensures 1 <= |u| <= 4
  {
    var cp := c as int;
    if cp < 0x80 then [cp]
    else if cp < 0x800 then [0xC0 + cp / 64, 0x80 + cp % 64]
    else if cp < 0x10000 then [0xE0 + cp / 4096, 0x80 + (cp / 64) % 64, 0x80 + cp % 64]
    else [0xF0 + cp / 262144, 0x80 + (cp / 4096) % 64, 0x80 + (cp / 64) % 64, 0x80 + cp % 64]
  }

  function Utf8(s: string): seq<Byte>
  {
    if s == [] then [] else Utf8Char(s[0]) + Utf8(s[1..])
  }

  /** Upper-case hexadecimal digit for `0 <= n < 16`. */
  function HexDigit(n: nat): (c: char)
    requires n < 16
    ensures '0' <= c <= '9' || 'A' <= c <= 'F'
  {
    if n < 10 then ('0' as int + n) as char else ('A' as int + n - 10) as char
  }

  /** One byte of the escaped form: an unreserved ASCII byte as itself, anything else as `%XY`. */
  function EncodeByte(b: Byte): string
  {
    if b < 0x80 && IsUnreserved(b as char) then [b as char] else ['%', HexDigit(b / 16), HexDigit(b % 16)]
  }

  /** Escapes bytes; the result consists of unreserved characters and `%` only. */
  function PercentEncode(bs: seq<Byte>): (t: string)
    ensures forall i :: 0 <= i < |t| ==> IsUnreserved(t[i]) || t[i] == '%'
  {
    if bs == [] then []
    else
      var head := EncodeByte(bs[0]);
      var tail := PercentEncode(bs[1..]);
      assert forall i :: |head| <= i < |head + tail| ==> (head + tail)[i] == tail[i - |head|];
      head + tail
  }

  function EncodeURIComponent(s: string): string
  {
    PercentEncode(Utf8(s))
  }

  // Decoding, the partner of the encoder.

  function HexValue(c: char): (r: Option<nat>)
    ensures r.Some? ==> r.value < 16
  {
    if '0' <= c <= '9' then Some(c as int - '0' as int)
    else if 'A' <= c <= 'F' then Some(c as int - 'A' as int + 10)
    else if 'a' <= c <= 'f' then Some(c as int - 'a' as int + 10)
    else None
  }

  /** Undoes the `%XY` escapes; any other character must be ASCII and stands for its own byte. */
  function PercentDecode(t: string): Option<seq<Byte>>
    decreases |t|
  {
    if t == [] then Some([])
    else if t[0] == '%' then
      if |t| < 3 then None
      else
        var hi :- HexValue(t[1]);
        var lo :- HexValue(t[2]);
        var rest :- PercentDecode(t[3..]);
        Some([hi * 16 + lo] + rest)
    else if t[0] as int < 0x80 then
      var rest :- PercentDecode(t[1..]);
      Some([t[0] as int] + rest)
    else None
  }

  predicate IsContinuation(b: Byte) {
    0x80 <= b < 0xC0
  }

  /** How many bytes a UTF-8 sequence starting with `b` has; 0 when `b` cannot start one. */
  function SequenceLength(b: Byte): nat
  {
    if b < 0x80 then 1
    else if 0xC0 <= b < 0xE0 then 2
    else if 0xE0 <= b < 0xF0 then 3
    else if 0xF0 <= b < 0xF8 then 4
    else 0
  }

  /** The code point a lead byte and its continuation bytes spell, six payload bits per continuation byte. */
  function ScalarValue(u: seq<Byte>): int
    requires 2 <= |u| <= 4
  {
    var lead: int := if |u| == 2 then u[0] as int - 0xC0 else if |u| == 3 then u[0] as int - 0xE0 else u[0] as int - 0xF0;
    var v1 := lead * 64 + (u[1] as int - 0x80);
    if |u| == 2 then v1
    else
      var v2 := v1 * 64 + (u[2] as int - 0x80);
      if |u| == 3 then v2 else v2 * 64 + (u[3] as int - 0x80)
  }

  /** Decodes one complete UTF-8 sequence, rejecting overlong forms, surrogates and values past U+10FFFF. */
  function DecodeScalar(u: seq<Byte>): Option<char>
    requires 1 <= |u| <= 4 && SequenceLength(u[0]) == |u|
  {
    if |u| == 1 then Some(u[0] as char)
    else if exists i :: 1 <= i < |u| && !IsContinuation(u[i]) then None
    else
      var cp := ScalarValue(u);
      var least: int := if |u| == 2 then 0x80 else if |u| == 3 then 0x800 else 0x10000;
      if cp < least || cp > 0x10FFFF || 0xD800 <= cp <= 0xDFFF then None
      else Some(cp as char)
  }

  function Utf8Decode(bs: seq<Byte>): Option<string>
    decreases |bs|
  {
    if bs == [] then Some([])
    else
      var n := SequenceLength(bs[0]);
      if n == 0 || |bs| < n then None
      else
        var c :- DecodeScalar(bs[..n]);
        var rest :- Utf8Decode(bs[n..]);
        Some([c] + rest)
  }

  /** `decodeURIComponent` on the strings this model produces. */
  function DecodeURIComponent(t: string): Option<string>
  {
    var bs :- PercentDecode(t);
    Utf8Decode(bs)
  }

  // Round trips.

  lemma Utf8CharRoundTrip(c: char)
    ensures SequenceLength(Utf8Char(c)[0]) == |Utf8Char(c)|
    ensures DecodeScalar(Utf8Char(c)) == Some(c)
  {
    var cp := c as int;
    var u := Utf8Char(c);
    if cp < 0x80 {
    } else if cp < 0x800 {
      assert ScalarValue(u) == cp;
    } else if cp < 0x10000 {
      var q := cp / 64;
      assert q / 64 == cp / 4096;
      assert ScalarValue(u) == q * 64 + cp % 64;
    } else {
      var q := cp / 64;
      var q2 := q / 64;
      assert q2 == cp / 4096;
      assert q2 / 64 == cp / 262144;
      assert ScalarValue(u) == (q2 * 64 + q % 64) * 64 + cp % 64;
    }
  }

  /** One well-formed sequence at the front decodes to its character, ahead of the rest. */
  lemma DecodeStep(u: seq<Byte>, c: char, tail: seq<Byte>)
    requires 1 <= |u| <= 4 && SequenceLength(u[0]) == |u| && DecodeScalar(u) == Some(c)
    ensures Utf8Decode(u + tail) == PrependTo([c], Utf8Decode(tail))
  {
    var bs := u + tail;
    assert bs[0] == u[0];
    assert bs[..|u|] == u;
    assert bs[|u|..] == tail;
  }

  /** Decoding the UTF-8 of `s`, followed by anything, yields `s` followed by the decoding of the rest. */
  lemma {:induction false} Utf8RoundTrip(s: string, rest: seq<Byte>)
    ensures Utf8Decode(Utf8(s) + rest) == PrependTo(s, Utf8Decode(rest))
    decreases |s|
  {
    if s == [] {
      assert Utf8(s) + rest == rest;
      PrependNothing(Utf8Decode(rest));
    } else {
      var u := Utf8Char(s[0]);
      assert Utf8(s) == u + Utf8(s[1..]);
      AppendAssoc(u, Utf8(s[1..]), rest);
      Utf8CharRoundTrip(s[0]);
      DecodeStep(u, s[0], Utf8(s[1..]) + rest);
      Utf8RoundTrip(s[1..], rest);
      PrependTwice([s[0]], s[1..], Utf8Decode(rest));
      assert [s[0]] + s[1..] == s;
    }
  }

  lemma HexRoundTrip(n: nat)
    requires n < 16
    ensures HexValue(HexDigit(n)) == Some(n)
  {
  }

  lemma ByteRoundTrip(b: Byte, rest: string)
    ensures PercentDecode(EncodeByte(b) + rest) == PrependTo([b], PercentDecode(rest))
  {
    var t := EncodeByte(b) + rest;
    if b < 0x80 && IsUnreserved(b as char) {
      assert t[0] == b as char;
      assert t[1..] == rest;
    } else {
      HexRoundTrip(b / 16);
      HexRoundTrip(b % 16);
      assert t[0] == '%' && t[1] == HexDigit(b / 16) && t[2] == HexDigit(b % 16);
      assert t[3..] == rest;
    }
  }

  /** The escapes of the first byte come off first. */
  lemma PercentStep(bs: seq<Byte>, rest: string)
    requires bs != []
    ensures PercentDecode(PercentEncode(bs) + rest) == PrependTo([bs[0]], PercentDecode(PercentEncode(bs[1..]) + rest))
  {
    assert PercentEncode(bs) == EncodeByte(bs[0]) + PercentEncode(bs[1..]);
    AppendAssoc(EncodeByte(bs[0]), PercentEncode(bs[1..]), rest);
    ByteRoundTrip(bs[0], PercentEncode(bs[1..]) + rest);
  }

  /** Undoing the escapes of `PercentEncode(bs)`, followed by anything, yields `bs` followed by the rest's bytes. */
  lemma {:induction false} PercentRoundTrip(bs: seq<Byte>, rest: string)
    ensures PercentDecode(PercentEncode(bs) + rest) == PrependTo(bs, PercentDecode(rest))
    decreases |bs|
  {
    if bs == [] {
      assert PercentEncode(bs) + rest == rest;
      PrependNothing(PercentDecode(rest));
    } else {
      PercentStep(bs, rest);
      PercentRoundTrip(bs[1..], rest);
      PrependTwice([bs[0]], bs[1..], PercentDecode(rest));
      assert [bs[0]] + bs[1..] == bs;
    }
  }

  /**
   * Decoding an encoded string followed by a suffix yields the original string
   * followed by the decoded suffix; the encoding loses nothing.
   */
  lemma EncodeDecodeAppend(s: string, rest: string)
    ensures DecodeURIComponent(EncodeURIComponent(s) + rest) == PrependTo(s, DecodeURIComponent(rest))
  {
    PercentRoundTrip(Utf8(s), rest);
    match PercentDecode(rest)
    case None =>
    case Some(tail) => Utf8RoundTrip(s, tail);
  }

  /** `decodeURIComponent(encodeURIComponent(s)) == s`. */
  lemma EncodeDecode(s: string)
    ensures DecodeURIComponent(EncodeURIComponent(s)) == Some(s)
  {
    EncodeDecodeAppend(s, []);
    assert EncodeURIComponent(s) + [] == EncodeURIComponent(s);
    assert s + [] == s;
  }

  /** Text made only of unreserved characters is its own encoding. */
  lemma {:induction false} UnreservedUnchanged(s: string)
    requires forall i :: 0 <= i < |s| ==> IsUnreserved(s[i])
    ensures EncodeURIComponent(s) == s
    decreases |s|
  {
    if s != [] {
      var rest := s[1..];
      assert forall i :: 0 <= i < |rest| ==> IsUnreserved(rest[i]) by {
        forall i | 0 <= i < |rest| ensures IsUnreserved(rest[i]) { assert rest[i] == s[i + 1]; }
      }
      UnreservedUnchanged(rest);
      var b: Byte := s[0] as int;
      assert IsUnreserved(s[0]);
      assert b < 0x80 && b as char == s[0];
      assert EncodeByte(b) == [s[0]];
      var bs := Utf8(s);
      assert bs == [b] + Utf8(rest);
      assert bs[0] == b && bs[1..] == Utf8(rest);
      assert PercentEncode(bs) == [s[0]] + rest;
      assert [s[0]] + rest == s;
    }
  }

  /** ASCII text without `%` decodes to itself. */
  lemma {:induction false} PlainDecodes(t: string)
    requires forall i :: 0 <= i < |t| ==> t[i] as int < 0x80 && t[i] != '%'
    ensures DecodeURIComponent(t) == Some(t)
  {
    PlainPercentDecode(t);
    Utf8RoundTrip(t, []);
    assert Utf8(t) + [] == Utf8(t);
    assert t + [] == t;
  }

  lemma {:induction false} PlainPercentDecode(t: string)
    requires forall i :: 0 <= i < |t| ==> t[i] as int < 0x80 && t[i] != '%'
    ensures PercentDecode(t) == Some(Utf8(t))
    decreases |t|
  {
    if t != [] {
      assert forall i :: 0 <= i < |t[1..]| ==> t[1..][i] == t[i + 1];
      PlainPercentDecode(t[1..]);
    }
  }
}

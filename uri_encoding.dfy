/**
 * `encodeURIComponent` over well-formed text: every Unicode scalar value is
 * encoded as UTF-8, and every byte is written as an upper-case `%XX` triple,
 * except for characters of the unescaped set, which are copied. The unescaped
 * set is the unreserved characters of section 2.3 of RFC 3986 (letters,
 * digits, `-`, `.`, `_`, `~`) plus `!`, `*`, `'`, `(` and `)`.
 *
 * The partner of the encoder is a strict decoder (`DecodeUriComponent`) that
 * accepts only what the encoder can produce; the round trip is proved below.
 */
module UriEncoding {
  import opened Wrappers

  type Byte = b: int | 0 <= b < 256

  /** The characters `encodeURIComponent` leaves as they are. */
  predicate IsUnescaped(c: char) {
    ('A' <= c <= 'Z') || ('a' <= c <= 'z') || ('0' <= c <= '9') ||
    c == '-' || c == '_' || c == '.' || c == '!' || c == '~' ||
    c == '*' || c == '\'' || c == '(' || c == ')'
  }

  predicate IsUpperHexDigit(c: char) {
    ('0' <= c <= '9') || ('A' <= c <= 'F')
  }

  function HexDigit(d: int): (c: char)
    requires 0 <= d < 16
    ensures IsUpperHexDigit(c)
  {
    if d < 10 then ('0' as int + d) as char else ('A' as int + d - 10) as char
  }

  function HexValue(c: char): (d: int)
    requires IsUpperHexDigit(c)
    ensures 0 <= d < 16
    ensures HexDigit(d) == c
  {
    if c <= '9' then c as int - '0' as int else c as int - 'A' as int + 10
  }

  /** The UTF-8 encoding of one scalar value (section 3 of RFC 3629). */
  function Utf8(c: char): (r: seq<Byte>)
    ensures 1 <= |r| <= 4
    ensures |r| == 1 <==> c as int < 0x80
  {
    var v := c as int;
    if v < 0x80 then [v]
    else if v < 0x800 then [0xC0 + v / 64, 0x80 + v % 64]
    else if v < 0x10000 then [0xE0 + v / 4096, 0x80 + (v / 64) % 64, 0x80 + v % 64]
    else [0xF0 + v / 262144, 0x80 + (v / 4096) % 64, 0x80 + (v / 64) % 64, 0x80 + v % 64]
  }

  /** The UTF-8 encoding of a whole string. */
  function Utf8Of(s: string): seq<Byte> {
    if s == [] then [] else Utf8(s[0]) + Utf8Of(s[1..])
  }

  function PercentTriple(b: Byte): (r: string)
    ensures |r| == 3 && r[0] == '%' && IsUpperHexDigit(r[1]) && IsUpperHexDigit(r[2])
  {
    ['%', HexDigit(b / 16), HexDigit(b % 16)]
  }

  function PercentBytes(bs: seq<Byte>): string {
    if bs == [] then [] else PercentTriple(bs[0]) + PercentBytes(bs[1..])
  }

  function EncodeChar(c: char): string {
    if IsUnescaped(c) then [c] else PercentBytes(Utf8(c))
  }

  /** What `encodeURIComponent` returns for well-formed text. */
  function EncodeUriComponent(s: string): (r: string)
    ensures WellEncoded(r)
  {
    if s == [] then []
    else
      EncodedCharIsWellEncoded(s[0]);
      WellEncodedAppend(EncodeChar(s[0]), EncodeUriComponent(s[1..]));
      EncodeChar(s[0]) + EncodeUriComponent(s[1..])
  }

  /**
   * Every character is an unescaped one or belongs to a `%XX` triple of
   * upper-case hexadecimal digits.
   */
  predicate WellEncoded(s: string)
    decreases |s|
  {
    s == [] ||
    (IsUnescaped(s[0]) && WellEncoded(s[1..])) ||
    (|s| >= 3 && s[0] == '%' && IsUpperHexDigit(s[1]) && IsUpperHexDigit(s[2]) && WellEncoded(s[3..]))
  }

  lemma {:induction false} WellEncodedAppend(a: string, b: string)
    requires WellEncoded(a) && WellEncoded(b)
    ensures WellEncoded(a + b)
    decreases |a|
  {
    if a == [] {
      assert a + b == b;
    } else if IsUnescaped(a[0]) && WellEncoded(a[1..]) {
      WellEncodedAppend(a[1..], b);
      assert (a + b)[1..] == a[1..] + b;
    } else {
      WellEncodedAppend(a[3..], b);
      assert (a + b)[3..] == a[3..] + b;
    }
  }

  lemma {:induction false} PercentBytesWellEncoded(bs: seq<Byte>)
    ensures WellEncoded(PercentBytes(bs))
  {
    if bs != [] {
      var t := PercentTriple(bs[0]);
      PercentBytesWellEncoded(bs[1..]);
      assert (t + PercentBytes(bs[1..]))[3..] == PercentBytes(bs[1..]);
    }
  }

  lemma EncodedCharIsWellEncoded(c: char)
    ensures WellEncoded(EncodeChar(c))
  {
    if !IsUnescaped(c) {
      PercentBytesWellEncoded(Utf8(c));
    } else {
      assert [c][1..] == [];
    }
  }

  /** Reads back the bytes a well-encoded string stands for. */
  function PercentDecode(s: string): Option<seq<Byte>>
    decreases |s|
  {
    if s == [] then Some([])
    else if s[0] == '%' then
      if |s| >= 3 && IsUpperHexDigit(s[1]) && IsUpperHexDigit(s[2]) then
        Prepend([16 * HexValue(s[1]) + HexValue(s[2])], PercentDecode(s[3..]))
      else None
    else if IsUnescaped(s[0]) then Prepend([s[0] as int], PercentDecode(s[1..]))
    else None
  }

  function Prepend(prefix: seq<Byte>, rest: Option<seq<Byte>>): Option<seq<Byte>> {
    match rest
    case None => None
    case Some(r) => Some(prefix + r)
  }

  predicate IsContinuation(b: Byte) {
    0x80 <= b < 0xC0
  }

  /**
   * Decodes the scalar value at the head of `bs` and the number of bytes it
   * takes; overlong forms, surrogates and values past U+10FFFF are refused.
   */
  function DecodeOne(bs: seq<Byte>): (r: Option<(char, nat)>)
    requires |bs| > 0
    ensures r.Some? ==> 1 <= r.value.1 <= |bs|
  {
    var b0: int := bs[0];
    if b0 < 0x80 then Some((b0 as char, 1))
    else if 0xC2 <= b0 < 0xE0 then
      if |bs| >= 2 && IsContinuation(bs[1]) then
        Some((((b0 - 0xC0) * 64 + (bs[1] as int - 0x80)) as char, 2))
      else None
    else if 0xE0 <= b0 < 0xF0 then
      if |bs| >= 3 && IsContinuation(bs[1]) && IsContinuation(bs[2]) then
        var v: int := (b0 - 0xE0) * 4096 + (bs[1] as int - 0x80) * 64 + (bs[2] as int - 0x80);
        if 0x800 <= v && !(0xD800 <= v < 0xE000) then Some((v as char, 3)) else None
      else None
    else if 0xF0 <= b0 < 0xF5 then
      if |bs| >= 4 && IsContinuation(bs[1]) && IsContinuation(bs[2]) && IsContinuation(bs[3]) then
        var v: int := (b0 - 0xF0) * 262144 + (bs[1] as int - 0x80) * 4096 + (bs[2] as int - 0x80) * 64 + (bs[3] as int - 0x80);
        if 0x10000 <= v < 0x110000 then Some((v as char, 4)) else None
      else None
    else None
  }

  function Utf8Decode(bs: seq<Byte>): Option<string>
    decreases |bs|
  {
    if bs == [] then Some([])
    else
      match DecodeOne(bs)
      case None => None
      case Some((c, n)) =>
        match Utf8Decode(bs[n..])
        case None => None
        case Some(rest) => Some([c] + rest)
  }

  /** The strict inverse of `EncodeUriComponent`. */
  function DecodeUriComponent(s: string): Option<string> {
    match PercentDecode(s)
    case None => None
    case Some(bs) => Utf8Decode(bs)
  }

  lemma {:induction false} PercentDecodeBytes(bs: seq<Byte>, rest: string)
    ensures PercentDecode(PercentBytes(bs) + rest) == Prepend(bs, PercentDecode(rest))
  {
    if bs == [] {
      assert PercentBytes(bs) + rest == rest;
      match PercentDecode(rest)
      case None =>
      case Some(r) => assert bs + r == r;
    } else {
      var t := PercentTriple(bs[0]);
      var s := PercentBytes(bs) + rest;
      assert s == t + (PercentBytes(bs[1..]) + rest);
      assert s[3..] == PercentBytes(bs[1..]) + rest;
      PercentDecodeBytes(bs[1..], rest);
      assert 16 * HexValue(s[1]) + HexValue(s[2]) == bs[0] by {
        assert HexDigit(HexValue(s[1])) == HexDigit(bs[0] / 16);
        assert HexDigit(HexValue(s[2])) == HexDigit(bs[0] % 16);
        HexDigitInjective(HexValue(s[1]), bs[0] / 16);
        HexDigitInjective(HexValue(s[2]), bs[0] % 16);
      }
      match PercentDecode(rest)
      case None =>
      case Some(r) => assert [bs[0]] + (bs[1..] + r) == bs + r;
    }
  }

  lemma HexDigitInjective(d: int, e: int)
    requires 0 <= d < 16 && 0 <= e < 16
    requires HexDigit(d) == HexDigit(e)
    ensures d == e
  {
  }

  lemma {:induction false} PercentDecodeEncoded(s: string)
    ensures PercentDecode(EncodeUriComponent(s)) == Some(Utf8Of(s))
  {
    if s == [] {
    } else {
      var c := s[0];
      var tail := EncodeUriComponent(s[1..]);
      PercentDecodeEncoded(s[1..]);
      if IsUnescaped(c) {
        var e := [c] + tail;
        assert e[1..] == tail;
        assert Utf8(c) == [c as int];
      } else {
        PercentDecodeBytes(Utf8(c), tail);
      }
    }
  }

  lemma Utf8DecodeOne(c: char, rest: seq<Byte>)
    ensures DecodeOne(Utf8(c) + rest) == Some((c, |Utf8(c)|))
  {
    var v := c as int;
    var bs := Utf8(c) + rest;
    if v < 0x80 {
    } else if v < 0x800 {
      assert bs[0] == 0xC0 + v / 64 && bs[1] == 0x80 + v % 64;
    } else if v < 0x10000 {
      var q := v / 64;
      assert v == q * 64 + v % 64;
      assert v / 4096 == q / 64;
      assert q == (q / 64) * 64 + q % 64;
      assert bs[0] == 0xE0 + v / 4096 && bs[1] == 0x80 + q % 64 && bs[2] == 0x80 + v % 64;
    } else {
      var q := v / 64;
      var p := q / 64;
      assert v == q * 64 + v % 64;
      assert q == p * 64 + q % 64;
      assert v / 4096 == p;
      assert v / 262144 == p / 64;
      assert p == (p / 64) * 64 + p % 64;
      assert bs[0] == 0xF0 + p / 64 && bs[1] == 0x80 + p % 64;
      assert bs[2] == 0x80 + q % 64 && bs[3] == 0x80 + v % 64;
    }
  }

  lemma {:induction false} Utf8DecodeEncoded(s: string)
    ensures Utf8Decode(Utf8Of(s)) == Some(s)
  {
    if s != [] {
      var bs := Utf8Of(s);
      Utf8DecodeOne(s[0], Utf8Of(s[1..]));
      assert bs[|Utf8(s[0])|..] == Utf8Of(s[1..]);
      Utf8DecodeEncoded(s[1..]);
      assert [s[0]] + s[1..] == s;
    }
  }

  /** Decoding what `encodeURIComponent` produced gives back the message. */
  lemma DecodeEncode(s: string)
    ensures DecodeUriComponent(EncodeUriComponent(s)) == Some(s)
  {
    PercentDecodeEncoded(s);
    Utf8DecodeEncoded(s);
  }

  /** Different messages never share an encoding. */
  lemma EncodeInjective(s: string, t: string)
    requires EncodeUriComponent(s) == EncodeUriComponent(t)
    ensures s == t
  {
    DecodeEncode(s);
    DecodeEncode(t);
  }

  /** Unescaped characters pass through: text made only of them is its own encoding. */
  lemma {:induction false} EncodeUnescapedIdentity(s: string)
    requires forall i :: 0 <= i < |s| ==> IsUnescaped(s[i])
    ensures EncodeUriComponent(s) == s
  {
    if s != [] {
      EncodeUnescapedIdentity(s[1..]);
    }
  }
}

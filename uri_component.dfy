/**
 * `encodeURIComponent` (ECMAScript 2015, section 18.2.6.5): every character
 * outside the unreserved set is written as the UTF-8 bytes of its code
 * point, each as `%` and two upper-case hexadecimal digits (percent-encoding
 * in the sense of section 2.1 of RFC 3986). The decoder below is the
 * receiving side of the link: it is the partner the encoder is proved
 * against, not something the editor runs.
 */
module UriComponent {
  import opened Wrappers

  /** The characters `encodeURIComponent` leaves as they are. */
  predicate IsUnreserved(c: char) {
    || ('A' <= c <= 'Z') || ('a' <= c <= 'z') || ('0' <= c <= '9')
    || c == '-' || c == '_' || c == '.' || c == '!' || c == '~'
    || c == '*' || c == '\'' || c == '(' || c == ')'
  }

  predicate IsUpperHex(c: char) {
    ('0' <= c <= '9') || ('A' <= c <= 'F')
  }

  predicate IsHex(c: char) {
    IsUpperHex(c) || ('a' <= c <= 'f')
  }

  /** Every character an encoded string may hold. */
  predicate IsEncodedChar(c: char) {
    IsUnreserved(c) || c == '%' || IsUpperHex(c)
  }

  type Byte = b: int | 0 <= b < 256

  /** The upper-case hex digit for `d`. */
  function HexDigit(d: nat): (c: char)
    requires d < 16
    ensures IsUpperHex(c) && HexValue(c) == d
  {
    if d < 10 then ('0' as int + d) as char else ('A' as int + d - 10) as char
  }

  function HexValue(c: char): (v: nat)
    requires IsHex(c)
    ensures v < 16
  {
    if '0' <= c <= '9' then c as int - '0' as int
    else if 'A' <= c <= 'F' then c as int - 'A' as int + 10
    else c as int - 'a' as int + 10
  }

  /** The two hex digits of `b`, the high nibble first. */
  function HexPair(b: Byte): (r: string)
    ensures |r| == 2 && IsUpperHex(r[0]) && IsUpperHex(r[1])
    ensures 16 * HexValue(r[0]) + HexValue(r[1]) == b
  {
    [HexDigit(b / 16), HexDigit(b % 16)]
  }

  /** The UTF-8 encoding of one Unicode scalar value (section 3 of RFC 3629). */
  function Utf8(c: char): (bs: seq<Byte>)
    ensures 1 <= |bs| <= 4
  {
    var cp := c as int;
    if cp < 0x80 then [cp]
    else if cp < 0x800 then [0xC0 + cp / 64, 0x80 + cp % 64]
    else if cp < 0x1_0000 then [0xE0 + cp / 4096, 0x80 + (cp / 64) % 64, 0x80 + cp % 64]
    else [0xF0 + cp / 262144, 0x80 + (cp / 4096) % 64, 0x80 + (cp / 64) % 64, 0x80 + cp % 64]
  }

  /** The UTF-8 encoding of a whole string. */
  function Utf8String(s: string): seq<Byte> {
    if s == [] then [] else Utf8(s[0]) + Utf8String(s[1..])
  }

  /** Each byte as `%XY`. */
  function Escape(bs: seq<Byte>): (r: string)
    ensures |r| == 3 * |bs|
    ensures forall i :: 0 <= i < |r| ==> r[i] == '%' || IsUpperHex(r[i])
  {
    if bs == [] then [] else ['%'] + HexPair(bs[0]) + Escape(bs[1..])
  }

  function EncodeChar(c: char): string {
    if IsUnreserved(c) then [c] else Escape(Utf8(c))
  }

  /** `encodeURIComponent(s)`; its output is drawn only from the unreserved set, `%` and hex digits. */
  function Encode(s: string): (r: string)
    ensures forall i :: 0 <= i < |r| ==> IsEncodedChar(r[i])
  {
    if s == [] then [] else EncodeChar(s[0]) + Encode(s[1..])
  }

  /**
   * Turns an encoded string back into bytes: `%XY` gives one byte, an
   * unreserved character gives its own code; anything else is refused.
   */
  function Unescape(s: string): Option<seq<Byte>> {
    if s == [] then Some([])
    else if s[0] == '%' then
      if |s| >= 3 && IsHex(s[1]) && IsHex(s[2]) then
        match Unescape(s[3..])
        case None => None
        case Some(t) => Some([16 * HexValue(s[1]) + HexValue(s[2])] + t)
      else None
    else if IsUnreserved(s[0]) then
      match Unescape(s[1..])
      case None => None
      case Some(t) => Some([s[0] as int] + t)
    else None
  }

  predicate IsContinuation(b: Byte) {
    0x80 <= b < 0xC0
  }

  /** How many bytes a sequence starting with `lead` has; 0 for a byte that cannot lead. */
  function SequenceLength(lead: Byte): nat {
    if lead < 0x80 then 1
    else if 0xC0 <= lead < 0xE0 then 2
    else if 0xE0 <= lead < 0xF0 then 3
    else if 0xF0 <= lead < 0xF8 then 4
    else 0
  }

  predicate IsScalarValue(cp: int) {
    (0 <= cp < 0xD800) || (0xE000 <= cp < 0x11_0000)
  }

  /** The least code point a sequence of `n` bytes may spell; below it the form is overlong. */
  function MinCodePoint(n: nat): int {
    if n <= 1 then 0 else if n == 2 then 0x80 else if n == 3 then 0x800 else 0x1_0000
  }

  /** The code point a lead byte and its continuation bytes spell. */
  function CodePoint(bs: seq<Byte>): int
    requires 1 <= |bs| <= 4
  {
    var b0, b1, b2, b3 := bs[0] as int, if |bs| > 1 then bs[1] as int else 0,
                          if |bs| > 2 then bs[2] as int else 0, if |bs| > 3 then bs[3] as int else 0;
    if |bs| == 1 then b0
    else if |bs| == 2 then (b0 - 0xC0) * 64 + (b1 - 0x80)
    else if |bs| == 3 then (b0 - 0xE0) * 4096 + (b1 - 0x80) * 64 + (b2 - 0x80)
    else (b0 - 0xF0) * 262144 + (b1 - 0x80) * 4096 + (b2 - 0x80) * 64 + (b3 - 0x80)
  }

  /** UTF-8 decoding; `None` for a malformed sequence, including an overlong one. */
  function Utf8Decode(bs: seq<Byte>): Option<string> {
    if bs == [] then Some([])
    else
      var n := SequenceLength(bs[0]);
      if n == 0 || |bs| < n || exists i :: 1 <= i < n && !IsContinuation(bs[i]) then None
      else
        var cp := CodePoint(bs[..n]);
        if cp < MinCodePoint(n) || !IsScalarValue(cp) then None
        else
          match Utf8Decode(bs[n..])
          case None => None
          case Some(t) => Some([cp as char] + t)
  }

  /** `decodeURIComponent` restricted to what `encodeURIComponent` can produce. */
  function Decode(s: string): Option<string> {
    match Unescape(s)
    case None => None
    case Some(bs) => Utf8Decode(bs)
  }

  lemma DivMod64(x: int)
    requires 0 <= x
    ensures x == 64 * (x / 64) + x % 64
    ensures (x / 64) / 64 == x / 4096
    ensures ((x / 64) / 64) / 64 == x / 262144
    ensures (x / 4096) % 64 == ((x / 64) / 64) % 64
  {
  }

  /** Decoding one character's UTF-8 bytes gives that character back. */
  lemma {:induction false} Utf8DecodeChar(c: char, rest: seq<Byte>)
    ensures Utf8Decode(Utf8(c) + rest) ==
              match Utf8Decode(rest)
              case None => None
              case Some(t) => Some([c] + t)
  {
    var bs := Utf8(c) + rest;
    var n := |Utf8(c)|;
    var cp := c as int;
    assert bs[..n] == Utf8(c) && bs[n..] == rest;
    DivMod64(cp);
    DivMod64(cp / 64);
    DivMod64(cp / 4096);
    assert SequenceLength(bs[0]) == n;
    assert CodePoint(bs[..n]) == cp;
    assert MinCodePoint(n) <= cp;
  }

  /** A two-byte sequence whose lead is `C0` or `C1` spells a code point below `80`: it is overlong and refused. */
  lemma OverlongRefused(b0: Byte, b1: Byte, rest: seq<Byte>)
    requires b0 == 0xC0 || b0 == 0xC1
    ensures Utf8Decode([b0, b1] + rest) == None
  {
    var bs := [b0, b1] + rest;
    assert bs[..2] == [b0, b1];
  }

  /** UTF-8 decoding undoes UTF-8 encoding. */
  lemma {:induction false} Utf8RoundTrip(s: string)
    ensures Utf8Decode(Utf8String(s)) == Some(s)
  {
    if s != [] {
      Utf8RoundTrip(s[1..]);
      Utf8DecodeChar(s[0], Utf8String(s[1..]));
      assert [s[0]] + s[1..] == s;
    }
  }

  lemma {:induction false} UnescapeEscape(bs: seq<Byte>, rest: string)
    ensures Unescape(Escape(bs) + rest) ==
              match Unescape(rest)
              case None => None
              case Some(t) => Some(bs + t)
  {
    if bs != [] {
      var p := HexPair(bs[0]);
      var s := Escape(bs) + rest;
      assert s == ['%'] + p + (Escape(bs[1..]) + rest);
      assert s[1] == p[0] && s[2] == p[1];
      assert s[3..] == Escape(bs[1..]) + rest;
      assert s[0] == '%' && IsHex(s[1]) && IsHex(s[2]);
      assert 16 * HexValue(s[1]) + HexValue(s[2]) == bs[0];
      UnescapeEscape(bs[1..], rest);
      match Unescape(rest)
      case None =>
      case Some(t) => assert [bs[0]] + (bs[1..] + t) == bs + t;
    } else {
      assert Escape(bs) + rest == rest;
      match Unescape(rest)
      case None =>
      case Some(t) => assert bs + t == t;
    }
  }

  /** Un-escaping an encoded string gives the UTF-8 bytes of the original. */
  lemma {:induction false} UnescapeEncode(s: string)
    ensures Unescape(Encode(s)) == Some(Utf8String(s))
  {
    if s != [] {
      var c, rest := s[0], Encode(s[1..]);
      UnescapeEncode(s[1..]);
      if IsUnreserved(c) {
        assert (EncodeChar(c) + rest)[1..] == rest;
      } else {
        UnescapeEscape(Utf8(c), rest);
      }
    }
  }

  /** The link's receiver recovers the message exactly: `Encode` is injective. */
  lemma EncodeRoundTrip(s: string)
    ensures Decode(Encode(s)) == Some(s)
  {
    UnescapeEncode(s);
    Utf8RoundTrip(s);
  }

  /** Characters that are not unreserved never appear bare in the output (`&`, `=`, `#`, space, ...). */
  lemma EncodeHasNo(s: string, c: char)
    requires !IsEncodedChar(c)
    ensures c !in Encode(s)
  {
  }
}

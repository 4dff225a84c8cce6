/** JavaScript's `encodeURIComponent`: characters outside the unreserved set
    become the percent-escaped bytes of their UTF-8 encoding. Percent
    decoding is given alongside as its partner. */
module UriComponent {

  /** The characters `encodeURIComponent` leaves alone. */
  predicate Unreserved(c: char) {
    ('A' <= c <= 'Z') || ('a' <= c <= 'z') || ('0' <= c <= '9')
    || c == '-' || c == '_' || c == '.' || c == '!' || c == '~' || c == '*' || c == '\'' || c == '(' || c == ')'
  }

  predicate IsByte(b: int) {
    0 <= b < 256
  }

  /** The UTF-8 encoding of one Unicode scalar value. */
  function Utf8(c: char): (bs: seq<int>)
    ensures 1 <= |bs| <= 4
    ensures forall i :: 0 <= i < |bs| ==> IsByte(bs[i])
    ensures (c as int) < 0x80 <==> bs == [c as int]
  {
    var cp := c as int;
    if cp < 0x80 then [cp]
    else if cp < 0x800 then [0xC0 + cp / 0x40, 0x80 + cp % 0x40]
    else if cp < 0x10000 then [0xE0 + cp / 0x1000, 0x80 + (cp / 0x40) % 0x40, 0x80 + cp % 0x40]
    else [0xF0 + cp / 0x40000, 0x80 + (cp / 0x1000) % 0x40, 0x80 + (cp / 0x40) % 0x40, 0x80 + cp % 0x40]
  }

  /** The UTF-8 encoding of a string. */
  function Utf8String(s: string): seq<int> {
    if s == [] then [] else Utf8(s[0]) + Utf8String(s[1..])
  }

  predicate IsHexDigit(c: char) {
    ('0' <= c <= '9') || ('A' <= c <= 'F') || ('a' <= c <= 'f')
  }

  function HexValue(c: char): (v: int)
    requires IsHexDigit(c)
    ensures 0 <= v < 16
  {
    if '0' <= c <= '9' then c as int - '0' as int
    else if 'A' <= c <= 'F' then c as int - 'A' as int + 10
    else c as int - 'a' as int + 10
  }

  /** An upper-case hex digit. */
  function HexChar(d: int): (c: char)
    requires 0 <= d < 16
    ensures IsHexDigit(c) && HexValue(c) == d
  {
    if d < 10 then ('0' as int + d) as char else ('A' as int + d - 10) as char
  }

  /** `%XX` with upper-case hex digits. */
  function Escape(b: int): (e: string)
    requires IsByte(b)
    ensures |e| == 3 && e[0] == '%' && IsHexDigit(e[1]) && IsHexDigit(e[2])
    ensures HexValue(e[1]) * 16 + HexValue(e[2]) == b
  {
    ['%', HexChar(b / 16), HexChar(b % 16)]
  }

  /** The escapes of a byte sequence, one after the other. */
  function EscapeBytes(bs: seq<int>): string
    requires forall i :: 0 <= i < |bs| ==> IsByte(bs[i])
  {
    if bs == [] then [] else Escape(bs[0]) + EscapeBytes(bs[1..])
  }

  function EncodeChar(c: char): string {
    if Unreserved(c) then [c] else EscapeBytes(Utf8(c))
  }

  /** `encodeURIComponent(s)`. */
  function Encode(s: string): string {
    if s == [] then [] else EncodeChar(s[0]) + Encode(s[1..])
  }

  /** Percent decoding to bytes: a `%` followed by two hex digits is that
      byte, and any other character stands for its own UTF-8 bytes. */
  function Decode(t: string): seq<int> {
    if t == [] then []
    else if t[0] == '%' && |t| >= 3 && IsHexDigit(t[1]) && IsHexDigit(t[2]) then
      [HexValue(t[1]) * 16 + HexValue(t[2])] + Decode(t[3..])
    else Utf8(t[0]) + Decode(t[1..])
  }

  /** The characters an encoded component can hold. */
  predicate EncodedChar(c: char) {
    Unreserved(c) || c == '%'
  }

  lemma {:induction false} EscapeBytesChars(bs: seq<int>)
    requires forall i :: 0 <= i < |bs| ==> IsByte(bs[i])
    ensures forall i :: 0 <= i < |EscapeBytes(bs)| ==> EncodedChar(EscapeBytes(bs)[i])
  {
    if bs != [] {
      EscapeBytesChars(bs[1..]);
      var e, rest := Escape(bs[0]), EscapeBytes(bs[1..]);
      forall i | 0 <= i < |e + rest| ensures EncodedChar((e + rest)[i]) {
        if i >= |e| {
          assert (e + rest)[i] == rest[i - |e|];
        }
      }
    }
  }

  /** An encoded component holds only unreserved characters and `%`: no
      `&`, `=`, `+`, `#`, `?` or `/` that a URL would read as structure. */
  lemma {:induction false} EncodeOnlySafeChars(s: string)
    ensures forall i :: 0 <= i < |Encode(s)| ==> EncodedChar(Encode(s)[i])
  {
    if s != [] {
      EncodeOnlySafeChars(s[1..]);
      var e, rest := EncodeChar(s[0]), Encode(s[1..]);
      if !Unreserved(s[0]) {
        EscapeBytesChars(Utf8(s[0]));
      }
      forall i | 0 <= i < |e + rest| ensures EncodedChar((e + rest)[i]) {
        if i >= |e| {
          assert (e + rest)[i] == rest[i - |e|];
        }
      }
    }
  }

  /** A string of unreserved characters is its own encoding. */
  lemma {:induction false} EncodeUnreservedIdentity(s: string)
    requires forall i :: 0 <= i < |s| ==> Unreserved(s[i])
    ensures Encode(s) == s
  {
    if s != [] {
      EncodeUnreservedIdentity(s[1..]);
      assert s == [s[0]] + s[1..];
    }
  }

  /** An escape decodes to its byte, whatever follows it. */
  lemma DecodeEscape(b: int, rest: string)
    requires IsByte(b)
    ensures Decode(Escape(b) + rest) == [b] + Decode(rest)
  {
    var e := Escape(b);
    var t := e + rest;
    assert t[0] == '%' && t[1] == e[1] && t[2] == e[2];
    assert t[3..] == rest;
  }

  lemma {:induction false} DecodeEscapes(bs: seq<int>, rest: string)
    requires forall i :: 0 <= i < |bs| ==> IsByte(bs[i])
    ensures Decode(EscapeBytes(bs) + rest) == bs + Decode(rest)
  {
    if bs != [] {
      var tail := EscapeBytes(bs[1..]) + rest;
      assert EscapeBytes(bs) + rest == Escape(bs[0]) + tail;
      DecodeEscape(bs[0], tail);
      DecodeEscapes(bs[1..], rest);
      assert bs == [bs[0]] + bs[1..];
    } else {
      assert EscapeBytes(bs) + rest == rest;
    }
  }

  /** Decoding an encoded component gives back the UTF-8 bytes of the
      original string (byte for byte, whatever characters it holds). */
  lemma {:induction false} DecodeEncode(s: string)
    ensures Decode(Encode(s)) == Utf8String(s)
  {
    if s != [] {
      var c, rest := s[0], s[1..];
      DecodeEncode(rest);
      if Unreserved(c) {
        assert Encode(s) == [c] + Encode(rest);
        assert ([c] + Encode(rest))[1..] == Encode(rest);
        assert (c as int) < 0x80;
      } else {
        DecodeEscapes(Utf8(c), Encode(rest));
      }
    }
  }
}

/**
 * `encodeURIComponent`: every character outside the unreserved set of
 * section 2.3 of RFC 3986 (plus `! ~ * ' ( )`, which the ECMAScript function
 * also keeps) is written as the `%XX` escapes of its UTF-8 bytes, with
 * upper-case hex digits. `Decode` is an independent percent-decoder used to
 * prove that the encoding loses nothing.
 */
module UriComponent {
  import opened Wrappers
  import opened Text

  /** The characters `encodeURIComponent` leaves as they are. */
  predicate IsUnreserved(c: char) {
    'A' <= c <= 'Z' || 'a' <= c <= 'z' || '0' <= c <= '9'
    || c == '-' || c == '_' || c == '.' || c == '!' || c == '~'
    || c == '*' || c == '\'' || c == '(' || c == ')'
  }

  predicate IsByte(b: int) {
    0 <= b < 256
  }

  /** The UTF-8 encoding of one Unicode scalar value. */
  function Utf8(c: char): (bytes: seq<int>)
    ensures 1 <= |bytes| <= 4
    ensures forall i :: 0 <= i < |bytes| ==> IsByte(bytes[i])
  {
    var cp := c as int;
    if cp < 0x80 then [cp]
    else if cp < 0x800 then [0xC0 + cp / 64, 0x80 + cp % 64]
    else if cp < 0x1_0000 then [0xE0 + cp / 4096, 0x80 + (cp / 64) % 64, 0x80 + cp % 64]
    else [0xF0 + cp / 262144, 0x80 + (cp / 4096) % 64, 0x80 + (cp / 64) % 64, 0x80 + cp % 64]
  }

  function PercentByte(b: int): (s: string)
    requires IsByte(b)
    ensures |s| == 3 && s[0] == '%' && IsUnreserved(s[1]) && IsUnreserved(s[2])
  {
    ['%', UpperHexDigit(b / 16), UpperHexDigit(b % 16)]
  }

  function PercentBytes(bytes: seq<int>): (s: string)
    requires forall i :: 0 <= i < |bytes| ==> IsByte(bytes[i])
    ensures |s| == 3 * |bytes|
    ensures forall i :: 0 <= i < |s| ==> IsUnreserved(s[i]) || s[i] == '%'
  {
    if bytes == [] then [] else PercentByte(bytes[0]) + PercentBytes(bytes[1..])
  }

  function EncodeChar(c: char): (s: string)
    ensures forall i :: 0 <= i < |s| ==> IsUnreserved(s[i]) || s[i] == '%'
  {
    if IsUnreserved(c) then [c] else PercentBytes(Utf8(c))
  }

  /** `encodeURIComponent(s)`. */
  function Encode(s: string): (r: string)
    ensures forall i :: 0 <= i < |r| ==> IsUnreserved(r[i]) || r[i] == '%'
  {
    if s == [] then [] else EncodeChar(s[0]) + Encode(s[1..])
  }

  // ------------------------------------------------------------ decoding

  /** The number of bytes announced by a UTF-8 lead byte; 0 when it is not one. */
  function Utf8Length(b0: int): nat {
    if 0 <= b0 < 0x80 then 1
    else if 0xC0 <= b0 < 0xE0 then 2
    else if 0xE0 <= b0 < 0xF0 then 3
    else if 0xF0 <= b0 < 0xF8 then 4
    else 0
  }

  predicate IsContinuation(b: int) {
    0x80 <= b < 0xC0
  }

  predicate IsScalarValue(cp: int) {
    0 <= cp < 0xD800 || 0xE000 <= cp < 0x11_0000
  }

  /** The scalar value a well-formed UTF-8 sequence stands for. */
  function DecodeUtf8(bytes: seq<int>): Option<char> {
    if |bytes| == 0 || Utf8Length(bytes[0]) != |bytes| then None
    else if exists i :: 1 <= i < |bytes| && !IsContinuation(bytes[i]) then None
    else
      var cp :=
        if |bytes| == 1 then bytes[0]
        else if |bytes| == 2 then (bytes[0] - 0xC0) * 64 + (bytes[1] - 0x80)
        else if |bytes| == 3 then (bytes[0] - 0xE0) * 4096 + (bytes[1] - 0x80) * 64 + (bytes[2] - 0x80)
        else (bytes[0] - 0xF0) * 262144 + (bytes[1] - 0x80) * 4096 + (bytes[2] - 0x80) * 64 + (bytes[3] - 0x80);
      if IsScalarValue(cp) then Some(cp as char) else None
  }

  /** Reads `n` escapes "%XX" from the front of `s`. */
  function ReadEscapes(s: string, n: nat): (r: Option<seq<int>>)
    ensures r.Some? ==> |s| >= 3 * n && |r.value| == n
  {
    if n == 0 then Some([])
    else if |s| < 3 || s[0] != '%' || !IsHexDigit(s[1]) || !IsHexDigit(s[2]) then None
    else
      match ReadEscapes(s[3..], n - 1)
      case None => None
      case Some(tail) => Some([HexDigitValue(s[1]) * 16 + HexDigitValue(s[2])] + tail)
  }

  /** A percent-decoder: escapes are read as UTF-8, other characters are kept. */
  function Decode(s: string): Option<string>
    decreases |s|
  {
    if s == [] then Some([])
    else if s[0] != '%' then
      match Decode(s[1..])
      case None => None
      case Some(t) => Some([s[0]] + t)
    else if |s| < 3 || !IsHexDigit(s[1]) || !IsHexDigit(s[2]) then None
    else
      var n := Utf8Length(HexDigitValue(s[1]) * 16 + HexDigitValue(s[2]));
      if n == 0 then None
      else
        match ReadEscapes(s, n)
        case None => None
        case Some(bytes) =>
          match DecodeUtf8(bytes)
          case None => None
          case Some(c) =>
            match Decode(s[3 * n..])
            case None => None
            case Some(t) => Some([c] + t)
  }

  // ------------------------------------------------------------ round trip

  lemma ByteDigits(b: int)
    requires IsByte(b)
    ensures HexDigitValue(UpperHexDigit(b / 16)) * 16 + HexDigitValue(UpperHexDigit(b % 16)) == b
  {
  }

  lemma {:induction false} ReadEscapesOfBytes(bytes: seq<int>, rest: string)
    requires forall i :: 0 <= i < |bytes| ==> IsByte(bytes[i])
    ensures ReadEscapes(PercentBytes(bytes) + rest, |bytes|) == Some(bytes)
  {
    if bytes != [] {
      var s := PercentBytes(bytes) + rest;
      assert s[3..] == PercentBytes(bytes[1..]) + rest;
      ReadEscapesOfBytes(bytes[1..], rest);
      ByteDigits(bytes[0]);
      assert bytes == [bytes[0]] + bytes[1..];
    }
  }

  lemma Split64(x: int)
    requires x >= 0
    ensures x == (x / 64) * 64 + x % 64
    ensures (x / 64) / 64 == x / 4096
    ensures ((x / 64) / 64) / 64 == x / 262144
  {
  }

  lemma Utf8TwoBytes(c: char)
    requires 0x80 <= c as int < 0x800
    ensures DecodeUtf8(Utf8(c)) == Some(c)
  {
    var cp := c as int;
    var bs := Utf8(c);
    assert bs == [0xC0 + cp / 64, 0x80 + cp % 64];
    assert Utf8Length(bs[0]) == 2;
    assert (bs[0] - 0xC0) * 64 + (bs[1] - 0x80) == cp;
  }

  lemma Utf8ThreeBytes(c: char)
    requires 0x800 <= c as int < 0x1_0000
    ensures DecodeUtf8(Utf8(c)) == Some(c)
  {
    var cp := c as int;
    var bs := Utf8(c);
    Split64(cp);
    Split64(cp / 64);
    assert bs == [0xE0 + cp / 4096, 0x80 + (cp / 64) % 64, 0x80 + cp % 64];
    assert Utf8Length(bs[0]) == 3;
    assert (bs[0] - 0xE0) * 4096 + (bs[1] - 0x80) * 64 + (bs[2] - 0x80) == cp;
  }

  lemma Utf8FourBytes(c: char)
    requires 0x1_0000 <= c as int
    ensures DecodeUtf8(Utf8(c)) == Some(c)
  {
    var cp := c as int;
    var bs := Utf8(c);
    Split64(cp);
    Split64(cp / 64);
    Split64(cp / 4096);
    assert (cp / 64) / 64 == cp / 4096;
    assert cp < 0x11_0000;
    assert bs == [0xF0 + cp / 262144, 0x80 + (cp / 4096) % 64, 0x80 + (cp / 64) % 64, 0x80 + cp % 64];
    assert Utf8Length(bs[0]) == 4;
    assert (bs[0] - 0xF0) * 262144 + (bs[1] - 0x80) * 4096 + (bs[2] - 0x80) * 64 + (bs[3] - 0x80) == cp;
  }

  /** Every character's UTF-8 bytes decode back to it, and the lead byte announces their number. */
  lemma Utf8RoundTrip(c: char)
    ensures Utf8Length(Utf8(c)[0]) == |Utf8(c)|
    ensures DecodeUtf8(Utf8(c)) == Some(c)
  {
    var cp := c as int;
    if cp < 0x80 {
    } else if cp < 0x800 {
      Utf8TwoBytes(c);
    } else if cp < 0x1_0000 {
      Utf8ThreeBytes(c);
    } else {
      Utf8FourBytes(c);
    }
  }

  /** Decoding consumes the encoding of one character and nothing more. */
  lemma DecodeEncodedChar(c: char, rest: string)
    ensures Decode(EncodeChar(c) + rest) ==
      match Decode(rest)
      case None => None
      case Some(t) => Some([c] + t)
  {
    var s := EncodeChar(c) + rest;
    if IsUnreserved(c) {
      assert s[1..] == rest;
    } else {
      var bytes := Utf8(c);
      Utf8RoundTrip(c);
      ReadEscapesOfBytes(bytes, rest);
      ByteDigits(bytes[0]);
      assert s[..3] == PercentByte(bytes[0]);
      assert s[3 * |bytes|..] == rest;
    }
  }

  /** `encodeURIComponent` is injective: the decoder recovers its input. */
  lemma {:induction false} DecodeEncode(s: string)
    ensures Decode(Encode(s)) == Some(s)
  {
    if s != [] {
      DecodeEncode(s[1..]);
      DecodeEncodedChar(s[0], Encode(s[1..]));
      assert s == [s[0]] + s[1..];
    }
  }

  /** The encoding never contains the characters that delimit a URI query. */
  lemma EncodeHasNoDelimiters(s: string)
    ensures '?' !in Encode(s) && '&' !in Encode(s) && '=' !in Encode(s) && '#' !in Encode(s)
  {
    var r := Encode(s);
    forall i | 0 <= i < |r|
      ensures r[i] != '?' && r[i] != '&' && r[i] != '=' && r[i] != '#'
    {
      assert IsUnreserved(r[i]) || r[i] == '%';
    }
  }
}

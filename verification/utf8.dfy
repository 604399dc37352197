/**
 * UTF-8 as defined in RFC 3629: the byte length the responder puts in
 * Content-Length (what `Buffer.byteLength(body, 'utf8')` returns), an encoder
 * whose output has exactly that length, and a strict decoder that inverts the
 * encoder.
 */
module Utf8 {
  import opened Results

  type byte = b: int | 0 <= b < 0x100

  /** Number of bytes RFC 3629 section 3 uses for one scalar value. */
  function Width(c: char): nat {
    var n := c as int;
    if n < 0x80 then 1
    else if n < 0x800 then 2
    else if n < 0x1_0000 then 3
    else 4
  }

  /** The UTF-8 byte length of a string, counted character by character. */
  function ByteLength(s: string): (r: nat)
    ensures |s| <= r <= 4 * |s|
    ensures r == 0 <==> s == []
  {
    if s == [] then 0 else Width(s[0]) + ByteLength(s[1..])
  }

  lemma {:induction false} ByteLengthAppend(a: string, b: string)
    ensures ByteLength(a + b) == ByteLength(a) + ByteLength(b)
  {
    if a == [] {
      assert a + b == b;
    } else {
      assert (a + b)[1..] == a[1..] + b;
      ByteLengthAppend(a[1..], b);
    }
  }

  predicate IsContinuation(b: byte) {
    0x80 <= b < 0xC0
  }

  /** The byte sequence RFC 3629 section 3 assigns to one scalar value. */
  function EncodeChar(c: char): (r: seq<byte>)
    ensures |r| == Width(c)
    ensures 0 < |r| && (|r| == 1 <==> r[0] < 0x80)
    ensures forall i :: 1 <= i < |r| ==> IsContinuation(r[i])
  {
    var n := c as int;
    if n < 0x80 then [n]
    else if n < 0x800 then [0xC0 + n / 64, 0x80 + n % 64]
    else if n < 0x1_0000 then [0xE0 + n / 4096, 0x80 + (n / 64) % 64, 0x80 + n % 64]
    else [0xF0 + n / 262144, 0x80 + (n / 4096) % 64, 0x80 + (n / 64) % 64, 0x80 + n % 64]
  }

  function Encode(s: string): (r: seq<byte>)
    ensures |r| == ByteLength(s)
  {
    if s == [] then [] else EncodeChar(s[0]) + Encode(s[1..])
  }

  predicate IsScalar(n: int) {
    0 <= n < 0xD800 || 0xE000 <= n < 0x11_0000
  }

  /**
   * Reads one character off the front of `bs`, refusing overlong forms,
   * surrogates and values above U+10FFFF. Returns the character and the
   * number of bytes it took.
   */
  function DecodeChar(bs: seq<byte>): (r: Option<(char, nat)>)
    ensures r.Some? ==> 1 <= r.value.1 <= |bs| && r.value.1 == Width(r.value.0)
  {
    if |bs| == 0 then None
    else
      var b0 := bs[0] as int;
      if b0 < 0x80 then Some((b0 as char, 1))
      else if b0 < 0xC0 then None
      else if b0 < 0xE0 then
        if |bs| < 2 || !IsContinuation(bs[1]) then None
        else
          var n := (b0 - 0xC0) * 64 + (bs[1] as int - 0x80);
          if n < 0x80 then None else Some((n as char, 2))
      else if b0 < 0xF0 then
        if |bs| < 3 || !IsContinuation(bs[1]) || !IsContinuation(bs[2]) then None
        else
          var n := (b0 - 0xE0) * 4096 + (bs[1] as int - 0x80) * 64 + (bs[2] as int - 0x80);
          if n < 0x800 || !IsScalar(n) then None else Some((n as char, 3))
      else if b0 < 0xF8 then
        if |bs| < 4 || !IsContinuation(bs[1]) || !IsContinuation(bs[2]) || !IsContinuation(bs[3]) then None
        else
          var n := (b0 - 0xF0) * 262144 + (bs[1] as int - 0x80) * 4096 + (bs[2] as int - 0x80) * 64 + (bs[3] as int - 0x80);
          if n < 0x1_0000 || !IsScalar(n) then None else Some((n as char, 4))
      else None
  }

  /** Strict decoding of a whole byte sequence; None if any part is ill-formed. */
  function Decode(bs: seq<byte>): (r: Option<string>)
    decreases |bs|
  {
    if bs == [] then Some([])
    else
      match DecodeChar(bs)
      case None => None
      case Some((c, k)) =>
        match Decode(bs[k..])
        case None => None
        case Some(rest) => Some([c] + rest)
  }

  lemma DigitsOf(n: nat)
    ensures n == (n / 64) * 64 + n % 64
    ensures n / 64 == (n / 4096) * 64 + (n / 64) % 64
    ensures n / 4096 == (n / 262144) * 64 + (n / 4096) % 64
  {
  }

  lemma DecodeCharOfEncoded(c: char, rest: seq<byte>)
    ensures DecodeChar(EncodeChar(c) + rest) == Some((c, Width(c)))
  {
    var n := c as int;
    DigitsOf(n);
    var bs := EncodeChar(c) + rest;
    if n < 0x80 {
    } else if n < 0x800 {
      assert (bs[0] as int - 0xC0) * 64 + (bs[1] as int - 0x80) == n;
    } else if n < 0x1_0000 {
      assert (bs[0] as int - 0xE0) * 4096 + (bs[1] as int - 0x80) * 64 + (bs[2] as int - 0x80) == n;
    } else {
      assert (bs[0] as int - 0xF0) * 262144 + (bs[1] as int - 0x80) * 4096 + (bs[2] as int - 0x80) * 64 + (bs[3] as int - 0x80) == n;
    }
  }

  /** Decoding undoes encoding: the encoder is injective and its output well-formed. */
  lemma {:induction false} DecodeEncode(s: string)
    ensures Decode(Encode(s)) == Some(s)
  {
    if s != [] {
      var e := EncodeChar(s[0]);
      var tail := Encode(s[1..]);
      DecodeCharOfEncoded(s[0], tail);
      assert (e + tail)[|e|..] == tail;
      DecodeEncode(s[1..]);
      assert [s[0]] + s[1..] == s;
    }
  }
}

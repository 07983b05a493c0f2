/** UTF-8 as RFC 3629 defines it, and hexadecimal text of bytes as Python writes and reads it. */
module Utf8 {
  import opened Common

  type byte = b: int | 0 <= b < 256

  // -- one character (section 3 of RFC 3629) --------------------------------------

  function EncodeChar(c: char): (r: seq<byte>)
    ensures 1 <= |r| <= 4
  {
    var n := c as int;
    if n < 0x80 then [n]
    else if n < 0x800 then [0xC0 + n / 64, 0x80 + n % 64]
    else if n < 0x10000 then [0xE0 + n / 4096, 0x80 + n / 64 % 64, 0x80 + n % 64]
    else [0xF0 + n / 262144, 0x80 + n / 4096 % 64, 0x80 + n / 64 % 64, 0x80 + n % 64]
  }

  predicate IsTail(b: byte) { 0x80 <= b < 0xC0 }

  predicate IsScalar(n: int) {
    0 <= n < 0xD800 || 0xE000 <= n < 0x110000
  }

  // The code points that two, three and four bytes carry.
  function Two(a: int, b: int): int { (a - 0xC0) * 64 + (b - 0x80) }

  function Three(a: int, b: int, c: int): int { (a - 0xE0) * 4096 + (b - 0x80) * 64 + (c - 0x80) }

  function Four(a: int, b: int, c: int, d: int): int {
    (a - 0xF0) * 262144 + (b - 0x80) * 4096 + (c - 0x80) * 64 + (d - 0x80)
  }

  // The character at the front and how many bytes it takes; overlong forms, surrogates and values
  // past U+10FFFF are refused.
  function DecodeFirst(bytes: seq<byte>): (r: Option<(char, nat)>)
    ensures r.Some? ==> 1 <= r.value.1 <= |bytes|
  {
    if |bytes| >= 1 && bytes[0] < 0x80 then Some((bytes[0] as char, 1))
    else if |bytes| >= 2 && 0xC0 <= bytes[0] < 0xE0 && IsTail(bytes[1]) then
      var n := Two(bytes[0], bytes[1]);
      if n >= 0x80 then Some((n as char, 2)) else None
    else if |bytes| >= 3 && 0xE0 <= bytes[0] < 0xF0 && IsTail(bytes[1]) && IsTail(bytes[2]) then
      var n := Three(bytes[0], bytes[1], bytes[2]);
      if n >= 0x800 && IsScalar(n) then Some((n as char, 3)) else None
    else if |bytes| >= 4 && 0xF0 <= bytes[0] < 0xF8 && IsTail(bytes[1]) && IsTail(bytes[2]) && IsTail(bytes[3]) then
      var n := Four(bytes[0], bytes[1], bytes[2], bytes[3]);
      if n >= 0x10000 && IsScalar(n) then Some((n as char, 4)) else None
    else None
  }

  lemma DigitsOfCode(n: int)
    requires 0 <= n < 0x110000
    ensures n == n / 64 * 64 + n % 64
    ensures n / 64 == n / 4096 * 64 + n / 64 % 64
    ensures n / 4096 == n / 262144 * 64 + n / 4096 % 64
    ensures n / 262144 < 8
    ensures n < 0x10000 ==> n / 4096 < 16
    ensures n < 0x800 ==> n / 64 < 32
  {
    assert n / 4096 == n / 64 / 64;
    assert n / 262144 == n / 4096 / 64;
  }

  lemma FirstOfEncoded(c: char, rest: seq<byte>)
    ensures DecodeFirst(EncodeChar(c) + rest) == Some((c, |EncodeChar(c)|))
  {
    var n := c as int;
    DigitsOfCode(n);
    var own := EncodeChar(c);
    assert forall i | 0 <= i < |own| :: (own + rest)[i] == own[i];
    if n < 0x80 {
      assert own == [n];
    } else if n < 0x800 {
      assert Two(own[0], own[1]) == n;
    } else if n < 0x10000 {
      assert Three(own[0], own[1], own[2]) == n;
    } else {
      assert Four(own[0], own[1], own[2], own[3]) == n;
    }
  }

  // -- strings --------------------------------------------------------------------

  function Encode(s: string): seq<byte> {
    if s == [] then [] else EncodeChar(s[0]) + Encode(s[1..])
  }

  function Decode(bytes: seq<byte>): Option<string>
    decreases |bytes|
  {
    if bytes == [] then Some([])
    else
      var first := DecodeFirst(bytes);
      if first.None? then None
      else
        var rest := Decode(bytes[first.value.1..]);
        if rest.None? then None else Some([first.value.0] + rest.value)
  }

  lemma {:induction false} DecodeEncode(s: string)
    ensures Decode(Encode(s)) == Some(s)
  {
    if s != [] {
      var own, rest := EncodeChar(s[0]), Encode(s[1..]);
      FirstOfEncoded(s[0], rest);
      DecodeEncode(s[1..]);
      assert (own + rest)[|own|..] == rest;
      assert Decode(own + rest) == Some([s[0]] + s[1..]);
      assert s == [s[0]] + s[1..];
    }
  }

  // -- hexadecimal text ---------------------------------------------------------------

  predicate IsHexDigit(c: char) {
    '0' <= c <= '9' || 'a' <= c <= 'f' || 'A' <= c <= 'F'
  }

  function HexDigit(n: int): (c: char)
    requires 0 <= n < 16
    ensures '0' <= c <= '9' || 'a' <= c <= 'f'
  {
    if n < 10 then ('0' as int + n) as char else ('a' as int + n - 10) as char
  }

  function HexValue(c: char): (n: int)
    requires IsHexDigit(c)
    ensures 0 <= n < 16
  {
    if c <= '9' then c as int - '0' as int
    else if c <= 'F' then c as int - 'A' as int + 10
    else c as int - 'a' as int + 10
  }

  lemma HexDigitIs(n: int)
    requires 0 <= n < 16
    ensures HexValue(HexDigit(n)) == n
  {
  }

  // Two digits make a byte.
  function Byte(high: char, low: char): byte
    requires IsHexDigit(high) && IsHexDigit(low)
  {
    16 * HexValue(high) + HexValue(low)
  }

  // bytes.hex()
  function Hex(bytes: seq<byte>): (s: string)
    ensures forall c <- s :: IsHexDigit(c)
  {
    if bytes == [] then []
    else [HexDigit(bytes[0] / 16), HexDigit(bytes[0] % 16)] + Hex(bytes[1..])
  }

  // bytes.fromhex(): whitespace between bytes is skipped, anything else but digit pairs refused.
  function FromHex(s: string): Option<seq<byte>>
    decreases |s|
  {
    if s == [] then Some([])
    else if s[0] == ' ' || '\t' <= s[0] <= '\r' then FromHex(s[1..])
    else if |s| >= 2 && IsHexDigit(s[0]) && IsHexDigit(s[1]) then
      var rest := FromHex(s[2..]);
      if rest.None? then None else Some([Byte(s[0], s[1])] + rest.value)
    else None
  }

  lemma {:induction false} FromHexOfHex(bytes: seq<byte>)
    ensures FromHex(Hex(bytes)) == Some(bytes)
  {
    if bytes != [] {
      FromHexOfHex(bytes[1..]);
      var s := Hex(bytes);
      assert s[2..] == Hex(bytes[1..]);
      HexDigitIs(bytes[0] / 16);
      HexDigitIs(bytes[0] % 16);
      assert Byte(s[0], s[1]) == bytes[0];
      assert FromHex(s) == Some([Byte(s[0], s[1])] + bytes[1..]);
      assert bytes == [bytes[0]] + bytes[1..];
    }
  }
}

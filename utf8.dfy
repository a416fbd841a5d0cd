/**
 * `Buffer.prototype.toString()` with no encoding argument: the bytes read as
 * UTF-8. A JavaScript string is modelled by the Unicode scalar values it
 * holds, so a character beyond U+FFFF, which JavaScript stores as two UTF-16
 * code units, is one `char` here.
 */
module Utf8Text {
  import opened Protocol
  import opened HexFormat

  /** U+FFFD, which the decoder puts in place of each ill-formed sequence. */
  const REPLACEMENT: char := '\U{FFFD}'

  /** Byte i of s is present and its value lies within lo .. hi. */
  predicate InRange(s: seq<Byte>, i: nat, lo: nat, hi: nat)
  {
    i < |s| && lo <= Val(s[i]) <= hi
  }

  /**
   * The first character the UTF-8 decoder of the WHATWG Encoding Standard
   * reads off s, and how many bytes it takes. A well-formed sequence gives
   * its scalar value. A byte that cannot begin a sequence, or a sequence
   * broken off by a byte outside its allowed range or by the end of the
   * data, gives U+FFFD for the bytes read so far; the byte that broke the
   * sequence is read again as the next lead byte.
   */
  function Lead(s: seq<Byte>): (r: (char, nat))
    requires s != []
    ensures 1 <= r.1 <= |s| && r.1 <= 4
  {
    var b0 := Val(s[0]);
    if b0 < 0x80 then (b0 as char, 1)
    else if 0xC2 <= b0 <= 0xDF then
      if InRange(s, 1, 0x80, 0xBF) then (((b0 - 0xC0) * 64 + (Val(s[1]) - 0x80)) as char, 2)
      else (REPLACEMENT, 1)
    else if 0xE0 <= b0 <= 0xEF then
      // E0 must not start an overlong form, ED must not reach the surrogates.
      var lo := if b0 == 0xE0 then 0xA0 else 0x80;
      var hi := if b0 == 0xED then 0x9F else 0xBF;
      if !InRange(s, 1, lo, hi) then (REPLACEMENT, 1)
      else if !InRange(s, 2, 0x80, 0xBF) then (REPLACEMENT, 2)
      else (((b0 - 0xE0) * 4096 + (Val(s[1]) - 0x80) * 64 + (Val(s[2]) - 0x80)) as char, 3)
    else if 0xF0 <= b0 <= 0xF4 then
      // F0 must not start an overlong form, F4 must not pass U+10FFFF.
      var lo := if b0 == 0xF0 then 0x90 else 0x80;
      var hi := if b0 == 0xF4 then 0x8F else 0xBF;
      if !InRange(s, 1, lo, hi) then (REPLACEMENT, 1)
      else if !InRange(s, 2, 0x80, 0xBF) then (REPLACEMENT, 2)
      else if !InRange(s, 3, 0x80, 0xBF) then (REPLACEMENT, 3)
      else (((b0 - 0xF0) * 262144 + (Val(s[1]) - 0x80) * 4096 + (Val(s[2]) - 0x80) * 64 + (Val(s[3]) - 0x80)) as char, 4)
    else (REPLACEMENT, 1)
  }

  /** The text `toString()` gives for the bytes s: never more characters than bytes. */
  function Decode(s: seq<Byte>): (t: string)
    ensures |t| <= |s|
    decreases |s|
  {
    if s == [] then []
    else
      var r := Lead(s);
      [r.0] + Decode(s[r.1..])
  }

  /** A number below 256 as a byte. */
  function ByteOf(n: nat): (b: Byte)
    requires n < 256
    ensures Val(b) == n
  {
    ByteValue(n);
    n as Byte
  }

  /** The UTF-8 form of one character: one byte below U+0080, up to four beyond U+FFFF. */
  function EncodeChar(c: char): (b: seq<Byte>)
    ensures 1 <= |b| <= 4
  {
    var n := c as int;
    if n < 0x80 then [ByteOf(n)]
    else if n < 0x800 then [ByteOf(0xC0 + n / 64), ByteOf(0x80 + n % 64)]
    else if n < 0x10000 then [ByteOf(0xE0 + n / 4096), ByteOf(0x80 + n / 64 % 64), ByteOf(0x80 + n % 64)]
    else [ByteOf(0xF0 + n / 262144), ByteOf(0x80 + n / 4096 % 64), ByteOf(0x80 + n / 64 % 64), ByteOf(0x80 + n % 64)]
  }

  /** The UTF-8 form of a text, character by character. */
  function Encode(t: string): seq<Byte>
  {
    if t == [] then [] else EncodeChar(t[0]) + Encode(t[1..])
  }

  /*
   * Properties of the decoding.
   */

  /** The decoder reads the encoded form of c, followed by anything, as c, taking exactly its bytes. */
  lemma LeadOfEncoded(c: char, rest: seq<Byte>)
    ensures Lead(EncodeChar(c) + rest) == (c, |EncodeChar(c)|)
  {
    var n := c as int;
    if n < 0x80 {
    } else if n < 0x800 {
      LeadOfTwo(c, rest);
    } else if n < 0x10000 {
      LeadOfThree(c, rest);
    } else {
      LeadOfFour(c, rest);
    }
  }

  lemma LeadOfTwo(c: char, rest: seq<Byte>)
    requires 0x80 <= c as int < 0x800
    ensures Lead(EncodeChar(c) + rest) == (c, 2)
  {
    var n := c as int;
    var s := EncodeChar(c) + rest;
    assert Val(s[0]) == 0xC0 + n / 64 && Val(s[1]) == 0x80 + n % 64;
    assert (n / 64) * 64 + n % 64 == n;
  }

  lemma LeadOfThree(c: char, rest: seq<Byte>)
    requires 0x800 <= c as int < 0x10000
    ensures Lead(EncodeChar(c) + rest) == (c, 3)
  {
    var n := c as int;
    var s := EncodeChar(c) + rest;
    assert Val(s[0]) == 0xE0 + n / 4096 && Val(s[1]) == 0x80 + n / 64 % 64 && Val(s[2]) == 0x80 + n % 64;
    ThreeDigits(n);
  }

  lemma LeadOfFour(c: char, rest: seq<Byte>)
    requires 0x10000 <= c as int
    ensures Lead(EncodeChar(c) + rest) == (c, 4)
  {
    var n := c as int;
    var s := EncodeChar(c) + rest;
    FourDigits(n);
    assert Val(s[0]) == 0xF0 + n / 262144 && Val(s[1]) == 0x80 + n / 4096 % 64;
    assert Val(s[2]) == 0x80 + n / 64 % 64 && Val(s[3]) == 0x80 + n % 64;
  }

  /** n in base 64 with three digits, and the second digit's range for the two lead bytes with a restricted one. */
  lemma ThreeDigits(n: int)
    requires 0x800 <= n < 0x10000 && !(0xD800 <= n < 0xE000)
    ensures (n / 4096) * 4096 + (n / 64 % 64) * 64 + n % 64 == n
    ensures n / 4096 == 0 ==> n / 64 % 64 >= 0x20
    ensures n / 4096 == 0xD ==> n / 64 % 64 < 0x20
  {
  }

  /** n in base 64 with four digits, and the second digit's range for the two lead bytes with a restricted one. */
  lemma FourDigits(n: int)
    requires 0x10000 <= n <= 0x10FFFF
    ensures (n / 262144) * 262144 + (n / 4096 % 64) * 4096 + (n / 64 % 64) * 64 + n % 64 == n
    ensures n / 262144 <= 4
    ensures n / 262144 == 0 ==> n / 4096 % 64 >= 0x10
    ensures n / 262144 == 4 ==> n / 4096 % 64 < 0x10
  {
  }

  /** Decoding the UTF-8 form of any text gives the text back. */
  lemma {:induction false} DecodeEncode(t: string)
    ensures Decode(Encode(t)) == t
  {
    if t != [] {
      var s := Encode(t);
      assert s == EncodeChar(t[0]) + Encode(t[1..]);
      LeadOfEncoded(t[0], Encode(t[1..]));
      assert s[|EncodeChar(t[0])|..] == Encode(t[1..]);
      DecodeEncode(t[1..]);
    }
  }

  /** Bytes below 0x80 read as one character each, with the byte's value. */
  lemma {:induction false} AsciiText(s: seq<Byte>)
    requires forall i :: 0 <= i < |s| ==> Val(s[i]) < 0x80
    ensures |Decode(s)| == |s|
    ensures forall i :: 0 <= i < |s| ==> Decode(s)[i] as int == Val(s[i])
    decreases |s|
  {
    if s != [] {
      AsciiText(s[1..]);
      assert Decode(s) == [Val(s[0]) as char] + Decode(s[1..]);
    }
  }

  /** Two bytes of one character read as that character; a byte that can begin no sequence reads as U+FFFD. */
  lemma NonAsciiExamples()
    ensures Decode([0xC3, 0xA9]) == "é"
    ensures Decode([0xFF]) == [REPLACEMENT]
    ensures Decode([0xE2, 0x82]) == [REPLACEMENT]
    ensures Decode([0xE2, 0x41]) == [REPLACEMENT, 'A']
  {
    assert Decode([0xC3, 0xA9]) == [Lead([0xC3, 0xA9]).0] + Decode([]);
    assert Decode([0xE2, 0x41]) == [REPLACEMENT] + Decode([0x41]);
    assert Decode([0x41]) == ['A'] + Decode([]);
  }
}

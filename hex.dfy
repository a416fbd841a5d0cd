/**
 * The string helpers the serial and node layers use to present numbers:
 * `Number.prototype.toString(radix)`, the zero-padded hexadecimal forms
 * toHex, toHex8 and toHex32, JavaScript's implicit number-to-string
 * conversion in `a + "." + b`, and Buffer.toString on a byte slice.
 */
module HexFormat {
  import opened Wrappers
  import opened Protocol

  /** The lower-case digit JavaScript prints for value d. */
  function Digit(d: nat): char
    requires d < 16
  {
    "0123456789abcdef"[d]
  }

  /** The value of digit c in the given base, if c is one. */
  function DigitValue(c: char, base: nat): Option<nat>
  {
    if '0' <= c <= '9' && (c as int) - ('0' as int) < base then Some((c as int) - ('0' as int))
    else if 'a' <= c <= 'f' && (c as int) - ('a' as int) + 10 < base then Some((c as int) - ('a' as int) + 10)
    else None
  }

  /** `n.toString(base)` for a non-negative integer: no sign, no leading zeros. */
  function ToRadix(n: nat, base: nat): (s: string)
    requires base == 10 || base == 16
    decreases n
  {
    if n < base then [Digit(n)] else ToRadix(n / base, base) + [Digit(n % base)]
  }

  /** The value of a string of digits read most significant first (the empty string reads as 0). */
  function ParseDigits(s: string, base: nat): Option<nat>
  {
    if s == [] then Some(0) else Shift(ParseDigits(s[..|s| - 1], base), DigitValue(s[|s| - 1], base), base)
  }

  /** Appends digit d to the value v read so far; fails if either failed. */
  function Shift(v: Option<nat>, d: Option<nat>, base: nat): Option<nat>
  {
    if v.Some? && d.Some? then Some(v.value * base + d.value) else None
  }

  /** A non-empty hexadecimal literal, as a reader of the presented strings would decode it. */
  function ParseHex(s: string): Option<nat>
  {
    if s == [] then None else ParseDigits(s, 16)
  }

  function Pow(base: nat, k: nat): nat
  {
    if k == 0 then 1 else base * Pow(base, k - 1)
  }

  /** `s.slice(-k)`: the last k characters, or all of s when it is shorter. */
  function Last(s: string, k: nat): (r: string)
    ensures |r| == if |s| < k then |s| else k
    ensures r == s[|s| - |r|..]
  {
    if |s| <= k then s else s[|s| - k..]
  }

  function Zeros(k: nat): (z: string)
    ensures |z| == k
    ensures forall i :: 0 <= i < k ==> z[i] == '0'
  {
    if k == 0 then [] else Zeros(k - 1) + "0"
  }

  /** The unsigned value of a byte. */
  function Val(b: Byte): nat
  {
    b as int
  }

  /** A number below 256 stored in a byte reads back unchanged. */
  lemma ByteValue(n: nat)
    requires n < 256
    ensures Val(n as Byte) == n
  {
  }

  /** toHex8(b): the two-character hexadecimal form of a byte; of `undefined`, the tail of "00NaN". */
  function ToHex8(b: Option<Byte>): string
  {
    if b.Some? then Last("00" + ToRadix(Val(b.value), 16), 2) else Last("00" + "NaN", 2)
  }

  /** toHex(d): "0x" and the last four hexadecimal digits of d. */
  function ToHex(d: nat): string
  {
    "0x" + Last("0000" + ToRadix(d, 16), 4)
  }

  /** toHex32(b1, b2, b3, b4): the four toHex8 forms side by side. */
  function ToHex32(b1: Option<Byte>, b2: Option<Byte>, b3: Option<Byte>, b4: Option<Byte>): string
  {
    ToHex8(b1) + ToHex8(b2) + ToHex8(b3) + ToHex8(b4)
  }

  /** `(hi << 8) | lo` on two payload bytes: the big-endian value of the pair. */
  function Word(hi: Byte, lo: Byte): (w: nat)
    ensures w < 0x10000
  {
    Val(hi) * 256 + Val(lo)
  }

  /** JavaScript's `"" + x` on a payload byte: decimal digits, or "undefined" when the byte is missing. */
  function DecimalText(b: Option<Byte>): string
  {
    if b.Some? then ToRadix(Val(b.value), 10) else "undefined"
  }

  /*
   * Properties of the presentations.
   */

  lemma DigitRoundTrip(d: nat, base: nat)
    requires (base == 10 || base == 16) && d < base
    ensures DigitValue(Digit(d), base) == Some(d)
  {
  }

  lemma ParseSnoc(s: string, c: char, base: nat)
    ensures ParseDigits(s + [c], base) == Shift(ParseDigits(s, base), DigitValue(c, base), base)
  {
    assert (s + [c])[..|s|] == s;
  }

  /** Reading what toString(base) printed gives the number back. */
  lemma {:induction false} ToRadixRoundTrip(n: nat, base: nat)
    requires base == 10 || base == 16
    ensures ParseDigits(ToRadix(n, base), base) == Some(n)
    decreases n
  {
    if n < base {
      SingleDigitRoundTrip(n, base);
    } else {
      ToRadixRoundTrip(n / base, base);
      LastDigitRoundTrip(n, base);
    }
  }

  lemma SingleDigitRoundTrip(n: nat, base: nat)
    requires (base == 10 || base == 16) && n < base
    ensures ParseDigits(ToRadix(n, base), base) == Some(n)
  {
    assert ToRadix(n, base) == [] + [Digit(n)];
    DigitRoundTrip(n, base);
    ParseSnoc([], Digit(n), base);
  }

  /** Printing n is printing n / base and then the digit of n % base; reading it back follows the same steps. */
  lemma LastDigitRoundTrip(n: nat, base: nat)
    requires (base == 10 || base == 16) && n >= base
    requires ParseDigits(ToRadix(n / base, base), base) == Some(n / base)
    ensures ParseDigits(ToRadix(n, base), base) == Some(n)
  {
    var q, r := n / base, n % base;
    DivMod(n, base);
    DigitRoundTrip(r, base);
    assert ToRadix(n, base) == ToRadix(q, base) + [Digit(r)];
    ParseSnoc(ToRadix(q, base), Digit(r), base);
  }

  lemma DivMod(n: nat, base: nat)
    requires base == 10 || base == 16
    ensures n == (n / base) * base + n % base && n % base < base
    ensures Shift(Some(n / base), Some(n % base), base) == Some(n)
  {
  }

  lemma DivBound(n: nat, base: nat, p: nat)
    requires (base == 10 || base == 16) && n < base * p
    ensures n / base < p
  {
  }

  /** toString(base) prints digits only: no sign, point or separator. */
  lemma {:induction false} ToRadixDigits(n: nat, base: nat)
    requires base == 10 || base == 16
    ensures forall c :: c in ToRadix(n, base) ==> c in "0123456789abcdef"
    decreases n
  {
    if n >= base {
      ToRadixDigits(n / base, base);
      assert ToRadix(n, base) == ToRadix(n / base, base) + [Digit(n % base)];
    }
  }

  /** toString(base) of a number below base^k has at most k digits. */
  lemma {:induction false} ToRadixLength(n: nat, base: nat, k: nat)
    requires (base == 10 || base == 16) && n < Pow(base, k)
    ensures 1 <= |ToRadix(n, base)| <= if k == 0 then 1 else k
    decreases n
  {
    if n >= base {
      assert k >= 2;
      DivBound(n, base, Pow(base, k - 1));
      ToRadixLength(n / base, base, k - 1);
    }
  }

  /** Leading zeros do not change the value of a digit string. */
  lemma {:induction false} ParseLeadingZeros(z: nat, s: string, base: nat)
    requires base == 10 || base == 16
    ensures ParseDigits(Zeros(z) + s, base) == ParseDigits(s, base)
    decreases |s|
  {
    if s == [] {
      ParseZeros(z, base);
      assert Zeros(z) + s == Zeros(z);
    } else {
      var init := s[..|s| - 1];
      ParseLeadingZeros(z, init, base);
      assert Zeros(z) + s == (Zeros(z) + init) + [s[|s| - 1]];
      assert s == init + [s[|s| - 1]];
      ParseSnoc(Zeros(z) + init, s[|s| - 1], base);
      ParseSnoc(init, s[|s| - 1], base);
    }
  }

  lemma {:induction false} ParseZeros(z: nat, base: nat)
    requires base == 10 || base == 16
    ensures ParseDigits(Zeros(z), base) == Some(0)
  {
    if z > 0 {
      ParseZeros(z - 1, base);
      ParseSnoc(Zeros(z - 1), '0', base);
    }
  }

  /** Padding with zeros and keeping the last k characters keeps every digit of a short number. */
  lemma PaddedTail(n: nat, pad: nat)
    requires |ToRadix(n, 16)| <= pad
    ensures Last(Zeros(pad) + ToRadix(n, 16), pad) == Zeros(pad - |ToRadix(n, 16)|) + ToRadix(n, 16)
  {
    var d := ToRadix(n, 16);
    var s := Zeros(pad) + d;
    var r := Last(s, pad);
    assert r == s[|d|..];
    assert |r| == pad;
    forall i | 0 <= i < pad
      ensures r[i] == (Zeros(pad - |d|) + d)[i]
    {
      if i < pad - |d| {
        assert r[i] == s[|d| + i] == Zeros(pad)[|d| + i];
      } else {
        assert r[i] == s[|d| + i] == d[i - (pad - |d|)];
      }
    }
  }

  /** A number padded with zeros to pad digits and cut to its last pad characters reads back as the number. */
  lemma PaddedRoundTrip(n: nat, pad: nat)
    requires |ToRadix(n, 16)| <= pad
    ensures |Last(Zeros(pad) + ToRadix(n, 16), pad)| == pad
    ensures ParseHex(Last(Zeros(pad) + ToRadix(n, 16), pad)) == Some(n)
  {
    var d := ToRadix(n, 16);
    PaddedTail(n, pad);
    ToRadixRoundTrip(n, 16);
    ParseLeadingZeros(pad - |d|, d, 16);
  }

  lemma Pow16()
    ensures Pow(16, 2) == 256 && Pow(16, 4) == 0x10000
  {
    assert Pow(16, 0) == 1;
    assert Pow(16, 1) == 16;
    assert Pow(16, 2) == 256;
    assert Pow(16, 3) == 4096;
  }

  /** toHex8 of a byte is two hexadecimal digits that read back as the byte. */
  lemma ToHex8RoundTrip(b: Byte)
    ensures |ToHex8(Some(b))| == 2
    ensures ParseHex(ToHex8(Some(b))) == Some(Val(b))
  {
    Pow16();
    ToRadixLength(Val(b), 16, 2);
    assert "00" == Zeros(2);
    PaddedRoundTrip(Val(b), 2);
  }

  /** toHex of a 16-bit value is "0x" and four hexadecimal digits that read back as the value. */
  lemma ToHexRoundTrip(d: nat)
    requires d < 0x10000
    ensures |ToHex(d)| == 6 && ToHex(d)[..2] == "0x"
    ensures ParseHex(ToHex(d)[2..]) == Some(d)
  {
    Pow16();
    ToRadixLength(d, 16, 4);
    assert "0000" == Zeros(4);
    PaddedRoundTrip(d, 4);
    assert ToHex(d)[2..] == Last("0000" + ToRadix(d, 16), 4);
  }

  /** toHex32 is eight hexadecimal digits, two per byte, each pair reading back as its byte. */
  lemma ToHex32RoundTrip(a: Byte, b: Byte, c: Byte, d: Byte)
    ensures var h := ToHex32(Some(a), Some(b), Some(c), Some(d));
      |h| == 8
      && ParseHex(h[..2]) == Some(Val(a)) && ParseHex(h[2..4]) == Some(Val(b))
      && ParseHex(h[4..6]) == Some(Val(c)) && ParseHex(h[6..]) == Some(Val(d))
  {
    ToHex8RoundTrip(a);
    ToHex8RoundTrip(b);
    ToHex8RoundTrip(c);
    ToHex8RoundTrip(d);
    var w, x, y, z := ToHex8(Some(a)), ToHex8(Some(b)), ToHex8(Some(c)), ToHex8(Some(d));
    var h := w + x + y + z;
    assert h[..2] == w;
    assert h[2..4] == x;
    assert h[4..6] == y;
    assert h[6..] == z;
  }

  /** Distinct manufacturer, device-type or device ids present as distinct strings. */
  lemma ToHexInjective(d: nat, e: nat)
    requires d < 0x10000 && e < 0x10000 && ToHex(d) == ToHex(e)
    ensures d == e
  {
    ToHexRoundTrip(d);
    ToHexRoundTrip(e);
  }

  /** A present byte never presents as the text a missing one gives. */
  lemma ToHex8MissingDistinct(b: Byte)
    ensures ToHex8(Some(b)) != ToHex8(None)
  {
    ToHex8RoundTrip(b);
    assert ToHex8(None) == "aN";
    assert DigitValue('N', 16).None?;
    calc {
      ParseHex("aN");
      ParseDigits("aN", 16);
      { ParseSnoc("a", 'N', 16); assert "aN" == "a" + ['N']; }
      None;
    }
  }

  /** The decimal text of a present byte is made of digits, so the "." joining two of them can be found again. */
  lemma DecimalTextRoundTrip(b: Byte)
    ensures ParseDigits(DecimalText(Some(b)), 10) == Some(Val(b))
    ensures '.' !in DecimalText(Some(b))
  {
    ToRadixRoundTrip(Val(b), 10);
    ToRadixDigits(Val(b), 10);
  }

  /*
   * Joined hexadecimal forms.
   */

  /** `strings.join(" ")`. */
  function JoinSpaced(ws: seq<string>): string
  {
    if ws == [] then ""
    else if |ws| == 1 then ws[0]
    else JoinSpaced(ws[..|ws| - 1]) + " " + ws[|ws| - 1]
  }

  /** `toHex8` of each byte, joined with single spaces. */
  function JoinHex(s: seq<Byte>): string
  {
    JoinSpaced(seq(|s|, i requires 0 <= i < |s| => ToHex8(Some(s[i]))))
  }

  /** Joining two-character words: word i is the pair at 3i and, but for the last, a space follows it. */
  lemma {:induction false} JoinSpacedLayout(ws: seq<string>)
    requires ws != [] && forall i :: 0 <= i < |ws| ==> |ws[i]| == 2
    ensures |JoinSpaced(ws)| == 3 * |ws| - 1
    ensures forall i :: 0 <= i < |ws| ==> JoinSpaced(ws)[3 * i..3 * i + 2] == ws[i]
    ensures forall i :: 0 <= i < |ws| - 1 ==> JoinSpaced(ws)[3 * i + 2] == ' '
    decreases |ws|
  {
    if |ws| > 1 {
      var init := ws[..|ws| - 1];
      JoinSpacedLayout(init);
      var a, b := JoinSpaced(init), ws[|ws| - 1];
      var t := a + " " + b;
      assert JoinSpaced(ws) == t;
      forall i | 0 <= i < |ws|
        ensures t[3 * i..3 * i + 2] == ws[i]
      {
        if i < |ws| - 1 {
          assert t[3 * i..3 * i + 2] == a[3 * i..3 * i + 2];
          assert ws[i] == init[i];
        } else {
          assert t[3 * i..3 * i + 2] == b;
        }
      }
      forall i | 0 <= i < |ws| - 1
        ensures t[3 * i + 2] == ' '
      {
        if i < |ws| - 2 {
          assert t[3 * i + 2] == a[3 * i + 2];
        }
      }
    }
  }

  /** In the joined form of a non-empty list, byte i is read back from the two digits at 3i, and a space follows all but the last. */
  lemma JoinHexRoundTrip(s: seq<Byte>, i: nat)
    requires i < |s|
    ensures |JoinHex(s)| == 3 * |s| - 1
    ensures ParseHex(JoinHex(s)[3 * i..3 * i + 2]) == Some(Val(s[i]))
    ensures i < |s| - 1 ==> JoinHex(s)[3 * i + 2] == ' '
  {
    var ws := seq(|s|, k requires 0 <= k < |s| => ToHex8(Some(s[k])));
    forall k | 0 <= k < |s| ensures |ws[k]| == 2 {
      ToHex8RoundTrip(s[k]);
    }
    JoinSpacedLayout(ws);
    assert JoinHex(s) == JoinSpaced(ws);
    assert ws[i] == ToHex8(Some(s[i]));
    ToHex8RoundTrip(s[i]);
  }
}

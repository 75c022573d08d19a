/** UTF-8 as defined by the syntax in section 4 of RFC 3629, which is exactly
    what Rust's `str::from_utf8` accepts. Both bots test engine data with it:
    valid data (for Discord, at most 1024 bytes of it) is shown as text, and
    anything else is sent as a file. */
module Utf8 {
  import opened Wrappers

  newtype byte = b: int | 0 <= b < 0x100

  /** UTF8-tail = %x80-BF */
  predicate IsTail(b: byte) {
    0x80 <= b <= 0xBF
  }

  /** UTF8-char = UTF8-1 / UTF8-2 / UTF8-3 / UTF8-4, one alternative per length. */
  predicate IsChar(s: seq<byte>) {
    (|s| == 1 && s[0] <= 0x7F)
    || (|s| == 2 && 0xC2 <= s[0] <= 0xDF && IsTail(s[1]))
    || (|s| == 3 && IsTail(s[2]) &&
         ((s[0] == 0xE0 && 0xA0 <= s[1] <= 0xBF)
          || (0xE1 <= s[0] <= 0xEC && IsTail(s[1]))
          || (s[0] == 0xED && 0x80 <= s[1] <= 0x9F)
          || (0xEE <= s[0] <= 0xEF && IsTail(s[1]))))
    || (|s| == 4 && IsTail(s[2]) && IsTail(s[3]) &&
         ((s[0] == 0xF0 && 0x90 <= s[1] <= 0xBF)
          || (0xF1 <= s[0] <= 0xF3 && IsTail(s[1]))
          || (s[0] == 0xF4 && 0x80 <= s[1] <= 0x8F)))
  }

  /** UTF8-octets = *( UTF8-char ) */
  ghost predicate Valid(s: seq<byte>)
    decreases |s|
  {
    |s| == 0
    || (1 <= |s| && IsChar(s[..1]) && Valid(s[1..]))
    || (2 <= |s| && IsChar(s[..2]) && Valid(s[2..]))
    || (3 <= |s| && IsChar(s[..3]) && Valid(s[3..]))
    || (4 <= |s| && IsChar(s[..4]) && Valid(s[4..]))
  }

  /** The length of the encoded character that a lead byte announces, 0 for a byte
      that cannot start one. */
  function Width(lead: byte): (w: nat)
    ensures w <= 4
  {
    if lead <= 0x7F then 1
    else if 0xC2 <= lead <= 0xDF then 2
    else if 0xE0 <= lead <= 0xEF then 3
    else if 0xF0 <= lead <= 0xF4 then 4
    else 0
  }

  /** The grammar is unambiguous: the lead byte alone fixes how long a character is. */
  lemma WidthOfChar(s: seq<byte>)
    requires IsChar(s)
    ensures |s| == Width(s[0])
  {
  }

  /** Valid, read the way a decoder reads it: the lead byte picks the only
      candidate for the first character. */
  lemma {:induction false} ValidStep(s: seq<byte>)
    requires s != []
    ensures Valid(s) <==> (var w := Width(s[0]);
                            0 < w <= |s| && IsChar(s[..w]) && Valid(s[w..]))
  {
    var w := Width(s[0]);
    forall k | 1 <= k <= 4 && k <= |s| && IsChar(s[..k])
      ensures k == w
    {
      WidthOfChar(s[..k]);
    }
  }

  /** The scalar value that one encoded character stands for. */
  function CodePoint(s: seq<byte>): (n: int)
    requires IsChar(s)
    ensures 0 <= n < 0xD800 || 0xE000 <= n < 0x11_0000
    ensures |s| == 1 <==> n < 0x80
    ensures |s| == 2 <==> 0x80 <= n < 0x800
    ensures |s| == 3 <==> 0x800 <= n < 0x1_0000
    ensures |s| == 4 <==> 0x1_0000 <= n
  {
    if |s| == 1 then s[0] as int
    else if |s| == 2 then (s[0] as int - 0xC0) * 64 + (s[1] as int - 0x80)
    else if |s| == 3 then
      (s[0] as int - 0xE0) * 4096 + (s[1] as int - 0x80) * 64 + (s[2] as int - 0x80)
    else
      (s[0] as int - 0xF0) * 262144 + (s[1] as int - 0x80) * 4096
        + (s[2] as int - 0x80) * 64 + (s[3] as int - 0x80)
  }

  /** n split into its low six bits and the rest. */
  lemma SixBits(n: nat)
    ensures n == n / 64 * 64 + n % 64 && 0 <= n % 64 < 64
  {
  }

  function TwoBytes(n: nat): (r: seq<byte>)
    requires 0x80 <= n < 0x800
    ensures IsChar(r) && CodePoint(r) == n
  {
    SixBits(n);
    [(0xC0 + n / 64) as byte, (0x80 + n % 64) as byte]
  }

  function ThreeBytes(n: nat): (r: seq<byte>)
    requires 0x800 <= n < 0xD800 || 0xE000 <= n < 0x1_0000
    ensures IsChar(r) && CodePoint(r) == n
  {
    var n1 := n / 64;
    SixBits(n);
    SixBits(n1);
    [(0xE0 + n1 / 64) as byte, (0x80 + n1 % 64) as byte, (0x80 + n % 64) as byte]
  }

  function FourBytes(n: nat): (r: seq<byte>)
    requires 0x1_0000 <= n < 0x11_0000
    ensures IsChar(r) && CodePoint(r) == n
  {
    var n1 := n / 64;
    var n2 := n1 / 64;
    SixBits(n);
    SixBits(n1);
    SixBits(n2);
    [(0xF0 + n2 / 64) as byte, (0x80 + n2 % 64) as byte,
     (0x80 + n1 % 64) as byte, (0x80 + n % 64) as byte]
  }

  /** The shortest encoding of a character. */
  function EncodeChar(c: char): (r: seq<byte>)
    ensures IsChar(r) && CodePoint(r) == c as int
  {
    var n := c as int;
    if n < 0x80 then [n as byte]
    else if n < 0x800 then TwoBytes(n)
    else if n < 0x1_0000 then ThreeBytes(n)
    else FourBytes(n)
  }

  /** The character one encoded character stands for; encoding it again gives
      back the same bytes, so every character has exactly one encoding. */
  function DecodeChar(s: seq<byte>): (c: char)
    requires IsChar(s)
    ensures EncodeChar(c) == s
  {
    CodePointInjective(s, EncodeChar(CodePoint(s) as char));
    CodePoint(s) as char
  }

  /** Two encoded characters with the same code point are the same bytes. The
      solver can find this alone only by a costly search through the
      nonlinear arithmetic, which on some seeds exceeds the resource limit;
      the per-length lemmas below give it the digit-by-digit argument. */
  lemma CodePointInjective(s: seq<byte>, t: seq<byte>)
    requires IsChar(s) && IsChar(t) && CodePoint(s) == CodePoint(t)
    ensures s == t
  {
    assert |s| == |t|;
    if |s| == 4 {
      FourInjective(s, t);
    } else if |s| == 3 {
      ThreeInjective(s, t);
    }
  }

  lemma ThreeInjective(s: seq<byte>, t: seq<byte>)
    requires IsChar(s) && IsChar(t) && |s| == |t| == 3 && CodePoint(s) == CodePoint(t)
    ensures s == t
  {
    var a, b, c := s[0] as int - t[0] as int, s[1] as int - t[1] as int, s[2] as int - t[2] as int;
    assert (a * 64 + b) * 64 + c == 0;
    NoCarry(a * 64 + b, c);
    NoCarry(a, b);
  }

  lemma FourInjective(s: seq<byte>, t: seq<byte>)
    requires IsChar(s) && IsChar(t) && |s| == |t| == 4 && CodePoint(s) == CodePoint(t)
    ensures s == t
  {
    var a, b := s[0] as int - t[0] as int, s[1] as int - t[1] as int;
    var c, d := s[2] as int - t[2] as int, s[3] as int - t[3] as int;
    assert ((a * 64 + b) * 64 + c) * 64 + d == 0;
    NoCarry((a * 64 + b) * 64 + c, d);
    NoCarry(a * 64 + b, c);
    NoCarry(a, b);
  }

  /** A base-64 digit difference cannot be cancelled by the higher digits. */
  lemma NoCarry(high: int, low: int)
    requires -64 < low < 64 && high * 64 + low == 0
    ensures high == 0 && low == 0
  {
  }

  /** The bytes of a string, character after character. */
  function Encode(text: string): (r: seq<byte>)
    ensures Valid(r)
  {
    if text == [] then []
    else
      var head := EncodeChar(text[0]);
      var rest := Encode(text[1..]);
      assert (head + rest)[..|head|] == head && (head + rest)[|head|..] == rest;
      ValidStep(head + rest);
      head + rest
  }

  /** `str::from_utf8`: the text the bytes encode, or None when they are not UTF-8. */
  function Decode(s: seq<byte>): Option<string>
    decreases |s|
  {
    if s == [] then Some([])
    else
      var w := Width(s[0]);
      if w == 0 || w > |s| || !IsChar(s[..w]) then None
      else match Decode(s[w..])
        case None => None
        case Some(rest) => Some([DecodeChar(s[..w])] + rest)
  }

  /** Decoding succeeds exactly on valid UTF-8, and what it decodes encodes
      back to the same bytes. */
  lemma {:induction false} DecodeMeaning(s: seq<byte>)
    ensures Decode(s).Some? <==> Valid(s)
    ensures Decode(s).Some? ==> Encode(Decode(s).value) == s
    decreases |s|
  {
    if s != [] {
      ValidStep(s);
      var w := Width(s[0]);
      if w != 0 && w <= |s| && IsChar(s[..w]) {
        DecodeMeaning(s[w..]);
        if Decode(s[w..]).Some? {
          EncodeCons(DecodeChar(s[..w]), Decode(s[w..]).value, s, w);
        }
      }
    }
  }

  lemma EncodeCons(c: char, rest: string, s: seq<byte>, w: nat)
    requires w <= |s| && EncodeChar(c) == s[..w] && Encode(rest) == s[w..]
    ensures Encode([c] + rest) == s
  {
    assert ([c] + rest)[0] == c && ([c] + rest)[1..] == rest;
    assert s == s[..w] + s[w..];
  }

  /** Decoding is the inverse of encoding: every string survives the round trip. */
  lemma {:induction false} DecodeEncode(text: string)
    ensures Decode(Encode(text)) == Some(text)
  {
    if text != [] {
      var head := EncodeChar(text[0]);
      var rest := Encode(text[1..]);
      var s := head + rest;
      assert s[..|head|] == head && s[|head|..] == rest;
      DecodeEncode(text[1..]);
      assert [text[0]] + text[1..] == text;
    }
  }
}

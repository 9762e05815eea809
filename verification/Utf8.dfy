/** Well-formed UTF-8 as section 4 of RFC 3629 defines it; a string value is its UTF-8 byte sequence. */
module Utf8 {
  import opened Words

  predicate Continuation(b: Byte)
  {
    0x80 <= b < 0xC0
  }

  /** Length of the character `s` starts with, 0 when `s` starts with none. */
  function CharLength(s: seq<Byte>): (n: nat)
    requires s != []
    ensures n <= |s|
  {
    var b := s[0];
    if b < 0x80 then 1
    else if 0xC2 <= b < 0xE0 then
      if |s| >= 2 && Continuation(s[1]) then 2 else 0
    else if 0xE0 <= b < 0xF0 then
      if |s| >= 3 && Continuation(s[1]) && Continuation(s[2])
         && (b == 0xE0 ==> s[1] >= 0xA0) && (b == 0xED ==> s[1] < 0xA0) then 3 else 0
    else if 0xF0 <= b < 0xF5 then
      if |s| >= 4 && Continuation(s[1]) && Continuation(s[2]) && Continuation(s[3])
         && (b == 0xF0 ==> s[1] >= 0x90) && (b == 0xF4 ==> s[1] < 0x90) then 4 else 0
    else 0
  }

  predicate Valid(s: seq<Byte>)
  {
    s == [] || (CharLength(s) > 0 && Valid(s[CharLength(s)..]))
  }

  /** Remove every trailing NUL (`trim_end_matches('\0')`). */
  function TrimNul(s: seq<Byte>): (r: seq<Byte>)
    ensures |r| <= |s|
  {
    if s != [] && s[|s| - 1] == 0 then TrimNul(s[..|s| - 1]) else s
  }

  /** A NUL is a character of its own, so dropping or adding one at the end keeps a text well-formed. */
  lemma {:induction false} NulAtEnd(s: seq<Byte>)
    ensures Valid(s + [0]) == Valid(s)
  {
    if s == [] {
      assert s + [0] == [0];
      assert CharLength([0]) == 1 && [0][1..] == [];
    } else {
      FirstCharUnchanged(s);
      var n := CharLength(s);
      if n > 0 {
        NulAtEnd(s[n..]);
        assert (s + [0])[n..] == s[n..] + [0];
      }
    }
  }

  /** A NUL is no continuation byte, so it cannot complete a character. */
  lemma {:induction false} FirstCharUnchanged(s: seq<Byte>)
    requires s != []
    ensures CharLength(s + [0]) == CharLength(s)
  {
    var t := s + [0];
    assert t[0] == s[0];
    assert !Continuation(t[|s|]);
  }

  lemma {:induction false} TrimKeepsValid(s: seq<Byte>)
    requires Valid(s)
    ensures Valid(TrimNul(s))
  {
    if s != [] && s[|s| - 1] == 0 {
      assert s == s[..|s| - 1] + [0];
      NulAtEnd(s[..|s| - 1]);
      TrimKeepsValid(s[..|s| - 1]);
    }
  }

  lemma {:induction false} AsciiIsValid(s: seq<Byte>)
    requires forall i :: 0 <= i < |s| ==> s[i] < 0x80
    ensures Valid(s)
  {
    if s != [] {
      AsciiIsValid(s[1..]);
    }
  }

  /** One upper-case hexadecimal digit. */
  function HexDigit(d: nat): (c: Byte)
    requires d < 16
    ensures c < 0x80
  {
    if d < 10 then 0x30 + d else 0x41 + (d - 10)
  }

  /** Two upper-case hexadecimal digits a byte, the rendering of text that is not UTF-8. */
  function Hex(bs: seq<Byte>): (r: seq<Byte>)
    ensures |r| == 2 * |bs|
  {
    if bs == [] then [] else [HexDigit(bs[0] / 16), HexDigit(bs[0] % 16)] + Hex(bs[1..])
  }

  /** Byte `k` is rendered as two of the digits 0 to 9 and A to F, the high four bits first. */
  lemma {:induction false} HexDigitsOfByte(bs: seq<Byte>, k: nat)
    requires k < |bs|
    ensures Hex(bs)[2 * k] as char == "0123456789ABCDEF"[bs[k] / 16]
    ensures Hex(bs)[2 * k + 1] as char == "0123456789ABCDEF"[bs[k] % 16]
  {
    if k > 0 {
      HexDigitsOfByte(bs[1..], k - 1);
    }
  }

  lemma {:induction false} HexIsAscii(bs: seq<Byte>)
    ensures forall i :: 0 <= i < |Hex(bs)| ==> Hex(bs)[i] < 0x80
  {
    if bs != [] {
      HexIsAscii(bs[1..]);
    }
  }

  /** Trimming removes exactly the trailing NULs. */
  lemma {:induction false} TrimmedNuls(s: seq<Byte>)
    ensures TrimNul(s) <= s
    ensures forall i :: |TrimNul(s)| <= i < |s| ==> s[i] == 0
    ensures TrimNul(s) != [] ==> TrimNul(s)[|TrimNul(s)| - 1] != 0
  {
    if s != [] && s[|s| - 1] == 0 {
      TrimmedNuls(s[..|s| - 1]);
    }
  }

  /** The text a byte buffer is published as. */
  function Published(bs: seq<Byte>): seq<Byte>
  {
    if Valid(bs) then TrimNul(bs) else Hex(bs)
  }

  /** Whatever the device holds, what is published is well-formed text. */
  lemma {:induction false} PublishedIsText(bs: seq<Byte>)
    ensures Valid(Published(bs))
  {
    if Valid(bs) {
      TrimKeepsValid(bs);
    } else {
      HexIsAscii(bs);
      AsciiIsValid(Hex(bs));
    }
  }

  /** A text without trailing NUL is published unchanged, however many NULs pad it. */
  lemma {:induction false} PaddedTextIsPublished(t: seq<Byte>, padded: seq<Byte>)
    requires Valid(t) && t <= padded && forall i :: |t| <= i < |padded| ==> padded[i] == 0
    requires t != [] ==> t[|t| - 1] != 0
    ensures Published(padded) == t
    decreases |padded|
  {
    if |padded| == |t| {
      assert padded == t;
    } else {
      var shorter := padded[..|padded| - 1];
      assert padded == shorter + [0];
      PaddedTextIsPublished(t, shorter);
      PaddedValid(t, shorter);
      NulAtEnd(shorter);
    }
  }

  lemma {:induction false} PaddedValid(t: seq<Byte>, padded: seq<Byte>)
    requires Valid(t) && t <= padded && forall i :: |t| <= i < |padded| ==> padded[i] == 0
    ensures Valid(padded)
    decreases |padded|
  {
    if |padded| == |t| {
      assert padded == t;
    } else {
      var shorter := padded[..|padded| - 1];
      assert padded == shorter + [0];
      PaddedValid(t, shorter);
      NulAtEnd(shorter);
    }
  }

  // ----- well-formed texts are the encoded ones -----

  /** Numbers of characters: all but the surrogates. */
  predicate Scalar(c: nat)
  {
    c < 0xD800 || 0xE000 <= c < 0x11_0000
  }

  /** The bytes of a character (section 3 of RFC 3629). */
  function CharBytes(c: nat): seq<Byte>
    requires Scalar(c)
  {
    if c < 0x80 then [c]
    else if c < 0x800 then [0xC0 + c / 0x40, 0x80 + c % 0x40]
    else if c < 0x1_0000 then [0xE0 + c / 0x1000, 0x80 + c / 0x40 % 0x40, 0x80 + c % 0x40]
    else [0xF0 + c / 0x4_0000, 0x80 + c / 0x1000 % 0x40, 0x80 + c / 0x40 % 0x40, 0x80 + c % 0x40]
  }

  predicate AllScalar(cs: seq<nat>)
  {
    forall i :: 0 <= i < |cs| ==> Scalar(cs[i])
  }

  function TextBytes(cs: seq<nat>): seq<Byte>
    requires AllScalar(cs)
  {
    if cs == [] then [] else CharBytes(cs[0]) + TextBytes(cs[1..])
  }

  /** The number of the character a text starts with. */
  lemma {:induction false} FirstChar(s: seq<Byte>) returns (c: nat)
    requires s != [] && CharLength(s) > 0
    ensures Scalar(c) && CharBytes(c) == s[..CharLength(s)]
  {
    var n := CharLength(s);
    if n == 1 {
      c := s[0];
    } else if n == 2 {
      c := TwoByteChar(s[0], s[1]);
    } else if n == 3 {
      c := ThreeByteChar(s[0], s[1], s[2]);
    } else {
      c := FourByteChar(s[0], s[1], s[2], s[3]);
    }
  }

  lemma {:induction false} TwoByteChar(a: Byte, b: Byte) returns (c: nat)
    requires 0xC2 <= a < 0xE0 && Continuation(b)
    ensures Scalar(c) && CharBytes(c) == [a, b]
  {
    c := (a - 0xC0) * 0x40 + (b - 0x80);
  }

  lemma {:induction false} ThreeByteChar(a: Byte, b: Byte, d: Byte) returns (c: nat)
    requires 0xE0 <= a < 0xF0 && Continuation(b) && Continuation(d)
    requires (a == 0xE0 ==> b >= 0xA0) && (a == 0xED ==> b < 0xA0)
    ensures Scalar(c) && CharBytes(c) == [a, b, d]
  {
    var high := (a - 0xE0) * 0x40 + (b - 0x80);
    c := high * 0x40 + (d - 0x80);
    assert c / 0x40 == high && c / 0x1000 == a - 0xE0;
  }

  lemma {:induction false} FourByteChar(a: Byte, b: Byte, d: Byte, e: Byte) returns (c: nat)
    requires 0xF0 <= a < 0xF5 && Continuation(b) && Continuation(d) && Continuation(e)
    requires (a == 0xF0 ==> b >= 0x90) && (a == 0xF4 ==> b < 0x90)
    ensures Scalar(c) && CharBytes(c) == [a, b, d, e]
  {
    var high := (a - 0xF0) * 0x40 + (b - 0x80);
    var middle := high * 0x40 + (d - 0x80);
    c := middle * 0x40 + (e - 0x80);
    assert c / 0x40 == middle && c / 0x1000 == high && c / 0x4_0000 == a - 0xF0;
  }

  /** A text that starts with the bytes of a character starts with that character. */
  lemma {:induction false} LengthOfChar(c: nat, rest: seq<Byte>)
    requires Scalar(c)
    ensures CharLength(CharBytes(c) + rest) == |CharBytes(c)|
  {
    if c >= 0x1_0000 {
      FourBytesOf(c);
    } else if c >= 0x800 {
      ThreeBytesOf(c);
    }
  }

  lemma {:induction false} ThreeBytesOf(c: nat)
    requires Scalar(c) && 0x800 <= c < 0x1_0000
    ensures var a, b := 0xE0 + c / 0x1000, 0x80 + c / 0x40 % 0x40;
            0xE0 <= a < 0xF0 && (a == 0xE0 ==> b >= 0xA0) && (a == 0xED ==> b < 0xA0)
  {
    var high := c / 0x40;
    assert high / 0x40 == c / 0x1000 && high == high / 0x40 * 0x40 + high % 0x40;
  }

  lemma {:induction false} FourBytesOf(c: nat)
    requires 0x1_0000 <= c < 0x11_0000
    ensures var a, b := 0xF0 + c / 0x4_0000, 0x80 + c / 0x1000 % 0x40;
            0xF0 <= a < 0xF5 && (a == 0xF0 ==> b >= 0x90) && (a == 0xF4 ==> b < 0x90)
  {
    var high := c / 0x1000;
    assert high / 0x40 == c / 0x4_0000 && high == high / 0x40 * 0x40 + high % 0x40;
  }

  /** The byte strings recognized are exactly the encodings of texts. */
  lemma {:induction false} ValidIsEncoded(s: seq<Byte>)
    ensures Valid(s) <==> exists cs :: AllScalar(cs) && TextBytes(cs) == s
  {
    if Valid(s) {
      var cs := Decoded(s);
    }
    if cs :| AllScalar(cs) && TextBytes(cs) == s {
      EncodedIsValid(cs);
    }
  }

  lemma {:induction false} Decoded(s: seq<Byte>) returns (cs: seq<nat>)
    requires Valid(s)
    ensures AllScalar(cs) && TextBytes(cs) == s
  {
    if s == [] {
      cs := [];
    } else {
      var n := CharLength(s);
      var c := FirstChar(s);
      var rest := Decoded(s[n..]);
      cs := [c] + rest;
      assert cs[1..] == rest && s == s[..n] + s[n..];
    }
  }

  lemma {:induction false} EncodedIsValid(cs: seq<nat>)
    requires AllScalar(cs)
    ensures Valid(TextBytes(cs))
  {
    if cs != [] {
      EncodedIsValid(cs[1..]);
      var first, rest := CharBytes(cs[0]), TextBytes(cs[1..]);
      LengthOfChar(cs[0], rest);
      assert (first + rest)[|first|..] == rest;
    }
  }
}

/** UTF-8 (RFC 3629): the check for well-formed text, and the encoding of code points that it recognizes. */
module Utf8 {
  import opened Common
  import opened ByteStrings

  predicate Continuation(b: Byte) { 0x80 <= b <= 0xbf }

  /** The number of bytes of the UTF-8 sequence that starts here, 0 if none does (section 4 of RFC 3629). */
  function Size(s: Bytes): (n: nat)
    requires s != []
    ensures n <= |s| && n <= 4
  {
    var b := s[0];
    if b <= 0x7f then 1
    else if 0xc2 <= b <= 0xdf then (if |s| >= 2 && Continuation(s[1]) then 2 else 0)
    else if 0xe0 <= b <= 0xef then
      if |s| >= 3 && Continuation(s[1]) && Continuation(s[2]) && (b == 0xe0 ==> s[1] >= 0xa0) && (b == 0xed ==> s[1] <= 0x9f)
      then 3 else 0
    else if 0xf0 <= b <= 0xf4 then
      if |s| >= 4 && Continuation(s[1]) && Continuation(s[2]) && Continuation(s[3])
         && (b == 0xf0 ==> s[1] >= 0x90) && (b == 0xf4 ==> s[1] <= 0x8f)
      then 4 else 0
    else 0
  }

  predicate Valid(s: Bytes)
    decreases |s|
  {
    s == [] || (Size(s) > 0 && Valid(s[Size(s)..]))
  }

  // -- what it recognizes

  /** A Unicode scalar value: a code point that is not a surrogate. */
  predicate Scalar(c: nat) { c <= 0xd7ff || 0xe000 <= c <= 0x10ffff }

  /** Six bits to a continuation byte, the rest in the first. */
  function Encode(c: nat): (bytes: Bytes)
    requires Scalar(c)
    ensures 1 <= |bytes| <= 4
  {
    if c < 0x80 then [c]
    else if c < 0x800 then [0xc0 + c / 0x40, 0x80 + c % 0x40]
    else if c < 0x10000 then [0xe0 + c / 0x1000, 0x80 + c / 0x40 % 0x40, 0x80 + c % 0x40]
    else [0xf0 + c / 0x40000, 0x80 + c / 0x1000 % 0x40, 0x80 + c / 0x40 % 0x40, 0x80 + c % 0x40]
  }

  function EncodeAll(text: seq<nat>): Bytes
    requires forall i :: 0 <= i < |text| ==> Scalar(text[i])
  {
    if text == [] then [] else Encode(text[0]) + EncodeAll(text[1..])
  }

  ghost predicate IsText(s: Bytes, text: seq<nat>)
  {
    (forall i :: 0 <= i < |text| ==> Scalar(text[i])) && EncodeAll(text) == s
  }

  lemma EncodeHasSize(c: nat, rest: Bytes)
    requires Scalar(c)
    ensures Size(Encode(c) + rest) == |Encode(c)|
  {
    var s := Encode(c) + rest;
    assert forall i :: 0 <= i < |Encode(c)| ==> s[i] == Encode(c)[i];
    if 0x800 <= c < 0x10000 {
      ThreeInRange(c, c / 0x1000, c / 0x40 % 0x40);
    } else if c >= 0x10000 {
      FourInRange(c, c / 0x40000, c / 0x1000 % 0x40);
    }
  }

  /** No three-byte encoding is overlong or a surrogate's. */
  lemma ThreeInRange(c: nat, a: nat, b: nat)
    requires 0x800 <= c < 0x10000 && Scalar(c) && a == c / 0x1000 && b == c / 0x40 % 0x40
    ensures a < 0x10 && b < 0x40 && (a == 0 ==> b >= 0x20) && (a == 0xd ==> b <= 0x1f)
  {
    assert c / 0x40 == a * 0x40 + b;
  }

  /** No four-byte encoding is overlong or past the last code point. */
  lemma FourInRange(c: nat, a: nat, b: nat)
    requires 0x10000 <= c <= 0x10ffff && a == c / 0x40000 && b == c / 0x1000 % 0x40
    ensures a <= 4 && b < 0x40 && (a == 0 ==> b >= 0x10) && (a == 4 ==> b <= 0xf)
  {
    assert c / 0x1000 == a * 0x40 + b;
  }

  lemma TwoDigits(c: nat, a: nat, b: nat)
    requires a < 0x40 && b < 0x40 && c == a * 0x40 + b
    ensures c / 0x40 == a && c % 0x40 == b
  {
  }

  lemma ThreeDigits(c: nat, a: nat, b: nat, d: nat)
    requires b < 0x40 && d < 0x40 && c == (a * 0x40 + b) * 0x40 + d
    ensures c / 0x1000 == a && c / 0x40 % 0x40 == b && c % 0x40 == d
  {
    assert c / 0x40 == a * 0x40 + b;
  }

  lemma FourDigits(c: nat, a: nat, b: nat, d: nat, e: nat)
    requires b < 0x40 && d < 0x40 && e < 0x40 && c == ((a * 0x40 + b) * 0x40 + d) * 0x40 + e
    ensures c / 0x40000 == a && c / 0x1000 % 0x40 == b && c / 0x40 % 0x40 == d && c % 0x40 == e
  {
    assert c / 0x40 == (a * 0x40 + b) * 0x40 + d;
    assert c / 0x1000 == a * 0x40 + b;
  }

  /** A sequence of the right shape is the encoding of a scalar value, and of one that needs that many bytes. */
  lemma SizedIsEncoded(s: Bytes) returns (c: nat)
    requires s != [] && Size(s) > 0
    ensures Scalar(c) && Encode(c) == s[..Size(s)]
  {
    var n := Size(s);
    if n == 1 {
      c := s[0];
    } else if n == 2 {
      c := TwoBytes(s[0], s[1]);
    } else if n == 3 {
      c := ThreeBytes(s[0], s[1], s[2]);
    } else {
      c := FourBytes(s[0], s[1], s[2], s[3]);
    }
    assert Encode(c) == s[..n];
  }

  lemma TwoBytes(x: Byte, y: Byte) returns (c: nat)
    requires 0xc2 <= x <= 0xdf && Continuation(y)
    ensures Scalar(c) && Encode(c) == [x, y]
  {
    var a: nat, b: nat := x - 0xc0, y - 0x80;
    c := a * 0x40 + b;
    TwoDigits(c, a, b);
  }

  lemma ThreeBytes(x: Byte, y: Byte, z: Byte) returns (c: nat)
    requires 0xe0 <= x <= 0xef && Continuation(y) && Continuation(z) && (x == 0xe0 ==> y >= 0xa0) && (x == 0xed ==> y <= 0x9f)
    ensures Scalar(c) && Encode(c) == [x, y, z]
  {
    var a: nat, b: nat, d: nat := x - 0xe0, y - 0x80, z - 0x80;
    c := (a * 0x40 + b) * 0x40 + d;
    ThreeDigits(c, a, b, d);
  }

  lemma FourBytes(x: Byte, y: Byte, z: Byte, w: Byte) returns (c: nat)
    requires 0xf0 <= x <= 0xf4 && Continuation(y) && Continuation(z) && Continuation(w)
    requires (x == 0xf0 ==> y >= 0x90) && (x == 0xf4 ==> y <= 0x8f)
    ensures Scalar(c) && Encode(c) == [x, y, z, w]
  {
    var a: nat, b: nat, d: nat, e: nat := x - 0xf0, y - 0x80, z - 0x80, w - 0x80;
    c := ((a * 0x40 + b) * 0x40 + d) * 0x40 + e;
    FourDigits(c, a, b, d, e);
  }

  lemma {:induction false} TextIsValid(text: seq<nat>)
    requires forall i :: 0 <= i < |text| ==> Scalar(text[i])
    ensures Valid(EncodeAll(text))
  {
    if text != [] {
      var first, rest := Encode(text[0]), EncodeAll(text[1..]);
      TextIsValid(text[1..]);
      EncodeHasSize(text[0], rest);
      assert (first + rest)[|first|..] == rest;
    }
  }

  lemma {:induction false} ValidIsText(s: Bytes) returns (text: seq<nat>)
    requires Valid(s)
    ensures IsText(s, text)
    decreases |s|
  {
    text := [];
    if s != [] {
      var n := Size(s);
      var c := SizedIsEncoded(s);
      var rest := ValidIsText(s[n..]);
      text := [c] + rest;
      assert text[1..] == rest;
      assert s == s[..n] + s[n..];
    }
  }

  /** The check accepts exactly the encodings of sequences of Unicode scalar values. */
  lemma ValidIffText(s: Bytes)
    ensures Valid(s) <==> exists text :: IsText(s, text)
  {
    if Valid(s) {
      var text := ValidIsText(s);
    }
    if text :| IsText(s, text) {
      TextIsValid(text);
    }
  }
}

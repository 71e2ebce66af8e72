// Well-formed UTF-8 (section 4 of RFC 3629), as the check on a byte string, and
// as what encoding Unicode scalar values gives.

module Utf8Text {
  import opened Words

  predicate Continuation(b: u8) {
    0x80 <= b <= 0xBF
  }

  // The length of the UTF-8 sequence that starts a byte string, 0 if malformed.
  function SequenceLength(b: seq<u8>): (n: nat)
    requires b != []
    ensures n <= |b|
  {
    if b[0] < 0x80 then 1
    else if 0xC2 <= b[0] <= 0xDF && |b| >= 2 && Continuation(b[1]) then 2
    else if && 0xE0 <= b[0] <= 0xEF && |b| >= 3 && Continuation(b[1]) && Continuation(b[2])
            && (b[0] == 0xE0 ==> b[1] >= 0xA0) && (b[0] == 0xED ==> b[1] <= 0x9F) then 3
    else if && 0xF0 <= b[0] <= 0xF4 && |b| >= 4
            && Continuation(b[1]) && Continuation(b[2]) && Continuation(b[3])
            && (b[0] == 0xF0 ==> b[1] >= 0x90) && (b[0] == 0xF4 ==> b[1] <= 0x8F) then 4
    else 0
  }

  // Whether bytes are well-formed UTF-8.
  predicate Utf8(b: seq<u8>) {
    b == [] || (SequenceLength(b) > 0 && Utf8(b[SequenceLength(b)..]))
  }

  // ---- Encoding ----

  // A code point that is not a surrogate.
  type Scalar = c: int | 0 <= c < 0xD800 || 0xE000 <= c <= 0x10_FFFF

  function EncodeScalar(c: Scalar): (b: seq<u8>)
    ensures |b| > 0
  {
    if c < 0x80 then [c]
    else if c < 0x800 then [0xC0 + c / 0x40, 0x80 + c % 0x40]
    else if c < 0x1_0000 then [0xE0 + c / 0x1000, 0x80 + c / 0x40 % 0x40, 0x80 + c % 0x40]
    else [0xF0 + c / 0x4_0000, 0x80 + c / 0x1000 % 0x40, 0x80 + c / 0x40 % 0x40, 0x80 + c % 0x40]
  }

  function EncodeText(text: seq<Scalar>): seq<u8> {
    if text == [] then [] else EncodeScalar(text[0]) + EncodeText(text[1..])
  }

  lemma TwoBytes(c: Scalar)
    requires 0x80 <= c < 0x800
    ensures 2 <= c / 0x40 <= 0x1F && c % 0x40 < 0x40
  {
  }

  lemma ThreeBytes(c: Scalar)
    requires 0x800 <= c < 0x1_0000
    ensures var h, m := c / 0x1000, c / 0x40 % 0x40;
            h <= 0xF && (h == 0 ==> m >= 0x20) && (h == 0xD ==> m <= 0x1F)
  {
    assert c / 0x40 == c / 0x1000 * 0x40 + c / 0x40 % 0x40;
  }

  lemma FourBytes(c: Scalar)
    requires 0x1_0000 <= c
    ensures var t, h := c / 0x4_0000, c / 0x1000 % 0x40;
            t <= 4 && (t == 0 ==> h >= 0x10) && (t == 4 ==> h <= 0xF)
  {
    assert c / 0x1000 == c / 0x4_0000 * 0x40 + c / 0x1000 % 0x40;
  }

  lemma ScalarIsSequence(c: Scalar, rest: seq<u8>)
    ensures SequenceLength(EncodeScalar(c) + rest) == |EncodeScalar(c)|
  {
    if c < 0x80 {
    } else if c < 0x800 {
      TwoBytes(c);
    } else if c < 0x1_0000 {
      ThreeBytes(c);
    } else {
      FourBytes(c);
    }
  }

  // The digits of a number in base 64.
  lemma Digits(h: nat, m: nat, l: nat)
    requires m < 0x40 && l < 0x40
    ensures var c := h * 0x1000 + m * 0x40 + l;
            c / 0x1000 == h && c / 0x40 % 0x40 == m && c % 0x40 == l && c / 0x40 == h * 0x40 + m
  {
  }

  // The scalar values of two, three and four digits.
  lemma TwoDigits(m: nat, l: nat) returns (c: Scalar)
    requires 2 <= m <= 0x1F && l < 0x40
    ensures 0x80 <= c < 0x800 && c / 0x40 == m && c % 0x40 == l
  {
    Digits(0, m, l);
    c := m * 0x40 + l;
  }

  lemma ThreeDigits(h: nat, m: nat, l: nat) returns (c: Scalar)
    requires h <= 0xF && m < 0x40 && l < 0x40 && (h == 0 ==> m >= 0x20) && (h == 0xD ==> m <= 0x1F)
    ensures 0x800 <= c < 0x1_0000 && c / 0x1000 == h && c / 0x40 % 0x40 == m && c % 0x40 == l
  {
    Digits(h, m, l);
    c := h * 0x1000 + m * 0x40 + l;
  }

  lemma FourDigits(t: nat, h: nat, m: nat, l: nat) returns (c: Scalar)
    requires t <= 4 && h < 0x40 && m < 0x40 && l < 0x40 && (t == 0 ==> h >= 0x10) && (t == 4 ==> h <= 0xF)
    ensures 0x1_0000 <= c && c / 0x4_0000 == t && c / 0x1000 % 0x40 == h
    ensures c / 0x40 % 0x40 == m && c % 0x40 == l
  {
    Digits(t * 0x40 + h, m, l);
    c := (t * 0x40 + h) * 0x1000 + m * 0x40 + l;
  }

  // A sequence encodes the number its payload bits spell.
  lemma SequenceIsScalar(b: seq<u8>) returns (c: Scalar)
    requires b != [] && SequenceLength(b) > 0
    ensures EncodeScalar(c) == b[..SequenceLength(b)]
  {
    var n := SequenceLength(b);
    if n == 1 {
      c := b[0];
    } else if n == 2 {
      c := TwoDigits(b[0] - 0xC0, b[1] - 0x80);
    } else if n == 3 {
      c := ThreeDigits(b[0] - 0xE0, b[1] - 0x80, b[2] - 0x80);
    } else {
      c := FourDigits(b[0] - 0xF0, b[1] - 0x80, b[2] - 0x80, b[3] - 0x80);
    }
  }

  // What encoding gives is well-formed.
  lemma {:induction false} EncodedIsUtf8(text: seq<Scalar>)
    ensures Utf8(EncodeText(text))
  {
    if text != [] {
      var rest := EncodeText(text[1..]);
      ScalarIsSequence(text[0], rest);
      EncodedIsUtf8(text[1..]);
      assert (EncodeScalar(text[0]) + rest)[|EncodeScalar(text[0])|..] == rest;
    }
  }

  // And nothing else is.
  lemma {:induction false} Utf8IsEncoded(b: seq<u8>) returns (text: seq<Scalar>)
    requires Utf8(b)
    ensures EncodeText(text) == b
  {
    if b == [] {
      text := [];
    } else {
      var n := SequenceLength(b);
      var c := SequenceIsScalar(b);
      var more := Utf8IsEncoded(b[n..]);
      text := [c] + more;
      assert text[1..] == more;
      assert b == b[..n] + b[n..];
    }
  }

  lemma {:induction false} AsciiIsUtf8(b: seq<u8>)
    requires forall i :: 0 <= i < |b| ==> b[i] < 0x80
    ensures Utf8(b)
  {
    if b != [] {
      AsciiIsUtf8(b[1..]);
    }
  }
}

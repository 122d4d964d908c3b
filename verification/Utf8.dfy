/** UTF-8 (section 3 of RFC 3629) as far as byte offsets into a string need it. */
module Utf8 {
  import opened Wrappers

  type Byte = b: int | 0 <= b < 256

  function EncodeChar(c: char): (bytes: seq<Byte>)
    ensures 1 <= |bytes| <= 4
    ensures !IsContinuation(bytes[0]) && forall j | 1 <= j < |bytes| :: IsContinuation(bytes[j])
  {
    var u := c as int;
    if u < 0x80 then [u]
    else if u < 0x800 then [0xC0 + u / 64, 0x80 + u % 64]
    else if u < 0x10000 then [0xE0 + u / 4096, 0x80 + u / 64 % 64, 0x80 + u % 64]
    else [0xF0 + u / 262144, 0x80 + u / 4096 % 64, 0x80 + u / 64 % 64, 0x80 + u % 64]
  }

  function Encode(text: seq<char>): seq<Byte> {
    if text == [] then [] else EncodeChar(text[0]) + Encode(text[1..])
  }

  predicate IsContinuation(b: Byte) {
    0x80 <= b < 0xC0
  }

  /** `str::is_char_boundary`. */
  predicate IsCharBoundary(bytes: seq<Byte>, offset: nat) {
    offset == 0 || offset == |bytes| || (offset < |bytes| && !IsContinuation(bytes[offset]))
  }

  /** The byte offset of character i. */
  function OffsetOf(text: seq<char>, i: nat): nat
    requires i <= |text|
  {
    |Encode(text[..i])|
  }

  lemma {:induction false} EncodeConcat(a: seq<char>, b: seq<char>)
    ensures Encode(a + b) == Encode(a) + Encode(b)
  {
    if a == [] {
      assert a + b == b;
    } else {
      assert (a + b)[1..] == a[1..] + b;
      EncodeConcat(a[1..], b);
    }
  }

  /** The encoding up to a character, the character, and the rest. */
  lemma EncodeAround(text: seq<char>, i: nat)
    requires i < |text|
    ensures Encode(text) == Encode(text[..i]) + EncodeChar(text[i]) + Encode(text[i + 1..])
    ensures OffsetOf(text, i + 1) == OffsetOf(text, i) + |EncodeChar(text[i])|
  {
    assert text == text[..i] + text[i..] && text[..i + 1] == text[..i] + [text[i]];
    EncodeConcat(text[..i], text[i..]);
    EncodeConcat(text[..i], [text[i]]);
    EncodeFirst(text[i..]);
    EncodeFirst([text[i]]);
    assert text[i..][1..] == text[i + 1..] && [text[i]][1..] == [];
    assert Encode(text) == Encode(text[..i]) + (EncodeChar(text[i]) + Encode(text[i + 1..]));
  }

  lemma EncodeFirst(text: seq<char>)
    requires text != []
    ensures Encode(text) == EncodeChar(text[0]) + Encode(text[1..])
    ensures Encode([]) == []
  {
  }

  lemma OffsetEnds(text: seq<char>)
    ensures OffsetOf(text, 0) == 0 && OffsetOf(text, |text|) == |Encode(text)|
  {
    assert text[..|text|] == text;
  }

  lemma OffsetSplits(text: seq<char>, i: nat)
    requires i <= |text|
    ensures OffsetOf(text, i) <= |Encode(text)|
    ensures Encode(text)[..OffsetOf(text, i)] == Encode(text[..i])
    ensures Encode(text)[OffsetOf(text, i)..] == Encode(text[i..])
  {
    assert text == text[..i] + text[i..];
    EncodeConcat(text[..i], text[i..]);
  }

  /** Offsets are in the order of the characters, and distinct. */
  lemma {:induction false} OffsetMonotone(text: seq<char>, i: nat, j: nat)
    requires i < j <= |text|
    ensures OffsetOf(text, i) + (j - i) <= OffsetOf(text, j)
    decreases j
  {
    EncodeAround(text, j - 1);
    if i < j - 1 {
      OffsetMonotone(text, i, j - 1);
    }
  }

  /** Every character starts at a boundary. */
  lemma OffsetIsBoundary(text: seq<char>, i: nat)
    requires i <= |text|
    ensures OffsetOf(text, i) <= |Encode(text)| && IsCharBoundary(Encode(text), OffsetOf(text, i))
  {
    OffsetEnds(text);
    if i < |text| {
      EncodeAround(text, i);
      assert Encode(text)[OffsetOf(text, i)] == EncodeChar(text[i])[0];
    }
  }

  /** The character that an offset falls into. */
  lemma {:induction false} CharAround(text: seq<char>, offset: nat, n: nat) returns (i: nat)
    requires n <= |text| && offset < OffsetOf(text, n)
    ensures i < n && OffsetOf(text, i) <= offset < OffsetOf(text, i + 1)
    decreases n
  {
    if n == 0 {
      assert false;
    } else if OffsetOf(text, n - 1) <= offset {
      i := n - 1;
    } else {
      i := CharAround(text, offset, n - 1);
    }
  }

  /** And only characters do: the byte offsets that Rust accepts are exactly those of the characters. */
  lemma BoundaryIsOffset(text: seq<char>, offset: nat) returns (i: nat)
    requires offset <= |Encode(text)| && IsCharBoundary(Encode(text), offset)
    ensures i <= |text| && offset == OffsetOf(text, i)
  {
    OffsetEnds(text);
    if offset == |Encode(text)| {
      i := |text|;
    } else {
      i := CharAround(text, offset, |text|);
      EncodeAround(text, i);
      var j := offset - OffsetOf(text, i);
      assert Encode(text)[offset] == EncodeChar(text[i])[j];
    }
  }

  // ---- Decoding ----

  /** The code point that the bytes starting with b, with payloads x, y and z after it, stand for. */
  function CodePoint(bytes: seq<Byte>): int {
    if |bytes| == 0 then -1 else
    var b: int := bytes[0];
    if b < 0x80 then b
    else if 0xC0 <= b < 0xE0 && |bytes| >= 2 then (b - 0xC0) * 64 + (bytes[1] as int - 0x80)
    else if 0xE0 <= b < 0xF0 && |bytes| >= 3 then (b - 0xE0) * 4096 + (bytes[1] as int - 0x80) * 64 +
        (bytes[2] as int - 0x80)
    else if 0xF0 <= b < 0xF8 && |bytes| >= 4 then
      (b - 0xF0) * 262144 + (bytes[1] as int - 0x80) * 4096 + (bytes[2] as int - 0x80) * 64 + (bytes[3] as int - 0x80)
    else -1
  }

  /** The character that a string starts with, as its character iterator reads it. */
  function DecodeFirst(bytes: seq<Byte>): Option<char> {
    var u := CodePoint(bytes);
    if 0 <= u < 0xD800 || 0xE000 <= u < 0x11_0000 then Some(u as char) else None
  }

  lemma SixBitDigits(u: nat)
    ensures u == u / 64 * 64 + u % 64
    ensures u == u / 4096 * 4096 + u / 64 % 64 * 64 + u % 64
    ensures u == u / 262144 * 262144 + u / 4096 % 64 * 4096 + u / 64 % 64 * 64 + u % 64
  {
    assert u / 64 / 64 == u / 4096 && u / 4096 / 64 == u / 262144;
  }

  lemma CodePointOfEncoded(c: char, rest: seq<Byte>)
    ensures CodePoint(EncodeChar(c) + rest) == c as int
  {
    var u := c as int;
    var bytes := EncodeChar(c) + rest;
    assert forall j | 0 <= j < |EncodeChar(c)| :: bytes[j] == EncodeChar(c)[j];
    SixBitDigits(u);
  }

  /** Decoding undoes encoding, character by character. */
  lemma DecodeAtOffset(text: seq<char>, i: nat)
    requires i < |text|
    ensures OffsetOf(text, i) <= |Encode(text)|
    ensures DecodeFirst(Encode(text)[OffsetOf(text, i)..]) == Some(text[i])
  {
    OffsetSplits(text, i);
    assert Encode(text[i..]) == EncodeChar(text[i]) + Encode(text[i..][1..]);
    CodePointOfEncoded(text[i], Encode(text[i..][1..]));
  }

  // ---- The standard's own table and examples ----

  /** The number of octets, by the ranges of section 3 of RFC 3629. */
  lemma OctetsOf(c: char)
    ensures var u, n := c as int, |EncodeChar(c)|;
            && (n == 1 <==> u <= 0x7F) && (n == 2 <==> 0x80 <= u <= 0x7FF)
            && (n == 3 <==> 0x800 <= u <= 0xFFFF) && (n == 4 <==> 0x10000 <= u <= 0x10FFFF)
  {
  }

  /** The examples of section 7 of RFC 3629. */
  lemma StandardExamples()
    ensures EncodeChar('A') == [0x41] && EncodeChar('\U{2262}') == [0xE2, 0x89, 0xA2]
    ensures EncodeChar('\U{0391}') == [0xCE, 0x91] && EncodeChar('\U{D55C}') == [0xED, 0x95, 0x9C]
    ensures EncodeChar('\U{65E5}') == [0xE6, 0x97, 0xA5] && EncodeChar('\U{233B4}') == [0xF0, 0xA3, 0x8E, 0xB4]
  {
  }
}

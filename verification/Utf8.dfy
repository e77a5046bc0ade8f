// UTF-8, as section 3 of RFC 3629 defines it, over the code points of a text.
// A text may hold lone surrogates; those have no encoding.
module Utf8 {
  import opened Bytes
  import opened Wrappers

  type CodePoint = n: int | 0 <= n <= 0x10FFFF

  type Text = seq<CodePoint>

  predicate Surrogate(c: CodePoint) { 0xD800 <= c <= 0xDFFF }

  predicate Encodable(text: Text) {
    forall i :: 0 <= i < |text| ==> !Surrogate(text[i])
  }

  function EncodePoint(c: CodePoint): (bytes: seq<Byte>)
    ensures 1 <= |bytes| <= 4
  {
    if c < 0x80 then [c]
    else if c < 0x800 then [0xC0 + c / 64, 0x80 + c % 64]
    else if c < 0x1_0000 then [0xE0 + c / 4096, 0x80 + c / 64 % 64, 0x80 + c % 64]
    else [0xF0 + c / 262144, 0x80 + c / 4096 % 64, 0x80 + c / 64 % 64, 0x80 + c % 64]
  }

  function Encode(text: Text): seq<Byte>
    requires Encodable(text)
  {
    if text == [] then [] else EncodePoint(text[0]) + Encode(text[1..])
  }

  predicate Continuation(b: Byte) { 0x80 <= b <= 0xBF }

  // ---------------------------------------------------------------------
  // Reading
  // ---------------------------------------------------------------------

  /** The number of bytes a lead byte announces; 0 when it can lead nothing. */
  function Width(lead: Byte): nat {
    if lead < 0x80 then 1
    else if lead < 0xC0 then 0
    else if lead < 0xE0 then 2
    else if lead < 0xF0 then 3
    else if lead < 0xF8 then 4
    else 0
  }

  /** Six more bits, from a continuation byte. */
  function Six(high: int, b: Byte): int { high * 64 + (b as int - 0x80) }

  function Bits(bytes: seq<Byte>): int
    requires bytes != [] && |bytes| == Width(bytes[0])
  {
    if |bytes| == 1 then bytes[0]
    else if |bytes| == 2 then Six(bytes[0] as int - 0xC0, bytes[1])
    else if |bytes| == 3 then Six(Six(bytes[0] as int - 0xE0, bytes[1]), bytes[2])
    else Six(Six(Six(bytes[0] as int - 0xF0, bytes[1]), bytes[2]), bytes[3])
  }

  /** The first code point, refused when cut short, overlong, a surrogate or above the last plane. */
  function ReadPoint(bytes: seq<Byte>): Option<CodePoint>
    requires bytes != []
  {
    var n := Width(bytes[0]);
    if n == 0 || |bytes| < n then None
    else if exists i :: 1 <= i < n && !Continuation(bytes[i]) then None
    else
      var c := Bits(bytes[..n]);
      if 0 <= c <= 0x10FFFF && !Surrogate(c) && |EncodePoint(c)| == n then Some(c) else None
  }

  function Decode(bytes: seq<Byte>): Option<Text> {
    if bytes == [] then Some([])
    else match ReadPoint(bytes)
      case None => None
      case Some(c) =>
        if |EncodePoint(c)| <= |bytes| then
          match Decode(bytes[|EncodePoint(c)|..])
          case None => None
          case Some(rest) => Some([c] + rest)
        else None
  }

  lemma LeadThenContinuations(c: CodePoint)
    ensures Width(EncodePoint(c)[0]) == |EncodePoint(c)|
    ensures !Continuation(EncodePoint(c)[0])
    ensures forall i :: 1 <= i < |EncodePoint(c)| ==> Continuation(EncodePoint(c)[i])
    ensures Bits(EncodePoint(c)) == c
  {
    QuotientOfQuotient(c);
  }

  lemma ReadsBackPoint(c: CodePoint, rest: seq<Byte>)
    requires !Surrogate(c)
    ensures ReadPoint(EncodePoint(c) + rest) == Some(c)
  {
    LeadThenContinuations(c);
    var bytes := EncodePoint(c) + rest;
    assert bytes[..|EncodePoint(c)|] == EncodePoint(c);
    assert forall i :: 1 <= i < |EncodePoint(c)| ==> Continuation(bytes[i]);
  }

  lemma SixSplits(high: nat, b: Byte)
    requires Continuation(b)
    ensures Six(high, b) / 64 == high && Six(high, b) % 64 == b as int - 0x80
  {
  }

  lemma SixIsBelow(high: nat, b: Byte, bound: nat)
    requires Continuation(b) && high < bound
    ensures 0 <= Six(high, b) < 64 * bound
  {
  }

  lemma PointOfTwo(a: Byte, b: Byte)
    requires 0xC0 <= a < 0xE0 && Continuation(b) && Six(a as int - 0xC0, b) >= 0x80
    ensures EncodePoint(Six(a as int - 0xC0, b)) == [a, b]
  {
    hide Six;
    SixSplits(a as int - 0xC0, b);
    SixIsBelow(a as int - 0xC0, b, 32);
  }

  lemma PointOfThree(a: Byte, b: Byte, c: Byte)
    requires 0xE0 <= a < 0xF0 && Continuation(b) && Continuation(c) && Six(Six(a as int - 0xE0, b), c) >= 0x800
    ensures EncodePoint(Six(Six(a as int - 0xE0, b), c)) == [a, b, c]
  {
    hide Six;
    var high := Six(a as int - 0xE0, b);
    SixSplits(a as int - 0xE0, b);
    SixIsBelow(a as int - 0xE0, b, 16);
    SixSplits(high, c);
    SixIsBelow(high, c, 1024);
    var point := Six(high, c);
    QuotientOfQuotient(point);
    assert point / 4096 == a as int - 0xE0 && point / 64 % 64 == b as int - 0x80 && point % 64 == c as int - 0x80;
  }

  lemma PointOfFour(a: Byte, b: Byte, c: Byte, d: Byte)
    requires 0xF0 <= a < 0xF8 && Continuation(b) && Continuation(c) && Continuation(d)
    requires 0x1_0000 <= Six(Six(Six(a as int - 0xF0, b), c), d) <= 0x10FFFF
    ensures EncodePoint(Six(Six(Six(a as int - 0xF0, b), c), d)) == [a, b, c, d]
  {
    hide Six;
    var high := Six(a as int - 0xF0, b);
    SixSplits(a as int - 0xF0, b);
    SixIsBelow(a as int - 0xF0, b, 8);
    var mid := Six(high, c);
    SixSplits(high, c);
    SixIsBelow(high, c, 512);
    SixSplits(mid, d);
    var point := Six(mid, d);
    QuotientOfQuotient(point);
    assert point / 4096 == high && point / 262144 == a as int - 0xF0;
    assert high % 64 == b as int - 0x80 && point / 64 % 64 == c as int - 0x80 && point % 64 == d as int - 0x80;
  }

  lemma WidthOfPoint(c: CodePoint)
    ensures |EncodePoint(c)| == if c < 0x80 then 1 else if c < 0x800 then 2 else if c < 0x1_0000 then 3 else 4
  {
  }

  lemma PointIsItsBits(bytes: seq<Byte>)
    requires bytes != [] && |bytes| == Width(bytes[0])
    requires forall i :: 1 <= i < |bytes| ==> Continuation(bytes[i])
    requires 0 <= Bits(bytes) <= 0x10FFFF && |EncodePoint(Bits(bytes))| == |bytes|
    ensures EncodePoint(Bits(bytes)) == bytes
  {
    WidthOfPoint(Bits(bytes));
    if |bytes| == 2 {
      hide EncodePoint, Six;
      PointOfTwo(bytes[0], bytes[1]);
    } else if |bytes| == 3 {
      hide EncodePoint, Six;
      PointOfThree(bytes[0], bytes[1], bytes[2]);
    } else if |bytes| == 4 {
      hide EncodePoint, Six;
      PointOfFour(bytes[0], bytes[1], bytes[2], bytes[3]);
    }
  }

  lemma QuotientOfQuotient(c: nat)
    ensures c / 4096 == c / 64 / 64 && c / 262144 == c / 64 / 64 / 64
  {
  }

  lemma ReadPointIsSound(bytes: seq<Byte>)
    requires bytes != [] && ReadPoint(bytes).Some?
    ensures var c := ReadPoint(bytes).value;
            !Surrogate(c) && EncodePoint(c) <= bytes
  {
    var n := Width(bytes[0]);
    PointIsItsBits(bytes[..n]);
  }

  /** What was encoded is decoded. */
  lemma {:induction false} DecodesEncodings(text: Text)
    requires Encodable(text)
    ensures Decode(Encode(text)) == Some(text)
  {
    hide EncodePoint, ReadPoint;
    if text != [] {
      var head, bytes := EncodePoint(text[0]), Encode(text);
      ReadsBackPoint(text[0], Encode(text[1..]));
      assert bytes[|head|..] == Encode(text[1..]);
      DecodesEncodings(text[1..]);
      assert text == [text[0]] + text[1..];
    }
  }

  /** What decodes is an encoding of what it decodes to. */
  lemma {:induction false} DecodesOnlyEncodings(bytes: seq<Byte>)
    requires Decode(bytes).Some?
    ensures Encodable(Decode(bytes).value) && Encode(Decode(bytes).value) == bytes
  {
    hide EncodePoint, ReadPoint;
    if bytes != [] {
      ReadPointIsSound(bytes);
      var c := ReadPoint(bytes).value;
      var rest := bytes[|EncodePoint(c)|..];
      DecodesOnlyEncodings(rest);
      var text := Decode(bytes).value;
      assert text == [c] + Decode(rest).value;
      assert text[1..] == Decode(rest).value;
      assert bytes == EncodePoint(c) + rest;
    }
  }

  /** Decoding accepts exactly the encodings, and gives back what was encoded. */
  lemma DecodesExactlyEncodings(bytes: seq<Byte>, text: Text)
    ensures Decode(bytes) == Some(text) <==> Encodable(text) && Encode(text) == bytes
  {
    if Decode(bytes) == Some(text) {
      DecodesOnlyEncodings(bytes);
    } else if Encodable(text) {
      DecodesEncodings(text);
    }
  }

  // ---------------------------------------------------------------------
  // Byte offsets
  // ---------------------------------------------------------------------

  /** The byte offset of character a: the length of the encoding of what is before it. */
  function ByteAt(text: Text, a: nat): nat
    requires Encodable(text) && a <= |text|
  {
    |Encode(text[..a])|
  }

  lemma {:induction false} EncodeConcat(a: Text, b: Text)
    requires Encodable(a) && Encodable(b)
    ensures Encodable(a + b) && Encode(a + b) == Encode(a) + Encode(b)
  {
    hide EncodePoint;
    if a == [] {
      assert a + b == b;
    } else {
      assert (a + b)[1..] == a[1..] + b;
      EncodeConcat(a[1..], b);
    }
  }

  /** The bytes between two offsets are the encoding of the characters between them. */
  lemma SliceIsEncodedSlice(text: Text, a: nat, b: nat)
    requires Encodable(text) && a <= b <= |text|
    ensures ByteAt(text, a) <= ByteAt(text, b) <= |Encode(text)|
    ensures Encode(text)[ByteAt(text, a)..ByteAt(text, b)] == Encode(text[a..b])
  {
    hide Encode;
    EncodeConcat(text[..a], text[a..b]);
    assert text[..a] + text[a..b] == text[..b];
    EncodeConcat(text[..b], text[b..]);
    assert text[..b] + text[b..] == text;
  }

  lemma EncodingGrows(text: Text)
    requires Encodable(text)
    ensures |text| <= |Encode(text)| <= 4 * |text|
  {
  }

  /** Offsets keep the order of characters, both ways. */
  lemma OffsetsKeepOrder(text: Text, a: nat, b: nat)
    requires Encodable(text) && a <= |text| && b <= |text|
    ensures a <= b <==> ByteAt(text, a) <= ByteAt(text, b)
  {
    if a <= b {
      SliceIsEncodedSlice(text, a, b);
    } else {
      SliceIsEncodedSlice(text, b, a);
      EncodingGrows(text[b..a]);
    }
  }

  ghost predicate IsOffset(text: Text, i: nat)
    requires Encodable(text)
  {
    exists a: nat :: a <= |text| && ByteAt(text, a) == i
  }

  /** At the end, or before a byte that starts a character. */
  predicate Boundary(bytes: seq<Byte>, i: nat) {
    i == |bytes| || (i < |bytes| && !Continuation(bytes[i]))
  }

  lemma OffsetFromHead(text: Text, a: nat)
    requires Encodable(text) && text != [] && a < |text|
    ensures ByteAt(text, a + 1) == |EncodePoint(text[0])| + ByteAt(text[1..], a)
  {
    assert text[..a + 1][1..] == text[1..][..a];
  }

  /** Past the first character, offsets are those of the rest, shifted. */
  lemma OffsetsFromHead(text: Text, i: nat)
    requires Encodable(text) && text != []
    ensures var width := |EncodePoint(text[0])|;
            IsOffset(text, i) <==> i == 0 || (i >= width && IsOffset(text[1..], i - width))
  {
    hide Encode, EncodePoint;
    var width := |EncodePoint(text[0])|;
    NothingBefore(text);
    if IsOffset(text, i) && i > 0 {
      var a: nat :| a <= |text| && ByteAt(text, a) == i;
      OffsetFromHead(text, a - 1);
    }
    if i >= width && IsOffset(text[1..], i - width) {
      var a: nat :| a <= |text[1..]| && ByteAt(text[1..], a) == i - width;
      OffsetFromHead(text, a);
    }
  }

  lemma NothingBefore(text: Text)
    requires Encodable(text)
    ensures ByteAt(text, 0) == 0 && IsOffset(text, 0)
  {
    assert ByteAt(text, 0) == 0;
  }

  lemma BoundariesFromHead(text: Text, i: nat)
    requires Encodable(text) && text != []
    ensures var width := |EncodePoint(text[0])|;
            Boundary(Encode(text), i) <==> i == 0 || (i >= width && Boundary(Encode(text[1..]), i - width))
  {
    LeadThenContinuations(text[0]);
    hide EncodePoint, Width, Bits;
    var head, tail := EncodePoint(text[0]), Encode(text[1..]);
    assert Encode(text) == head + tail;
    assert i < |head| ==> (head + tail)[i] == head[i];
  }

  /** The character offsets are exactly the code-point boundaries of the bytes. */
  lemma {:induction false} OffsetsAreBoundaries(text: Text, i: nat)
    requires Encodable(text)
    ensures IsOffset(text, i) <==> Boundary(Encode(text), i)
    decreases |text|
  {
    if text == [] {
      NothingBefore(text);
    } else {
      hide IsOffset, Boundary, Encode, EncodePoint;
      OffsetsFromHead(text, i);
      BoundariesFromHead(text, i);
      var width := |EncodePoint(text[0])|;
      if i >= width {
        OffsetsAreBoundaries(text[1..], i - width);
      }
    }
  }
}

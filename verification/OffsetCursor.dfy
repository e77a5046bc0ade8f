// The opaque offset cursor: base64url of a one-field JSON object, padding
// stripped when printed and over-supplied when read (apps/api/pagination.py;
// sections 3.2 and 5 of RFC 4648).
module OffsetCursor {
  import opened Bytes
  import opened Wrappers
  import Decimal

  type Sextet = v: int | 0 <= v < 64

  // ---------------------------------------------------------------------
  // Base64
  // ---------------------------------------------------------------------

  /** The URL-safe alphabet. */
  function SextetChar(v: Sextet): char {
    if v < 26 then (v + 65) as char
    else if v < 52 then (v - 26 + 97) as char
    else if v < 62 then (v - 52 + 48) as char
    else if v == 62 then '-'
    else '_'
  }

  /** A reader translates the URL-safe characters and still knows the standard ones. */
  function SextetOf(c: char): Option<Sextet> {
    if 'A' <= c <= 'Z' then Some(c as int - 65)
    else if 'a' <= c <= 'z' then Some(c as int - 97 + 26)
    else if '0' <= c <= '9' then Some(c as int - 48 + 52)
    else if c == '-' || c == '+' then Some(62)
    else if c == '_' || c == '/' then Some(63)
    else None
  }

  function Two(a: Byte): string { [SextetChar(a / 4), SextetChar(a % 4 * 16)] }

  function Three(a: Byte, b: Byte): string {
    [SextetChar(a / 4), SextetChar(a % 4 * 16 + b / 16), SextetChar(b % 16 * 4)]
  }

  function Four(a: Byte, b: Byte, c: Byte): string {
    [SextetChar(a / 4), SextetChar(a % 4 * 16 + b / 16), SextetChar(b % 16 * 4 + c / 64), SextetChar(c % 64)]
  }

  function Base64(bytes: seq<Byte>): string {
    if |bytes| == 0 then ""
    else if |bytes| == 1 then Two(bytes[0]) + "=="
    else if |bytes| == 2 then Three(bytes[0], bytes[1]) + "="
    else Four(bytes[0], bytes[1], bytes[2]) + Base64(bytes[3..])
  }

  function Pads(n: nat): string {
    seq(n, _ => '=')
  }

  function StripPadding(s: string): string {
    if s != "" && s[|s| - 1] == '=' then StripPadding(s[..|s| - 1]) else s
  }

  function Prepend(b: Byte, rest: Option<seq<Byte>>): Option<seq<Byte>> {
    match rest
    case None => None
    case Some(bytes) => Some([b] + bytes)
  }

  /**
   * The lenient reader: `quad` characters of the current group are read and `left`
   * holds their unused bits. Foreign characters are skipped, padding ends the input
   * once it completes a group and is ignored before that.
   */
  function Read64(s: string, quad: nat, left: nat, pads: nat): Option<seq<Byte>>
    requires quad < 4
    requires quad == 1 ==> left < 64
    requires quad == 2 ==> left < 16
    requires quad == 3 ==> left < 4
  {
    if s == "" then (if quad == 0 then Some([]) else None)
    else if s[0] == '=' then
      if quad >= 2 && quad + pads + 1 >= 4 then Some([])
      else Read64(s[1..], quad, left, if quad >= 2 then pads + 1 else pads)
    else
      match SextetOf(s[0])
      case None => Read64(s[1..], quad, left, pads)
      case Some(v) =>
        if quad == 0 then Read64(s[1..], 1, v, 0)
        else if quad == 1 then Prepend(left * 4 + v / 16, Read64(s[1..], 2, v % 16, 0))
        else if quad == 2 then Prepend(left * 16 + v / 4, Read64(s[1..], 3, v % 4, 0))
        else Prepend(left * 64 + v, Read64(s[1..], 0, 0, 0))
  }

  lemma CharReadsBack(v: Sextet)
    ensures SextetOf(SextetChar(v)) == Some(v) && SextetChar(v) != '='
  {
  }

  /** The printed form without its padding. */
  function Unpadded(bytes: seq<Byte>): string {
    if |bytes| == 0 then ""
    else if |bytes| == 1 then Two(bytes[0])
    else if |bytes| == 2 then Three(bytes[0], bytes[1])
    else Four(bytes[0], bytes[1], bytes[2]) + Unpadded(bytes[3..])
  }

  predicate NoPad(s: string) {
    forall i :: 0 <= i < |s| ==> s[i] != '='
  }

  lemma {:induction false} UnpaddedHasNoPad(bytes: seq<Byte>)
    ensures NoPad(Unpadded(bytes))
    ensures bytes != [] ==> Unpadded(bytes) != ""
  {
    forall v: Sextet ensures SextetChar(v) != '=' {
      CharReadsBack(v);
    }
    if |bytes| > 2 {
      UnpaddedHasNoPad(bytes[3..]);
    }
  }

  lemma {:induction false} StripAfter(s: string, pads: nat)
    requires NoPad(s)
    ensures StripPadding(s + Pads(pads)) == s
    decreases pads
  {
    var padded := s + Pads(pads);
    if pads > 0 {
      assert padded[..|padded| - 1] == s + Pads(pads - 1);
      StripAfter(s, pads - 1);
    } else {
      assert padded == s;
    }
  }

  lemma {:induction false} Base64IsPaddedUnpadded(bytes: seq<Byte>)
    ensures exists pads: nat :: pads <= 2 && Base64(bytes) == Unpadded(bytes) + Pads(pads)
  {
    if |bytes| == 1 {
      assert Base64(bytes) == Unpadded(bytes) + Pads(2);
    } else if |bytes| == 2 {
      assert Base64(bytes) == Unpadded(bytes) + Pads(1);
    } else if |bytes| == 0 {
      assert Base64(bytes) == Unpadded(bytes) + Pads(0);
    } else {
      Base64IsPaddedUnpadded(bytes[3..]);
      var pads: nat :| pads <= 2 && Base64(bytes[3..]) == Unpadded(bytes[3..]) + Pads(pads);
      assert Base64(bytes) == Unpadded(bytes) + Pads(pads);
    }
  }

  lemma StrippedIsUnpadded(bytes: seq<Byte>)
    ensures StripPadding(Base64(bytes)) == Unpadded(bytes)
  {
    Base64IsPaddedUnpadded(bytes);
    var pads: nat :| pads <= 2 && Base64(bytes) == Unpadded(bytes) + Pads(pads);
    UnpaddedHasNoPad(bytes);
    StripAfter(Unpadded(bytes), pads);
  }

  /** One more character of a group. */
  lemma ReadSextet(v: Sextet, rest: string, quad: nat, left: nat)
    requires quad < 4 && (quad == 1 ==> left < 64) && (quad == 2 ==> left < 16) && (quad == 3 ==> left < 4)
    ensures Read64([SextetChar(v)] + rest, quad, left, 0)
            == if quad == 0 then Read64(rest, 1, v, 0)
               else if quad == 1 then Prepend(left * 4 + v / 16, Read64(rest, 2, v % 16, 0))
               else if quad == 2 then Prepend(left * 16 + v / 4, Read64(rest, 3, v % 4, 0))
               else Prepend(left * 64 + v, Read64(rest, 0, 0, 0))
  {
    CharReadsBack(v);
    assert ([SextetChar(v)] + rest)[1..] == rest;
  }

  /** The first two characters give the first byte and the high bits of the next. */
  lemma FirstByte(a: Byte, high: nat, rest: string)
    requires high < 16
    ensures Read64([SextetChar(a / 4), SextetChar(a % 4 * 16 + high)] + rest, 0, 0, 0)
            == Prepend(a, Read64(rest, 2, high, 0))
  {
    hide Read64, SextetChar;
    var tail := [SextetChar(a % 4 * 16 + high)] + rest;
    assert [SextetChar(a / 4), SextetChar(a % 4 * 16 + high)] + rest == [SextetChar(a / 4)] + tail;
    ReadSextet(a / 4, tail, 0, 0);
    ReadSextet(a % 4 * 16 + high, rest, 1, a / 4);
  }

  lemma GroupOfFour(a: Byte, b: Byte, c: Byte, rest: string)
    ensures Read64(Four(a, b, c) + rest, 0, 0, 0) == Prepend(a, Prepend(b, Prepend(c, Read64(rest, 0, 0, 0))))
  {
    hide Read64, SextetChar;
    var last := [SextetChar(c % 64)] + rest;
    var tail := [SextetChar(b % 16 * 4 + c / 64)] + last;
    assert Four(a, b, c) + rest == [SextetChar(a / 4), SextetChar(a % 4 * 16 + b / 16)] + tail;
    FirstByte(a, b / 16, tail);
    ReadSextet(b % 16 * 4 + c / 64, last, 2, b / 16);
    ReadSextet(c % 64, rest, 3, c / 64);
  }

  lemma GroupOfTwo(a: Byte, rest: string)
    ensures Read64(Two(a) + rest, 0, 0, 0) == Prepend(a, Read64(rest, 2, 0, 0))
  {
    hide Read64, SextetChar;
    FirstByte(a, 0, rest);
  }

  lemma GroupOfThree(a: Byte, b: Byte, rest: string)
    ensures Read64(Three(a, b) + rest, 0, 0, 0) == Prepend(a, Prepend(b, Read64(rest, 3, 0, 0)))
  {
    hide Read64, SextetChar;
    var tail := [SextetChar(b % 16 * 4)] + rest;
    assert Three(a, b) + rest == [SextetChar(a / 4), SextetChar(a % 4 * 16 + b / 16)] + tail;
    FirstByte(a, b / 16, tail);
    ReadSextet(b % 16 * 4, rest, 2, b / 16);
  }

  lemma PaddingEndsGroups()
    ensures Read64("==", 0, 0, 0) == Some([])
    ensures Read64("==", 2, 0, 0) == Some([])
    ensures Read64("==", 3, 0, 0) == Some([])
  {
    assert "=="[1..] == "=" && "="[1..] == "";
    assert Read64("=", 2, 0, 1) == Some([]);
  }

  lemma InputEnds()
    ensures Read64("", 0, 0, 0) == Some([])
    ensures Read64("", 2, 0, 0).None? && Read64("", 3, 0, 0).None?
  {
  }

  /** Two padding characters are enough for every length, and too many for none. */
  lemma {:induction false} ReadsBackWithSparePadding(bytes: seq<Byte>)
    ensures Read64(Unpadded(bytes) + "==", 0, 0, 0) == Some(bytes)
    decreases |bytes|
  {
    hide Read64, Two, Three, Four;
    PaddingEndsGroups();
    if |bytes| == 0 {
      assert Unpadded(bytes) + "==" == "==";
    } else if |bytes| == 1 {
      GroupOfTwo(bytes[0], "==");
      assert bytes == [bytes[0]] + [];
    } else if |bytes| == 2 {
      GroupOfThree(bytes[0], bytes[1], "==");
      assert bytes == [bytes[0]] + ([bytes[1]] + []);
    } else {
      ReadsBackWithSparePadding(bytes[3..]);
      assert Unpadded(bytes) + "==" == Four(bytes[0], bytes[1], bytes[2]) + (Unpadded(bytes[3..]) + "==");
      GroupOfFour(bytes[0], bytes[1], bytes[2], Unpadded(bytes[3..]) + "==");
      assert [bytes[0]] + ([bytes[1]] + ([bytes[2]] + bytes[3..])) == bytes;
    }
  }

  /** The added padding is needed: without it only whole groups can be read. */
  lemma {:induction false} UnpaddedReadableIff(bytes: seq<Byte>)
    ensures Read64(Unpadded(bytes), 0, 0, 0).Some? <==> |bytes| % 3 == 0
    decreases |bytes|
  {
    hide Read64, Two, Three, Four;
    InputEnds();
    if |bytes| == 0 {
    } else if |bytes| == 1 {
      GroupOfTwo(bytes[0], "");
      assert Two(bytes[0]) + "" == Unpadded(bytes);
    } else if |bytes| == 2 {
      GroupOfThree(bytes[0], bytes[1], "");
      assert Three(bytes[0], bytes[1]) + "" == Unpadded(bytes);
    } else {
      UnpaddedReadableIff(bytes[3..]);
      GroupOfFour(bytes[0], bytes[1], bytes[2], Unpadded(bytes[3..]));
    }
  }

  // ---------------------------------------------------------------------
  // The payload
  // ---------------------------------------------------------------------

  const PREFIX: string := "{\"o\": "

  function PrintInt(n: int): string {
    if n < 0 then "-" + Decimal.Print(-n) else Decimal.Print(n)
  }

  function Payload(offset: int): string {
    PREFIX + PrintInt(offset) + "}"
  }

  /** A JSON integer: no leading zero. */
  function ReadInt(s: string): Option<int> {
    var negative := s != "" && s[0] == '-';
    var digits := if negative then s[1..] else s;
    if !Decimal.IsNumber(digits) || (|digits| > 1 && digits[0] == '0') then None
    else
      var value: int := Decimal.Value(digits);
      Some(if negative then -value else value)
  }

  function ReadPayload(s: string): Option<int> {
    if |s| > |PREFIX| && s[..|PREFIX|] == PREFIX && s[|s| - 1] == '}' then ReadInt(s[|PREFIX|..|s| - 1]) else None
  }

  predicate Ascii(s: string) {
    forall i :: 0 <= i < |s| ==> s[i] as int < 128
  }

  function ToBytes(s: string): seq<Byte>
    requires Ascii(s)
  {
    seq(|s|, i requires 0 <= i < |s| => s[i] as int)
  }

  function FromBytes(bytes: seq<Byte>): Option<string> {
    if exists i :: 0 <= i < |bytes| && bytes[i] >= 128 then None
    else Some(seq(|bytes|, i requires 0 <= i < |bytes| && bytes[i] < 128 => bytes[i] as char))
  }

  lemma PayloadIsAscii(offset: int)
    ensures Ascii(Payload(offset))
  {
    Decimal.PrintsBack(if offset < 0 then -offset else offset);
    assert Ascii(PREFIX);
    var s := PrintInt(offset);
    forall i | 0 <= i < |s| ensures s[i] as int < 128 {
      assert offset < 0 && i > 0 ==> s[i] == Decimal.Print(-offset)[i - 1];
    }
  }

  function EncodeCursor(offset: int): string {
    PayloadIsAscii(offset);
    StripPadding(Base64(ToBytes(Payload(offset))))
  }

  datatype CursorError = InvalidCursor

  /** The text a cursor carries, if its characters are Base64 and its bytes ASCII. */
  function TextOf(cursor: string): Option<string> {
    match Read64(cursor + "==", 0, 0, 0)
    case None => None
    case Some(bytes) => FromBytes(bytes)
  }

  function DecodeCursor(cursor: Option<string>): Result<nat, CursorError> {
    if cursor.None? || cursor.value == "" then Ok(0)
    else
      match TextOf(cursor.value)
      case None => Err(InvalidCursor)
      case Some(text) =>
        match ReadPayload(text)
        case None => Err(InvalidCursor)
        case Some(offset) => if offset < 0 then Err(InvalidCursor) else Ok(offset)
  }

  lemma BytesReadBack(s: string)
    requires Ascii(s)
    ensures FromBytes(ToBytes(s)) == Some(s)
  {
    var bytes := ToBytes(s);
    assert forall i :: 0 <= i < |bytes| ==> bytes[i] == s[i] as int < 128;
    assert FromBytes(bytes).Some? && FromBytes(bytes).value == s;
  }

  lemma DigitsOf(n: nat)
    ensures var s := Decimal.Print(n);
            Decimal.IsNumber(s) && Decimal.Value(s) == n && s[0] != '-' && (|s| > 1 ==> s[0] != '0')
  {
    Decimal.PrintsBack(n);
  }

  lemma IntReadsBack(n: int)
    ensures ReadInt(PrintInt(n)) == Some(n)
  {
    hide Decimal.Print, Decimal.Value, Decimal.IsNumber;
    var digits := Decimal.Print(if n < 0 then -n else n);
    DigitsOf(if n < 0 then -n else n);
    if n < 0 {
      assert PrintInt(n)[1..] == digits;
    }
  }

  lemma PayloadReadsBack(offset: int)
    ensures ReadPayload(Payload(offset)) == Some(offset)
  {
    hide PrintInt, ReadInt;
    var s := Payload(offset);
    IntReadsBack(offset);
    assert s[..|PREFIX|] == PREFIX;
    assert s[|PREFIX|..|s| - 1] == PrintInt(offset);
  }

  /** A cursor reads back as its offset for every offset from zero up, and for no other. */
  lemma CursorRoundTrip(offset: int)
    ensures DecodeCursor(Some(EncodeCursor(offset))) == if offset >= 0 then Ok(offset) else Err(InvalidCursor)
  {
    PayloadIsAscii(offset);
    var bytes := ToBytes(Payload(offset));
    StrippedIsUnpadded(bytes);
    UnpaddedHasNoPad(bytes);
    ReadsBackWithSparePadding(bytes);
    BytesReadBack(Payload(offset));
    PayloadReadsBack(offset);
  }

  /** The reader after one more character that is neither foreign nor padding. */
  function AfterSextet(v: Sextet, rest: string, quad: nat, left: nat): Option<seq<Byte>>
    requires quad < 4 && (quad == 1 ==> left < 64) && (quad == 2 ==> left < 16) && (quad == 3 ==> left < 4)
  {
    if quad == 0 then Read64(rest, 1, v, 0)
    else if quad == 1 then Prepend(left * 4 + v / 16, Read64(rest, 2, v % 16, 0))
    else if quad == 2 then Prepend(left * 16 + v / 4, Read64(rest, 3, v % 4, 0))
    else Prepend(left * 64 + v, Read64(rest, 0, 0, 0))
  }

  lemma ReadStep(c: char, rest: string, quad: nat, left: nat, pads: nat)
    requires quad < 4 && (quad == 1 ==> left < 64) && (quad == 2 ==> left < 16) && (quad == 3 ==> left < 4)
    ensures c != '=' && SextetOf(c).Some? ==>
              Read64([c] + rest, quad, left, pads) == AfterSextet(SextetOf(c).value, rest, quad, left)
    ensures c != '=' && SextetOf(c).None? ==> Read64([c] + rest, quad, left, pads) == Read64(rest, quad, left, pads)
    ensures c == '=' ==>
              Read64([c] + rest, quad, left, pads)
              == if quad >= 2 && quad + pads + 1 >= 4 then Some([])
                 else Read64(rest, quad, left, if quad >= 2 then pads + 1 else pads)
  {
    assert ([c] + rest)[0] == c && ([c] + rest)[1..] == rest;
  }

  /** A character outside both alphabets is skipped, wherever it stands. */
  lemma {:induction false} StraysAreSkipped(a: string, c: char, b: string, quad: nat, left: nat, pads: nat)
    requires quad < 4 && (quad == 1 ==> left < 64) && (quad == 2 ==> left < 16) && (quad == 3 ==> left < 4)
    requires !('A' <= c <= 'Z') && !('a' <= c <= 'z') && !('0' <= c <= '9') && c !in {'-', '+', '_', '/', '='}
    ensures Read64(a + [c] + b, quad, left, pads) == Read64(a + b, quad, left, pads)
    decreases |a|, 0
  {
    if a == "" {
      ReadStep(c, b, quad, left, pads);
      assert a + [c] + b == [c] + b && a + b == b;
    } else {
      hide Read64;
      var rest := a[1..];
      ReadStep(a[0], rest + [c] + b, quad, left, pads);
      ReadStep(a[0], rest + b, quad, left, pads);
      assert a + [c] + b == [a[0]] + (rest + [c] + b);
      assert a + b == [a[0]] + (rest + b);
      if a[0] == '=' {
        StraysAreSkipped(rest, c, b, quad, left, if quad >= 2 then pads + 1 else pads);
      } else if SextetOf(a[0]).None? {
        StraysAreSkipped(rest, c, b, quad, left, pads);
      } else {
        SkippedAfterSextet(rest, c, b, SextetOf(a[0]).value, quad);
      }
    }
  }

  lemma {:induction false} SkippedAfterSextet(a: string, c: char, b: string, v: Sextet, quad: nat)
    requires quad < 4
    requires !('A' <= c <= 'Z') && !('a' <= c <= 'z') && !('0' <= c <= '9') && c !in {'-', '+', '_', '/', '='}
    ensures forall left: nat :: (quad == 1 ==> left < 64) && (quad == 2 ==> left < 16) && (quad == 3 ==> left < 4) ==>
              AfterSextet(v, a + [c] + b, quad, left) == AfterSextet(v, a + b, quad, left)
    decreases |a|, 1
  {
    hide Read64;
    match quad
    case 0 => StraysAreSkipped(a, c, b, 1, v, 0);
    case 1 => StraysAreSkipped(a, c, b, 2, v % 16, 0);
    case 2 => StraysAreSkipped(a, c, b, 3, v % 4, 0);
    case _ => StraysAreSkipped(a, c, b, 0, 0, 0);
  }

  /** Padding ends the input once it completes a group of at least two characters, and is passed over before that. */
  lemma PadEndsOrIsPassedOver(s: string, quad: nat, left: nat)
    requires quad < 4 && (quad == 1 ==> left < 64) && (quad == 2 ==> left < 16) && (quad == 3 ==> left < 4)
    ensures quad < 2 ==> Read64("=" + s, quad, left, 0) == Read64(s, quad, left, 0)
    ensures quad == 2 ==> Read64("=" + s, quad, left, 0) == Read64(s, quad, left, 1)
    ensures quad == 2 ==> Read64("=" + s, quad, left, 1) == Some([])
    ensures quad == 3 ==> Read64("=" + s, quad, left, 0) == Some([])
  {
    hide Read64;
    ReadStep('=', s, quad, left, 0);
    ReadStep('=', s, quad, left, 1);
  }

  lemma MinusZeroReads()
    ensures ReadInt("-0") == Some(0)
  {
    assert "-0"[1..] == "0" && "0"[..0] == "";
    assert Decimal.Value("0") == 10 * Decimal.Value("") + 0;
  }

  lemma ReadsIntIff(s: string, n: int)
    ensures ReadInt(s) == Some(n) <==>
            || (n >= 0 && s == Decimal.Print(n))
            || (n < 0 && s == "-" + Decimal.Print(-n))
            || (n == 0 && s == "-0")
  {
    hide Decimal.Print, Decimal.Value;
    IntReadsBack(n);
    MinusZeroReads();
    if ReadInt(s) == Some(n) {
      var digits := if s != "" && s[0] == '-' then s[1..] else s;
      Decimal.ReadsBack(digits);
      Decimal.PrintsBack(0);
      assert s[0] == '-' ==> s == "-" + digits;
    }
  }

  /** A payload is read exactly if it is the print of its offset, or has a minus sign before the zero. */
  lemma ReadsPayloadIff(s: string, n: int)
    ensures ReadPayload(s) == Some(n) <==>
            || (n >= 0 && s == "{\"o\": " + Decimal.Print(n) + "}")
            || (n < 0 && s == "{\"o\": " + ("-" + Decimal.Print(-n)) + "}")
            || (n == 0 && s == "{\"o\": -0}")
  {
    hide ReadInt, ReadPayload, Decimal.Print;
    NumberReadsIff(if n < 0 then "-" + Decimal.Print(-n) else Decimal.Print(n), n);
    NumberReadsIff("-0", n);
    assert "{\"o\": -0}" == PREFIX + "-0" + "}";
    if ReadPayload(s) == Some(n) {
      PayloadShape(s);
      NumberReadsIff(s[|PREFIX|..|s| - 1], n);
    }
  }

  lemma PayloadShape(s: string)
    requires ReadPayload(s).Some?
    ensures |s| > |PREFIX| && s == PREFIX + s[|PREFIX|..|s| - 1] + "}"
  {
  }

  lemma NumberReadsIff(number: string, n: int)
    ensures ReadPayload(PREFIX + number + "}") == Some(n) <==>
            || (n >= 0 && number == Decimal.Print(n))
            || (n < 0 && number == "-" + Decimal.Print(-n))
            || (n == 0 && number == "-0")
  {
    hide ReadInt, ReadPayload, Decimal.Print;
    NumberOfPayload(number);
    ReadsIntIff(number, n);
  }

  lemma NumberOfPayload(number: string)
    ensures ReadPayload(PREFIX + number + "}") == ReadInt(number)
  {
    var s := PREFIX + number + "}";
    assert s[..|PREFIX|] == PREFIX && s[|PREFIX|..|s| - 1] == number;
  }

  /** A cursor stands for an offset exactly if the text it carries is such a payload of it. */
  lemma DecodesIff(cursor: string, n: nat)
    requires cursor != ""
    ensures DecodeCursor(Some(cursor)) == Ok(n) <==>
            || TextOf(cursor) == Some("{\"o\": " + Decimal.Print(n) + "}")
            || (n == 0 && TextOf(cursor) == Some("{\"o\": -0}"))
  {
    if TextOf(cursor).Some? {
      ReadsPayloadIff(TextOf(cursor).value, n);
    }
  }

  /** No cursor, or an empty one, is the start. */
  lemma NoCursorIsTheStart(cursor: Option<string>)
    requires cursor.None? || cursor.value == ""
    ensures DecodeCursor(cursor) == Ok(0)
  {
  }
}

// LinkedIn's little-text escaping and the caption length counted against it
// (escape_commentary in providers/linkedin.py, caption_wire_length in providers/__init__.py).
module Commentary {

  const BACKSLASH: char := '\\'

  const RESERVED: string := "|{}@[]()<>#*_~"

  const ESCAPED: string := [BACKSLASH] + RESERVED

  /** str.replace with a one-character pattern. */
  function ReplaceChar(s: string, c: char, with: string): string {
    if s == "" then "" else (if s[0] == c then with else [s[0]]) + ReplaceChar(s[1..], c, with)
  }

  /** One pass: a backslash before every character of `chars`. */
  function EscapeSet(s: string, chars: set<char>): string {
    if s == "" then ""
    else (if s[0] in chars then [BACKSLASH, s[0]] else [s[0]]) + EscapeSet(s[1..], chars)
  }

  function Chars(s: string): set<char> {
    set i | 0 <= i < |s| :: s[i]
  }

  /** What the escaping means. */
  function Escape(s: string): string {
    EscapeSet(s, Chars(ESCAPED))
  }

  /** The backslash first, then each reserved character in turn, over the text so far. */
  method EscapeCommentary(text: string) returns (escaped: string)
    ensures escaped == Escape(text)
  {
    if text == "" {
      return text;
    }
    escaped := ReplaceChar(text, BACKSLASH, [BACKSLASH, BACKSLASH]);
    BackslashFirst(text);
    for i := 0 to |RESERVED|
      invariant escaped == EscapeSet(text, {BACKSLASH} + Chars(RESERVED[..i]))
    {
      var c := RESERVED[i];
      escaped := ReplaceChar(escaped, c, [BACKSLASH, c]);
      ReservedAreDistinct(i);
      OneMorePass(text, {BACKSLASH} + Chars(RESERVED[..i]), c);
      OneMoreReserved(i);
    }
    assert RESERVED[..|RESERVED|] == RESERVED;
    EscapedChars();
  }

  lemma CharsOfOne(c: char)
    ensures Chars([c]) == {c}
  {
    var s := [c];
    assert s[0] in Chars(s);
  }

  lemma CharsOfConcat(a: string, b: string)
    ensures Chars(a + b) == Chars(a) + Chars(b)
  {
    forall c | c in Chars(b) ensures c in Chars(a + b) {
      var i :| 0 <= i < |b| && b[i] == c;
      assert (a + b)[|a| + i] == c;
    }
    forall c | c in Chars(a) ensures c in Chars(a + b) {
      var i :| 0 <= i < |a| && a[i] == c;
      assert (a + b)[i] == c;
    }
    forall c | c in Chars(a + b) ensures c in Chars(a) + Chars(b) {
      var i :| 0 <= i < |a + b| && (a + b)[i] == c;
      assert if i < |a| then a[i] == c else b[i - |a|] == c;
    }
  }

  lemma OneMoreReserved(i: nat)
    requires i < |RESERVED|
    ensures {BACKSLASH} + Chars(RESERVED[..i + 1]) == {BACKSLASH} + Chars(RESERVED[..i]) + {RESERVED[i]}
  {
    CharsOfConcat(RESERVED[..i], [RESERVED[i]]);
    CharsOfOne(RESERVED[i]);
    assert RESERVED[..i + 1] == RESERVED[..i] + [RESERVED[i]];
  }

  lemma ReservedAreDistinct(i: nat)
    requires i < |RESERVED|
    ensures RESERVED[i] != BACKSLASH && RESERVED[i] !in Chars(RESERVED[..i])
  {
    assert forall j, k :: 0 <= j < k < |RESERVED| ==> RESERVED[j] != RESERVED[k];
  }

  lemma {:induction false} BackslashFirst(s: string)
    ensures ReplaceChar(s, BACKSLASH, [BACKSLASH, BACKSLASH]) == EscapeSet(s, {BACKSLASH} + Chars(RESERVED[..0]))
  {
    if s != "" {
      BackslashFirst(s[1..]);
    }
  }

  lemma {:induction false} ReplaceInConcat(a: string, b: string, c: char, with: string)
    ensures ReplaceChar(a + b, c, with) == ReplaceChar(a, c, with) + ReplaceChar(b, c, with)
  {
    if a == "" {
      assert a + b == b;
    } else {
      assert (a + b)[1..] == a[1..] + b;
      ReplaceInConcat(a[1..], b, c, with);
    }
  }

  /** A further replace pass adds one character to the set, and does not touch the escapes already there. */
  lemma {:induction false} OneMorePass(s: string, chars: set<char>, c: char)
    requires BACKSLASH in chars && c !in chars
    ensures ReplaceChar(EscapeSet(s, chars), c, [BACKSLASH, c]) == EscapeSet(s, chars + {c})
  {
    if s != "" {
      OneMorePass(s[1..], chars, c);
      var head := if s[0] in chars then [BACKSLASH, s[0]] else [s[0]];
      ReplaceInConcat(head, EscapeSet(s[1..], chars), c, [BACKSLASH, c]);
      assert ReplaceChar([s[0]], c, [BACKSLASH, c]) == if s[0] == c then [BACKSLASH, c] else [s[0]];
      if s[0] in chars {
        assert head[1..] == [s[0]];
        assert ReplaceChar(head, c, [BACKSLASH, c]) == head;
      }
    }
  }

  // ---------------------------------------------------------------------
  // What the escaped text is good for
  // ---------------------------------------------------------------------

  lemma {:induction false} EscapeDistributes(a: string, b: string)
    ensures Escape(a + b) == Escape(a) + Escape(b)
  {
    if a == "" {
      assert a + b == b;
    } else {
      assert (a + b)[1..] == a[1..] + b;
      EscapeDistributes(a[1..], b);
    }
  }

  /** What a little-text reader makes of it: a backslash takes the next character literally. */
  function Unescape(s: string): string {
    if s == "" then ""
    else if s[0] == BACKSLASH && |s| > 1 then [s[1]] + Unescape(s[2..])
    else [s[0]] + Unescape(s[1..])
  }

  /** No reserved character is met outside an escape, and no backslash is left dangling. */
  predicate FullyEscaped(s: string) {
    if s == "" then true
    else if s[0] == BACKSLASH then |s| > 1 && FullyEscaped(s[2..])
    else s[0] !in Chars(RESERVED) && FullyEscaped(s[1..])
  }

  lemma EscapedChars()
    ensures Chars(ESCAPED) == {BACKSLASH} + Chars(RESERVED)
  {
    CharsOfConcat([BACKSLASH], RESERVED);
    CharsOfOne(BACKSLASH);
  }

  lemma {:induction false} EscapedIsSafe(s: string)
    ensures FullyEscaped(Escape(s))
    ensures Unescape(Escape(s)) == s
  {
    EscapedChars();
    if s != "" {
      EscapedIsSafe(s[1..]);
      var rest := Escape(s[1..]);
      if s[0] in Chars(ESCAPED) {
        assert Escape(s) == [BACKSLASH, s[0]] + rest;
        assert Escape(s)[2..] == rest;
      } else {
        assert Escape(s) == [s[0]] + rest;
        assert Escape(s)[1..] == rest;
      }
    }
  }

  /** Different captions never publish as the same payload. */
  lemma EscapeIsInjective(a: string, b: string)
    requires Escape(a) == Escape(b)
    ensures a == b
  {
    EscapedIsSafe(a);
    EscapedIsSafe(b);
  }

  /** Escaping is the only way to be fully escaped and read back as the caption, up to needless escapes. */
  lemma {:induction false} SafeTextIsAtLeastAsLong(s: string)
    requires FullyEscaped(s)
    ensures |Escape(Unescape(s))| <= |s|
    decreases |s|
  {
    EscapedChars();
    if s != "" {
      if s[0] == BACKSLASH {
        SafeTextIsAtLeastAsLong(s[2..]);
        assert Unescape(s)[1..] == Unescape(s[2..]);
      } else {
        SafeTextIsAtLeastAsLong(s[1..]);
        assert Unescape(s)[1..] == Unescape(s[1..]);
      }
    }
  }

  // ---------------------------------------------------------------------
  // The composer's counter
  // ---------------------------------------------------------------------

  function CountOf(s: string, c: char): nat {
    if s == "" then 0 else (if s[0] == c then 1 else 0) + CountOf(s[1..], c)
  }

  function CountAll(s: string, chars: string): nat {
    if chars == "" then 0 else CountOf(s, chars[0]) + CountAll(s, chars[1..])
  }

  function EscapedCharsOf(platform: string): string {
    if platform == "linkedin_personal" || platform == "linkedin_company" then ESCAPED else ""
  }

  function CaptionWireLength(platform: string, text: string): nat {
    if EscapedCharsOf(platform) == "" then |text| else |text| + CountAll(text, EscapedCharsOf(platform))
  }

  predicate Distinct(chars: string) {
    forall i, j :: 0 <= i < j < |chars| ==> chars[i] != chars[j]
  }

  /** The first character of a text counts once if it is among distinct characters. */
  lemma {:induction false} CountAllStep(s: string, chars: string)
    requires s != "" && Distinct(chars)
    ensures CountAll(s, chars) == (if s[0] in Chars(chars) then 1 else 0) + CountAll(s[1..], chars)
    decreases |chars|
  {
    if chars != "" {
      CountAllStep(s, chars[1..]);
      CharsOfConcat([chars[0]], chars[1..]);
      assert [chars[0]] + chars[1..] == chars;
      CharsOfOne(chars[0]);
      assert chars[0] !in Chars(chars[1..]);
    }
  }

  lemma {:induction false} CountNothing(chars: string)
    ensures CountAll("", chars) == 0
    decreases |chars|
  {
    if chars != "" {
      CountNothing(chars[1..]);
    }
  }

  lemma EscapedAreDistinct()
    ensures Distinct(ESCAPED)
  {
  }

  lemma {:induction false} EscapedLength(s: string)
    ensures |Escape(s)| == |s| + CountAll(s, ESCAPED)
  {
    if s == "" {
      CountNothing(ESCAPED);
    } else {
      hide CountAll, Distinct;
      EscapedLength(s[1..]);
      EscapedAreDistinct();
      CountAllStep(s, ESCAPED);
    }
  }

  /** The counter agrees with the payload on both LinkedIn platforms. */
  lemma WireLengthIsPayloadLength(platform: string, text: string)
    requires platform == "linkedin_personal" || platform == "linkedin_company"
    ensures CaptionWireLength(platform, text) == |Escape(text)|
  {
    EscapedLength(text);
  }

  /** Elsewhere nothing is escaped and every character counts once. */
  lemma WireLengthElsewhere(platform: string, text: string)
    requires platform != "linkedin_personal" && platform != "linkedin_company"
    ensures CaptionWireLength(platform, text) == |text|
  {
  }
}

// The 429 message, printed by the limits module and parsed back by the API's
// error handler (_format_quota_message in apps/api/limits.py,
// _parse_quota_message in apps/api/api.py).
module QuotaMessage {
  import opened Wrappers
  import Decimal

  /** What a split on whitespace splits at. */
  predicate IsSpace(c: char) {
    var n := c as int;
    || 0x09 <= n <= 0x0D || 0x1C <= n <= 0x20 || n == 0x85 || n == 0xA0 || n == 0x1680
    || 0x2000 <= n <= 0x200A || n == 0x2028 || n == 0x2029 || n == 0x202F || n == 0x205F || n == 0x3000
  }

  predicate Solid(s: string) {
    forall i :: 0 <= i < |s| ==> !IsSpace(s[i])
  }

  function Word(w: string): seq<string> { if w == "" then [] else [w] }

  /** The words of s, where `word` has been read so far. */
  function SplitFrom(s: string, word: string): seq<string> {
    if s == "" then Word(word)
    else if IsSpace(s[0]) then Word(word) + SplitFrom(s[1..], "")
    else SplitFrom(s[1..], word + [s[0]])
  }

  function Split(s: string): seq<string> { SplitFrom(s, "") }

  predicate HasEquals(s: string) { exists i :: 0 <= i < |s| && s[i] == '=' }

  function BeforeEquals(s: string): string {
    if s == "" || s[0] == '=' then "" else [s[0]] + BeforeEquals(s[1..])
  }

  function AfterEquals(s: string): string {
    if s == "" then "" else if s[0] == '=' then s[1..] else AfterEquals(s[1..])
  }

  // ---------------------------------------------------------------------
  // Numbers: isdigit() accepts more characters than int() can read
  // ---------------------------------------------------------------------

  /** What Unicode says of a character: superscripts and the like are digits, but not decimal ones. */
  datatype DigitKind = NoDigit | DecimalDigit(value: nat) | OtherDigit

  type Unicode = char -> DigitKind

  const SUPERSCRIPT_TWO: char := '\U{00B2}'

  /** The part of the character table that matters here. */
  ghost predicate KnowsDigits(u: Unicode) {
    && (forall c: char :: '0' <= c <= '9' ==> u(c) == DecimalDigit(c as int - 48))
    && u(SUPERSCRIPT_TWO) == OtherDigit
  }

  /** v.isdigit() */
  predicate IsDigits(u: Unicode, s: string) {
    s != "" && forall i :: 0 <= i < |s| ==> !u(s[i]).NoDigit?
  }

  predicate AllDecimal(u: Unicode, s: string) {
    forall i :: 0 <= i < |s| ==> u(s[i]).DecimalDigit?
  }

  /** int(v) */
  function Number(u: Unicode, s: string): nat
    requires AllDecimal(u, s)
  {
    if s == "" then 0 else 10 * Number(u, s[..|s| - 1]) + u(s[|s| - 1]).value
  }

  datatype Value = Num(n: nat) | Text(s: string)

  datatype Error = ValueError

  function ReadValue(u: Unicode, s: string): Result<Value, Error> {
    if !IsDigits(u, s) then Ok(Text(s))
    else if AllDecimal(u, s) then Ok(Num(Number(u, s)))
    else Err(ValueError)
  }

  type Parts = map<string, Value>

  function AddPart(u: Unicode, parts: Parts, word: string): Result<Parts, Error> {
    if !HasEquals(word) then Ok(parts)
    else
      match ReadValue(u, AfterEquals(word))
      case Ok(v) => Ok(parts[BeforeEquals(word) := v])
      case Err(e) => Err(e)
  }

  function AddParts(u: Unicode, parts: Parts, words: seq<string>): Result<Parts, Error>
    decreases |words|
  {
    if words == [] then Ok(parts)
    else
      match AddPart(u, parts, words[0])
      case Ok(more) => AddParts(u, more, words[1..])
      case Err(e) => Err(e)
  }

  const START: Parts := map["error" := Text("rate_limited")]

  function ParseParts(u: Unicode, msg: string): Result<Parts, Error> {
    AddParts(u, START, Split(msg))
  }

  function Field(name: string, value: string): string { name + "=" + value }

  function FormatQuotaMessage(tier: string, limit: nat, remaining: nat, retryAfter: nat): string {
    "rate_limited " + Field("tier", tier) + " " + Field("limit", Decimal.Print(limit)) + " "
    + Field("remaining", Decimal.Print(remaining)) + " " + Field("retry_after", Decimal.Print(retryAfter))
  }

  function Header(headers: map<string, string>, parts: Parts, field: string, name: string): map<string, string> {
    if field in parts && parts[field].Num? then headers[name := Decimal.Print(parts[field].n)] else headers
  }

  function Headers(parts: Parts): map<string, string> {
    Header(Header(Header(map[], parts, "retry_after", "Retry-After"), parts, "limit", "X-RateLimit-Limit"),
           parts, "remaining", "X-RateLimit-Remaining")
  }

  method ParseQuotaMessage(u: Unicode, msg: string) returns (r: Result<(Parts, map<string, string>), Error>)
    ensures r.Ok? <==> ParseParts(u, msg).Ok?
    ensures r.Ok? ==> r.value.0 == ParseParts(u, msg).value && r.value.1 == Headers(r.value.0)
  {
    var parts: Parts := map["error" := Text("rate_limited")];
    var words := Split(msg);
    for i := 0 to |words|
      invariant AddParts(u, parts, words[i..]) == ParseParts(u, msg)
    {
      var token := words[i];
      if HasEquals(token) {
        var value := ReadValue(u, AfterEquals(token));
        if value.Err? {
          return Err(value.error);
        }
        parts := parts[BeforeEquals(token) := value.value];
      }
    }
    var headers: map<string, string> := map[];
    if "retry_after" in parts && parts["retry_after"].Num? {
      headers := headers["Retry-After" := Decimal.Print(parts["retry_after"].n)];
    }
    if "limit" in parts && parts["limit"].Num? {
      headers := headers["X-RateLimit-Limit" := Decimal.Print(parts["limit"].n)];
    }
    if "remaining" in parts && parts["remaining"].Num? {
      headers := headers["X-RateLimit-Remaining" := Decimal.Print(parts["remaining"].n)];
    }
    return Ok((parts, headers));
  }

  /** The characters a split on whitespace splits at. */
  lemma SpacesAre(c: char)
    ensures IsSpace(c) <==>
            c as int in {9, 10, 11, 12, 13, 28, 29, 30, 31, 32, 133, 160, 5760, 8192, 8193, 8194, 8195, 8196, 8197,
                         8198, 8199, 8200, 8201, 8202, 8232, 8233, 8239, 8287, 12288}
  {
  }

  /** A value is read as a number, as text, or not at all, by the kinds of its characters. */
  lemma ValueReadsIff(u: Unicode, s: string)
    ensures ReadValue(u, s).Err? <==>
            && |s| > 0 && (forall i :: 0 <= i < |s| ==> u(s[i]).DecimalDigit? || u(s[i]).OtherDigit?)
            && (exists i :: 0 <= i < |s| && u(s[i]).OtherDigit?)
    ensures ReadValue(u, s) == Ok(Text(s)) <==> |s| == 0 || exists i :: 0 <= i < |s| && u(s[i]).NoDigit?
    ensures ReadValue(u, s).Ok? && ReadValue(u, s).value.Num? <==>
            |s| > 0 && forall i :: 0 <= i < |s| ==> u(s[i]).DecimalDigit?
  {
    if |s| > 0 && AllDecimal(u, s) {
      assert u(s[0]).DecimalDigit?;
    }
  }

  // ---------------------------------------------------------------------
  // Splitting what was joined
  // ---------------------------------------------------------------------

  lemma {:induction false} SplitSolid(w: string, rest: string, word: string)
    requires Solid(w)
    ensures SplitFrom(w + rest, word) == SplitFrom(rest, word + w)
    decreases |w|
  {
    if w == "" {
      assert w + rest == rest && word + w == word;
    } else {
      assert (w + rest)[1..] == w[1..] + rest;
      SplitSolid(w[1..], rest, word + [w[0]]);
      assert word + [w[0]] + w[1..] == word + w;
    }
  }

  lemma SplitWord(w: string, rest: string)
    requires Solid(w) && w != ""
    ensures Split(w + " " + rest) == [w] + Split(rest)
    ensures Split(w) == [w]
  {
    assert w + " " + rest == w + (" " + rest);
    SplitSolid(w, " " + rest, "");
    assert "" + w == w && (" " + rest)[1..] == rest;
    SplitSolid(w, "", "");
    assert w + "" == w;
  }

  lemma {:induction false} WordsAreSolid(s: string, word: string)
    requires Solid(word)
    ensures forall w :: w in SplitFrom(s, word) ==> Solid(w)
    decreases |s|
  {
    if s != "" {
      if IsSpace(s[0]) {
        WordsAreSolid(s[1..], "");
      } else {
        WordsAreSolid(s[1..], word + [s[0]]);
      }
    }
  }

  lemma {:induction false} EqualsSplits(name: string, value: string)
    requires !HasEquals(name)
    ensures HasEquals(Field(name, value))
    ensures BeforeEquals(Field(name, value)) == name
    ensures AfterEquals(Field(name, value)) == value
    decreases |name|
  {
    var s := Field(name, value);
    assert s[|name|] == '=';
    if name == "" {
      assert s[1..] == value;
    } else {
      assert forall i :: 0 <= i < |name[1..]| ==> name[1..][i] == name[i + 1];
      assert !HasEquals(name[1..]);
      EqualsSplits(name[1..], value);
      assert s[0] == name[0] && s[1..] == Field(name[1..], value);
    }
  }

  lemma SolidField(name: string, value: string)
    requires Solid(name) && Solid(value)
    ensures Solid(Field(name, value))
  {
  }

  lemma {:induction false} PrintIsDecimal(u: Unicode, n: nat)
    requires KnowsDigits(u)
    ensures var s := Decimal.Print(n);
            s != "" && AllDecimal(u, s) && Number(u, s) == n
  {
    var s := Decimal.Print(n);
    if n >= 10 {
      PrintIsDecimal(u, n / 10);
      assert s[..|s| - 1] == Decimal.Print(n / 10);
    } else {
      assert s[..|s| - 1] == "";
    }
  }

  lemma PrintIsSolid(n: nat)
    ensures Solid(Decimal.Print(n))
  {
    Decimal.PrintsBack(n);
  }

  // ---------------------------------------------------------------------
  // Adding up the words
  // ---------------------------------------------------------------------

  lemma {:induction false} AddPartsJoined(u: Unicode, parts: Parts, a: seq<string>, b: seq<string>)
    ensures AddParts(u, parts, a + b)
            == match AddParts(u, parts, a)
               case Ok(more) => AddParts(u, more, b)
               case Err(e) => Err(e)
    decreases |a|
  {
    if a == [] {
      assert a + b == b;
    } else {
      assert (a + b)[1..] == a[1..] + b;
      if AddPart(u, parts, a[0]).Ok? {
        AddPartsJoined(u, AddPart(u, parts, a[0]).value, a[1..], b);
      }
    }
  }

  lemma AddOne(u: Unicode, parts: Parts, word: string)
    ensures AddParts(u, parts, [word]) == AddPart(u, parts, word)
  {
    assert [word][1..] == [];
  }

  lemma NumberFieldReads(u: Unicode, parts: Parts, name: string, n: nat)
    requires KnowsDigits(u) && !HasEquals(name)
    ensures AddParts(u, parts, [Field(name, Decimal.Print(n))]) == Ok(parts[name := Num(n)])
  {
    EqualsSplits(name, Decimal.Print(n));
    PrintIsDecimal(u, n);
    AddOne(u, parts, Field(name, Decimal.Print(n)));
  }

  /** The three number fields at the end of the message, whatever came before them. */
  lemma NumbersRead(u: Unicode, parts: Parts, limit: nat, remaining: nat, retryAfter: nat)
    requires KnowsDigits(u)
    ensures AddParts(u, parts, NumberWords(limit, remaining, retryAfter))
            == Ok(parts["limit" := Num(limit)]["remaining" := Num(remaining)]["retry_after" := Num(retryAfter)])
  {
    var words := NumberWords(limit, remaining, retryAfter);
    var p1 := parts["limit" := Num(limit)];
    var p2 := p1["remaining" := Num(remaining)];
    AddPartsJoined(u, parts, words[..1], words[1..]);
    AddPartsJoined(u, p1, words[1..2], words[2..]);
    assert words[..1] + words[1..] == words && words[1..2] + words[2..] == words[1..];
    assert words[..1] == [words[0]] && words[1..2] == [words[1]] && words[2..] == [words[2]];
    NumberFieldReads(u, parts, "limit", limit);
    NumberFieldReads(u, p1, "remaining", remaining);
    NumberFieldReads(u, p2, "retry_after", retryAfter);
  }

  function NumberWords(limit: nat, remaining: nat, retryAfter: nat): (words: seq<string>)
    ensures |words| == 3
  {
    [Field("limit", Decimal.Print(limit)), Field("remaining", Decimal.Print(remaining)),
     Field("retry_after", Decimal.Print(retryAfter))]
  }

  // ---------------------------------------------------------------------
  // Round trip
  // ---------------------------------------------------------------------

  lemma {:induction false} SplitJoined(a: string, b: string, word: string)
    ensures SplitFrom(a + " " + b, word) == SplitFrom(a, word) + Split(b)
    decreases |a|
  {
    var s := a + " " + b;
    if a == "" {
      assert s[1..] == b;
    } else if IsSpace(a[0]) {
      SplitJoined(a[1..], b, "");
      assert s[1..] == a[1..] + " " + b;
      assert Word(word) + (SplitFrom(a[1..], "") + Split(b)) == Word(word) + SplitFrom(a[1..], "") + Split(b);
    } else {
      SplitJoined(a[1..], b, word + [a[0]]);
      assert s[1..] == a[1..] + " " + b;
    }
  }

  lemma NumberFieldIsAWord(name: string, n: nat)
    requires Solid(name)
    ensures Split(Field(name, Decimal.Print(n))) == [Field(name, Decimal.Print(n))]
  {
    PrintIsSolid(n);
    SolidField(name, Decimal.Print(n));
    SplitWord(Field(name, Decimal.Print(n)), "");
  }

  lemma LastFields(front: string, limit: nat, remaining: nat, retryAfter: nat)
    ensures Split(front + " " + Field("limit", Decimal.Print(limit)) + " "
                  + Field("remaining", Decimal.Print(remaining))
                  + " " + Field("retry_after", Decimal.Print(retryAfter)))
            == Split(front) + NumberWords(limit, remaining, retryAfter)
  {
    hide SplitFrom, Field;
    var l := Field("limit", Decimal.Print(limit));
    var m := Field("remaining", Decimal.Print(remaining));
    var a := Field("retry_after", Decimal.Print(retryAfter));
    NumberFieldIsAWord("limit", limit);
    NumberFieldIsAWord("remaining", remaining);
    NumberFieldIsAWord("retry_after", retryAfter);
    SplitJoined(front, l, "");
    SplitJoined(front + " " + l, m, "");
    SplitJoined(front + " " + l + " " + m, a, "");
  }

  /** The words the tier contributes: the one that names it, and more where it holds whitespace. */
  function TierWords(tier: string): seq<string> {
    Split(Field("tier", tier))
  }

  lemma TierWordsCome(tier: string)
    ensures Split("rate_limited " + Field("tier", tier)) == ["rate_limited"] + TierWords(tier)
  {
    SplitWord("rate_limited", Field("tier", tier));
    assert "rate_limited " + Field("tier", tier) == "rate_limited" + " " + Field("tier", tier);
  }

  lemma WordsOfMessage(tier: string, limit: nat, remaining: nat, retryAfter: nat)
    ensures Split(FormatQuotaMessage(tier, limit, remaining, retryAfter))
            == ["rate_limited"] + TierWords(tier) + NumberWords(limit, remaining, retryAfter)
  {
    hide SplitFrom, Field, NumberWords;
    LastFields("rate_limited " + Field("tier", tier), limit, remaining, retryAfter);
    TierWordsCome(tier);
  }

  /** A first word without a value, then two lists of words. */
  lemma AddWordThenLists(u: Unicode, parts: Parts, word: string, a: seq<string>, b: seq<string>)
    requires !HasEquals(word)
    ensures AddParts(u, parts, [word] + a + b)
            == match AddParts(u, parts, a)
               case Ok(more) => AddParts(u, more, b)
               case Err(e) => Err(e)
  {
    hide AddParts;
    AddPartsJoined(u, parts, [word] + a, b);
    AddPartsJoined(u, parts, [word], a);
    AddOne(u, parts, word);
  }

  /** The whole parse: the tier's words, then the three numbers over whatever they brought. */
  lemma ParseOfMessage(u: Unicode, tier: string, limit: nat, remaining: nat, retryAfter: nat)
    requires KnowsDigits(u)
    ensures ParseParts(u, FormatQuotaMessage(tier, limit, remaining, retryAfter))
            == match AddParts(u, START, TierWords(tier))
               case Err(e) => Err(e)
               case Ok(parts) =>
                 Ok(parts["limit" := Num(limit)]["remaining" := Num(remaining)]["retry_after" := Num(retryAfter)])
  {
    hide AddParts, AddPart, Split, NumberWords, TierWords, FormatQuotaMessage, KnowsDigits;
    WordsOfMessage(tier, limit, remaining, retryAfter);
    AddWordThenLists(u, START, "rate_limited", TierWords(tier), NumberWords(limit, remaining, retryAfter));
    if AddParts(u, START, TierWords(tier)).Ok? {
      NumbersRead(u, AddParts(u, START, TierWords(tier)).value, limit, remaining, retryAfter);
    }
  }

  /** For a tier without whitespace the fields come back as printed, the tier as a number when it reads as one. */
  lemma MessageRoundTrip(u: Unicode, tier: string, limit: nat, remaining: nat, retryAfter: nat)
    requires KnowsDigits(u) && Solid(tier)
    ensures ParseParts(u, FormatQuotaMessage(tier, limit, remaining, retryAfter))
            == match ReadValue(u, tier)
               case Err(e) => Err(e)
               case Ok(v) => Ok(map["error" := Text("rate_limited"), "tier" := v, "limit" := Num(limit),
                                    "remaining" := Num(remaining), "retry_after" := Num(retryAfter)])
  {
    ParseOfMessage(u, tier, limit, remaining, retryAfter);
    SolidField("tier", tier);
    SplitWord(Field("tier", tier), "");
    EqualsSplits("tier", tier);
    AddOne(u, START, Field("tier", tier));
  }

  // ---------------------------------------------------------------------
  // Which tiers do no harm
  // ---------------------------------------------------------------------

  /** A word on whose value int() raises: all digits, and some of them not decimal. */
  predicate Unreadable(u: Unicode, word: string) {
    HasEquals(word) && IsDigits(u, AfterEquals(word)) && !AllDecimal(u, AfterEquals(word))
  }

  lemma {:induction false} AddPartsFailsIff(u: Unicode, parts: Parts, words: seq<string>)
    ensures AddParts(u, parts, words).Err? <==> exists i :: 0 <= i < |words| && Unreadable(u, words[i])
    decreases |words|
  {
    if words != [] {
      if AddPart(u, parts, words[0]).Ok? {
        AddPartsFailsIff(u, AddPart(u, parts, words[0]).value, words[1..]);
        assert forall i :: 1 <= i < |words| ==> words[i] == words[1..][i - 1];
      } else {
        assert Unreadable(u, words[0]);
      }
    }
  }

  /**
   * The handler raises exactly when a word of the tier has an unreadable value; otherwise the numbers
   * reach the headers unharmed, whatever else the tier holds, spaces and equals signs included.
   */
  lemma HeadersSurviveIff(u: Unicode, tier: string, limit: nat, remaining: nat, retryAfter: nat)
    requires KnowsDigits(u)
    ensures var r := ParseParts(u, FormatQuotaMessage(tier, limit, remaining, retryAfter));
            && (r.Err? <==> exists i :: 0 <= i < |TierWords(tier)| && Unreadable(u, TierWords(tier)[i]))
            && (r.Ok? ==> Headers(r.value) ==
                          map["Retry-After" := Decimal.Print(retryAfter), "X-RateLimit-Limit" := Decimal.Print(limit),
                              "X-RateLimit-Remaining" := Decimal.Print(remaining)])
  {
    hide AddParts, SplitFrom;
    ParseOfMessage(u, tier, limit, remaining, retryAfter);
    AddPartsFailsIff(u, START, TierWords(tier));
  }

  /** A superscript two for a tier makes the handler raise. */
  lemma SuperscriptTierRaises(u: Unicode, limit: nat, remaining: nat, retryAfter: nat)
    requires KnowsDigits(u)
    ensures ParseParts(u, FormatQuotaMessage([SUPERSCRIPT_TWO], limit, remaining, retryAfter)) == Err(ValueError)
  {
    MessageRoundTrip(u, [SUPERSCRIPT_TWO], limit, remaining, retryAfter);
    assert [SUPERSCRIPT_TWO][0] == SUPERSCRIPT_TWO;
  }

  // ---------------------------------------------------------------------
  // Which tiers come back
  // ---------------------------------------------------------------------

  ghost predicate AllSolid(parts: Parts) {
    forall k :: k in parts && parts[k].Text? ==> Solid(parts[k].s)
  }

  lemma {:induction false} AfterEqualsIsSolid(s: string)
    requires Solid(s)
    ensures Solid(AfterEquals(s))
  {
    if s != "" && s[0] != '=' {
      AfterEqualsIsSolid(s[1..]);
    }
  }

  lemma {:induction false} PartsStaySolid(u: Unicode, parts: Parts, words: seq<string>)
    requires AllSolid(parts) && forall w :: w in words ==> Solid(w)
    ensures AddParts(u, parts, words).Ok? ==> AllSolid(AddParts(u, parts, words).value)
    decreases |words|
  {
    if words != [] {
      assert words[0] in words;
      AfterEqualsIsSolid(words[0]);
      if AddPart(u, parts, words[0]).Ok? {
        PartsStaySolid(u, AddPart(u, parts, words[0]).value, words[1..]);
      }
    }
  }

  /** A tier comes back as text exactly when it holds no whitespace and is not all digits. */
  lemma TierSurvivesIff(u: Unicode, tier: string, limit: nat, remaining: nat, retryAfter: nat)
    requires KnowsDigits(u)
    ensures var r := ParseParts(u, FormatQuotaMessage(tier, limit, remaining, retryAfter));
            (r.Ok? && "tier" in r.value && r.value["tier"] == Text(tier)) <==> Solid(tier) && !IsDigits(u, tier)
  {
    var msg := FormatQuotaMessage(tier, limit, remaining, retryAfter);
    if Solid(tier) {
      MessageRoundTrip(u, tier, limit, remaining, retryAfter);
    } else {
      WordsAreSolid(msg, "");
      PartsStaySolid(u, START, Split(msg));
    }
  }
}

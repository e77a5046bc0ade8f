// Rich-text facets with byte offsets (_parse_facets in providers/bluesky.py).
// The matches of the three patterns are given; each pattern's matches come in
// order and do not overlap, as a scan of the text yields them.
module Facets {
  import opened Wrappers
  import opened Utf8

  const AT: CodePoint := 0x40
  const HASH: CodePoint := 0x23

  /** Characters start..end of the text; group 1 of a mention or a hashtag is all but its first character. */
  datatype Span = Span(start: nat, end: nat)

  datatype Pattern = LinkPattern | MentionPattern | HashtagPattern

  datatype Feature = Link(uri: Text) | Mention(did: string) | Tag(tag: Text)

  datatype Facet = Facet(byteStart: nat, byteEnd: nat, feature: Feature)

  datatype Error = UnicodeEncodeError

  type Resolver = Text -> Option<string>

  predicate IsMatch(text: Text, pattern: Pattern, s: Span) {
    && s.start < s.end <= |text|
    && match pattern
       case LinkPattern => true
       case MentionPattern => text[s.start] == AT
       case HashtagPattern => text[s.start] == HASH
  }

  predicate Matches(text: Text, pattern: Pattern, spans: seq<Span>) {
    && (forall i :: 0 <= i < |spans| ==> IsMatch(text, pattern, spans[i]))
    && (forall i, j :: 0 <= i < j < |spans| ==> spans[i].end <= spans[j].start)
  }

  /** What a match becomes; a mention whose handle does not resolve becomes nothing. */
  function FeatureOf(text: Text, pattern: Pattern, s: Span, resolve: Resolver): Option<Feature>
    requires IsMatch(text, pattern, s)
  {
    match pattern
    case LinkPattern => Some(Link(text[s.start..s.end]))
    case MentionPattern =>
      (match resolve(text[s.start + 1..s.end])
       case Some(did) => Some(Mention(did))
       case None => None)
    case HashtagPattern => Some(Tag(text[s.start + 1..s.end]))
  }

  function FacetsOf(text: Text, pattern: Pattern, spans: seq<Span>, resolve: Resolver): seq<Facet>
    requires Encodable(text)
    requires forall i :: 0 <= i < |spans| ==> IsMatch(text, pattern, spans[i])
  {
    if spans == [] then []
    else
      var s := spans[|spans| - 1];
      FacetsOf(text, pattern, spans[..|spans| - 1], resolve)
      + match FeatureOf(text, pattern, s, resolve)
        case None => []
        case Some(f) => [Facet(ByteAt(text, s.start), ByteAt(text, s.end), f)]
  }

  lemma OneMoreMatch(text: Text, pattern: Pattern, spans: seq<Span>, i: nat, resolve: Resolver)
    requires Encodable(text) && i < |spans|
    requires forall k :: 0 <= k < |spans| ==> IsMatch(text, pattern, spans[k])
    ensures FacetsOf(text, pattern, spans[..i + 1], resolve)
            == FacetsOf(text, pattern, spans[..i], resolve)
               + match FeatureOf(text, pattern, spans[i], resolve)
                 case None => []
                 case Some(f) => [Facet(ByteAt(text, spans[i].start), ByteAt(text, spans[i].end), f)]
  {
    assert spans[..i + 1][..i] == spans[..i];
  }

  lemma NoMatches(text: Text, pattern: Pattern, spans: seq<Span>, resolve: Resolver)
    requires Encodable(text)
    ensures FacetsOf(text, pattern, spans[..0], resolve) == []
  {
  }

  method ParseFacets(text: Text, links: seq<Span>, mentions: seq<Span>, hashtags: seq<Span>, resolve: Resolver)
    returns (r: Result<seq<Facet>, Error>)
    requires Matches(text, LinkPattern, links)
    requires Matches(text, MentionPattern, mentions)
    requires Matches(text, HashtagPattern, hashtags)
    ensures r.Err? <==> exists i :: 0 <= i < |text| && 0xD800 <= text[i] <= 0xDFFF
    ensures r.Ok? ==> Encodable(text)
    ensures r.Ok? ==> r.value == FacetsOf(text, LinkPattern, links, resolve)
                                 + FacetsOf(text, MentionPattern, mentions, resolve)
                                 + FacetsOf(text, HashtagPattern, hashtags, resolve)
  {
    hide Encode, FacetsOf;
    var encodable := Encodable(text);
    if !encodable {
      return Err(UnicodeEncodeError);
    }
    var facets: seq<Facet> := [];
    NoMatches(text, LinkPattern, links, resolve);
    for i := 0 to |links|
      invariant facets == FacetsOf(text, LinkPattern, links[..i], resolve)
    {
      var m := links[i];
      OneMoreMatch(text, LinkPattern, links, i, resolve);
      var byteStart := |Encode(text[..m.start])|;
      var byteEnd := |Encode(text[..m.end])|;
      facets := facets + [Facet(byteStart, byteEnd, Link(text[m.start..m.end]))];
    }
    assert links[..|links|] == links;
    ghost var before := facets;
    NoMatches(text, MentionPattern, mentions, resolve);
    for i := 0 to |mentions|
      invariant facets == before + FacetsOf(text, MentionPattern, mentions[..i], resolve)
    {
      var m := mentions[i];
      OneMoreMatch(text, MentionPattern, mentions, i, resolve);
      var byteStart := |Encode(text[..m.start])|;
      var byteEnd := |Encode(text[..m.end])|;
      var did := resolve(text[m.start + 1..m.end]);
      if did.None? {
        continue;
      }
      facets := facets + [Facet(byteStart, byteEnd, Mention(did.value))];
    }
    assert mentions[..|mentions|] == mentions;
    before := facets;
    NoMatches(text, HashtagPattern, hashtags, resolve);
    for i := 0 to |hashtags|
      invariant facets == before + FacetsOf(text, HashtagPattern, hashtags[..i], resolve)
    {
      var m := hashtags[i];
      OneMoreMatch(text, HashtagPattern, hashtags, i, resolve);
      var byteStart := |Encode(text[..m.start])|;
      var byteEnd := |Encode(text[..m.end])|;
      facets := facets + [Facet(byteStart, byteEnd, Tag(text[m.start + 1..m.end]))];
    }
    assert hashtags[..|hashtags|] == hashtags;
    return Ok(facets);
  }

  // ---------------------------------------------------------------------
  // What a reader of the bytes finds at a facet
  // ---------------------------------------------------------------------

  /** f stands for the match s: its bytes decode to exactly the matched characters. */
  ghost predicate Shows(text: Text, f: Facet, s: Span)
    requires Encodable(text)
  {
    && s.start < s.end <= |text|
    && f.byteStart < f.byteEnd <= |Encode(text)|
    && Boundary(Encode(text), f.byteStart) && Boundary(Encode(text), f.byteEnd)
    && Decode(Encode(text)[f.byteStart..f.byteEnd]) == Some(text[s.start..s.end])
  }

  lemma MatchIsShown(text: Text, s: Span, feature: Feature)
    requires Encodable(text) && s.start < s.end <= |text|
    ensures Shows(text, Facet(ByteAt(text, s.start), ByteAt(text, s.end), feature), s)
  {
    SliceIsEncodedSlice(text, s.start, s.end);
    OffsetsKeepOrder(text, s.end, s.start);
    OffsetsAreBoundaries(text, ByteAt(text, s.start));
    OffsetsAreBoundaries(text, ByteAt(text, s.end));
    DecodesExactlyEncodings(Encode(text[s.start..s.end]), text[s.start..s.end]);
  }

  /** A link shows its URI, a hashtag the tag behind a hash, a mention a handle that resolves to its DID. */
  ghost predicate ReadsAs(text: Text, f: Facet, resolve: Resolver)
    requires Encodable(text)
  {
    && f.byteStart < f.byteEnd <= |Encode(text)|
    && var shown := Decode(Encode(text)[f.byteStart..f.byteEnd]);
       shown.Some? &&
       match f.feature
       case Link(uri) => shown.value == uri
       case Tag(tag) => shown.value == [0x23] + tag
       case Mention(did) => shown.value != [] && shown.value[0] == 0x40 && resolve(shown.value[1..]) == Some(did)
  }

  lemma {:induction false} EveryFacetReadsAsItsFeature(text: Text, pattern: Pattern, spans: seq<Span>,
                                                       resolve: Resolver, k: nat)
    requires Encodable(text) && Matches(text, pattern, spans)
    requires k < |FacetsOf(text, pattern, spans, resolve)|
    ensures ReadsAs(text, FacetsOf(text, pattern, spans, resolve)[k], resolve)
    decreases |spans|
  {
    hide Encode, Decode;
    var init, s := spans[..|spans| - 1], spans[|spans| - 1];
    if k < |FacetsOf(text, pattern, init, resolve)| {
      EveryFacetReadsAsItsFeature(text, pattern, init, resolve, k);
    } else {
      var f := FacetsOf(text, pattern, spans, resolve)[k];
      MatchIsShown(text, s, f.feature);
      var shown := text[s.start..s.end];
      assert shown[1..] == text[s.start + 1..s.end];
      assert shown == [text[s.start]] + shown[1..];
    }
  }

  // ---------------------------------------------------------------------
  // Order
  // ---------------------------------------------------------------------

  lemma {:induction false} FacetsEndBefore(text: Text, pattern: Pattern, spans: seq<Span>, resolve: Resolver,
                                           end: nat, k: nat)
    requires Encodable(text) && Matches(text, pattern, spans) && end <= |text|
    requires forall i :: 0 <= i < |spans| ==> spans[i].end <= end
    requires k < |FacetsOf(text, pattern, spans, resolve)|
    ensures FacetsOf(text, pattern, spans, resolve)[k].byteEnd <= ByteAt(text, end)
    decreases |spans|
  {
    var init, s := spans[..|spans| - 1], spans[|spans| - 1];
    if k < |FacetsOf(text, pattern, init, resolve)| {
      FacetsEndBefore(text, pattern, init, resolve, end, k);
    } else {
      OffsetsKeepOrder(text, s.end, end);
    }
  }

  /** The facets of one pattern come in the order of their bytes and never overlap. */
  lemma {:induction false} FacetsAreOrderedAndDisjoint(text: Text, pattern: Pattern, spans: seq<Span>,
                                                       resolve: Resolver, j: nat, k: nat)
    requires Encodable(text) && Matches(text, pattern, spans)
    requires j < k < |FacetsOf(text, pattern, spans, resolve)|
    ensures FacetsOf(text, pattern, spans, resolve)[j].byteEnd <= FacetsOf(text, pattern, spans, resolve)[k].byteStart
    decreases |spans|
  {
    var init, s := spans[..|spans| - 1], spans[|spans| - 1];
    if k < |FacetsOf(text, pattern, init, resolve)| {
      FacetsAreOrderedAndDisjoint(text, pattern, init, resolve, j, k);
    } else {
      FacetsEndBefore(text, pattern, init, resolve, s.start, j);
    }
  }

  predicate SpansOverlap(a: Span, b: Span) {
    a.start < b.end && b.start < a.end
  }

  predicate FacetsOverlap(f: Facet, g: Facet) {
    f.byteStart < g.byteEnd && g.byteStart < f.byteEnd
  }

  /** The match that facet k of a pattern came from. */
  function MatchOf(text: Text, pattern: Pattern, spans: seq<Span>, resolve: Resolver, k: nat): (s: Span)
    requires Encodable(text) && forall i :: 0 <= i < |spans| ==> IsMatch(text, pattern, spans[i])
    requires k < |FacetsOf(text, pattern, spans, resolve)|
    ensures s in spans && IsMatch(text, pattern, s)
    ensures var f := FacetsOf(text, pattern, spans, resolve)[k];
            f.byteStart == ByteAt(text, s.start) && f.byteEnd == ByteAt(text, s.end)
    decreases |spans|
  {
    var init := spans[..|spans| - 1];
    assert spans == init + [spans[|spans| - 1]];
    if k < |FacetsOf(text, pattern, init, resolve)| then MatchOf(text, pattern, init, resolve, k)
    else spans[|spans| - 1]
  }

  /** Two facets, of whatever patterns, overlap in bytes exactly when their matches overlap in characters. */
  lemma OverlapIffMatchesOverlap(text: Text, resolve: Resolver, p: Pattern, ps: seq<Span>, j: nat,
                                 q: Pattern, qs: seq<Span>, k: nat)
    requires Encodable(text) && Matches(text, p, ps) && Matches(text, q, qs)
    requires j < |FacetsOf(text, p, ps, resolve)| && k < |FacetsOf(text, q, qs, resolve)|
    ensures FacetsOverlap(FacetsOf(text, p, ps, resolve)[j], FacetsOf(text, q, qs, resolve)[k])
            <==> SpansOverlap(MatchOf(text, p, ps, resolve, j), MatchOf(text, q, qs, resolve, k))
  {
    hide Encode, FacetsOf;
    var a, b := MatchOf(text, p, ps, resolve, j), MatchOf(text, q, qs, resolve, k);
    OffsetsKeepOrder(text, b.end, a.start);
    OffsetsKeepOrder(text, a.end, b.start);
  }

  function CodePoints(s: string): Text
    requires forall i :: 0 <= i < |s| ==> s[i] as int < 0x80
  {
    seq(|s|, i requires 0 <= i < |s| => s[i] as int)
  }

  lemma {:induction false} AsciiOffsets(text: Text, a: nat)
    requires a <= |text| && forall i :: 0 <= i < |text| ==> text[i] < 0x80
    ensures Encodable(text) && ByteAt(text, a) == a
    decreases a
  {
    if a > 0 {
      AsciiOffsets(text, a - 1);
      SliceIsEncodedSlice(text, a - 1, a);
      assert text[a - 1..a] == [text[a - 1]];
      assert Encode([text[a - 1]]) == EncodePoint(text[a - 1]) + [];
    }
  }

  /** A fragment in a link is a hashtag to the third pattern: the two facets that are returned overlap. */
  lemma HashtagInLinkOverlaps(resolve: Resolver)
    ensures var text := CodePoints("https://a.b/#c");
            && Matches(text, LinkPattern, [Span(0, 14)]) && Matches(text, HashtagPattern, [Span(12, 14)])
            && Encodable(text)
            && FacetsOf(text, LinkPattern, [Span(0, 14)], resolve) == [Facet(0, 14, Link(text))]
            && FacetsOf(text, HashtagPattern, [Span(12, 14)], resolve) == [Facet(12, 14, Tag(CodePoints("c")))]
            && FacetsOverlap(Facet(0, 14, Link(text)), Facet(12, 14, Tag(CodePoints("c"))))
  {
    hide Encode;
    var text := CodePoints("https://a.b/#c");
    AsciiOffsets(text, 0);
    AsciiOffsets(text, 12);
    AsciiOffsets(text, 14);
    assert text[12] == HASH && text[0..14] == text && text[13..14] == CodePoints("c");
    OneFacet(text, LinkPattern, Span(0, 14), resolve);
    OneFacet(text, HashtagPattern, Span(12, 14), resolve);
  }

  lemma OneFacet(text: Text, pattern: Pattern, s: Span, resolve: Resolver)
    requires Encodable(text) && IsMatch(text, pattern, s) && !pattern.MentionPattern?
    ensures FacetsOf(text, pattern, [s], resolve)
            == [Facet(ByteAt(text, s.start), ByteAt(text, s.end), FeatureOf(text, pattern, s, resolve).value)]
  {
    hide Encode;
    assert [s][..0] == [];
  }

  function Resolved(text: Text, spans: seq<Span>, resolve: Resolver): nat
    requires forall i :: 0 <= i < |spans| ==> IsMatch(text, MentionPattern, spans[i])
  {
    if spans == [] then 0
    else
      var s := spans[|spans| - 1];
      assert IsMatch(text, MentionPattern, s);
      Resolved(text, spans[..|spans| - 1], resolve) + if resolve(text[s.start + 1..s.end]).Some? then 1 else 0
  }

  /** Only a mention can be dropped, and only when its handle does not resolve. */
  lemma {:induction false} NoMatchIsLost(text: Text, pattern: Pattern, spans: seq<Span>, resolve: Resolver)
    requires Encodable(text) && Matches(text, pattern, spans)
    ensures |FacetsOf(text, pattern, spans, resolve)| ==
            if pattern.MentionPattern? then Resolved(text, spans, resolve) else |spans|
    decreases |spans|
  {
    if spans != [] {
      NoMatchIsLost(text, pattern, spans[..|spans| - 1], resolve);
    }
  }
}

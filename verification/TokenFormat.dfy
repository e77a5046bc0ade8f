// The layout of an API token: prefix, secret, and a lookup derived from the
// secret (issue_api_key and parse_token in apps/api_keys/services.py).
module TokenFormat {
  import opened Wrappers

  const PREFIX: string := "bb_studio_"
  const LOOKUP_LEN: nat := 8

  /** The hash is left uninterpreted; only its length and alphabet matter. */
  type Digest = string -> string

  predicate IsHex(s: string) {
    forall i :: 0 <= i < |s| ==> ('0' <= s[i] <= '9' || 'a' <= s[i] <= 'f')
  }

  ghost predicate HexDigest(sha: Digest) {
    forall s: string :: |sha(s)| == 64 && IsHex(sha(s))
  }

  function Lookup(sha: Digest, secret: string): string {
    var digest := sha(secret);
    if |digest| >= LOOKUP_LEN then digest[..LOOKUP_LEN] else digest
  }

  function PrintToken(sha: Digest, secret: string): string {
    PREFIX + secret + "_" + Lookup(sha, secret)
  }

  datatype ParsedToken = ParsedToken(secret: string, lookup: string)

  /** The position of the last underscore, if any. */
  function LastUnderscore(s: string): Option<nat> {
    if s == "" then None
    else if s[|s| - 1] == '_' then Some(|s| - 1)
    else LastUnderscore(s[..|s| - 1])
  }

  lemma {:induction false} LastUnderscoreIsLast(s: string)
    ensures LastUnderscore(s).Some? ==>
              var i := LastUnderscore(s).value; i < |s| && s[i] == '_' && forall j :: i < j < |s| ==> s[j] != '_'
    ensures LastUnderscore(s).None? ==> forall j :: 0 <= j < |s| ==> s[j] != '_'
    decreases |s|
  {
    if s != "" {
      LastUnderscoreIsLast(s[..|s| - 1]);
    }
  }

  function ParseToken(sha: Digest, raw: string): Option<ParsedToken> {
    if !(|raw| >= |PREFIX| && raw[..|PREFIX|] == PREFIX) then None
    else
      var body := raw[|PREFIX|..];
      LastUnderscoreIsLast(body);
      match LastUnderscore(body)
      case None => None
      case Some(cut) =>
        var secret, lookup := body[..cut], body[cut + 1..];
        if |lookup| != LOOKUP_LEN || !(32 <= |secret| <= 64) || Lookup(sha, secret) != lookup then None
        else Some(ParsedToken(secret, lookup))
  }

  /**
   * A token is accepted exactly when it is the print of a secret of plausible length,
   * and then it parses to that secret and its lookup, underscores in the secret included.
   */
  lemma ParsesExactlyItsPrints(sha: Digest, raw: string, p: ParsedToken)
    requires HexDigest(sha)
    ensures ParseToken(sha, raw) == Some(p) <==>
            raw == PrintToken(sha, p.secret) && p.lookup == Lookup(sha, p.secret) && 32 <= |p.secret| <= 64
  {
    if raw == PrintToken(sha, p.secret) && p.lookup == Lookup(sha, p.secret) && 32 <= |p.secret| <= 64 {
      PrintParses(sha, p.secret);
    }
    if ParseToken(sha, raw) == Some(p) {
      var body := raw[|PREFIX|..];
      LastUnderscoreIsLast(body);
      var cut := LastUnderscore(body).value;
      assert body == p.secret + "_" + p.lookup;
      assert raw == PREFIX + body;
    }
  }

  lemma PrintParses(sha: Digest, secret: string)
    requires HexDigest(sha) && 32 <= |secret| <= 64
    ensures ParseToken(sha, PrintToken(sha, secret)) == Some(ParsedToken(secret, Lookup(sha, secret)))
  {
    var raw, lookup := PrintToken(sha, secret), Lookup(sha, secret);
    var body := raw[|PREFIX|..];
    assert IsHex(sha(secret)) && |sha(secret)| == 64;
    assert raw[..|PREFIX|] == PREFIX;
    assert body == secret + "_" + lookup;
    LastUnderscoreIsLast(body);
    assert body[|secret|] == '_';
    assert forall j :: |secret| < j < |body| ==> body[j] == sha(secret)[j - |secret| - 1];
    assert LastUnderscore(body) == Some(|secret|);
    assert body[..|secret|] == secret && body[|secret| + 1..] == lookup;
  }

  /** A printed token: prefix, secret, and the first eight characters of the secret's digest. */
  lemma PrintedForm(sha: Digest, secret: string)
    requires HexDigest(sha)
    ensures Lookup(sha, secret) == sha(secret)[..8]
    ensures PrintToken(sha, secret) == "bb_studio_" + secret + "_" + sha(secret)[..8]
  {
    assert |sha(secret)| == 64 && IsHex(sha(secret));
  }

  /** Two secrets never print the same token. */
  lemma PrintIsInjective(sha: Digest, a: string, b: string)
    requires HexDigest(sha) && 32 <= |a| <= 64 && 32 <= |b| <= 64
    requires PrintToken(sha, a) == PrintToken(sha, b)
    ensures a == b
  {
    PrintParses(sha, a);
    PrintParses(sha, b);
  }
}

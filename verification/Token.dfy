/** Bearer tokens: a fixed prefix, the secret, and a lookup suffix derived from it. */
module Token {
  import opened Common

  const TOKEN_PREFIX: string := "bb_studio_"
  const LOOKUP_LEN: nat := 8

  datatype ParsedToken = ParsedToken(randomPart: string, lookupPrefix: string)

  /** The shortened hex digest of a secret: all that matters is its length and alphabet. */
  type Digest = string -> string

  ghost predicate HexDigest(lookup: Digest) {
    forall s :: |lookup(s)| == LOOKUP_LEN && '_' !in lookup(s)
  }

  /** A secret the issuer may draw; it may itself contain underscores. */
  predicate PlausibleSecret(s: string) { 32 <= |s| <= 64 }

  function PrintToken(secret: string, lookup: Digest): string {
    TOKEN_PREFIX + secret + "_" + lookup(secret)
  }

  /** Splits at the last underscore. */
  function SplitLast(s: string): Option<(string, string)> {
    if s == [] then None
    else
      var n := |s| - 1;
      if s[n] == '_' then Some((s[..n], []))
      else
        var rest := SplitLast(s[..n]);
        if rest.None? then None else Some((rest.value.0, rest.value.1 + [s[n]]))
  }

  function ParseToken(raw: string, lookup: Digest): Option<ParsedToken> {
    if !(TOKEN_PREFIX <= raw) then None
    else
      var parts := SplitLast(raw[|TOKEN_PREFIX|..]);
      if parts.None? then None
      else
        var (randomPart, suffix) := parts.value;
        if |suffix| != LOOKUP_LEN then None
        else if !PlausibleSecret(randomPart) then None
        else if lookup(randomPart) != suffix then None
        else Some(ParsedToken(randomPart, suffix))
  }

  lemma {:induction false} SplitLastExact(s: string)
    ensures SplitLast(s).Some? ==>
      var (a, b) := SplitLast(s).value; s == a + "_" + b && '_' !in b
    ensures SplitLast(s).None? ==> '_' !in s
  {
    if s != [] {
      var n := |s| - 1;
      SplitLastExact(s[..n]);
      assert s == s[..n] + [s[n]];
      if s[n] == '_' {
        assert s == s[..n] + "_" + [];
      } else if SplitLast(s[..n]).Some? {
        var (a, b) := SplitLast(s[..n]).value;
        assert s == a + "_" + (b + [s[n]]);
      }
    }
  }

  lemma {:induction false} SplitLastOfJoined(a: string, b: string)
    requires '_' !in b
    ensures SplitLast(a + "_" + b) == Some((a, b))
  {
    var s := a + "_" + b;
    var n := |s| - 1;
    if b == [] {
      assert s[..n] == a;
    } else {
      var m := |b| - 1;
      assert s[..n] == a + "_" + b[..m];
      SplitLastOfJoined(a, b[..m]);
      assert b == b[..m] + [b[m]];
    }
  }

  /** Parsing a printed token gives back its secret and lookup, underscores and all. */
  lemma ParsePrinted(secret: string, lookup: Digest)
    requires HexDigest(lookup) && PlausibleSecret(secret)
    ensures ParseToken(PrintToken(secret, lookup), lookup) == Some(ParsedToken(secret, lookup(secret)))
  {
    var raw := PrintToken(secret, lookup);
    assert raw[|TOKEN_PREFIX|..] == secret + "_" + lookup(secret);
    SplitLastOfJoined(secret, lookup(secret));
  }

  /** A string parses exactly when it is the printed form of a plausible secret, the one it
      yields. */
  lemma ParsesIffPrinted(raw: string, lookup: Digest)
    requires HexDigest(lookup)
    ensures ParseToken(raw, lookup).Some? <==>
      exists s :: 32 <= |s| <= 64 && raw == "bb_studio_" + s + "_" + lookup(s)
    ensures ParseToken(raw, lookup).Some? ==>
      var t := ParseToken(raw, lookup).value;
      raw == PrintToken(t.randomPart, lookup) && t.lookupPrefix == lookup(t.randomPart) && PlausibleSecret(t.randomPart)
  {
    if ParseToken(raw, lookup).Some? {
      var body := raw[|TOKEN_PREFIX|..];
      SplitLastExact(body);
      var (a, b) := SplitLast(body).value;
      assert raw == TOKEN_PREFIX + body;
      assert raw == PrintToken(a, lookup);
    }
    forall s | 32 <= |s| <= 64 && raw == "bb_studio_" + s + "_" + lookup(s) ensures ParseToken(raw, lookup).Some? {
      ParsePrinted(s, lookup);
    }
  }

  /** Different secrets print differently. */
  lemma PrintIsInjective(a: string, b: string, lookup: Digest)
    requires HexDigest(lookup) && PlausibleSecret(a) && PlausibleSecret(b)
    requires PrintToken(a, lookup) == PrintToken(b, lookup)
    ensures a == b
  {
    ParsePrinted(a, lookup);
    ParsePrinted(b, lookup);
  }
}

/** The plain-text quota message and its parser. */
module QuotaMessage {
  import opened Common

  // ------------------------------------------------------------------ decimal numbers

  const DIGITS: string := "0123456789"

  function DigitValue(c: char): nat {
    if '0' <= c <= '9' then c as nat - '0' as nat else 0
  }

  predicate IsDigit(c: char) { '0' <= c <= '9' }

  /** True of a non-empty string of digits. */
  predicate IsDigits(s: string) { s != "" && forall i :: 0 <= i < |s| ==> IsDigit(s[i]) }

  function PrintNat(n: nat): string {
    if n < 10 then [DIGITS[n]] else PrintNat(n / 10) + [DIGITS[n % 10]]
  }

  function ParseNat(s: string): nat {
    if s == "" then 0 else ParseNat(s[..|s| - 1]) * 10 + DigitValue(s[|s| - 1])
  }

  lemma {:induction false} PrintParsesBack(n: nat)
    ensures IsDigits(PrintNat(n)) && ParseNat(PrintNat(n)) == n
  {
    DigitsAreDigits(n % 10);
    if n < 10 {
      assert n % 10 == n;
      assert PrintNat(n)[..0] == "";
    } else {
      PrintParsesBack(n / 10);
      var p := PrintNat(n);
      assert p[..|p| - 1] == PrintNat(n / 10);
    }
  }

  lemma DigitsAreDigits(d: nat)
    requires d < 10
    ensures IsDigit(DIGITS[d]) && DigitValue(DIGITS[d]) == d
  {}

  // ------------------------------------------------------------------ words

  predicate IsSpace(c: char) {
    c == ' ' || '\t' <= c <= '\r' || '\U{1C}' <= c <= '\U{1F}' || c == '\U{85}' || c == '\U{A0}'
  }

  predicate NoSpace(s: string) { forall i :: 0 <= i < |s| ==> !IsSpace(s[i]) }

  /** The remaining words of `s` when `word` has been read so far. */
  function WordsFrom(s: string, word: string): seq<string> {
    if s == "" then (if word == "" then [] else [word])
    else if IsSpace(s[0]) then (if word == "" then [] else [word]) + WordsFrom(s[1..], "")
    else WordsFrom(s[1..], word + [s[0]])
  }

  function Words(s: string): seq<string> { WordsFrom(s, "") }

  lemma {:induction false} ReadWord(w: string, rest: string, word: string)
    requires NoSpace(w)
    ensures WordsFrom(w + rest, word) == WordsFrom(rest, word + w)
  {
    if w == "" {
      assert w + rest == rest && word + w == word;
    } else {
      assert (w + rest)[1..] == w[1..] + rest;
      ReadWord(w[1..], rest, word + [w[0]]);
      assert word + [w[0]] + w[1..] == word + w;
    }
  }

  /** A word followed by a blank and more text. */
  lemma WordThenMore(w: string, rest: string)
    requires NoSpace(w) && w != ""
    ensures Words(w + " " + rest) == [w] + Words(rest)
  {
    assert w + " " + rest == w + (" " + rest);
    ReadWord(w, " " + rest, "");
    assert "" + w == w;
    assert (" " + rest)[1..] == rest;
  }

  lemma LastWord(w: string)
    requires NoSpace(w) && w != ""
    ensures Words(w) == [w]
  {
    ReadWord(w, "", "");
    assert w + "" == w && "" + w == w;
  }

  lemma {:induction false} WordsHaveNoSpace(s: string, word: string)
    requires NoSpace(word)
    ensures forall w :: w in WordsFrom(s, word) ==> NoSpace(w)
  {
    if s != "" {
      if IsSpace(s[0]) { WordsHaveNoSpace(s[1..], ""); } else { WordsHaveNoSpace(s[1..], word + [s[0]]); }
    }
  }

  function Concat(words: seq<string>): string {
    if words == [] then "" else words[0] + Concat(words[1..])
  }

  /** The text without its whitespace. */
  function Visible(s: string): string {
    if s == "" then "" else (if IsSpace(s[0]) then "" else [s[0]]) + Visible(s[1..])
  }

  /** Splitting loses whitespace and nothing else, and yields no empty word. */
  lemma {:induction false} WordsAreVisible(s: string, word: string)
    ensures Concat(WordsFrom(s, word)) == word + Visible(s)
    ensures forall w :: w in WordsFrom(s, word) ==> w != ""
  {
    if s == "" {
      if word != "" { assert [word][1..] == []; }
    } else if IsSpace(s[0]) {
      WordsAreVisible(s[1..], "");
      var rest := WordsFrom(s[1..], "");
      if word == "" { assert [] + rest == rest; } else { assert ([word] + rest)[1..] == rest; }
    } else {
      WordsAreVisible(s[1..], word + [s[0]]);
      assert word + ([s[0]] + Visible(s[1..])) == word + [s[0]] + Visible(s[1..]);
    }
  }

  // ------------------------------------------------------------------ format and parse

  function Field(key: string, value: string): string { key + "=" + value }

  /** `rate_limited tier=T limit=N remaining=N retry_after=N` */
  function FormatQuotaMessage(tier: string, limit: nat, remaining: nat, retryAfter: nat): string {
    Spaced("rate_limited", Spaced(Field("tier", tier), Spaced(Field("limit", PrintNat(limit)),
      Spaced(Field("remaining", PrintNat(remaining)), Field("retry_after", PrintNat(retryAfter))))))
  }

  function Spaced(word: string, rest: string): string { word + " " + rest }

  datatype Value = Num(n: nat) | Text(s: string)

  /** Index of the first '='; the length when there is none. */
  function FirstEq(s: string): (i: nat)
    ensures i <= |s| && '=' !in s[..i] && (i < |s| ==> s[i] == '=')
  {
    if s == "" then 0
    else if s[0] == '=' then 0
    else
      var i := FirstEq(s[1..]) + 1;
      assert s[..i] == [s[0]] + s[1..][..i - 1];
      i
  }

  function ParseValue(v: string): Value { if IsDigits(v) then Num(ParseNat(v)) else Text(v) }

  type Parts = map<string, Value>

  function WithToken(parts: Parts, token: string): Parts {
    var i := FirstEq(token);
    if i == |token| then parts else parts[token[..i] := ParseValue(token[i + 1..])]
  }

  function PartsOf(tokens: seq<string>): Parts {
    if tokens == [] then map["error" := Text("rate_limited")]
    else WithToken(PartsOf(tokens[..|tokens| - 1]), tokens[|tokens| - 1])
  }

  /** One header, present when its part is a number. */
  function Header(parts: Parts, part: string, header: string): map<string, string> {
    if part in parts && parts[part].Num? then map[header := PrintNat(parts[part].n)] else map[]
  }

  function HeadersOf(parts: Parts): map<string, string> {
    Header(parts, "retry_after", "Retry-After") + Header(parts, "limit", "X-RateLimit-Limit")
    + Header(parts, "remaining", "X-RateLimit-Remaining")
  }

  method ParseQuotaMessage(msg: string) returns (parts: Parts, headers: map<string, string>)
    ensures parts == PartsOf(Words(msg)) && headers == HeadersOf(parts)
  {
    parts := map["error" := Text("rate_limited")];
    var tokens := Words(msg);
    var i := 0;
    while i < |tokens|
      invariant 0 <= i <= |tokens| && parts == PartsOf(tokens[..i])
    {
      var token := tokens[i];
      assert tokens[..i + 1][..i] == tokens[..i];
      var eq := FirstEq(token);
      if eq < |token| {
        parts := parts[token[..eq] := ParseValue(token[eq + 1..])];
      }
      i := i + 1;
    }
    assert tokens[..i] == tokens;
    headers := QuotaHeaders(parts);
  }

  method QuotaHeaders(parts: Parts) returns (headers: map<string, string>)
    ensures headers == HeadersOf(parts)
  {
    headers := map[];
    if "retry_after" in parts && parts["retry_after"].Num? {
      headers := headers["Retry-After" := PrintNat(parts["retry_after"].n)];
    }
    if "limit" in parts && parts["limit"].Num? {
      headers := headers["X-RateLimit-Limit" := PrintNat(parts["limit"].n)];
    }
    if "remaining" in parts && parts["remaining"].Num? {
      headers := headers["X-RateLimit-Remaining" := PrintNat(parts["remaining"].n)];
    }
  }

  lemma {:induction false} FirstEqAfterKey(key: string, value: string)
    requires '=' !in key
    ensures FirstEq(key + "=" + value) == |key|
  {
    var t := key + "=" + value;
    if key != "" {
      assert t[1..] == key[1..] + "=" + value;
      FirstEqAfterKey(key[1..], value);
    }
  }

  lemma KeyValueToken(parts: Parts, key: string, value: string)
    requires '=' !in key
    ensures WithToken(parts, key + "=" + value) == parts[key := ParseValue(value)]
  {
    FirstEqAfterKey(key, value);
    var t := key + "=" + value;
    assert t[..|key|] == key && t[|key| + 1..] == value;
  }

  lemma OneMoreToken(tokens: seq<string>, key: string, value: string)
    requires '=' !in key
    ensures PartsOf(tokens + [Field(key, value)]) == PartsOf(tokens)[key := ParseValue(value)]
  {
    assert (tokens + [Field(key, value)])[..|tokens|] == tokens;
    KeyValueToken(PartsOf(tokens), key, value);
  }

  lemma FieldIsWord(key: string, value: string, rest: string)
    requires NoSpace(key) && NoSpace(value)
    ensures Words(Spaced(Field(key, value), rest)) == [Field(key, value)] + Words(rest)
    ensures Words(Field(key, value)) == [Field(key, value)]
  {
    WordThenMore(Field(key, value), rest);
    LastWord(Field(key, value));
  }

  /** The words of a message made of a head and four fields. */
  lemma MessageWords(head: string, k0: string, v0: string, k1: string, v1: string,
                     k2: string, v2: string, k3: string, v3: string)
    requires NoSpace(head) && head != ""
    requires NoSpace(k0) && NoSpace(k1) && NoSpace(k2) && NoSpace(k3)
    requires NoSpace(v0) && NoSpace(v1) && NoSpace(v2) && NoSpace(v3)
    ensures Words(Spaced(head, Spaced(Field(k0, v0), Spaced(Field(k1, v1),
                  Spaced(Field(k2, v2), Field(k3, v3))))))
         == [head] + [Field(k0, v0)] + [Field(k1, v1)] + [Field(k2, v2)] + [Field(k3, v3)]
  {
    var r3 := Field(k3, v3);
    var r2 := Spaced(Field(k2, v2), r3);
    var r1 := Spaced(Field(k1, v1), r2);
    var r0 := Spaced(Field(k0, v0), r1);
    FieldIsWord(k3, v3, "");
    FieldIsWord(k2, v2, r3);
    FieldIsWord(k1, v1, r2);
    FieldIsWord(k0, v0, r1);
    WordThenMore(head, r0);
  }

  /** The parts of such a message: one per field. */
  lemma MessageParts(head: string, k0: string, v0: string, k1: string, v1: string,
                     k2: string, v2: string, k3: string, v3: string)
    requires '=' !in k0 && '=' !in k1 && '=' !in k2 && '=' !in k3
    ensures PartsOf([head] + [Field(k0, v0)] + [Field(k1, v1)] + [Field(k2, v2)] + [Field(k3, v3)])
         == PartsOf([head])[k0 := ParseValue(v0)][k1 := ParseValue(v1)][k2 := ParseValue(v2)][k3 := ParseValue(v3)]
  {
    var w1 := [head] + [Field(k0, v0)];
    var w2 := w1 + [Field(k1, v1)];
    var w3 := w2 + [Field(k2, v2)];
    OneMoreToken([head], k0, v0);
    OneMoreToken(w1, k1, v1);
    OneMoreToken(w2, k2, v2);
    OneMoreToken(w3, k3, v3);
  }

  /** Parsing the formatted message recovers its four fields exactly. */
  lemma MessageRoundTrip(tier: string, limit: nat, remaining: nat, retryAfter: nat)
    requires NoSpace(tier) && !IsDigits(tier)
    ensures PartsOf(Words(FormatQuotaMessage(tier, limit, remaining, retryAfter)))
         == map["error" := Text("rate_limited"), "tier" := Text(tier), "limit" := Num(limit),
                "remaining" := Num(remaining), "retry_after" := Num(retryAfter)]
  {
    var l, m, r := PrintNat(limit), PrintNat(remaining), PrintNat(retryAfter);
    FormatTokens(tier, limit, remaining, retryAfter);
    HeadToken();
    PlainKeys();
    MessageParts("rate_limited", "tier", tier, "limit", l, "remaining", m, "retry_after", r);
    PrintIsPlain(limit);
    PrintIsPlain(remaining);
    PrintIsPlain(retryAfter);
  }

  lemma PrintIsPlain(n: nat)
    ensures NoSpace(PrintNat(n)) && ParseValue(PrintNat(n)) == Num(n)
  {
    PrintParsesBack(n);
  }

  lemma FormatTokens(tier: string, limit: nat, remaining: nat, retryAfter: nat)
    requires NoSpace(tier)
    ensures Words(FormatQuotaMessage(tier, limit, remaining, retryAfter))
         == ["rate_limited"] + [Field("tier", tier)] + [Field("limit", PrintNat(limit))]
            + [Field("remaining", PrintNat(remaining))] + [Field("retry_after", PrintNat(retryAfter))]
  {
    PlainKeys();
    PrintIsPlain(limit);
    PrintIsPlain(remaining);
    PrintIsPlain(retryAfter);
    MessageWords("rate_limited", "tier", tier, "limit", PrintNat(limit), "remaining", PrintNat(remaining),
                 "retry_after", PrintNat(retryAfter));
  }

  lemma PlainKeys()
    ensures NoSpace("tier") && NoSpace("limit") && NoSpace("remaining") && NoSpace("retry_after")
      && NoSpace("rate_limited")
    ensures '=' !in "tier" && '=' !in "limit" && '=' !in "remaining" && '=' !in "retry_after"
  {}

  /** The headers carry the numbers of the message. */
  lemma HeadersCarryNumbers(tier: string, limit: nat, remaining: nat, retryAfter: nat)
    requires NoSpace(tier) && !IsDigits(tier)
    ensures HeadersOf(PartsOf(Words(FormatQuotaMessage(tier, limit, remaining, retryAfter))))
         == map["Retry-After" := PrintNat(retryAfter)] + map["X-RateLimit-Limit" := PrintNat(limit)]
            + map["X-RateLimit-Remaining" := PrintNat(remaining)]
  {
    MessageRoundTrip(tier, limit, remaining, retryAfter);
    assert |"limit"| == 5 && |"remaining"| == 9 && |"retry_after"| == 11;
    var before: Parts := map["error" := Text("rate_limited"), "tier" := Text(tier)];
    LastThreeRead(before, "limit", Num(limit), "remaining", Num(remaining), "retry_after", Num(retryAfter));
  }

  /** Three distinct keys set last read back as they were set. */
  lemma LastThreeRead<K, V>(before: map<K, V>, a: K, x: V, b: K, y: V, c: K, z: V)
    requires a != b && b != c && a != c
    ensures var m := before[a := x][b := y][c := z]; a in m && b in m && c in m && m[a] == x && m[b] == y && m[c] == z
  {}

  lemma HeadToken()
    ensures PartsOf(["rate_limited"]) == map["error" := Text("rate_limited")]
  {
    var w := ["rate_limited"];
    assert w[..0] == [];
    var t := w[0];
    assert '=' !in t;
    assert FirstEq(t) == |t|;
  }

  lemma {:induction false} TextPartsArePlain(tokens: seq<string>, key: string)
    requires forall w :: w in tokens ==> NoSpace(w)
    requires key != "error" && key in PartsOf(tokens) && PartsOf(tokens)[key].Text?
    ensures NoSpace(PartsOf(tokens)[key].s) && !IsDigits(PartsOf(tokens)[key].s)
  {
    if tokens != [] {
      var n := |tokens| - 1;
      var token := tokens[n];
      assert token in tokens;
      var i := FirstEq(token);
      if i == |token| || token[..i] != key { TextPartsArePlain(tokens[..n], key); }
    }
  }

  const WHITESPACE: set<char> := {
    ' ', '\t', '\n', '\U{0B}', '\U{0C}', '\r', '\U{1C}', '\U{1D}', '\U{1E}', '\U{1F}', '\U{85}', '\U{A0}'}

  lemma DigitsOnly(s: string)
    ensures IsDigits(s) <==> s != "" && forall c :: c in s ==> '0' <= c <= '9'
  {
    if IsDigits(s) {
      forall c | c in s ensures '0' <= c <= '9' {
        var i :| 0 <= i < |s| && s[i] == c;
        assert IsDigit(s[i]);
      }
    } else if s != "" {
      var i :| 0 <= i < |s| && !IsDigit(s[i]);
      assert s[i] in s;
    }
  }

  lemma SpaceIsWhitespace(c: char)
    ensures IsSpace(c) <==> c in WHITESPACE
  {}

  /** The tier comes back as it was exactly when it has no whitespace and is not a number: it is
      empty or has something in it other than a digit. */
  lemma TierSurvivesIff(tier: string, limit: nat, remaining: nat, retryAfter: nat)
    ensures var parts := PartsOf(Words(FormatQuotaMessage(tier, limit, remaining, retryAfter)));
      "tier" in parts && parts["tier"] == Text(tier)
      <==> (forall c :: c in tier ==> c !in WHITESPACE) && (tier == "" || exists c :: c in tier && !('0' <= c <= '9'))
  {
    var words := Words(FormatQuotaMessage(tier, limit, remaining, retryAfter));
    forall c ensures IsSpace(c) <==> c in WHITESPACE { SpaceIsWhitespace(c); }
    assert NoSpace(tier) <==> forall c :: c in tier ==> c !in WHITESPACE;
    DigitsOnly(tier);
    if NoSpace(tier) && !IsDigits(tier) {
      MessageRoundTrip(tier, limit, remaining, retryAfter);
    } else if "tier" in PartsOf(words) && PartsOf(words)["tier"].Text? {
      WordsHaveNoSpace(FormatQuotaMessage(tier, limit, remaining, retryAfter), "");
      TextPartsArePlain(words, "tier");
    }
  }
}

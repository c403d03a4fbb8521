/** The token grammar SYMBOL_REGEX, `\w+(\(\w+\))?(:\d+)?`, matched against a whole
    token, written as a hand-made recogniser over ASCII text. */
module SymbolGrammar {
  import opened Errors

  /** `\w` restricted to ASCII: a letter, a digit or an underscore. */
  predicate IsWordChar(c: char) {
    'a' <= c <= 'z' || 'A' <= c <= 'Z' || '0' <= c <= '9' || c == '_'
  }

  /** `\d` restricted to ASCII. */
  predicate IsDigit(c: char) {
    '0' <= c <= '9'
  }

  /** `\w+` */
  predicate IsWord(s: string) {
    |s| > 0 && forall i :: 0 <= i < |s| ==> IsWordChar(s[i])
  }

  /** `\d+` */
  predicate IsDigits(s: string) {
    |s| > 0 && forall i :: 0 <= i < |s| ==> IsDigit(s[i])
  }

  /** The groups the regex captures: `symbol`, the optional `variant` and the
      optional `index` (still as its digit string). */
  datatype TokenMatch = TokenMatch(symbol: string, variant: Option<string>, index: Option<string>)

  /** A capture that the grammar can produce. */
  predicate WellFormed(m: TokenMatch) {
    && IsWord(m.symbol)
    && (m.variant.Some? ==> IsWord(m.variant.value))
    && (m.index.Some? ==> IsDigits(m.index.value))
  }

  /** The text of the optional `(variant)` part. */
  function VariantPart(variant: Option<string>): string {
    match variant
    case None => ""
    case Some(v) => "(" + v + ")"
  }

  /** The text of the optional `:index` part. */
  function IndexPart(index: Option<string>): string {
    match index
    case None => ""
    case Some(d) => ":" + d
  }

  /** The token a capture spells out. The language of the regex is exactly
      the set of renderings of well-formed captures. */
  function Render(m: TokenMatch): string {
    m.symbol + (VariantPart(m.variant) + IndexPart(m.index))
  }

  /** The length of the longest prefix of word characters (a greedy `\w*`). */
  function WordPrefixLength(s: string): (n: nat)
    ensures n <= |s|
    ensures forall i :: 0 <= i < n ==> IsWordChar(s[i])
    ensures n < |s| ==> !IsWordChar(s[n])
  {
    if s == [] || !IsWordChar(s[0]) then 0 else 1 + WordPrefixLength(s[1..])
  }

  /** Matches `(:\d+)?` against all of `s`. */
  function MatchIndex(s: string): (r: Option<Option<string>>)
    ensures r.Some? ==> (r.value.Some? ==> IsDigits(r.value.value)) && IndexPart(r.value) == s
  {
    if s == [] then Some(None)
    else if s[0] == ':' && IsDigits(s[1..]) then Some(Some(s[1..]))
    else None
  }

  /** Matches `(\(\w+\))?` against a prefix of `s`; gives the variant and the rest. */
  function MatchVariant(s: string): (r: Option<(Option<string>, string)>)
    ensures r.Some? ==> (r.value.0.Some? ==> IsWord(r.value.0.value)) &&
                        VariantPart(r.value.0) + r.value.1 == s
  {
    if s != [] && s[0] == '(' then
      var n := WordPrefixLength(s[1..]);
      if 0 < n && n + 1 < |s| && s[n + 1] == ')' then
        assert s == "(" + s[1..n + 1] + ")" + s[n + 2..];
        Some((Some(s[1..n + 1]), s[n + 2..]))
      else None
    else Some((None, s))
  }

  /** `SYMBOL_REGEX.fullmatch(tok)`: the captured groups, or None when the whole
      token does not match. Whatever it captures is well formed and spells `tok`. */
  function MatchToken(tok: string): (r: Option<TokenMatch>)
    ensures r.Some? ==> WellFormed(r.value) && Render(r.value) == tok
  {
    var n := WordPrefixLength(tok);
    if n == 0 then None
    else
      assert tok == tok[..n] + tok[n..];
      match MatchVariant(tok[n..])
      case None => None
      case Some((variant, rest)) =>
        match MatchIndex(rest)
        case None => None
        case Some(index) => Some(TokenMatch(tok[..n], variant, index))
  }

  /** A greedy `\w*` stops exactly at the end of a word that is followed by a non-word character. */
  lemma {:induction false} WordPrefixStops(w: string, rest: string)
    requires forall i :: 0 <= i < |w| ==> IsWordChar(w[i])
    requires rest == [] || !IsWordChar(rest[0])
    ensures WordPrefixLength(w + rest) == |w|
  {
    if w != [] {
      assert (w + rest)[1..] == w[1..] + rest;
      WordPrefixStops(w[1..], rest);
    }
  }

  lemma MatchIndexComplete(index: Option<string>)
    requires index.Some? ==> IsDigits(index.value)
    ensures MatchIndex(IndexPart(index)) == Some(index)
  {
    if index.Some? {
      assert IndexPart(index)[1..] == index.value;
    }
  }

  /** A parenthesised word is recognised as the variant, whatever follows it. */
  lemma MatchVariantWord(v: string, rest: string)
    requires IsWord(v)
    ensures MatchVariant("(" + v + ")" + rest) == Some((Some(v), rest))
  {
    var s := "(" + v + ")" + rest;
    var after := [')'] + rest;
    assert s[1..] == v + after;
    assert after[0] == ')';
    WordPrefixStops(v, after);
    var n := |v|;
    assert s[n + 1] == ')';
    assert s[1..n + 1] == v;
    assert s[n + 2..] == rest;
  }

  lemma MatchVariantComplete(variant: Option<string>, rest: string)
    requires variant.Some? ==> IsWord(variant.value)
    requires rest == [] || rest[0] == ':'
    ensures MatchVariant(VariantPart(variant) + rest) == Some((variant, rest))
  {
    if variant.Some? {
      MatchVariantWord(variant.value, rest);
    } else {
      assert VariantPart(variant) + rest == rest;
    }
  }

  /** Completeness: every well-formed capture is recognised back from its
      rendering, so the recogniser accepts the whole language of the regex and
      its captures are the unique decomposition of the token. */
  lemma {:induction false} MatchTokenComplete(m: TokenMatch)
    requires WellFormed(m)
    ensures MatchToken(Render(m)) == Some(m)
  {
    var tok := Render(m);
    var tail := VariantPart(m.variant) + IndexPart(m.index);
    assert tok == m.symbol + tail;
    WordPrefixStops(m.symbol, tail);
    assert tok[..|m.symbol|] == m.symbol;
    assert tok[|m.symbol|..] == tail;
    MatchVariantComplete(m.variant, IndexPart(m.index));
    MatchIndexComplete(m.index);
  }

  /** A token is rejected exactly when it is not in the language of the regex. */
  lemma MatchTokenRejects(tok: string)
    ensures MatchToken(tok).None? <==> forall m :: WellFormed(m) ==> Render(m) != tok
  {
    if MatchToken(tok).None? {
      forall m | WellFormed(m) ensures Render(m) != tok {
        MatchTokenComplete(m);
      }
    }
  }
}

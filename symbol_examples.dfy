/** Worked cases of the symbols-string parser, each stated for every choice of
    the words involved (the comment of each gives a concrete string it covers). */
module SymbolExamples {
  import opened Errors
  import opened SymbolGrammar
  import opened Symbols

  /** "us:0": an explicit zero suffix yields index -1. */
  lemma ExplicitZero(w: string, nonSymbols: seq<string>, defaultIndex: int)
    requires IsWord(w) && w !in nonSymbols
    ensures Parse(w + ":0", nonSymbols, defaultIndex) == Ok([SymbolData(w, None, -1)])
  {
    var m := TokenMatch(w, None, Some("0"));
    assert DecimalValue("0") == 0;
    RetainedToken(m, nonSymbols, defaultIndex);
    assert Render(m) == w + ":0";
    assert Indices([SymbolData(w, None, -1)]) == [-1];
    ParseOfRetained(w + ":0", nonSymbols, defaultIndex, [SymbolData(w, None, -1)]);
  }

  /** The records retained from an ignored token followed by a kept one. */
  lemma IgnoredFirstRetained(p: string, u: string, nonSymbols: seq<string>, defaultIndex: int)
    requires IsWord(p) && IsWord(u) && p in nonSymbols && u !in nonSymbols
    ensures Retained(Render(TokenMatch(p, None, None)) + [Separator] + Render(TokenMatch(u, None, None)),
                     nonSymbols, defaultIndex) == Ok([SymbolData(u, None, defaultIndex)])
  {
    var mp, mu := TokenMatch(p, None, None), TokenMatch(u, None, None);
    RetainedToken(mp, nonSymbols, defaultIndex);
    RetainedToken(mu, nonSymbols, defaultIndex);
    RetainedKeepsOrder(Render(mp), Render(mu), nonSymbols, defaultIndex);
    assert [] + [SymbolData(u, None, defaultIndex)] == [SymbolData(u, None, defaultIndex)];
  }

  /** "pc+us" with "pc" ignored: both tokens get the default index, yet the parse
      succeeds, because only retained records are checked for duplicates. */
  lemma IgnoredTokenSharesIndex(p: string, u: string, nonSymbols: seq<string>, defaultIndex: int)
    requires IsWord(p) && IsWord(u) && p in nonSymbols && u !in nonSymbols
    ensures Parse(p + "+" + u, nonSymbols, defaultIndex) == Ok([SymbolData(u, None, defaultIndex)])
  {
    IgnoredFirstRetained(p, u, nonSymbols, defaultIndex);
    PlainPairSpelling(p, u);
    assert Indices([SymbolData(u, None, defaultIndex)]) == [defaultIndex];
    ParseOfRetained(p + "+" + u, nonSymbols, defaultIndex, [SymbolData(u, None, defaultIndex)]);
  }

  /** "": the empty string is one empty token, which is malformed. */
  lemma EmptyStringRejected(nonSymbols: seq<string>, defaultIndex: int)
    ensures Parse("", nonSymbols, defaultIndex) == Err(MalformedSymbol(""))
  {
    assert Split("", Separator) == [""];
    ParseRejectsMalformed("", nonSymbols, defaultIndex, 0);
  }

  /** "us++ru": the empty token between the separators is malformed. */
  lemma EmptyTokenRejected(a: string, b: string, nonSymbols: seq<string>, defaultIndex: int)
    requires IsWord(a) && IsWord(b)
    ensures Parse(a + "++" + b, nonSymbols, defaultIndex) == Err(MalformedSymbol(""))
  {
    var ma := TokenMatch(a, None, None);
    var mb := TokenMatch(b, None, None);
    RenderNoSeparator(ma);
    RenderNoSeparator(mb);
    assert Render(ma) == a && Render(mb) == b;
    var parts := [a, "", b];
    assert Join(parts, Separator) == a + "++" + b by {
      assert Join([b], Separator) == b;
      assert Join(["", b], Separator) == "" + [Separator] + b;
    }
    SplitJoin(parts, Separator);
    MatchTokenComplete(ma);
    ParseRejectsMalformed(a + "++" + b, nonSymbols, defaultIndex, 1);
  }

  /** "us)(bad": a word followed by a stray ")" is not of the form
      word(word):digits, so the token is rejected. */
  lemma StrayParenRejected(w: string, rest: string, nonSymbols: seq<string>, defaultIndex: int)
    requires IsWord(w) && Separator !in rest
    ensures Parse(w + ")" + rest, nonSymbols, defaultIndex) == Err(MalformedSymbol(w + ")" + rest))
  {
    var t := ")" + rest;
    var s := w + t;
    assert w + ")" + rest == s;
    assert forall i :: 0 <= i < |s| ==> s[i] != Separator by {
      forall i | 0 <= i < |s| ensures s[i] != Separator {
        if i < |w| {
          assert s[i] == w[i];
        } else if i == |w| {
          assert s[i] == ')';
        } else {
          assert s[i] == rest[i - |w| - 1];
        }
      }
    }
    SplitJoin([s], Separator);
    assert Split(s, Separator) == [s];
    assert t[0] == ')';
    WordPrefixStops(w, t);
    assert s[|w|..] == t;
    assert MatchVariant(t) == Some((None, t));
    assert MatchIndex(t) == None;
    ParseRejectsMalformed(s, nonSymbols, defaultIndex, 0);
  }

  /** "us:1": a token with suffix 1 keeps index 0. */
  lemma SuffixOneRetained(w: string, nonSymbols: seq<string>, defaultIndex: int)
    requires IsWord(w) && w !in nonSymbols
    ensures Retained(w + ":1", nonSymbols, defaultIndex) == Ok([SymbolData(w, None, 0)])
  {
    var m := TokenMatch(w, None, Some("1"));
    assert DecimalValue("1") == 1;
    RetainedToken(m, nonSymbols, defaultIndex);
    assert Render(m) == w + ":1";
  }

  /** Two single records with the same index, joined by the separator, fail the
      duplicate check. */
  lemma JoinedDuplicate(left: string, right: string, nonSymbols: seq<string>, defaultIndex: int,
                        x: SymbolData, y: SymbolData)
    requires Retained(left, nonSymbols, defaultIndex) == Ok([x])
    requires Retained(right, nonSymbols, defaultIndex) == Ok([y])
    requires x.index == y.index
    ensures Parse(left + [Separator] + right, nonSymbols, defaultIndex) == Err(DuplicateIndex)
  {
    RetainedKeepsOrder(left, right, nonSymbols, defaultIndex);
    var records := [x] + [y];
    assert Indices(records)[0] == Indices(records)[1];
    ParseOfRetained(left + [Separator] + right, nonSymbols, defaultIndex, records);
  }

  /** Two tokens with suffix 1, joined by the separator, fail the duplicate check. */
  lemma SuffixOnePair(a: string, b: string, nonSymbols: seq<string>, defaultIndex: int)
    requires IsWord(a) && IsWord(b) && a !in nonSymbols && b !in nonSymbols
    ensures Parse((a + ":1") + [Separator] + (b + ":1"), nonSymbols, defaultIndex) == Err(DuplicateIndex)
  {
    SuffixOneRetained(a, nonSymbols, defaultIndex);
    SuffixOneRetained(b, nonSymbols, defaultIndex);
    JoinedDuplicate(a + ":1", b + ":1", nonSymbols, defaultIndex, SymbolData(a, None, 0), SymbolData(b, None, 0));
  }

  /** "us:1+ru:1": two retained records with the same suffix fail the duplicate
      check with the AssertionError. */
  lemma DuplicateSuffix(a: string, b: string, nonSymbols: seq<string>, defaultIndex: int)
    requires IsWord(a) && IsWord(b) && a !in nonSymbols && b !in nonSymbols
    ensures Parse(a + ":1+" + b + ":1", nonSymbols, defaultIndex) == Err(DuplicateIndex)
  {
    SuffixOnePair(a, b, nonSymbols, defaultIndex);
    assert (a + ":1") + [Separator] + (b + ":1") == a + ":1+" + b + ":1";
  }

  /** "us": a plain token that is kept gets the default index. */
  lemma PlainRetained(w: string, nonSymbols: seq<string>, defaultIndex: int)
    requires IsWord(w) && w !in nonSymbols
    ensures Retained(w, nonSymbols, defaultIndex) == Ok([SymbolData(w, None, defaultIndex)])
  {
    RetainedToken(TokenMatch(w, None, None), nonSymbols, defaultIndex);
    assert Render(TokenMatch(w, None, None)) == w;
  }

  /** "pc": a plain token that is ignored yields no record. */
  lemma PlainIgnored(w: string, nonSymbols: seq<string>, defaultIndex: int)
    requires IsWord(w) && w in nonSymbols
    ensures Retained(w, nonSymbols, defaultIndex) == Ok([])
  {
    RetainedToken(TokenMatch(w, None, None), nonSymbols, defaultIndex);
    assert Render(TokenMatch(w, None, None)) == w;
  }

  /** The spelling of a token with a variant and suffix 2. */
  lemma VariantTwoSpelling(r: string, v: string)
    ensures Render(TokenMatch(r, Some(v), Some("2"))) == r + "(" + v + "):2"
  {
    assert VariantPart(Some(v)) + IndexPart(Some("2")) == "(" + v + "):2";
  }

  /** "ru(phonetic):2": a token with a variant and suffix 2 gets index 1. */
  lemma VariantTwoRetained(r: string, v: string, nonSymbols: seq<string>, defaultIndex: int)
    requires IsWord(r) && IsWord(v) && r !in nonSymbols
    ensures Retained(r + "(" + v + "):2", nonSymbols, defaultIndex) == Ok([SymbolData(r, Some(v), 1)])
  {
    var m := TokenMatch(r, Some(v), Some("2"));
    assert DecimalValue("2") == 2;
    RetainedToken(m, nonSymbols, defaultIndex);
    VariantTwoSpelling(r, v);
  }

  /** "fr:3": a token with suffix 3 gets index 2. */
  lemma SuffixThreeRetained(f: string, nonSymbols: seq<string>, defaultIndex: int)
    requires IsWord(f) && f !in nonSymbols
    ensures Retained(f + ":3", nonSymbols, defaultIndex) == Ok([SymbolData(f, None, 2)])
  {
    var m := TokenMatch(f, None, Some("3"));
    assert DecimalValue("3") == 3;
    RetainedToken(m, nonSymbols, defaultIndex);
    assert Render(m) == f + ":3";
  }

  /** The records of "ru(phonetic):2+fr:3". */
  lemma VariantSuffixTail(r: string, v: string, f: string)
    requires IsWord(r) && IsWord(v) && IsWord(f)
    ensures Retained((r + "(" + v + "):2") + [Separator] + (f + ":3"), [], 0) ==
            Ok([SymbolData(r, Some(v), 1), SymbolData(f, None, 2)])
  {
    VariantTwoRetained(r, v, [], 0);
    SuffixThreeRetained(f, [], 0);
    RetainedJoin(r + "(" + v + "):2", f + ":3", [], 0, [SymbolData(r, Some(v), 1)], [SymbolData(f, None, 2)]);
    assert [SymbolData(r, Some(v), 1)] + [SymbolData(f, None, 2)] == [SymbolData(r, Some(v), 1), SymbolData(f, None, 2)];
  }

  /** The records of "us+ru(phonetic):2+fr:3". */
  lemma ThreeTokensRetained(u: string, r: string, v: string, f: string)
    requires IsWord(u) && IsWord(r) && IsWord(v) && IsWord(f)
    ensures Retained(u + [Separator] + ((r + "(" + v + "):2") + [Separator] + (f + ":3")), [], 0) ==
            Ok([SymbolData(u, None, 0), SymbolData(r, Some(v), 1), SymbolData(f, None, 2)])
  {
    var tail := (r + "(" + v + "):2") + [Separator] + (f + ":3");
    PlainRetained(u, [], 0);
    VariantSuffixTail(r, v, f);
    RetainedJoin(u, tail, [], 0, [SymbolData(u, None, 0)], [SymbolData(r, Some(v), 1), SymbolData(f, None, 2)]);
    assert [SymbolData(u, None, 0)] + [SymbolData(r, Some(v), 1), SymbolData(f, None, 2)]
        == [SymbolData(u, None, 0), SymbolData(r, Some(v), 1), SymbolData(f, None, 2)];
  }

  /** The parse of "us+ru(phonetic):2+fr:3" with the tokens kept apart. */
  lemma ThreeTokensParsed(u: string, r: string, v: string, f: string)
    requires IsWord(u) && IsWord(r) && IsWord(v) && IsWord(f)
    ensures Parse(u + [Separator] + ((r + "(" + v + "):2") + [Separator] + (f + ":3")), [], 0) ==
            Ok([SymbolData(u, None, 0), SymbolData(r, Some(v), 1), SymbolData(f, None, 2)])
  {
    var records := [SymbolData(u, None, 0), SymbolData(r, Some(v), 1), SymbolData(f, None, 2)];
    ThreeTokensRetained(u, r, v, f);
    DistinctIndices(records);
    ParseOfRetained(u + [Separator] + ((r + "(" + v + "):2") + [Separator] + (f + ":3")), [], 0, records);
  }

  /** "us+ru(phonetic):2+fr:3" with no ignored symbols: the unsuffixed token gets
      the default index 0, "ru" gets 2 - 1 and "fr" gets 3 - 1. */
  lemma DefaultIndexRule(u: string, r: string, v: string, f: string)
    requires IsWord(u) && IsWord(r) && IsWord(v) && IsWord(f)
    ensures Parse(u + "+" + r + "(" + v + "):2+" + f + ":3", [], 0) ==
            Ok([SymbolData(u, None, 0), SymbolData(r, Some(v), 1), SymbolData(f, None, 2)])
  {
    ThreeTokensParsed(u, r, v, f);
    ThreeTokensSpelling(u, r, v, f);
  }

  /** The records of "us+ru(phonetic):2" with default index 0. */
  lemma KeptPairRetained(u: string, r: string, v: string, nonSymbols: seq<string>)
    requires IsWord(u) && IsWord(r) && IsWord(v) && u !in nonSymbols && r !in nonSymbols
    ensures Retained(u + [Separator] + (r + "(" + v + "):2"), nonSymbols, 0) ==
            Ok([SymbolData(u, None, 0), SymbolData(r, Some(v), 1)])
  {
    PlainRetained(u, nonSymbols, 0);
    VariantTwoRetained(r, v, nonSymbols, 0);
    RetainedJoin(u, r + "(" + v + "):2", nonSymbols, 0, [SymbolData(u, None, 0)], [SymbolData(r, Some(v), 1)]);
    assert [SymbolData(u, None, 0)] + [SymbolData(r, Some(v), 1)] == [SymbolData(u, None, 0), SymbolData(r, Some(v), 1)];
  }

  /** The records of "inet+us+ru(phonetic):2" with "inet" ignored. */
  lemma OneIgnoredRetained(i: string, u: string, r: string, v: string, nonSymbols: seq<string>)
    requires IsWord(i) && IsWord(u) && IsWord(r) && IsWord(v)
    requires i in nonSymbols && u !in nonSymbols && r !in nonSymbols
    ensures Retained(i + [Separator] + (u + [Separator] + (r + "(" + v + "):2")), nonSymbols, 0) ==
            Ok([SymbolData(u, None, 0), SymbolData(r, Some(v), 1)])
  {
    var tail := u + [Separator] + (r + "(" + v + "):2");
    var kept := [SymbolData(u, None, 0), SymbolData(r, Some(v), 1)];
    PlainIgnored(i, nonSymbols, 0);
    KeptPairRetained(u, r, v, nonSymbols);
    RetainedJoin(i, tail, nonSymbols, 0, [], kept);
    assert [] + kept == kept;
  }

  /** The records of "pc+inet+us+ru(phonetic):2" with "pc" and "inet" ignored. */
  lemma TwoIgnoredRetained(p: string, i: string, u: string, r: string, v: string, nonSymbols: seq<string>)
    requires IsWord(p) && IsWord(i) && IsWord(u) && IsWord(r) && IsWord(v)
    requires p in nonSymbols && i in nonSymbols && u !in nonSymbols && r !in nonSymbols
    ensures Retained(p + [Separator] + (i + [Separator] + (u + [Separator] + (r + "(" + v + "):2"))), nonSymbols, 0) ==
            Ok([SymbolData(u, None, 0), SymbolData(r, Some(v), 1)])
  {
    var tail := i + [Separator] + (u + [Separator] + (r + "(" + v + "):2"));
    var kept := [SymbolData(u, None, 0), SymbolData(r, Some(v), 1)];
    PlainIgnored(p, nonSymbols, 0);
    OneIgnoredRetained(i, u, r, v, nonSymbols);
    RetainedJoin(p, tail, nonSymbols, 0, [], kept);
    assert [] + kept == kept;
  }

  /** The parse of "pc+inet+us+ru(phonetic):2" with the tokens kept apart. */
  lemma IgnoredPrefixParsed(p: string, i: string, u: string, r: string, v: string, nonSymbols: seq<string>)
    requires IsWord(p) && IsWord(i) && IsWord(u) && IsWord(r) && IsWord(v)
    requires p in nonSymbols && i in nonSymbols && u !in nonSymbols && r !in nonSymbols
    ensures Parse(p + [Separator] + (i + [Separator] + (u + [Separator] + (r + "(" + v + "):2"))), nonSymbols, 0) ==
            Ok([SymbolData(u, None, 0), SymbolData(r, Some(v), 1)])
  {
    var kept := [SymbolData(u, None, 0), SymbolData(r, Some(v), 1)];
    TwoIgnoredRetained(p, i, u, r, v, nonSymbols);
    DistinctIndices(kept);
    ParseOfRetained(p + [Separator] + (i + [Separator] + (u + [Separator] + (r + "(" + v + "):2"))), nonSymbols, 0, kept);
  }

  /** "pc+inet+us+ru(phonetic):2" with "pc" and "inet" ignored: exactly the records
      of "us" (index 0) and "ru(phonetic)" (index 1), in that order. */
  lemma IgnoredPrefix(p: string, i: string, u: string, r: string, v: string, nonSymbols: seq<string>)
    requires IsWord(p) && IsWord(i) && IsWord(u) && IsWord(r) && IsWord(v)
    requires p in nonSymbols && i in nonSymbols && u !in nonSymbols && r !in nonSymbols
    ensures Parse(p + "+" + i + "+" + u + "+" + r + "(" + v + "):2", nonSymbols, 0) ==
            Ok([SymbolData(u, None, 0), SymbolData(r, Some(v), 1)])
  {
    IgnoredPrefixParsed(p, i, u, r, v, nonSymbols);
    IgnoredPrefixSpelling(p, i, u, r, v);
  }

  /** Records whose indices are 0, 1, ... in order have distinct indices. */
  lemma DistinctIndices(records: seq<SymbolData>)
    requires forall k :: 0 <= k < |records| ==> records[k].index == k
    ensures Distinct(Indices(records))
  {
  }

  /** "us+ru(phonetic):2+fr:3" as its tokens joined by the separator. */
  lemma ThreeTokensSpelling(u: string, r: string, v: string, f: string)
    ensures u + [Separator] + ((r + "(" + v + "):2") + [Separator] + (f + ":3")) ==
            u + "+" + r + "(" + v + "):2+" + f + ":3"
  {
  }

  /** "pc+inet+us+ru(phonetic):2" as its tokens joined by the separator. */
  lemma IgnoredPrefixSpelling(p: string, i: string, u: string, r: string, v: string)
    ensures p + [Separator] + (i + [Separator] + (u + [Separator] + (r + "(" + v + "):2"))) ==
            p + "+" + i + "+" + u + "+" + r + "(" + v + "):2"
  {
  }

  /** "pc+us" as its two plain tokens joined by the separator. */
  lemma PlainPairSpelling(p: string, u: string)
    ensures Render(TokenMatch(p, None, None)) + [Separator] + Render(TokenMatch(u, None, None)) == p + "+" + u
  {
    assert Render(TokenMatch(p, None, None)) == p;
    assert Render(TokenMatch(u, None, None)) == u;
  }
}

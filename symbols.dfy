/** `_parse_symbols`: the server's symbols string, e.g. "pc+us+ru(phonetic):2+inet(evdev)",
    decoded into one record per layout: its symbol, its optional variant and its index. */
module Symbols {
  import opened Errors
  import opened SymbolGrammar

  /** `SymbolData(symbol, variant, index)`; an explicit ":0" suffix yields index -1,
      so the index is an int. */
  datatype SymbolData = SymbolData(symbol: string, variant: Option<string>, index: int)

  /** The separator between tokens of the symbols string. */
  const Separator: char := '+'

  /** The tokens that the keyboard passes as `non_symbols`: they name the keyboard
      type and options, not layouts. */
  const NonSymbols: seq<string> := ["pc", "inet", "group"]

  // ---------------------------------------------------------------------------
  // str.split and its inverse

  /** `sep.join(parts)` */
  function Join(parts: seq<string>, sep: char): string
    requires |parts| > 0
    decreases |parts|
  {
    if |parts| == 1 then parts[0] else parts[0] + [sep] + Join(parts[1..], sep)
  }

  /** `s.split(sep)`: never empty (`"".split("+") == [""]`), no part holds the
      separator, and joining the parts gives back `s`. */
  function Split(s: string, sep: char): (parts: seq<string>)
    ensures |parts| > 0
    ensures forall i :: 0 <= i < |parts| ==> sep !in parts[i]
    ensures Join(parts, sep) == s
  {
    if s == [] then [[]]
    else
      var rest := Split(s[1..], sep);
      if s[0] == sep then
        assert s == [sep] + s[1..];
        [[]] + rest
      else
        assert s == [s[0]] + s[1..];
        assert |rest| > 1 ==> Join(rest, sep) == rest[0] + [sep] + Join(rest[1..], sep);
        [[s[0]] + rest[0]] + rest[1..]
  }

  /** Splitting a string that starts with a separator-free word. */
  lemma {:induction false} SplitAfterWord(w: string, rest: string, sep: char)
    requires sep !in w
    ensures Split(w + rest, sep) == [w + Split(rest, sep)[0]] + Split(rest, sep)[1..]
  {
    var r := Split(rest, sep);
    if w == [] {
      assert w + rest == rest;
      assert w + r[0] == r[0];
      assert [w + r[0]] + r[1..] == r;
    } else {
      var s := w + rest;
      assert s[0] == w[0] && w[0] in w;
      assert s[1..] == w[1..] + rest;
      SplitAfterWord(w[1..], rest, sep);
      var tail := Split(s[1..], sep);
      assert tail == [w[1..] + r[0]] + r[1..];
      assert Split(s, sep) == [[w[0]] + tail[0]] + tail[1..];
      assert [w[0]] + (w[1..] + r[0]) == w + r[0];
    }
  }

  /** The other round trip: splitting the join of separator-free parts gives the parts. */
  lemma {:induction false} SplitJoin(parts: seq<string>, sep: char)
    requires |parts| > 0
    requires forall i :: 0 <= i < |parts| ==> sep !in parts[i]
    ensures Split(Join(parts, sep), sep) == parts
  {
    if |parts| == 1 {
      SplitAfterWord(parts[0], [], sep);
      assert parts[0] + [] == parts[0];
    } else {
      var tail := Join(parts[1..], sep);
      assert Join(parts, sep) == parts[0] + ([sep] + tail);
      SplitAfterWord(parts[0], [sep] + tail, sep);
      assert ([sep] + tail)[1..] == tail;
      SplitJoin(parts[1..], sep);
      assert Split([sep] + tail, sep) == [[]] + parts[1..];
      assert parts[0] + [] == parts[0];
      assert parts == [parts[0]] + parts[1..];
    }
  }

  // ---------------------------------------------------------------------------
  // get_symboldata

  /** The value of one ASCII digit. */
  function DigitValue(c: char): nat
    requires IsDigit(c)
  {
    c as int - '0' as int
  }

  /** `int(ds)` for a string of ASCII digits. */
  function DecimalValue(ds: string): nat
    requires forall i :: 0 <= i < |ds| ==> IsDigit(ds[i])
  {
    if ds == [] then 0
    else 10 * DecimalValue(ds[..|ds| - 1]) + DigitValue(ds[|ds| - 1])
  }

  /** `get_symboldata(symstr)`: the record of one token, or the "Malformed symbol
      string" X11Error when the token does not fully match the grammar. */
  function GetSymbolData(token: string, defaultIndex: int): (r: Result<SymbolData>)
    ensures r.Err? ==> r.error == MalformedSymbol(token)
    ensures r.Ok? ==> IsWord(r.value.symbol) &&
                      (r.value.variant.Some? ==> IsWord(r.value.variant.value))
  {
    match MatchToken(token)
    case None => Err(MalformedSymbol(token))
    case Some(m) =>
      var index := match m.index
        case Some(ds) => DecimalValue(ds) - 1
        case None => defaultIndex;
      Ok(SymbolData(m.symbol, m.variant, index))
  }

  /** The index rule: a token with an explicit ":n" suffix gets index n - 1;
      every token without one gets `defaultIndex`, with no running counter. */
  lemma SymbolDataOfToken(m: TokenMatch, defaultIndex: int)
    requires WellFormed(m)
    ensures m.index.Some? ==>
              GetSymbolData(Render(m), defaultIndex)
                == Ok(SymbolData(m.symbol, m.variant, DecimalValue(m.index.value) - 1))
    ensures m.index.None? ==>
              GetSymbolData(Render(m), defaultIndex) == Ok(SymbolData(m.symbol, m.variant, defaultIndex))
  {
    MatchTokenComplete(m);
  }

  /** A token is malformed exactly when no well-formed capture spells it. */
  lemma GetSymbolDataRejects(token: string, defaultIndex: int)
    ensures GetSymbolData(token, defaultIndex).Err? <==> forall m :: WellFormed(m) ==> Render(m) != token
  {
    MatchTokenRejects(token);
  }

  // ---------------------------------------------------------------------------
  // _parse_symbols

  /** The outcome of `get_symboldata` on each token, in order. */
  function TokenResults(tokens: seq<string>, defaultIndex: int): (rs: seq<Result<SymbolData>>)
    ensures |rs| == |tokens|
  {
    seq(|tokens|, j requires 0 <= j < |tokens| => GetSymbolData(tokens[j], defaultIndex))
  }

  /** The loop of `_parse_symbols` over the tokens' outcomes: it stops at the first
      malformed token, and otherwise appends every record whose symbol is not in
      `nonSymbols`. A token is matched before it is filtered. */
  function Collect(results: seq<Result<SymbolData>>, nonSymbols: seq<string>): Result<seq<SymbolData>>
    decreases |results|
  {
    if results == [] then Ok([])
    else
      match Collect(results[..|results| - 1], nonSymbols)
      case Err(e) => Err(e)
      case Ok(kept) =>
        match results[|results| - 1]
        case Err(e) => Err(e)
        case Ok(sd) => Ok(if sd.symbol in nonSymbols then kept else kept + [sd])
  }

  /** `[symdata.index for symdata in symboldata_list]` */
  function Indices(records: seq<SymbolData>): (xs: seq<int>)
    ensures |xs| == |records|
  {
    seq(|records|, k requires 0 <= k < |records| => records[k].index)
  }

  /** The source's check `len(indices) == len(set(indices))`. */
  predicate NoDoubles(xs: seq<int>) {
    |set x | x in xs| == |xs|
  }

  /** The indices are pairwise distinct. */
  predicate Distinct(xs: seq<int>) {
    forall i, j :: 0 <= i < j < |xs| ==> xs[i] != xs[j]
  }

  /** The records the loop of `_parse_symbols` retains from the string, before the
      duplicate check. */
  function Retained(symbolsStr: string, nonSymbols: seq<string>, defaultIndex: int): Result<seq<SymbolData>> {
    Collect(TokenResults(Split(symbolsStr, Separator), defaultIndex), nonSymbols)
  }

  /** `_parse_symbols(symbols_str, non_symbols, default_index)` as a function. The
      duplicate check is an `assert`, so it fails with an AssertionError. */
  function Parse(symbolsStr: string, nonSymbols: seq<string>, defaultIndex: int): Result<seq<SymbolData>> {
    match Retained(symbolsStr, nonSymbols, defaultIndex)
    case Err(e) => Err(e)
    case Ok(records) => if NoDoubles(Indices(records)) then Ok(records) else Err(DuplicateIndex)
  }

  /** `_parse_symbols` as the source runs it: the list is built by appending in a loop. */
  method ParseSymbols(symbolsStr: string, nonSymbols: seq<string>, defaultIndex: int)
    returns (r: Result<seq<SymbolData>>)
    ensures r == Parse(symbolsStr, nonSymbols, defaultIndex)
  {
    var tokens := Split(symbolsStr, Separator);
    ghost var results := TokenResults(tokens, defaultIndex);
    var symboldataList: seq<SymbolData> := [];
    for i := 0 to |tokens|
      invariant Collect(results[..i], nonSymbols) == Ok(symboldataList)
    {
      var symboldata := GetSymbolData(tokens[i], defaultIndex);
      assert symboldata == results[i];
      if symboldata.Err? {
        CollectStops(results, nonSymbols, i);
        return Err(symboldata.error);
      }
      CollectStep(results, nonSymbols, i);
      if symboldata.value.symbol !in nonSymbols {
        symboldataList := symboldataList + [symboldata.value];
      }
    }
    assert results[..|tokens|] == results;
    var indices := Indices(symboldataList);
    if |set x | x in indices| != |indices| {
      return Err(DuplicateIndex);
    }
    return Ok(symboldataList);
  }

  // ---------------------------------------------------------------------------
  // Properties of the loop

  /** Order: the records of two runs of tokens are those of the first run followed
      by those of the second; an error in the first run wins. */
  lemma {:induction false} CollectAppend(r1: seq<Result<SymbolData>>, r2: seq<Result<SymbolData>>, nonSymbols: seq<string>)
    ensures Collect(r1 + r2, nonSymbols) ==
            match Collect(r1, nonSymbols)
            case Err(e) => Err(e)
            case Ok(a) =>
              match Collect(r2, nonSymbols)
              case Err(e) => Err(e)
              case Ok(b) => Ok(a + b)
    decreases |r2|
  {
    if r2 == [] {
      assert r1 + r2 == r1;
      if Collect(r1, nonSymbols).Ok? {
        var a := Collect(r1, nonSymbols).value;
        assert a + [] == a;
      }
    } else {
      var init := r2[..|r2| - 1];
      assert (r1 + r2)[..|r1 + r2| - 1] == r1 + init;
      assert (r1 + r2)[|r1 + r2| - 1] == r2[|r2| - 1];
      CollectAppend(r1, init, nonSymbols);
      match Collect(r1, nonSymbols)
      case Err(_) =>
      case Ok(a) =>
        match Collect(init, nonSymbols)
        case Err(_) =>
        case Ok(b) =>
          match r2[|r2| - 1]
          case Err(_) =>
          case Ok(sd) =>
            assert a + (b + [sd]) == (a + b) + [sd];
    }
  }

  /** One more outcome that matches: its record is appended unless it is ignored. */
  lemma CollectStep(results: seq<Result<SymbolData>>, nonSymbols: seq<string>, i: nat)
    requires i < |results| && results[i].Ok? && Collect(results[..i], nonSymbols).Ok?
    ensures Collect(results[..i + 1], nonSymbols) ==
            Ok(if results[i].value.symbol in nonSymbols then Collect(results[..i], nonSymbols).value
               else Collect(results[..i], nonSymbols).value + [results[i].value])
  {
    var head := results[..i + 1];
    assert head[..|head| - 1] == results[..i];
    assert head[|head| - 1] == results[i];
  }

  /** One more outcome that does not match ends the loop with its error. */
  lemma CollectStops(results: seq<Result<SymbolData>>, nonSymbols: seq<string>, i: nat)
    requires i < |results| && results[i].Err? && Collect(results[..i], nonSymbols).Ok?
    ensures Collect(results, nonSymbols) == Err(results[i].error)
  {
    var head := results[..i + 1];
    assert head[..|head| - 1] == results[..i];
    assert head[|head| - 1] == results[i];
    CollectAppend(head, results[i + 1..], nonSymbols);
    assert head + results[i + 1..] == results;
  }

  /** The loop succeeds exactly when every token, ignored ones included, matches. */
  lemma {:induction false} CollectOk(results: seq<Result<SymbolData>>, nonSymbols: seq<string>)
    ensures Collect(results, nonSymbols).Ok? <==> forall j :: 0 <= j < |results| ==> results[j].Ok?
    decreases |results|
  {
    if results != [] {
      var n := |results| - 1;
      CollectOk(results[..n], nonSymbols);
      assert forall j :: 0 <= j < n ==> results[..n][j] == results[j];
    }
  }

  /** A failing loop reports the error of the FIRST malformed token. */
  lemma CollectFirstError(results: seq<Result<SymbolData>>, nonSymbols: seq<string>, j: nat)
    requires j < |results| && results[j].Err?
    requires forall i :: 0 <= i < j ==> results[i].Ok?
    ensures Collect(results, nonSymbols) == Err(results[j].error)
  {
    var head := results[..j + 1];
    assert head[..j] == results[..j];
    CollectOk(results[..j], nonSymbols);
    CollectAppend(head, results[j + 1..], nonSymbols);
    assert head + results[j + 1..] == results;
  }

  /** What the loop keeps: each record comes from some token and is not ignored,
      and every record that is not ignored is kept. */
  lemma {:induction false} CollectKept(results: seq<Result<SymbolData>>, nonSymbols: seq<string>, kept: seq<SymbolData>)
    requires Collect(results, nonSymbols) == Ok(kept)
    ensures forall k :: 0 <= k < |kept| ==> kept[k].symbol !in nonSymbols && Ok(kept[k]) in results
    ensures forall j :: 0 <= j < |results| ==>
              results[j].Ok? && (results[j].value.symbol !in nonSymbols ==> results[j].value in kept)
    decreases |results|
  {
    if results != [] {
      var n := |results| - 1;
      var init := results[..n];
      var prev := Collect(init, nonSymbols).value;
      CollectKept(init, nonSymbols, prev);
      assert forall j :: 0 <= j < n ==> init[j] == results[j];
      assert forall r :: r in init ==> r in results;
    }
  }

  /** Order: two records that are not ignored are kept in the order of their
      tokens. */
  lemma {:induction false} CollectOrder(results: seq<Result<SymbolData>>, nonSymbols: seq<string>,
                                        kept: seq<SymbolData>, i: nat, j: nat)
    requires Collect(results, nonSymbols) == Ok(kept)
    requires i < j < |results|
    requires results[i].Ok? && results[i].value.symbol !in nonSymbols
    requires results[j].Ok? && results[j].value.symbol !in nonSymbols
    ensures exists p, q :: 0 <= p < q < |kept| && kept[p] == results[i].value && kept[q] == results[j].value
    decreases |results|
  {
    var n := |results| - 1;
    var init := results[..n];
    var prev := Collect(init, nonSymbols).value;
    assert init[i] == results[i];
    assert kept == prev + [results[n].value] || kept == prev;
    if j < n {
      assert init[j] == results[j];
      CollectOrder(init, nonSymbols, prev, i, j);
      var p, q :| 0 <= p < q < |prev| && prev[p] == results[i].value && prev[q] == results[j].value;
      assert kept[p] == prev[p] && kept[q] == prev[q];
    } else {
      CollectKept(init, nonSymbols, prev);
      var p :| 0 <= p < |prev| && prev[p] == results[i].value;
      assert kept == prev + [results[j].value];
      assert kept[p] == results[i].value && kept[|prev|] == results[j].value;
    }
  }

  // ---------------------------------------------------------------------------
  // Properties of the parser

  /** `len(set(xs)) <= len(xs)` */
  lemma {:induction false} SetOfSeqSize(xs: seq<int>)
    ensures |set x | x in xs| <= |xs|
    decreases |xs|
  {
    if xs != [] {
      SetOfSeqSize(xs[1..]);
      assert (set x | x in xs) == {xs[0]} + (set x | x in xs[1..]);
    }
  }

  /** The source's cardinality check is exactly pairwise distinctness. */
  lemma {:induction false} NoDoublesIffDistinct(xs: seq<int>)
    ensures NoDoubles(xs) <==> Distinct(xs)
    decreases |xs|
  {
    if xs != [] {
      var tail := xs[1..];
      NoDoublesIffDistinct(tail);
      SetOfSeqSize(tail);
      assert (set x | x in xs) == {xs[0]} + (set x | x in tail);
      if xs[0] in tail {
        assert (set x | x in xs) == (set x | x in tail);
        var j :| 0 <= j < |tail| && tail[j] == xs[0];
        assert xs[j + 1] == xs[0];
      } else {
        assert Distinct(xs) <==> Distinct(tail) by {
          if Distinct(tail) {
            forall i, j | 0 <= i < j < |xs| ensures xs[i] != xs[j] {
              if i == 0 {
                assert xs[j] == tail[j - 1];
              } else {
                assert xs[i] == tail[i - 1] && xs[j] == tail[j - 1];
              }
            }
          }
          if Distinct(xs) {
            forall i, j | 0 <= i < j < |tail| ensures tail[i] != tail[j] {
              assert tail[i] == xs[i + 1] && tail[j] == xs[j + 1];
            }
          }
        }
      }
    }
  }

  /** Parsing fails on the first token that does not fully match the grammar,
      whatever is ignored and whatever the default index: matching comes before
      filtering, so an ignored position does not excuse a malformed token. */
  lemma ParseRejectsMalformed(symbolsStr: string, nonSymbols: seq<string>, defaultIndex: int, j: nat)
    requires j < |Split(symbolsStr, Separator)|
    requires MatchToken(Split(symbolsStr, Separator)[j]).None?
    requires forall i :: 0 <= i < j ==> MatchToken(Split(symbolsStr, Separator)[i]).Some?
    ensures Parse(symbolsStr, nonSymbols, defaultIndex) == Err(MalformedSymbol(Split(symbolsStr, Separator)[j]))
  {
    var results := TokenResults(Split(symbolsStr, Separator), defaultIndex);
    CollectFirstError(results, nonSymbols, j);
  }

  /** The loop retains records exactly when every token matches the grammar. */
  lemma RetainedOk(symbolsStr: string, nonSymbols: seq<string>, defaultIndex: int)
    ensures Retained(symbolsStr, nonSymbols, defaultIndex).Ok? <==>
            forall t :: t in Split(symbolsStr, Separator) ==> MatchToken(t).Some?
  {
    var tokens := Split(symbolsStr, Separator);
    var results := TokenResults(tokens, defaultIndex);
    CollectOk(results, nonSymbols);
    if forall j :: 0 <= j < |results| ==> results[j].Ok? {
      forall t | t in tokens ensures MatchToken(t).Some? {
        var j :| 0 <= j < |tokens| && tokens[j] == t;
        assert results[j].Ok?;
      }
    }
  }

  /** The duplicate check decides between the retained records and the
      AssertionError. */
  lemma ParseOfRetained(symbolsStr: string, nonSymbols: seq<string>, defaultIndex: int, records: seq<SymbolData>)
    requires Retained(symbolsStr, nonSymbols, defaultIndex) == Ok(records)
    ensures Distinct(Indices(records)) ==> Parse(symbolsStr, nonSymbols, defaultIndex) == Ok(records)
    ensures !Distinct(Indices(records)) ==> Parse(symbolsStr, nonSymbols, defaultIndex) == Err(DuplicateIndex)
  {
    NoDoublesIffDistinct(Indices(records));
  }

  /** Parsing succeeds exactly when every token matches and the retained records have
      pairwise distinct indices; a duplicate among them is an AssertionError, while
      ignored tokens may share an index with a retained one. */
  lemma ParseSucceeds(symbolsStr: string, nonSymbols: seq<string>, defaultIndex: int)
    ensures Parse(symbolsStr, nonSymbols, defaultIndex).Ok? <==>
            Retained(symbolsStr, nonSymbols, defaultIndex).Ok? &&
            Distinct(Indices(Retained(symbolsStr, nonSymbols, defaultIndex).value))
    ensures Retained(symbolsStr, nonSymbols, defaultIndex).Ok? &&
            !Distinct(Indices(Retained(symbolsStr, nonSymbols, defaultIndex).value)) ==>
            Parse(symbolsStr, nonSymbols, defaultIndex) == Err(DuplicateIndex)
    ensures Parse(symbolsStr, nonSymbols, defaultIndex).Ok? ==>
            Parse(symbolsStr, nonSymbols, defaultIndex) == Retained(symbolsStr, nonSymbols, defaultIndex)
  {
    var p := Retained(symbolsStr, nonSymbols, defaultIndex);
    if p.Ok? {
      ParseOfRetained(symbolsStr, nonSymbols, defaultIndex, p.value);
    }
  }

  /** On success the indices of the returned records are pairwise distinct. */
  lemma ParseIndicesDistinct(symbolsStr: string, nonSymbols: seq<string>, defaultIndex: int, records: seq<SymbolData>)
    requires Parse(symbolsStr, nonSymbols, defaultIndex) == Ok(records)
    ensures forall i, j :: 0 <= i < j < |records| ==> records[i].index != records[j].index
  {
    ParseSucceeds(symbolsStr, nonSymbols, defaultIndex);
    forall i, j | 0 <= i < j < |records| ensures records[i].index != records[j].index {
      assert Indices(records)[i] == records[i].index && Indices(records)[j] == records[j].index;
    }
  }

  /** On success every record is the outcome of some token of the string and is not
      ignored, and the outcome of every token whose symbol is not ignored is kept. */
  lemma ParseRecords(symbolsStr: string, nonSymbols: seq<string>, defaultIndex: int, records: seq<SymbolData>)
    requires Parse(symbolsStr, nonSymbols, defaultIndex) == Ok(records)
    ensures forall k :: 0 <= k < |records| ==>
              records[k].symbol !in nonSymbols &&
              Ok(records[k]) in TokenResults(Split(symbolsStr, Separator), defaultIndex)
    ensures forall r :: r in TokenResults(Split(symbolsStr, Separator), defaultIndex) ==>
              r.Ok? && (r.value.symbol !in nonSymbols ==> r.value in records)
  {
    var results := TokenResults(Split(symbolsStr, Separator), defaultIndex);
    ParseSucceeds(symbolsStr, nonSymbols, defaultIndex);
    CollectKept(results, nonSymbols, records);
  }

  /** Order: on success, the records of two tokens that are not ignored appear in
      the order of the tokens in the string. */
  lemma ParseKeepsOrder(symbolsStr: string, nonSymbols: seq<string>, defaultIndex: int,
                        records: seq<SymbolData>, i: nat, j: nat)
    requires Parse(symbolsStr, nonSymbols, defaultIndex) == Ok(records)
    requires i < j < |Split(symbolsStr, Separator)|
    requires GetSymbolData(Split(symbolsStr, Separator)[i], defaultIndex).Ok?
    requires GetSymbolData(Split(symbolsStr, Separator)[j], defaultIndex).Ok?
    requires GetSymbolData(Split(symbolsStr, Separator)[i], defaultIndex).value.symbol !in nonSymbols
    requires GetSymbolData(Split(symbolsStr, Separator)[j], defaultIndex).value.symbol !in nonSymbols
    ensures exists p, q :: 0 <= p < q < |records| &&
              records[p] == GetSymbolData(Split(symbolsStr, Separator)[i], defaultIndex).value &&
              records[q] == GetSymbolData(Split(symbolsStr, Separator)[j], defaultIndex).value
  {
    var results := TokenResults(Split(symbolsStr, Separator), defaultIndex);
    ParseSucceeds(symbolsStr, nonSymbols, defaultIndex);
    CollectOrder(results, nonSymbols, records, i, j);
  }

  /** Two well-formed tokens that are not ignored and carry the same index make the
      parse fail with the AssertionError, once every token matches. */
  lemma ParseRejectsDuplicate(symbolsStr: string, nonSymbols: seq<string>, defaultIndex: int, i: nat, j: nat)
    requires forall t :: t in Split(symbolsStr, Separator) ==> MatchToken(t).Some?
    requires i < j < |Split(symbolsStr, Separator)|
    requires GetSymbolData(Split(symbolsStr, Separator)[i], defaultIndex).Ok?
    requires GetSymbolData(Split(symbolsStr, Separator)[j], defaultIndex).Ok?
    requires GetSymbolData(Split(symbolsStr, Separator)[i], defaultIndex).value.symbol !in nonSymbols
    requires GetSymbolData(Split(symbolsStr, Separator)[j], defaultIndex).value.symbol !in nonSymbols
    requires GetSymbolData(Split(symbolsStr, Separator)[i], defaultIndex).value.index ==
             GetSymbolData(Split(symbolsStr, Separator)[j], defaultIndex).value.index
    ensures Parse(symbolsStr, nonSymbols, defaultIndex) == Err(DuplicateIndex)
  {
    var results := TokenResults(Split(symbolsStr, Separator), defaultIndex);
    RetainedOk(symbolsStr, nonSymbols, defaultIndex);
    var records := Retained(symbolsStr, nonSymbols, defaultIndex).value;
    CollectOrder(results, nonSymbols, records, i, j);
    var p, q :| 0 <= p < q < |records| && records[p] == results[i].value && records[q] == results[j].value;
    assert Indices(records)[p] == Indices(records)[q];
    ParseOfRetained(symbolsStr, nonSymbols, defaultIndex, records);
  }

  /** Every token outcome that succeeds carries a word as its symbol and, if any,
      as its variant; so no parsed record has an empty symbol or variant. */
  lemma TokenResultsWords(tokens: seq<string>, defaultIndex: int)
    ensures forall r :: r in TokenResults(tokens, defaultIndex) && r.Ok? ==>
              IsWord(r.value.symbol) && (r.value.variant.Some? ==> IsWord(r.value.variant.value))
  {
    var results := TokenResults(tokens, defaultIndex);
    forall r | r in results && r.Ok?
      ensures IsWord(r.value.symbol) && (r.value.variant.Some? ==> IsWord(r.value.variant.value))
    {
      var j :| 0 <= j < |results| && results[j] == r;
      assert r == GetSymbolData(tokens[j], defaultIndex);
    }
  }

  /** `get_symboldata` distributes over a concatenation of token lists. */
  lemma {:induction false} TokenResultsAppend(a: seq<string>, b: seq<string>, defaultIndex: int)
    ensures TokenResults(a + b, defaultIndex) == TokenResults(a, defaultIndex) + TokenResults(b, defaultIndex)
    decreases |b|
  {
    if b == [] {
      assert a + b == a;
    } else {
      var init := b[..|b| - 1];
      var last := b[|b| - 1];
      assert a + b == (a + init) + [last];
      assert b == init + [last];
      TokenResultsAppend(a, init, defaultIndex);
      TokenResultsSnoc(a + init, last, defaultIndex);
      TokenResultsSnoc(init, last, defaultIndex);
    }
  }

  /** `get_symboldata` on one more token appends its outcome. */
  lemma TokenResultsSnoc(tokens: seq<string>, token: string, defaultIndex: int)
    ensures TokenResults(tokens + [token], defaultIndex) ==
            TokenResults(tokens, defaultIndex) + [GetSymbolData(token, defaultIndex)]
  {
    var lhs := TokenResults(tokens + [token], defaultIndex);
    var rhs := TokenResults(tokens, defaultIndex) + [GetSymbolData(token, defaultIndex)];
    forall j | 0 <= j < |lhs| ensures lhs[j] == rhs[j] {
      if j < |tokens| {
        assert (tokens + [token])[j] == tokens[j];
      } else {
        assert (tokens + [token])[j] == token;
      }
    }
  }

  /** Joining two lists of parts puts one separator between their joins. */
  lemma {:induction false} JoinAppend(a: seq<string>, b: seq<string>, sep: char)
    requires |a| > 0 && |b| > 0
    ensures Join(a + b, sep) == Join(a, sep) + [sep] + Join(b, sep)
    decreases |a|
  {
    if |a| == 1 {
      assert (a + b)[1..] == b;
    } else {
      assert (a + b)[1..] == a[1..] + b;
      JoinAppend(a[1..], b, sep);
    }
  }

  /** Order: the records retained from `left + "+" + right` are those retained from
      `left` followed by those retained from `right`; an error in `left` wins. */
  lemma RetainedKeepsOrder(left: string, right: string, nonSymbols: seq<string>, defaultIndex: int)
    ensures Retained(left + [Separator] + right, nonSymbols, defaultIndex) ==
            match Retained(left, nonSymbols, defaultIndex)
            case Err(e) => Err(e)
            case Ok(a) =>
              match Retained(right, nonSymbols, defaultIndex)
              case Err(e) => Err(e)
              case Ok(b) => Ok(a + b)
  {
    var l := Split(left, Separator);
    var r := Split(right, Separator);
    assert forall i :: 0 <= i < |l + r| ==> (l + r)[i] in l || (l + r)[i] in r;
    SplitJoin(l + r, Separator);
    JoinAppend(l, r, Separator);
    TokenResultsAppend(l, r, defaultIndex);
    CollectAppend(TokenResults(l, defaultIndex), TokenResults(r, defaultIndex), nonSymbols);
  }

  /** The records of `left + "+" + right` when both sides yield records. */
  lemma RetainedJoin(left: string, right: string, nonSymbols: seq<string>, defaultIndex: int,
                     xs: seq<SymbolData>, ys: seq<SymbolData>)
    requires Retained(left, nonSymbols, defaultIndex) == Ok(xs)
    requires Retained(right, nonSymbols, defaultIndex) == Ok(ys)
    ensures Retained(left + [Separator] + right, nonSymbols, defaultIndex) == Ok(xs + ys)
  {
    RetainedKeepsOrder(left, right, nonSymbols, defaultIndex);
  }

  /** The loop over a single outcome. */
  lemma CollectSingle(result: Result<SymbolData>, nonSymbols: seq<string>)
    ensures result.Err? ==> Collect([result], nonSymbols) == Err(result.error)
    ensures result.Ok? ==>
              Collect([result], nonSymbols) ==
              Ok(if result.value.symbol in nonSymbols then [] else [result.value])
  {
    var rs := [result];
    assert rs[..|rs| - 1] == [];
    assert rs[|rs| - 1] == result;
    assert Collect(rs[..|rs| - 1], nonSymbols) == Ok([]);
    if result.Ok? {
      assert [] + [result.value] == [result.value];
    }
  }

  /** A string without a separator is a single token. */
  lemma RetainedSingle(token: string, nonSymbols: seq<string>, defaultIndex: int)
    requires Separator !in token
    ensures Retained(token, nonSymbols, defaultIndex) == Collect([GetSymbolData(token, defaultIndex)], nonSymbols)
  {
    SplitJoin([token], Separator);
    assert Split(token, Separator) == [token];
    assert TokenResults([token], defaultIndex) == [GetSymbolData(token, defaultIndex)];
  }

  /** No token the grammar accepts contains the separator. */
  lemma RenderNoSeparator(m: TokenMatch)
    requires WellFormed(m)
    ensures Separator !in Render(m)
  {
    var v, x := VariantPart(m.variant), IndexPart(m.index);
    assert forall i :: 0 <= i < |m.symbol| ==> m.symbol[i] != Separator;
    assert forall i :: 0 <= i < |v| ==> v[i] != Separator;
    assert forall i :: 0 <= i < |x| ==> x[i] != Separator;
    assert Render(m) == m.symbol + (v + x);
  }

  /** The records retained from a single well-formed token: its record, unless its
      symbol is ignored. */
  lemma RetainedToken(m: TokenMatch, nonSymbols: seq<string>, defaultIndex: int)
    requires WellFormed(m)
    ensures m.symbol in nonSymbols ==> Retained(Render(m), nonSymbols, defaultIndex) == Ok([])
    ensures m.symbol !in nonSymbols && m.index.Some? ==>
              Retained(Render(m), nonSymbols, defaultIndex) ==
              Ok([SymbolData(m.symbol, m.variant, DecimalValue(m.index.value) - 1)])
    ensures m.symbol !in nonSymbols && m.index.None? ==>
              Retained(Render(m), nonSymbols, defaultIndex) == Ok([SymbolData(m.symbol, m.variant, defaultIndex)])
  {
    RenderNoSeparator(m);
    RetainedSingle(Render(m), nonSymbols, defaultIndex);
    SymbolDataOfToken(m, defaultIndex);
    CollectSingle(GetSymbolData(Render(m), defaultIndex), nonSymbols);
  }
}

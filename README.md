# xkbgroup core in Dafny

`xkbgroup` lets a Python program query and switch the XKB keyboard layout group
of an X server. Its `XKeyboard` object opens the display, fetches the keyboard
description (map, controls and names), and answers questions about the layout
groups:

- how many there are;
- their full names;
- their symbols and variants, decoded from the server's symbols string such as
  `pc+us+ru(phonetic):2+inet(evdev)`.

Setting the current group by number, name or symbol goes through `XkbLockGroup`.

This project models three parts of `xkbgroup/core.py` and proves properties of them:

- **The symbols-string parser** (`_parse_symbols`, `SYMBOL_REGEX`, `SymbolData`),
  in modules `SymbolGrammar` (grammar.dfy) and `Symbols` (symbols.dfy).
  - The regular expression `\w+(\(\w+\))?(:\d+)?` becomes a hand-written full-match
    recogniser over ASCII, with a rendering function as its inverse.
  - `str.split` becomes `Split`, with `Join` as its inverse.
  - The parser exists both as a function (`Parse`) and as the appending loop
    the source runs (`ParseSymbols`), proved equal to it.
  - `SymbolExamples` (symbol_examples.dfy) works through example strings such as
    "us:0", "pc+us", "", "us++ru", "us)(bad", "us:1+ru:1", "us+ru(phonetic):2+fr:3"
    and "pc+inet+us+ru(phonetic):2". Each is stated for every choice of its words.
- **The queries** over a keyboard description (module `Queries`, queries.dfy):
  - `groups_count`, as a function and as the source's `while` loop;
  - `groups_names`, `groups_symbols`, `groups_variants` and `groups_data`;
  - the getters of the current group: name, symbol, variant and `group_data`;
  - the dict lookups of the `group_symbol` and `group_name` setters.

  The description is a value. `XGetAtomName` is an atom table passed in, and a Python dict
  comprehension is `PyDict.FromPairs` (pydict.dfy), where the last occurrence of a key wins.
- **The session life cycle** of `XKeyboard` (module `Session`, session.dfy).
  - It is a class with the optional attributes `_display` and `_keyboard_description`.
  - The object keeps a log of the X library calls it makes.
  - Every answer of the server is a method parameter.
  - Methods: `open_display`, `close_display`, and the `group_num`, `group_symbol`
    and `group_name` setters.
  - The type checks of `_ensure_type` are in pyvalues.dfy.
  - A Python exception is an `Err`/`Fail` value. `Error.Class()` names the exception
    class it raises: X11Error, AssertionError, ValueError, KeyError, IndexError or
    AttributeError.

The model follows the code as written, including these behaviours:

- `close_display` never closes the display. Its guard at core.py:162 asks for an
  attribute named `display`, while the object only ever sets `_display`. So
  `XCloseDisplay` is never called and `_display` is never deleted.
  `CloseDisplay` leaves `display` unchanged, and `OpenProtocol` proves that
  `XCloseDisplay` never appears in the calls of `open_display`.
- `close_display` deletes `_keyboard_description` only when it is set and non-NULL.
  A NULL description left by a failed `XkbGetMap` stays set.
- A failure reported by `XkbOpenDisplay` raises without any cleanup (core.py:130-131).
- A status from `XkbGetControls` or `XkbGetNames` that is missing from the message
  table raises KeyError, not X11Error (core.py:143, 149).
- The duplicate-index check of the parser is an `assert`, so it raises AssertionError.
- An explicit `:0` suffix gives index -1, and every token without a suffix gets the
  default index, so an ignored token may share the index of a retained one.
- `groups_data` pairs the group names with the retained records by position, not by
  their index. Its length is the shorter of the group count and the record list.
- Group numbers index a ctypes array. -4 to -1 count from the end; anything else
  outside 0..3 raises IndexError.
- `XGetAtomName` returning NULL gives "" for a group name but fails on `.decode` for
  the symbols string (AttributeError).
- `groups_count` falls back to scanning the group-name slots only in the reading
  `GroupsCountOf`, which the rest of the model uses; see "## Findings" for the code
  as written.

## Model

| member | source | states |
|---|---|---|
| SymbolGrammar.WordPrefixLength | xkbgroup/core.py:363 | the longest prefix of word characters: every character before it is a word character and the one at it is not |
| SymbolGrammar.MatchIndex | xkbgroup/core.py:365 | an accepted index suffix is empty or ":" followed by ASCII digits, and renders back to the input |
| SymbolGrammar.MatchVariant | xkbgroup/core.py:364 | an accepted variant is a word in parentheses, and the variant part plus the remainder is the input |
| SymbolGrammar.MatchToken | xkbgroup/core.py:362-366 | a full match is a well-formed capture (word, optional word variant, optional digits) whose rendering is the token itself |
| SymbolGrammar.MatchIndexComplete | xkbgroup/core.py:365 | every well-formed index suffix is accepted with its own digits |
| SymbolGrammar.MatchVariantComplete | xkbgroup/core.py:364 | every well-formed variant part followed by nothing or ":" is accepted with its own word and remainder |
| SymbolGrammar.MatchTokenComplete | xkbgroup/core.py:362-366 | completeness: rendering any well-formed capture and matching it gives back that capture |
| SymbolGrammar.MatchTokenRejects | xkbgroup/core.py:388-397 | a token is rejected exactly when no well-formed capture renders to it |
| Symbols.Split | xkbgroup/core.py:400 | `split('+')` never returns an empty list, no part holds '+', and joining the parts with '+' gives back the string |
| Symbols.SplitJoin | xkbgroup/core.py:400 | splitting the join of separator-free parts gives back the parts |
| Symbols.JoinAppend | xkbgroup/core.py:400 | joining two lists of parts puts one '+' between their joins |
| Symbols.GetSymbolData | xkbgroup/core.py:388-397 | a malformed token raises the X11Error naming the token; a record's symbol and variant are non-empty words |
| Symbols.SymbolDataOfToken | xkbgroup/core.py:391-395 | the index rule: a ":n" suffix gives index n - 1 (so ":0" gives -1); no suffix gives the default index, with no counter |
| Symbols.GetSymbolDataRejects | xkbgroup/core.py:389-397 | get_symboldata raises exactly when no well-formed token spells its argument |
| Symbols.TokenResults | xkbgroup/core.py:400-401 | one outcome per token |
| Symbols.TokenResultsWords | xkbgroup/core.py:392-395 | every successful outcome carries a word as symbol and, if any, as variant |
| Symbols.TokenResultsAppend | xkbgroup/core.py:400-401 | the outcomes of two runs of tokens are those of the first followed by those of the second |
| Symbols.TokenResultsSnoc | xkbgroup/core.py:400-401 | one more token appends its outcome |
| Symbols.Indices | xkbgroup/core.py:405 | one index per record |
| Symbols.ParseSymbols | xkbgroup/core.py:399-408 | the appending loop and the duplicate check return exactly what `Parse` specifies |
| Symbols.CollectAppend | xkbgroup/core.py:399-403 | order: records of two runs come out in sequence, and an error in the first run wins |
| Symbols.CollectStep | xkbgroup/core.py:401-403 | one matching token appends its record unless its symbol is ignored |
| Symbols.CollectStops | xkbgroup/core.py:401 | one malformed token ends the loop with its error |
| Symbols.CollectOk | xkbgroup/core.py:399-403 | the loop succeeds exactly when every token, ignored ones included, matches |
| Symbols.CollectFirstError | xkbgroup/core.py:399-401 | a failing loop reports the first malformed token |
| Symbols.CollectKept | xkbgroup/core.py:402-403 | every kept record comes from a token and is not ignored; every record that is not ignored is kept |
| Symbols.CollectOrder | xkbgroup/core.py:399-403 | two kept records appear in the order of their tokens |
| Symbols.CollectSingle | xkbgroup/core.py:401-403 | the loop over one outcome: its error, no record if ignored, or its record |
| Symbols.SetOfSeqSize | xkbgroup/core.py:406 | `len(set(xs)) <= len(xs)` |
| Symbols.NoDoublesIffDistinct | xkbgroup/core.py:405-406 | `len(indices) == len(set(indices))` holds exactly when the indices are pairwise distinct |
| Symbols.ParseRejectsMalformed | xkbgroup/core.py:388-401 | the parse fails with the first malformed token, whatever is ignored: matching comes before filtering |
| Symbols.RetainedOk | xkbgroup/core.py:399-403 | the loop yields records exactly when every token of the split string matches |
| Symbols.ParseOfRetained | xkbgroup/core.py:405-408 | the retained records are returned when their indices are distinct, otherwise AssertionError |
| Symbols.ParseSucceeds | xkbgroup/core.py:399-408 | the parse succeeds exactly when every token matches and the retained indices are distinct; a duplicate is AssertionError |
| Symbols.ParseIndicesDistinct | xkbgroup/core.py:405-406 | on success the records' indices are pairwise distinct |
| Symbols.ParseRecords | xkbgroup/core.py:399-403 | on success every record comes from a token and is not ignored, and every token that is not ignored is kept |
| Symbols.ParseKeepsOrder | xkbgroup/core.py:399-403 | on success the records of two kept tokens appear in the order of the tokens |
| Symbols.ParseRejectsDuplicate | xkbgroup/core.py:402-406 | two kept tokens with the same index fail the parse with AssertionError |
| Symbols.RetainedKeepsOrder | xkbgroup/core.py:399-403 | the records of `left + "+" + right` are those of `left` followed by those of `right`; an error in `left` wins |
| Symbols.RetainedSingle | xkbgroup/core.py:400 | a string without '+' is a single token |
| Symbols.RenderNoSeparator | xkbgroup/core.py:362-366 | no well-formed token contains '+' |
| Symbols.RetainedToken | xkbgroup/core.py:391-403 | a single well-formed token yields no record if ignored, otherwise its record with the index rule applied |
| Symbols.Join | xkbgroup/core.py:400 | `'+'.join(parts)`, the inverse of `split`; its properties are stated in `Split` and `SplitJoin` |
| Symbols.SplitAfterWord | xkbgroup/core.py:400 | a word followed by '+' and a rest splits into the word followed by the parts of the rest |
| Symbols.DecimalValue | xkbgroup/core.py:395 | `int(index)` for an ASCII digit string; the index it yields is stated in `SymbolDataOfToken` |
| Symbols.Collect | xkbgroup/core.py:399-403 | the appending loop over the token outcomes; stated in `CollectOk`, `CollectFirstError`, `CollectKept`, `CollectOrder` and `CollectAppend` |
| Symbols.NoDoubles | xkbgroup/core.py:405-406 | the check `len(indices) == len(set(indices))`; equivalent to `Distinct` by `NoDoublesIffDistinct` |
| Symbols.Distinct | xkbgroup/core.py:406 | the indices are pairwise distinct, the meaning of "no doubles" |
| Symbols.Retained | xkbgroup/core.py:399-403 | the records the loop keeps before the duplicate check; stated in `RetainedOk`, `RetainedKeepsOrder`, `RetainedJoin` and `RetainedToken` |
| Symbols.Parse | xkbgroup/core.py:387-408 | `_parse_symbols` as a function; stated in `ParseSucceeds`, `ParseRejectsMalformed`, `ParseRecords`, `ParseKeepsOrder`, `ParseIndicesDistinct` and `ParseRejectsDuplicate` |
| Symbols.RetainedJoin | xkbgroup/core.py:399-403 | the records of `left + "+" + right` are the records of `left` followed by those of `right` |
| SymbolExamples.ExplicitZero | xkbgroup/core.py:395 | "w:0" parses to one record with index -1 |
| SymbolExamples.IgnoredFirstRetained | xkbgroup/core.py:399-403 | an ignored token followed by a kept one yields only the kept record |
| SymbolExamples.IgnoredTokenSharesIndex | xkbgroup/core.py:402-406 | "pc+us" with "pc" ignored succeeds although both tokens get the default index |
| SymbolExamples.EmptyStringRejected | xkbgroup/core.py:396-400 | "" is one empty token and fails as malformed |
| SymbolExamples.EmptyTokenRejected | xkbgroup/core.py:396-400 | "a++b" fails on its empty middle token |
| SymbolExamples.StrayParenRejected | xkbgroup/core.py:388-397 | "us)(bad", a word followed by ')' and a tail without '+', fails as malformed |
| SymbolExamples.SuffixOneRetained | xkbgroup/core.py:391-395 | "w:1" yields one record with index 0 |
| SymbolExamples.JoinedDuplicate | xkbgroup/core.py:402-406 | two joined runs whose kept records share an index fail with AssertionError |
| SymbolExamples.SuffixOnePair | xkbgroup/core.py:399-406 | "a:1" joined to "b:1" fails with AssertionError, both having index 0 |
| SymbolExamples.DuplicateSuffix | xkbgroup/core.py:402-406 | "us:1+ru:1" fails with AssertionError |
| SymbolExamples.PlainRetained | xkbgroup/core.py:391-403 | a kept word without suffix yields one record with the default index |
| SymbolExamples.PlainIgnored | xkbgroup/core.py:402 | an ignored word yields no record |
| SymbolExamples.VariantTwoSpelling | xkbgroup/core.py:362-366 | the capture of "ru(phonetic):2" renders to that token |
| SymbolExamples.VariantTwoRetained | xkbgroup/core.py:391-395 | "ru(phonetic):2" yields one record with its variant and index 1 |
| SymbolExamples.SuffixThreeRetained | xkbgroup/core.py:391-395 | "fr:3" yields one record with index 2 |
| SymbolExamples.VariantSuffixTail | xkbgroup/core.py:399-403 | "ru(phonetic):2+fr:3" yields its two records in order |
| SymbolExamples.ThreeTokensRetained | xkbgroup/core.py:399-403 | "us+ru(phonetic):2+fr:3" yields three records in order, the first with the default index |
| SymbolExamples.ThreeTokensParsed | xkbgroup/core.py:399-408 | those three records, with indices 0, 1 and 2, pass the duplicate check |
| SymbolExamples.DefaultIndexRule | xkbgroup/core.py:387-408 | "us+ru(phonetic):2+fr:3" with default index 0 parses to us/0, ru(phonetic)/1, fr/2 |
| SymbolExamples.KeptPairRetained | xkbgroup/core.py:399-403 | "us+ru(phonetic):2" yields its two records in order |
| SymbolExamples.OneIgnoredRetained | xkbgroup/core.py:399-403 | an ignored word in front of "us+ru(phonetic):2" adds no record |
| SymbolExamples.TwoIgnoredRetained | xkbgroup/core.py:399-403 | two ignored words in front of "us+ru(phonetic):2" add no record |
| SymbolExamples.IgnoredPrefixParsed | xkbgroup/core.py:399-408 | those two records pass the duplicate check |
| SymbolExamples.IgnoredPrefix | xkbgroup/core.py:387-408 | "pc+inet+us+ru(phonetic):2" parses to us/0 and ru(phonetic)/1 |
| SymbolExamples.DistinctIndices | xkbgroup/core.py:405-406 | records numbered 0, 1, ... in order pass the duplicate check's condition |
| SymbolExamples.ThreeTokensSpelling | xkbgroup/core.py:400 | "us+ru(phonetic):2+fr:3" is its three tokens joined by '+' |
| SymbolExamples.IgnoredPrefixSpelling | xkbgroup/core.py:400 | "pc+inet+us+ru(phonetic):2" is its four tokens joined by '+' |
| SymbolExamples.PlainPairSpelling | xkbgroup/core.py:400 | "pc+us" is its two tokens joined by '+' |
| PyDict.FromPairs | xkbgroup/core.py:290 | the keys of a dict comprehension are exactly the keys of its pairs |
| PyDict.FromPairsLastWins | xkbgroup/core.py:311 | a key maps to the value of its last pair |
| PyDict.FromPairsEntry | xkbgroup/core.py:290 | each entry comes from a pair with no later pair for the same key |
| PyValues.EnsureStr | xkbgroup/core.py:56-58 | `_ensure_type(v, str)` passes exactly a str and raises ValueError otherwise |
| PyValues.EnsureInt | xkbgroup/core.py:56-58 | `_ensure_type(v, int)` passes exactly an int or a bool (a bool as 1 or 0) and raises ValueError otherwise |
| Queries.ScanFrom | xkbgroup/core.py:205-208 | the scan stops at a count with every slot below it set and the slot at it None_ unless at the cap |
| Queries.ScanCountUnique | xkbgroup/core.py:205-208 | there is only one such stopping count |
| Queries.GroupsCountOf | xkbgroup/core.py:200-210 | `groups_count` with the NULL test on the controls; stated in `GroupsCountSpec` and computed by `GroupsCount` |
| Queries.GroupsCountAsWritten | xkbgroup/core.py:200-201 | `groups_count` as written: the controls are always dereferenced, and NULL controls raise ValueError |
| Queries.GroupsCountFallbackDead | xkbgroup/core.py:200-210 | with NULL controls and names present, the code as written raises ValueError where the scan gives a count |
| Queries.GroupsCountAsWrittenAgrees | xkbgroup/core.py:200-201 | with controls present, both readings give `num_groups` |
| Queries.GroupsCountSpec | xkbgroup/core.py:200-210 | `num_groups` unchanged with controls; otherwise at most XkbNumKbdGroups, slots below set, slot at it None_ when below the cap |
| Queries.GroupsCount | xkbgroup/core.py:200-210 | the while loop returns the count `GroupsCountOf` specifies |
| Queries.ArrayIndex | xkbgroup/core.py:353 | ctypes subscripting: -len..len-1 is accepted, a negative index counts from the end, anything else raises IndexError |
| Queries.GroupNameByNum | xkbgroup/core.py:352-358 | `_get_group_name_by_num`; stated in `GroupNameByNumSpec` |
| Queries.GroupNameByNumSpec | xkbgroup/core.py:352-358 | -4..-1 name the same slot as 0..3; other out-of-range numbers raise IndexError; a None_ slot raises X11Error; a set slot gives a name |
| Queries.NamesUpTo | xkbgroup/core.py:219 | the names of slots 0..n-1 in order, or the error of a failing slot |
| Queries.NamesUpToOk | xkbgroup/core.py:219 | the list succeeds when every slot below n does |
| Queries.GroupsNames | xkbgroup/core.py:219 | `groups_names`; stated in `GroupsNamesSpec` |
| Queries.GroupsNamesSpec | xkbgroup/core.py:219 | `groups_names` succeeds exactly when the count and each slot below it do; entry i is the name of slot i |
| Queries.SymbolDataList | xkbgroup/core.py:343-350 | `_symboldata_list`: the parse of the symbols atom's name with "pc", "inet", "group" ignored; stated in `RecordsFacts` |
| Queries.GroupsSymbols | xkbgroup/core.py:228 | `groups_symbols`; stated in `GroupsSymbolsSpec` |
| Queries.GroupsVariants | xkbgroup/core.py:237 | `groups_variants`; stated in `GroupsVariantsSpec` |
| Queries.GroupsSymbolsSpec | xkbgroup/core.py:228 | one symbol per retained record, in order, non-empty and not among "pc", "inet", "group" |
| Queries.GroupsVariantsSpec | xkbgroup/core.py:237 | one variant per retained record, in order; "" exactly for a record without a variant |
| Queries.RecordsFacts | xkbgroup/core.py:344-350 | the keyboard's records have non-empty symbols and variants outside the non-symbols, and distinct indices |
| Queries.GroupSymbol | xkbgroup/core.py:305-306 | the `group_symbol` getter; stated in `GroupSymbolSpec` |
| Queries.GroupVariant | xkbgroup/core.py:325-326 | the `group_variant` getter; stated in `GroupVariantSpec` |
| Queries.GroupSymbolSpec | xkbgroup/core.py:305-306 | the record carrying the group number gives the symbol; with none, KeyError |
| Queries.GroupVariantSpec | xkbgroup/core.py:325-326 | the record carrying the group number gives its variant, "" when it has none; with none, KeyError |
| Queries.SymbolIndexLookup | xkbgroup/core.py:311 | the symbol dict holds exactly the records' symbols, each mapped to the index of its last record |
| Queries.NameNumLookup | xkbgroup/core.py:289-290 | the name dict holds exactly the names, each mapped to its last position |
| Queries.SymbolTarget | xkbgroup/core.py:310-315 | the symbol setter's lookup; stated in `SymbolTargetSpec` and `SymbolRoundTrip` |
| Queries.NameTarget | xkbgroup/core.py:288-294 | the name setter's lookup; stated in `NameTargetSpec` and `NameRoundTrip` |
| Queries.SymbolTargetSpec | xkbgroup/core.py:310-315 | the symbol setter's lookup raises ValueError exactly for a symbol no record carries, otherwise gives the last such record's index |
| Queries.NameTargetSpec | xkbgroup/core.py:288-294 | the name setter's lookup raises ValueError exactly for an unknown name, otherwise gives its last position |
| Queries.SymbolRoundTrip | xkbgroup/core.py:305-315 | the group the symbol setter selects reads back that symbol through the getter |
| Queries.NameRoundTrip | xkbgroup/core.py:284-294 | the group the name setter selects reads back that name through the getter |
| Queries.GroupsData | xkbgroup/core.py:186-191 | `groups_data`; stated in `GroupsDataSpec` |
| Queries.GroupDataOf | xkbgroup/core.py:249-252 | `group_data` for the current group; stated in `GroupDataAgrees` |
| Queries.GroupsDataSpec | xkbgroup/core.py:186-191 | entry i has number i, the name of slot i and the symbol and variant of the i-th record, whatever its index; length is the shorter of count and records |
| Queries.GroupDataAgrees | xkbgroup/core.py:249-252 | `group_data` for g equals entry g of `groups_data` when the g-th record carries index g |
| Session.ControlsError | xkbgroup/core.py:141-143 | a status in GET_CONTROLS_ERRORS raises X11Error, any other KeyError |
| Session.NamesError | xkbgroup/core.py:147-149 | a status in GET_NAMES_ERRORS raises X11Error, any other KeyError |
| Session.OpenRequests | xkbgroup/core.py:114-149 | the calls of `open_display` after its `close_display`: it stops at the first failing step; stated in `OpenProtocol` |
| Session.OpenOutcome | xkbgroup/core.py:114-149 | the exception `open_display` raises, by the first failing step; stated in `OpenProtocol`, `ControlsError` and `NamesError` |
| Session.OpenProtocol | xkbgroup/core.py:114-149 | opening succeeds exactly when all four steps do; every failure at the controls or names step ends with the three free calls; XCloseDisplay is never called |
| Session.XKeyboard.Holds | xkbgroup/core.py:155 | the description attribute is set and not NULL, the test `close_display` makes; used by `Description` and `CloseDisplay` |
| Session.XKeyboard.Description | xkbgroup/core.py:335-341 | the description is readable exactly while it is held; unset raises AttributeError, NULL raises ValueError |
| Session.XKeyboard.constructor | xkbgroup/core.py:107-112 | a new object holds no display and no description and has made no call |
| Session.XKeyboard.CloseDisplay | xkbgroup/core.py:151-164 | afterwards no description is held; a held one is freed and unset; the display is untouched; a second call changes nothing |
| Session.XKeyboard.OpenDisplay | xkbgroup/core.py:114-149 | the outcome, the calls made and the new display are as `OpenOutcome`/`OpenRequests` say; success holds the full description; a failed XkbOpenDisplay leaves the description as the initial `close_display` left it, a NULL map leaves a NULL description set, and a failed controls or names step leaves none |
| Session.XKeyboard.SetGroupNum | xkbgroup/core.py:266-273 | a non-int raises ValueError and changes nothing; an accepted lock is flushed; a rejected one closes the session and raises X11Error |
| Session.XKeyboard.SymbolRequest | xkbgroup/core.py:310-313 | a selected group comes from a str value and a held description through the symbol lookup |
| Session.XKeyboard.NameRequest | xkbgroup/core.py:288-292 | a selected group comes from a str value and a held description through the name lookup |
| Session.XKeyboard.SetGroupSymbol | xkbgroup/core.py:308-315 | a bad or unknown symbol raises and changes nothing; otherwise the group is locked, and on success the getter reads the symbol back |
| Session.XKeyboard.SetGroupName | xkbgroup/core.py:286-294 | a bad or unknown name raises and changes nothing; otherwise the group is locked, and on success the getter reads the name back |

## Left out

- The Xlib/XKB calls through ctypes are not executed. Their results are parameters
  (`OpenReplies`, the `accepted` flag of `XkbLockGroup`, the atom table standing in
  for `XGetAtomName`), and the calls are recorded in a log.
- The bindings module `xkbgroup/xkb.py` is not part of this model. Its constants
  (XkbNumKbdGroups, the status codes, the XkbOD_* reasons) are copied from the
  X11 and XKB headers into xkb.dfy.
- The `group_num` getter (core.py:254-264) asks the server for its state. The current
  group is therefore an input of the getters (`GroupSymbol`, `GroupVariant`,
  `GroupNameByNum`, `GroupDataOf`). `GroupDataOf` reads it once, while `group_data`
  queries the server four times.
- `_Compat_SRE_Pattern` and the Python version switch (core.py:368-385) are not
  modelled: only full-match semantics is.
- Unicode `\w`, `\d` and `bytes.decode` are not modelled. Word characters are ASCII
  letters, digits and `_`, and digits are ASCII.
- `print_xkeyboard`, `test` and `__main__` (core.py:414-437) are left out, because
  they only print and demonstrate.
- `__del__`, `__enter__` and `__exit__` (core.py:166-174) only call `close_display`
  or `open_display`. `XKeyboard(auto_open=True)` is the constructor followed by
  `OpenDisplay`.
- The message texts of the error tables and of X11Error (core.py:30-51) are left out.
  Only the kind of error is kept.
- The controls and names pointers inside the description are an `Option`, `None`
  standing for NULL. Dereferencing a NULL one fails with ValueError, which is how
  ctypes reports a NULL pointer access. `GroupsCountOf` reads the `ctrls is not None`
  test at core.py:200 as a NULL test; the code as written is `GroupsCountAsWritten`.
- Session.XKeyboard.SetGroupNum: the conversion of the group to a C `int` on the call
  to `XkbLockGroup` is not modelled. The logged group is the unbounded Python integer.
- An atom the server does not know would trigger Xlib's default error handler
  (BadAtom), which ends the process. That case is not modelled: an atom missing from
  the table stands for a NULL reply.
- Symbols.Parse: under `python -O` the duplicate check at core.py:406 is stripped and
  records with a shared index are returned. The model always keeps the check and
  fails with AssertionError.
- Symbols.DecimalValue: `int(index)` at core.py:395 raises ValueError for a string of
  more than 4300 digits, Python's default limit on integer conversion. The model
  converts digit strings of any length.
- Session.XKeyboard.SetGroupNum: after a failed `XkbOpenDisplay`, `_display` holds
  NULL, and the setter passes it to `XkbLockGroup` (core.py:269), which crashes in
  Xlib. The model lets the `accepted` parameter answer for that call as for any other.

## Findings

| source | as written | input that shows it | evidently intended | confidence | as-written member | corrected member |
|---|---|---|---|---|---|---|
| xkbgroup/core.py:200-201 | `ctrls is not None` on a ctypes pointer field is always true, so the scan of the name slots is unreachable and NULL controls raise ValueError on `.contents` | a description whose `ctrls` is NULL and whose `names` is set: `GroupsCountFallbackDead` | a NULL test on `ctrls` that falls back to the scan | not executed | Queries.GroupsCountAsWritten | Queries.GroupsCountOf |

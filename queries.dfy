/** The read-only properties of the keyboard class, and the reverse lookups of its
    setters, over one snapshot of the keyboard description that the server filled
    in and of the server's atom names. */
module Queries {
  import opened Errors
  import opened Xkb
  import opened Symbols
  import PyDict

  // ---------------------------------------------------------------------------
  // The keyboard description

  /** `XkbControlsRec`, of which only `num_groups` is read. */
  datatype Controls = Controls(numGroups: nat)

  /** The fixed array `groups[XkbNumKbdGroups]` of group-name atoms. */
  type GroupAtoms = s: seq<Atom> | |s| == NumKbdGroups witness [0, 0, 0, 0]

  /** `XkbNamesRec`: the atom of the symbols string and the group-name atoms. */
  datatype Names = Names(symbols: Atom, groups: GroupAtoms)

  /** `XkbDescRec` as the keyboard class reads it: its `ctrls` and `names`
      pointers, either of which may be missing. */
  datatype KeyboardDescription = KeyboardDescription(ctrls: Option<Controls>, names: Option<Names>)

  /** What `XGetAtomName` answers: the name of every atom the server knows. An atom
      outside the table gets a NULL reply. */
  type AtomTable = map<Atom, string>

  // ---------------------------------------------------------------------------
  // groups_count

  /** `n` is where the scan of the group-name slots stops: every slot below `n` is
      set, and the slot at `n` is None_ unless the scan reached the cap. */
  predicate IsScanCount(groups: GroupAtoms, n: int) {
    && 0 <= n <= NumKbdGroups
    && (forall i :: 0 <= i < n ==> groups[i] != NoneAtom)
    && (n < NumKbdGroups ==> groups[n] == NoneAtom)
  }

  /** The scan continued from slot `i`, all slots below which are set. */
  function ScanFrom(groups: GroupAtoms, i: nat): (n: nat)
    requires i <= NumKbdGroups
    requires forall j :: 0 <= j < i ==> groups[j] != NoneAtom
    ensures IsScanCount(groups, n)
    decreases NumKbdGroups - i
  {
    if i < NumKbdGroups && groups[i] != NoneAtom then ScanFrom(groups, i + 1) else i
  }

  /** The scan stops at one place only. */
  lemma ScanCountUnique(groups: GroupAtoms, n: int, m: int)
    requires IsScanCount(groups, n) && IsScanCount(groups, m)
    ensures n == m
  {
  }

  /** `groups_count` as a function, reading `ctrls is not None` as a NULL test:
      `num_groups` when the controls are present, otherwise the scan of the
      group-name slots, which dereferences `names`. The rest of the model uses this
      reading; `GroupsCountAsWritten` below is the test as the code evaluates it. */
  function GroupsCountOf(desc: KeyboardDescription): Result<nat> {
    match desc.ctrls
    case Some(c) => Ok(c.numGroups)
    case None =>
      match desc.names
      case None => Err(NullPointerAccess)
      case Some(names) => Ok(ScanFrom(names.groups, 0))
  }

  /** `groups_count` as written: `ctrls is not None` tests a ctypes pointer field,
      which reads back as a pointer object even when it is NULL, so the test always
      holds; a NULL `ctrls` is then dereferenced and fails with ValueError. */
  function GroupsCountAsWritten(desc: KeyboardDescription): Result<nat> {
    match desc.ctrls
    case Some(c) => Ok(c.numGroups)
    case None => Err(NullPointerAccess)
  }

  /** The scan of the group-name slots is unreachable as written: without controls
      the source fails with ValueError where the intended count scans the slots. */
  lemma GroupsCountFallbackDead(desc: KeyboardDescription)
    requires desc.ctrls.None? && desc.names.Some?
    ensures GroupsCountAsWritten(desc) == Err(NullPointerAccess) && NullPointerAccess.Class() == ValueError
    ensures GroupsCountOf(desc) == Ok(ScanFrom(desc.names.value.groups, 0))
    ensures GroupsCountAsWritten(desc) != GroupsCountOf(desc)
  {
  }

  /** With controls present both readings agree. */
  lemma GroupsCountAsWrittenAgrees(desc: KeyboardDescription)
    requires desc.ctrls.Some?
    ensures GroupsCountAsWritten(desc) == GroupsCountOf(desc) == Ok(desc.ctrls.value.numGroups)
  {
  }

  /** The properties of the count: `num_groups` unchanged when the controls are
      present; otherwise at most XkbNumKbdGroups, every slot below it set, and the
      slot at it None_ when it is below the cap. */
  lemma GroupsCountSpec(desc: KeyboardDescription)
    ensures desc.ctrls.Some? ==> GroupsCountOf(desc) == Ok(desc.ctrls.value.numGroups)
    ensures desc.ctrls.None? && desc.names.None? ==> GroupsCountOf(desc) == Err(NullPointerAccess)
    ensures desc.ctrls.None? && desc.names.Some? ==>
              GroupsCountOf(desc).Ok? && IsScanCount(desc.names.value.groups, GroupsCountOf(desc).value)
  {
  }

  /** `groups_count` as the source runs it: a counter advanced in a while loop. */
  method GroupsCount(desc: KeyboardDescription) returns (r: Result<nat>)
    ensures r == GroupsCountOf(desc)
  {
    if desc.ctrls.Some? {
      return Ok(desc.ctrls.value.numGroups);
    }
    if desc.names.None? {
      return Err(NullPointerAccess);
    }
    var groupsSource := desc.names.value.groups;
    var groupsCount := 0;
    while groupsCount < NumKbdGroups && groupsSource[groupsCount] != NoneAtom
      invariant 0 <= groupsCount <= NumKbdGroups
      invariant forall i :: 0 <= i < groupsCount ==> groupsSource[i] != NoneAtom
      decreases NumKbdGroups - groupsCount
    {
      groupsCount := groupsCount + 1;
    }
    ScanCountUnique(groupsSource, groupsCount, ScanFrom(groupsSource, 0));
    return Ok(groupsCount);
  }

  // ---------------------------------------------------------------------------
  // Group names

  /** Subscripting a ctypes array of length `len`: a negative index counts from
      the end, and an index outside the array raises IndexError. */
  function ArrayIndex(i: int, len: nat): (r: Result<nat>)
    ensures r.Ok? <==> -(len as int) <= i < len
    ensures r.Ok? ==> r.value < len && (if i < 0 then r.value == i + len else r.value == i)
    ensures r.Err? ==> r.error == IndexOutOfRange(i)
  {
    if 0 <= i < len then Ok(i)
    else if -(len as int) <= i < 0 then Ok(i + len)
    else Err(IndexOutOfRange(i))
  }

  /** `_get_group_name_by_num(group_num)`: the name of the atom in the group's
      slot; a None_ atom raises X11Error and a NULL reply gives "". */
  function GroupNameByNum(desc: KeyboardDescription, atoms: AtomTable, groupNum: int): Result<string> {
    match desc.names
    case None => Err(NullPointerAccess)
    case Some(names) =>
      match ArrayIndex(groupNum, NumKbdGroups)
      case Err(e) => Err(e)
      case Ok(slot) =>
        var atom := names.groups[slot];
        if atom == NoneAtom then Err(NoGroupName)
        else if atom in atoms then Ok(atoms[atom])
        else Ok("")
  }

  /** A group number from -4 to -1 names the same slot as that number plus 4; any
      other number outside 0..3 raises IndexError, a None_ slot raises X11Error,
      and a description without names fails on the NULL pointer. */
  lemma GroupNameByNumSpec(desc: KeyboardDescription, atoms: AtomTable, groupNum: int)
    ensures -(NumKbdGroups as int) <= groupNum < 0 ==>
              GroupNameByNum(desc, atoms, groupNum) == GroupNameByNum(desc, atoms, groupNum + NumKbdGroups)
    ensures desc.names.Some? && !(-(NumKbdGroups as int) <= groupNum < NumKbdGroups) ==>
              GroupNameByNum(desc, atoms, groupNum) == Err(IndexOutOfRange(groupNum)) &&
              IndexOutOfRange(groupNum).Class() == IndexError
    ensures desc.names.Some? && 0 <= groupNum < NumKbdGroups && desc.names.value.groups[groupNum] == NoneAtom ==>
              GroupNameByNum(desc, atoms, groupNum) == Err(NoGroupName) && NoGroupName.Class() == X11Error
    ensures desc.names.Some? && 0 <= groupNum < NumKbdGroups && desc.names.value.groups[groupNum] != NoneAtom ==>
              GroupNameByNum(desc, atoms, groupNum).Ok?
    ensures desc.names.None? ==> GroupNameByNum(desc, atoms, groupNum) == Err(NullPointerAccess)
  {
  }

  /** `[_get_group_name_by_num(i) for i in range(n)]`: the first failing slot raises. */
  function NamesUpTo(desc: KeyboardDescription, atoms: AtomTable, n: nat): (r: Result<seq<string>>)
    ensures r.Ok? ==> |r.value| == n && forall i :: 0 <= i < n ==> GroupNameByNum(desc, atoms, i) == Ok(r.value[i])
    ensures r.Err? ==> exists i :: 0 <= i < n && GroupNameByNum(desc, atoms, i) == Err(r.error)
  {
    if n == 0 then Ok([])
    else
      match NamesUpTo(desc, atoms, n - 1)
      case Err(e) => Err(e)
      case Ok(names) =>
        match GroupNameByNum(desc, atoms, n - 1)
        case Err(e) => Err(e)
        case Ok(name) => Ok(names + [name])
  }

  /** `groups_names` */
  function GroupsNames(desc: KeyboardDescription, atoms: AtomTable): Result<seq<string>> {
    match GroupsCountOf(desc)
    case Err(e) => Err(e)
    case Ok(n) => NamesUpTo(desc, atoms, n)
  }

  /** The group names are the names of the slots below the count, in slot order;
      they fail only when the count or one of those slots fails. */
  lemma GroupsNamesSpec(desc: KeyboardDescription, atoms: AtomTable)
    ensures GroupsNames(desc, atoms).Ok? <==>
            GroupsCountOf(desc).Ok? &&
            forall i :: 0 <= i < GroupsCountOf(desc).value ==> GroupNameByNum(desc, atoms, i).Ok?
    ensures GroupsNames(desc, atoms).Ok? ==>
            |GroupsNames(desc, atoms).value| == GroupsCountOf(desc).value &&
            forall i :: 0 <= i < GroupsCountOf(desc).value ==>
              GroupNameByNum(desc, atoms, i) == Ok(GroupsNames(desc, atoms).value[i])
  {
    if GroupsCountOf(desc).Ok? {
      var n := GroupsCountOf(desc).value;
      if forall i :: 0 <= i < n ==> GroupNameByNum(desc, atoms, i).Ok? {
        NamesUpToOk(desc, atoms, n);
      }
    }
  }

  /** The names up to `n` fail only if some slot below `n` fails. */
  lemma {:induction false} NamesUpToOk(desc: KeyboardDescription, atoms: AtomTable, n: nat)
    requires forall i :: 0 <= i < n ==> GroupNameByNum(desc, atoms, i).Ok?
    ensures NamesUpTo(desc, atoms, n).Ok?
  {
    if n > 0 {
      NamesUpToOk(desc, atoms, n - 1);
    }
  }

  // ---------------------------------------------------------------------------
  // Symbol records

  /** `_symboldata_list`: the symbols string named by the symbols atom, parsed with
      the non-symbols "pc", "inet" and "group" and default index 0. A None_ atom
      raises X11Error; a NULL reply fails on `.decode`. */
  function SymbolDataList(desc: KeyboardDescription, atoms: AtomTable): Result<seq<SymbolData>> {
    match desc.names
    case None => Err(NullPointerAccess)
    case Some(names) =>
      if names.symbols == NoneAtom then Err(NoSymbolNames)
      else if names.symbols !in atoms then Err(AtomNameNull)
      else Parse(atoms[names.symbols], NonSymbols, 0)
  }

  /** `symdata.variant or ""` */
  function VariantText(variant: Option<string>): string {
    match variant
    case None => ""
    case Some(v) => v
  }

  /** `groups_symbols` */
  function GroupsSymbols(desc: KeyboardDescription, atoms: AtomTable): Result<seq<string>> {
    match SymbolDataList(desc, atoms)
    case Err(e) => Err(e)
    case Ok(records) => Ok(seq(|records|, i requires 0 <= i < |records| => records[i].symbol))
  }

  /** `groups_variants` */
  function GroupsVariants(desc: KeyboardDescription, atoms: AtomTable): Result<seq<string>> {
    match SymbolDataList(desc, atoms)
    case Err(e) => Err(e)
    case Ok(records) => Ok(seq(|records|, i requires 0 <= i < |records| => VariantText(records[i].variant)))
  }

  /** The symbol list has one entry per retained record, in order: a non-empty
      symbol that is not one of the non-symbols. */
  lemma GroupsSymbolsSpec(desc: KeyboardDescription, atoms: AtomTable)
    ensures GroupsSymbols(desc, atoms).Err? <==> SymbolDataList(desc, atoms).Err?
    ensures GroupsSymbols(desc, atoms).Ok? ==>
              var records := SymbolDataList(desc, atoms).value;
              var symbols := GroupsSymbols(desc, atoms).value;
              |symbols| == |records| &&
              forall i :: 0 <= i < |symbols| ==>
                symbols[i] == records[i].symbol && |symbols[i]| > 0 && symbols[i] !in NonSymbols
  {
    if SymbolDataList(desc, atoms).Ok? {
      RecordsFacts(desc, atoms, SymbolDataList(desc, atoms).value);
    }
  }

  /** The variant list has one entry per retained record, in order: "" exactly for
      a record without a variant, and the variant otherwise. */
  lemma GroupsVariantsSpec(desc: KeyboardDescription, atoms: AtomTable)
    ensures GroupsVariants(desc, atoms).Err? <==> SymbolDataList(desc, atoms).Err?
    ensures GroupsVariants(desc, atoms).Ok? ==>
              var records := SymbolDataList(desc, atoms).value;
              var variants := GroupsVariants(desc, atoms).value;
              |variants| == |records| &&
              forall i :: 0 <= i < |variants| ==>
                (variants[i] == "" <==> records[i].variant.None?) &&
                (records[i].variant.Some? ==> variants[i] == records[i].variant.value)
  {
    if SymbolDataList(desc, atoms).Ok? {
      RecordsFacts(desc, atoms, SymbolDataList(desc, atoms).value);
    }
  }

  /** What the parser guarantees of the records: non-empty symbols and variants
      outside the non-symbols, and pairwise distinct indices. */
  lemma RecordsFacts(desc: KeyboardDescription, atoms: AtomTable, records: seq<SymbolData>)
    requires SymbolDataList(desc, atoms) == Ok(records)
    ensures forall k :: 0 <= k < |records| ==>
              |records[k].symbol| > 0 && records[k].symbol !in NonSymbols &&
              (records[k].variant.Some? ==> |records[k].variant.value| > 0)
    ensures forall i, j :: 0 <= i < j < |records| ==> records[i].index != records[j].index
  {
    var text := atoms[desc.names.value.symbols];
    ParseRecords(text, NonSymbols, 0, records);
    ParseIndicesDistinct(text, NonSymbols, 0, records);
    TokenResultsWords(Split(text, Separator), 0);
  }

  // ---------------------------------------------------------------------------
  // The dicts keyed by index, symbol and name

  /** `{symdata.index: symdata.symbol for symdata in records}` as its list of pairs. */
  function IndexSymbolPairs(records: seq<SymbolData>): seq<(int, string)> {
    seq(|records|, k requires 0 <= k < |records| => (records[k].index, records[k].symbol))
  }

  /** `{symdata.index: symdata.variant for symdata in records}` as its list of pairs. */
  function IndexVariantPairs(records: seq<SymbolData>): seq<(int, Option<string>)> {
    seq(|records|, k requires 0 <= k < |records| => (records[k].index, records[k].variant))
  }

  /** `{symdata.symbol: symdata.index for symdata in records}` as its list of pairs. */
  function SymbolIndexPairs(records: seq<SymbolData>): seq<(string, int)> {
    seq(|records|, k requires 0 <= k < |records| => (records[k].symbol, records[k].index))
  }

  /** `{groups_names[i]: i for i in range(len(groups_names))}` as its list of pairs. */
  function NameNumPairs(names: seq<string>): seq<(string, int)> {
    seq(|names|, i requires 0 <= i < |names| => (names[i], i))
  }

  // ---------------------------------------------------------------------------
  // Getters of the current group

  /** The `group_symbol` getter, for the current group number `groupNum`. */
  function GroupSymbol(desc: KeyboardDescription, atoms: AtomTable, groupNum: int): Result<string> {
    match SymbolDataList(desc, atoms)
    case Err(e) => Err(e)
    case Ok(records) =>
      var mapping := PyDict.FromPairs(IndexSymbolPairs(records));
      if groupNum in mapping then Ok(mapping[groupNum]) else Err(MissingKey(groupNum))
  }

  /** The `group_variant` getter, for the current group number `groupNum`. */
  function GroupVariant(desc: KeyboardDescription, atoms: AtomTable, groupNum: int): Result<string> {
    match SymbolDataList(desc, atoms)
    case Err(e) => Err(e)
    case Ok(records) =>
      var mapping := PyDict.FromPairs(IndexVariantPairs(records));
      if groupNum in mapping then Ok(VariantText(mapping[groupNum])) else Err(MissingKey(groupNum))
  }

  /** The record whose index is `groupNum` gives the symbol of the group; when no
      record has that index the lookup raises KeyError. */
  lemma GroupSymbolSpec(desc: KeyboardDescription, atoms: AtomTable, records: seq<SymbolData>, groupNum: int)
    requires SymbolDataList(desc, atoms) == Ok(records)
    ensures forall k :: 0 <= k < |records| && records[k].index == groupNum ==>
              GroupSymbol(desc, atoms, groupNum) == Ok(records[k].symbol)
    ensures (forall k :: 0 <= k < |records| ==> records[k].index != groupNum) ==>
              GroupSymbol(desc, atoms, groupNum) == Err(MissingKey(groupNum))
  {
    RecordsFacts(desc, atoms, records);
    var ps := IndexSymbolPairs(records);
    forall k | 0 <= k < |records| && records[k].index == groupNum
      ensures GroupSymbol(desc, atoms, groupNum) == Ok(records[k].symbol)
    {
      PyDict.FromPairsLastWins(ps, k);
    }
    if forall k :: 0 <= k < |records| ==> records[k].index != groupNum {
      assert forall k :: 0 <= k < |ps| ==> ps[k].0 != groupNum;
    }
  }

  /** The record whose index is `groupNum` gives the variant of the group, "" when
      it has none; when no record has that index the lookup raises KeyError. */
  lemma GroupVariantSpec(desc: KeyboardDescription, atoms: AtomTable, records: seq<SymbolData>, groupNum: int)
    requires SymbolDataList(desc, atoms) == Ok(records)
    ensures forall k :: 0 <= k < |records| && records[k].index == groupNum ==>
              GroupVariant(desc, atoms, groupNum) == Ok(VariantText(records[k].variant)) &&
              (GroupVariant(desc, atoms, groupNum) == Ok("") <==> records[k].variant.None?)
    ensures (forall k :: 0 <= k < |records| ==> records[k].index != groupNum) ==>
              GroupVariant(desc, atoms, groupNum) == Err(MissingKey(groupNum))
  {
    RecordsFacts(desc, atoms, records);
    var ps := IndexVariantPairs(records);
    forall k | 0 <= k < |records| && records[k].index == groupNum
      ensures GroupVariant(desc, atoms, groupNum) == Ok(VariantText(records[k].variant))
    {
      PyDict.FromPairsLastWins(ps, k);
    }
    if forall k :: 0 <= k < |records| ==> records[k].index != groupNum {
      assert forall k :: 0 <= k < |ps| ==> ps[k].0 != groupNum;
    }
  }

  // ---------------------------------------------------------------------------
  // Reverse lookups of the setters

  /** The group number the `group_symbol` setter locks for symbol `symbol`; an
      unknown symbol raises ValueError. */
  function SymbolTarget(desc: KeyboardDescription, atoms: AtomTable, symbol: string): Result<int> {
    match SymbolDataList(desc, atoms)
    case Err(e) => Err(e)
    case Ok(records) =>
      var mapping := PyDict.FromPairs(SymbolIndexPairs(records));
      if symbol in mapping then Ok(mapping[symbol]) else Err(WrongGroupSymbol)
  }

  /** The group number the `group_name` setter locks for name `name`; an unknown
      name raises ValueError. */
  function NameTarget(desc: KeyboardDescription, atoms: AtomTable, name: string): Result<int> {
    match GroupsNames(desc, atoms)
    case Err(e) => Err(e)
    case Ok(names) =>
      var mapping := PyDict.FromPairs(NameNumPairs(names));
      if name in mapping then Ok(mapping[name]) else Err(WrongGroupName)
  }

  /** The dict from symbols to indices holds exactly the symbols of the records,
      each mapped to the index of the LAST record carrying it. */
  lemma SymbolIndexLookup(records: seq<SymbolData>, symbol: string)
    ensures symbol in PyDict.FromPairs(SymbolIndexPairs(records)) <==>
            exists k :: 0 <= k < |records| && records[k].symbol == symbol
    ensures forall k :: 0 <= k < |records| && records[k].symbol == symbol &&
                        (forall j :: k < j < |records| ==> records[j].symbol != symbol) ==>
              symbol in PyDict.FromPairs(SymbolIndexPairs(records)) &&
              PyDict.FromPairs(SymbolIndexPairs(records))[symbol] == records[k].index
  {
    var ps := SymbolIndexPairs(records);
    assert forall j :: 0 <= j < |ps| ==> ps[j] == (records[j].symbol, records[j].index);
    forall k | 0 <= k < |records| && records[k].symbol == symbol &&
               (forall j :: k < j < |records| ==> records[j].symbol != symbol)
      ensures symbol in PyDict.FromPairs(ps) && PyDict.FromPairs(ps)[symbol] == records[k].index
    {
      PyDict.FromPairsLastWins(ps, k);
    }
    if symbol in PyDict.FromPairs(ps) {
      var k :| 0 <= k < |ps| && ps[k].0 == symbol;
      assert records[k].symbol == symbol;
    }
  }

  /** The dict from names to positions holds exactly the names, each mapped to the
      LAST position holding it. */
  lemma NameNumLookup(names: seq<string>, name: string)
    ensures name in PyDict.FromPairs(NameNumPairs(names)) <==> name in names
    ensures name in PyDict.FromPairs(NameNumPairs(names)) ==>
              var i := PyDict.FromPairs(NameNumPairs(names))[name];
              0 <= i < |names| && names[i] == name && forall j :: i < j < |names| ==> names[j] != name
  {
    var ps := NameNumPairs(names);
    var mapping := PyDict.FromPairs(ps);
    if name in names {
      var k :| 0 <= k < |names| && names[k] == name;
      assert ps[k].0 == name;
    }
    if name in mapping {
      PyDict.FromPairsEntry(ps, name);
      var i :| 0 <= i < |ps| && ps[i] == (name, mapping[name]) && forall j :: i < j < |ps| ==> ps[j].0 != name;
      assert mapping[name] == i;
      forall j | i < j < |names| ensures names[j] != name {
        assert ps[j].0 == names[j];
      }
    }
  }

  /** The symbol lookup fails exactly for a symbol no record carries; otherwise it
      gives the index of the LAST record carrying the symbol. */
  lemma SymbolTargetSpec(desc: KeyboardDescription, atoms: AtomTable, records: seq<SymbolData>, symbol: string)
    requires SymbolDataList(desc, atoms) == Ok(records)
    ensures SymbolTarget(desc, atoms, symbol).Err? <==> forall k :: 0 <= k < |records| ==> records[k].symbol != symbol
    ensures SymbolTarget(desc, atoms, symbol).Err? ==> SymbolTarget(desc, atoms, symbol) == Err(WrongGroupSymbol)
    ensures forall k :: 0 <= k < |records| && records[k].symbol == symbol &&
                        (forall j :: k < j < |records| ==> records[j].symbol != symbol) ==>
              SymbolTarget(desc, atoms, symbol) == Ok(records[k].index)
  {
    SymbolIndexLookup(records, symbol);
  }

  /** The name lookup fails exactly for a name that is not among the group names;
      otherwise it gives the LAST position holding the name. */
  lemma NameTargetSpec(desc: KeyboardDescription, atoms: AtomTable, names: seq<string>, name: string)
    requires GroupsNames(desc, atoms) == Ok(names)
    ensures NameTarget(desc, atoms, name).Err? <==> name !in names
    ensures NameTarget(desc, atoms, name).Err? ==> NameTarget(desc, atoms, name) == Err(WrongGroupName)
    ensures NameTarget(desc, atoms, name).Ok? ==>
              var i := NameTarget(desc, atoms, name).value;
              0 <= i < |names| && names[i] == name && forall j :: i < j < |names| ==> names[j] != name
  {
    NameNumLookup(names, name);
  }

  /** Round trip: the group the `group_symbol` setter selects for a symbol reads
      back that symbol through the getter. */
  lemma SymbolRoundTrip(desc: KeyboardDescription, atoms: AtomTable, symbol: string, groupNum: int)
    requires SymbolTarget(desc, atoms, symbol) == Ok(groupNum)
    ensures GroupSymbol(desc, atoms, groupNum) == Ok(symbol)
  {
    var records := SymbolDataList(desc, atoms).value;
    var ps := SymbolIndexPairs(records);
    PyDict.FromPairsEntry(ps, symbol);
    var k :| 0 <= k < |ps| && ps[k] == (symbol, groupNum);
    GroupSymbolSpec(desc, atoms, records, groupNum);
  }

  /** Round trip: the group the `group_name` setter selects for a name reads back
      that name through the getter. */
  lemma NameRoundTrip(desc: KeyboardDescription, atoms: AtomTable, name: string, groupNum: int)
    requires NameTarget(desc, atoms, name) == Ok(groupNum)
    ensures GroupNameByNum(desc, atoms, groupNum) == Ok(name)
  {
    var names := GroupsNames(desc, atoms).value;
    NameTargetSpec(desc, atoms, names, name);
    GroupsNamesSpec(desc, atoms);
  }

  // ---------------------------------------------------------------------------
  // groups_data and group_data

  /** `GroupData(num, name, symbol, variant)` */
  datatype GroupData = GroupData(num: int, name: string, symbol: string, variant: string)

  function Min(a: nat, b: nat): nat {
    if a <= b then a else b
  }

  /** `groups_data`: `zip(range(groups_count), groups_names, groups_symbols,
      groups_variants)`, which stops at the shortest list. */
  function GroupsData(desc: KeyboardDescription, atoms: AtomTable): Result<seq<GroupData>> {
    match GroupsCountOf(desc)
    case Err(e) => Err(e)
    case Ok(count) =>
      match GroupsNames(desc, atoms)
      case Err(e) => Err(e)
      case Ok(names) =>
        match GroupsSymbols(desc, atoms)
        case Err(e) => Err(e)
        case Ok(symbols) =>
          match GroupsVariants(desc, atoms)
          case Err(e) => Err(e)
          case Ok(variants) =>
            var len := Min(Min(count, |names|), Min(|symbols|, |variants|));
            Ok(seq(len, i requires 0 <= i < len => GroupData(i, names[i], symbols[i], variants[i])))
  }

  /** `groups_data` pairs by position: entry i has number i, the name of slot i and
      the symbol and variant of the i-th retained record, whatever that record's
      index; it is as long as the shorter of the group count and the records. */
  lemma GroupsDataSpec(desc: KeyboardDescription, atoms: AtomTable)
    ensures GroupsData(desc, atoms).Ok? <==> GroupsNames(desc, atoms).Ok? && SymbolDataList(desc, atoms).Ok?
    ensures GroupsData(desc, atoms).Ok? ==>
              var data := GroupsData(desc, atoms).value;
              var records := SymbolDataList(desc, atoms).value;
              |data| == Min(GroupsCountOf(desc).value, |records|) &&
              forall i :: 0 <= i < |data| ==>
                && data[i].num == i
                && GroupNameByNum(desc, atoms, i) == Ok(data[i].name)
                && data[i].symbol == records[i].symbol
                && data[i].variant == VariantText(records[i].variant)
  {
    GroupsNamesSpec(desc, atoms);
  }

  /** `group_data` for the current group number `groupNum`: its number, name,
      symbol and variant, read in that order. */
  function GroupDataOf(desc: KeyboardDescription, atoms: AtomTable, groupNum: int): Result<GroupData> {
    match GroupNameByNum(desc, atoms, groupNum)
    case Err(e) => Err(e)
    case Ok(name) =>
      match GroupSymbol(desc, atoms, groupNum)
      case Err(e) => Err(e)
      case Ok(symbol) =>
        match GroupVariant(desc, atoms, groupNum)
        case Err(e) => Err(e)
        case Ok(variant) => Ok(GroupData(groupNum, name, symbol, variant))
  }

  /** `group_data` agrees with entry `g` of `groups_data` when the g-th retained
      record carries index g. */
  lemma GroupDataAgrees(desc: KeyboardDescription, atoms: AtomTable, g: nat)
    requires GroupsData(desc, atoms).Ok? && g < |GroupsData(desc, atoms).value|
    requires SymbolDataList(desc, atoms).value[g].index == g
    ensures GroupDataOf(desc, atoms, g) == Ok(GroupsData(desc, atoms).value[g])
  {
    GroupsDataSpec(desc, atoms);
    var records := SymbolDataList(desc, atoms).value;
    GroupSymbolSpec(desc, atoms, records, g);
    GroupVariantSpec(desc, atoms, records, g);
  }
}

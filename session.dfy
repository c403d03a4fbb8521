/** The `XKeyboard` object: the handles it holds, the X requests it sends and the
    exceptions it raises. Every answer of the X server is a parameter. */
module Session {
  import opened Errors
  import opened Xkb
  import opened PyValues
  import opened Queries

  /** A C pointer as ctypes hands it over; address 0 is NULL, which is falsy. */
  type Pointer = nat
  const Null: Pointer := 0

  /** The keyboard description handle: the pointer XkbGetMap returned and the
      record it points to, which XkbGetControls and XkbGetNames fill in. */
  datatype DescriptionHandle = DescriptionHandle(ptr: Pointer, contents: KeyboardDescription)

  /** The X library calls the object makes, in the order it makes them. */
  datatype XRequest =
    | XkbIgnoreExtension
    | XkbOpenDisplay
    | XkbGetMap
    | XkbGetControls
    | XkbGetNames
    | XkbFreeNames
    | XkbFreeControls
    | XkbFreeClientMap
    | XCloseDisplay
    | XkbLockGroup(group: int)
    | XFlush

  /** The server's answers to the calls of `open_display`. */
  datatype OpenReplies = OpenReplies(
    display: Pointer,       // the display XkbOpenDisplay returns
    reason: int,            // the reason XkbOpenDisplay reports
    description: Pointer,   // the description XkbGetMap returns
    controlsStatus: int,    // the status XkbGetControls returns
    controls: Controls,     // the controls it fills in on success
    namesStatus: int,       // the status XkbGetNames returns
    names: Names)           // the names it fills in on success

  /** The keys of the message tables OPEN_DISPLAY_ERRORS, GET_CONTROLS_ERRORS and
      GET_NAMES_ERRORS. */
  const OpenDisplayErrors: set<int> :=
    {XkbOD_BadLibraryVersion, XkbOD_ConnectionRefused, XkbOD_BadServerVersion, XkbOD_NonXkbServer}
  const GetControlsErrors: set<int> := {BadAlloc, BadImplementation, BadMatch}
  const GetNamesErrors: set<int> := {BadAlloc, BadImplementation, BadLength, BadMatch}

  /** The calls with which `close_display` releases a held description. */
  const FreeRequests: seq<XRequest> := [XkbFreeNames, XkbFreeControls, XkbFreeClientMap]

  /** `GET_CONTROLS_ERRORS[status]`: a status missing from the table raises KeyError. */
  function ControlsError(status: int): (e: Error)
    ensures e.Class() == (if status in GetControlsErrors then X11Error else KeyError)
  {
    if status in GetControlsErrors then GetControlsFailed(status) else UnknownStatus(status)
  }

  /** `GET_NAMES_ERRORS[status]`: a status missing from the table raises KeyError. */
  function NamesError(status: int): (e: Error)
    ensures e.Class() == (if status in GetNamesErrors then X11Error else KeyError)
  {
    if status in GetNamesErrors then GetNamesFailed(status) else UnknownStatus(status)
  }

  /** The calls `open_display` makes after its initial `close_display`: it stops at
      the first failing step, and frees the description when the controls or the
      names cannot be fetched. */
  function OpenRequests(replies: OpenReplies): seq<XRequest> {
    var steps :=
      if replies.reason in OpenDisplayErrors then []
      else if replies.description == Null then [XkbGetMap]
      else if replies.controlsStatus != Success then [XkbGetMap, XkbGetControls] + FreeRequests
      else if replies.namesStatus != Success then [XkbGetMap, XkbGetControls, XkbGetNames] + FreeRequests
      else [XkbGetMap, XkbGetControls, XkbGetNames];
    [XkbIgnoreExtension, XkbOpenDisplay] + steps
  }

  /** The exception `open_display` raises, if any. */
  function OpenOutcome(replies: OpenReplies): Outcome {
    if replies.reason in OpenDisplayErrors then Fail(OpenDisplayFailed(replies.reason))
    else if replies.description == Null then Fail(NoKeyboardDescription)
    else if replies.controlsStatus != Success then Fail(ControlsError(replies.controlsStatus))
    else if replies.namesStatus != Success then Fail(NamesError(replies.namesStatus))
    else Pass
  }

  /** `open_display` succeeds exactly when all four steps do. Every failure after
      the display step releases the description it fetched; the display itself is
      never closed. */
  lemma OpenProtocol(replies: OpenReplies)
    ensures OpenOutcome(replies).Pass? <==>
            replies.reason !in OpenDisplayErrors && replies.description != Null &&
            replies.controlsStatus == Success && replies.namesStatus == Success
    ensures OpenOutcome(replies).Fail? && replies.reason !in OpenDisplayErrors && replies.description != Null ==>
              |OpenRequests(replies)| >= 3 &&
              OpenRequests(replies)[|OpenRequests(replies)| - 3..] == FreeRequests
    ensures XCloseDisplay !in OpenRequests(replies)
    ensures OpenRequests(replies)[..2] == [XkbIgnoreExtension, XkbOpenDisplay]
  {
  }

  class XKeyboard {
    /** `_display`: None while the attribute is unset. */
    var display: Option<Pointer>
    /** `_keyboard_description`: None while the attribute is unset. */
    var keyboardDescription: Option<DescriptionHandle>
    /** The X library calls made so far. */
    var requests: seq<XRequest>

    /** The description is only ever set after the display. */
    predicate Valid()
      reads this
    {
      keyboardDescription.Some? ==> display.Some?
    }

    /** `hasattr(self, "_keyboard_description") and self._keyboard_description` */
    predicate Holds()
      reads this
    {
      keyboardDescription.Some? && keyboardDescription.value.ptr != Null
    }

    /** `self._keyboard_description.contents`: an unset attribute raises
        AttributeError, a NULL pointer ValueError. */
    function Description(): (r: Result<KeyboardDescription>)
      reads this
      ensures r.Ok? <==> Holds()
      ensures r.Ok? ==> r.value == keyboardDescription.value.contents
      ensures keyboardDescription.None? ==> r == Err(NoAttribute)
      ensures keyboardDescription.Some? && !Holds() ==> r == Err(NullPointerAccess)
    {
      match keyboardDescription
      case None => Err(NoAttribute)
      case Some(h) => if h.ptr == Null then Err(NullPointerAccess) else Ok(h.contents)
    }

    /** `XKeyboard(auto_open=False)`; with `auto_open` the constructor goes on
        with `OpenDisplay`. */
    constructor ()
      ensures Valid() && !Holds()
      ensures display == None && keyboardDescription == None && requests == []
    {
      display := None;
      keyboardDescription := None;
      requests := [];
    }

    /** `close_display`: releases a held description and unsets the attribute;
        without a held description it does nothing. The display is neither closed
        nor unset, because the guard asks for an attribute named "display" that
        the object never has. */
    method CloseDisplay()
      requires Valid()
      modifies this
      ensures Valid() && !Holds()
      ensures display == old(display)
      ensures old(Holds()) ==> keyboardDescription == None && requests == old(requests) + FreeRequests
      ensures !old(Holds()) ==> keyboardDescription == old(keyboardDescription) && requests == old(requests)
    {
      if keyboardDescription.Some? && keyboardDescription.value.ptr != Null {
        requests := requests + FreeRequests;
        keyboardDescription := None;
      }
    }

    /** `open_display`: closes the previous session, then opens the display, gets
        the map, the controls and the names, raising at the first step that fails. */
    method OpenDisplay(replies: OpenReplies) returns (r: Outcome)
      requires Valid()
      modifies this
      ensures Valid()
      ensures r == OpenOutcome(replies)
      ensures display == Some(replies.display)
      ensures requests == old(requests) + (if old(Holds()) then FreeRequests else []) + OpenRequests(replies)
      ensures r.Pass? ==>
                keyboardDescription ==
                Some(DescriptionHandle(replies.description, KeyboardDescription(Some(replies.controls), Some(replies.names))))
      ensures r.Fail? ==> !Holds()
      ensures replies.reason in OpenDisplayErrors ==>
                keyboardDescription == (if old(Holds()) then None else old(keyboardDescription))
      ensures replies.reason !in OpenDisplayErrors && replies.description == Null ==>
                keyboardDescription == Some(DescriptionHandle(Null, KeyboardDescription(None, None)))
      ensures replies.reason !in OpenDisplayErrors && replies.description != Null && r.Fail? ==>
                keyboardDescription == None
    {
      CloseDisplay();
      ghost var closed := requests;
      assert closed == old(requests) + (if old(Holds()) then FreeRequests else []);
      requests := requests + [XkbIgnoreExtension, XkbOpenDisplay];
      display := Some(replies.display);
      if replies.reason in OpenDisplayErrors {
        assert requests == closed + OpenRequests(replies);
        return Fail(OpenDisplayFailed(replies.reason));
      }
      requests := requests + [XkbGetMap];
      keyboardDescription := Some(DescriptionHandle(replies.description, KeyboardDescription(None, None)));
      if replies.description == Null {
        CloseDisplay();
        assert requests == closed + OpenRequests(replies);
        return Fail(NoKeyboardDescription);
      }
      requests := requests + [XkbGetControls];
      if replies.controlsStatus != Success {
        CloseDisplay();
        assert requests == closed + OpenRequests(replies);
        return Fail(ControlsError(replies.controlsStatus));
      }
      keyboardDescription := Some(DescriptionHandle(replies.description, KeyboardDescription(Some(replies.controls), None)));
      requests := requests + [XkbGetNames];
      if replies.namesStatus != Success {
        CloseDisplay();
        assert requests == closed + OpenRequests(replies);
        return Fail(NamesError(replies.namesStatus));
      }
      keyboardDescription :=
        Some(DescriptionHandle(replies.description, KeyboardDescription(Some(replies.controls), Some(replies.names))));
      assert requests == closed + OpenRequests(replies);
      return Pass;
    }

    /** The `group_num` setter: the value must be an int; XkbLockGroup is sent with
        the display, and `accepted` is its answer. An accepted request is flushed;
        a rejected one closes the session and raises X11Error. */
    method SetGroupNum(value: PyValue, accepted: bool) returns (r: Outcome)
      requires Valid()
      modifies this
      ensures Valid()
      ensures EnsureInt(value).Err? ==> r == Fail(WrongType) && unchanged(this)
      ensures EnsureInt(value).Ok? && old(display).None? ==> r == Fail(NoAttribute) && unchanged(this)
      ensures EnsureInt(value).Ok? && old(display).Some? && accepted ==>
                && r == Pass
                && requests == old(requests) + [XkbLockGroup(EnsureInt(value).value), XFlush]
                && keyboardDescription == old(keyboardDescription) && display == old(display)
      ensures EnsureInt(value).Ok? && old(display).Some? && !accepted ==>
                && r == Fail(SetGroupFailed) && !Holds() && display == old(display)
                && keyboardDescription == (if old(Holds()) then None else old(keyboardDescription))
                && requests == old(requests) + [XkbLockGroup(EnsureInt(value).value)] +
                               (if old(Holds()) then FreeRequests else [])
    {
      var group := EnsureInt(value);
      if group.Err? {
        return Fail(group.error);
      }
      if display.None? {
        return Fail(NoAttribute);
      }
      requests := requests + [XkbLockGroup(group.value)];
      if accepted {
        requests := requests + [XFlush];
        return Pass;
      }
      CloseDisplay();
      return Fail(SetGroupFailed);
    }

    /** The group the `group_symbol` setter selects for `value`, or what it raises
        before it reaches `group_num`. */
    function SymbolRequest(value: PyValue, atoms: AtomTable): (r: Result<int>)
      reads this
      ensures r.Ok? ==> value.PyStr? && Holds() && SymbolTarget(Description().value, atoms, value.s) == r
    {
      match EnsureStr(value)
      case Err(e) => Err(e)
      case Ok(symbol) =>
        match Description()
        case Err(e) => Err(e)
        case Ok(desc) => SymbolTarget(desc, atoms, symbol)
    }

    /** The group the `group_name` setter selects for `value`, or what it raises
        before it reaches `group_num`. */
    function NameRequest(value: PyValue, atoms: AtomTable): (r: Result<int>)
      reads this
      ensures r.Ok? ==> value.PyStr? && Holds() && NameTarget(Description().value, atoms, value.s) == r
    {
      match EnsureStr(value)
      case Err(e) => Err(e)
      case Ok(name) =>
        match Description()
        case Err(e) => Err(e)
        case Ok(desc) => NameTarget(desc, atoms, name)
    }

    /** The `group_symbol` setter: a non-string or unknown symbol raises ValueError
        and changes nothing; otherwise the group of the symbol is locked, and once
        the server accepts it the `group_symbol` getter reads the symbol back. */
    method SetGroupSymbol(value: PyValue, atoms: AtomTable, accepted: bool) returns (r: Outcome)
      requires Valid()
      modifies this
      ensures Valid()
      ensures old(SymbolRequest(value, atoms)).Err? ==>
                r == Fail(old(SymbolRequest(value, atoms)).error) && unchanged(this)
      ensures old(SymbolRequest(value, atoms)).Ok? && accepted ==>
                && r == Pass
                && requests == old(requests) + [XkbLockGroup(old(SymbolRequest(value, atoms)).value), XFlush]
                && keyboardDescription == old(keyboardDescription) && display == old(display)
      ensures old(SymbolRequest(value, atoms)).Ok? && !accepted ==>
                && r == Fail(SetGroupFailed) && keyboardDescription == None && display == old(display)
                && requests == old(requests) + [XkbLockGroup(old(SymbolRequest(value, atoms)).value)] + FreeRequests
      ensures r.Pass? ==>
                value.PyStr? && Description().Ok? &&
                GroupSymbol(Description().value, atoms, old(SymbolRequest(value, atoms)).value) == Ok(value.s)
    {
      var target := SymbolRequest(value, atoms);
      if target.Err? {
        return Fail(target.error);
      }
      SymbolRoundTrip(Description().value, atoms, value.s, target.value);
      r := SetGroupNum(PyInt(target.value), accepted);
    }

    /** The `group_name` setter: a non-string or unknown name raises ValueError and
        changes nothing; otherwise the group of the name is locked, and once the
        server accepts it the `group_name` getter reads the name back. */
    method SetGroupName(value: PyValue, atoms: AtomTable, accepted: bool) returns (r: Outcome)
      requires Valid()
      modifies this
      ensures Valid()
      ensures old(NameRequest(value, atoms)).Err? ==>
                r == Fail(old(NameRequest(value, atoms)).error) && unchanged(this)
      ensures old(NameRequest(value, atoms)).Ok? && accepted ==>
                && r == Pass
                && requests == old(requests) + [XkbLockGroup(old(NameRequest(value, atoms)).value), XFlush]
                && keyboardDescription == old(keyboardDescription) && display == old(display)
      ensures old(NameRequest(value, atoms)).Ok? && !accepted ==>
                && r == Fail(SetGroupFailed) && keyboardDescription == None && display == old(display)
                && requests == old(requests) + [XkbLockGroup(old(NameRequest(value, atoms)).value)] + FreeRequests
      ensures r.Pass? ==>
                value.PyStr? && Description().Ok? &&
                GroupNameByNum(Description().value, atoms, old(NameRequest(value, atoms)).value) == Ok(value.s)
    {
      var target := NameRequest(value, atoms);
      if target.Err? {
        return Fail(target.error);
      }
      NameRoundTrip(Description().value, atoms, value.s, target.value);
      r := SetGroupNum(PyInt(target.value), accepted);
    }
  }
}

/** The Python values the setters of the keyboard class accept, and the type
    check `_ensure_type` that guards them. */
module PyValues {
  import opened Errors

  /** A Python object as far as `isinstance(obj, str)` and `isinstance(obj, int)`
      can tell them apart; `bool` is a subclass of `int`. */
  datatype PyValue =
    | PyStr(s: string)
    | PyInt(i: int)
    | PyBool(b: bool)
    | PyNone
    | PyOther

  /** `_ensure_type(value, str)`, passing the string on. */
  function EnsureStr(v: PyValue): (r: Result<string>)
    ensures r.Ok? <==> v.PyStr?
    ensures r.Ok? ==> r.value == v.s
    ensures r.Err? ==> r.error == WrongType && r.error.Class() == ValueError
  {
    match v
    case PyStr(s) => Ok(s)
    case _ => Err(WrongType)
  }

  /** `_ensure_type(value, int)`, passing on the integer that ctypes hands to C
      (a bool passes the check and is sent as 0 or 1). */
  function EnsureInt(v: PyValue): (r: Result<int>)
    ensures r.Ok? <==> v.PyInt? || v.PyBool?
    ensures v.PyInt? ==> r == Ok(v.i)
    ensures v.PyBool? ==> r == Ok(if v.b then 1 else 0)
    ensures r.Err? ==> r.error == WrongType && r.error.Class() == ValueError
  {
    match v
    case PyInt(i) => Ok(i)
    case PyBool(b) => Ok(if b then 1 else 0)
    case _ => Err(WrongType)
  }
}

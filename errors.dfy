/** Outcome types shared by the model, and the exceptions the keyboard module raises. */
module Errors {

  datatype Option<+T> = None | Some(value: T)

  /** A value, or the exception that the source raises instead of returning it. */
  datatype Result<+T> = Ok(value: T) | Err(error: Error)

  /** The outcome of an operation that returns nothing but may raise. */
  datatype Outcome = Pass | Fail(error: Error)

  /** The Python exception classes that the keyboard module lets escape. */
  datatype ExceptionClass =
    | X11Error
    | AssertionError
    | ValueError
    | KeyError
    | IndexError
    | AttributeError

  /** Every way an operation of the keyboard module can fail. */
  datatype Error =
    | OpenDisplayFailed(reason: int)     // XkbOpenDisplay reported a known failure reason
    | NoKeyboardDescription              // XkbGetMap returned a null description
    | GetControlsFailed(status: int)     // XkbGetControls returned a known error status
    | GetNamesFailed(status: int)        // XkbGetNames returned a known error status
    | UnknownStatus(status: int)         // an error status missing from the message table
    | SetGroupFailed                     // XkbLockGroup rejected the request
    | NoSymbolNames                      // the symbols atom is None_
    | NoGroupName                        // a group-name atom is None_
    | MalformedSymbol(token: string)     // a token does not match the symbol grammar
    | DuplicateIndex                     // two retained symbol records share an index
    | WrongType                          // a setter got a value of the wrong Python type
    | WrongGroupName                     // the group_name setter got an unknown name
    | WrongGroupSymbol                   // the group_symbol setter got an unknown symbol
    | MissingKey(key: int)               // no symbol record carries the current group's index
    | IndexOutOfRange(index: int)        // a group-name slot outside the fixed array
    | NullPointerAccess                  // a null ctypes pointer was dereferenced
    | AtomNameNull                       // XGetAtomName gave NULL for the symbols atom
    | NoAttribute                        // the handle attribute is not set on the object
  {
    /** The Python exception class that carries this error. */
    function Class(): ExceptionClass {
      match this
      case DuplicateIndex => AssertionError
      case WrongType | WrongGroupName | WrongGroupSymbol | NullPointerAccess => ValueError
      case UnknownStatus(_) | MissingKey(_) => KeyError
      case IndexOutOfRange(_) => IndexError
      case AtomNameNull | NoAttribute => AttributeError
      case _ => X11Error
    }
  }
}

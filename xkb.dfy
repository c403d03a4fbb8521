/** Constants of the X11 and XKB C headers that the keyboard module relies on. */
module Xkb {

  /** X atoms are unsigned integers; None_ (zero) is the null atom. */
  type Atom = nat
  const NoneAtom: Atom := 0

  /** The number of group slots XKB keeps (XkbNumKbdGroups). */
  const NumKbdGroups: nat := 4

  /** Status codes of X requests (X.h). */
  const Success: int := 0
  const BadMatch: int := 8
  const BadAlloc: int := 11
  const BadLength: int := 16
  const BadImplementation: int := 17

  /** Failure reasons reported by XkbOpenDisplay (XKBlib.h). */
  const XkbOD_Success: int := 0
  const XkbOD_BadLibraryVersion: int := 1
  const XkbOD_ConnectionRefused: int := 2
  const XkbOD_NonXkbServer: int := 3
  const XkbOD_BadServerVersion: int := 4
}

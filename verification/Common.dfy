/** Notions that several scripts share. */
module Common {

  /** A value that may be absent: Python's `None`, a null property. */
  datatype Option<+T> = None | Some(value: T)

  function Pow2(n: nat): nat {
    if n == 0 then 1 else 2 * Pow2(n - 1)
  }

  /** ASCII white space. */
  const WHITE: set<char> := {' ', '\t', '\n', '\r', '\U{0B}', '\U{0C}'}

  /** `not s.strip()`. */
  predicate Blank(s: string) {
    forall c <- s :: c in WHITE
  }
}

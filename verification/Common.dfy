module Common {

  /** What several models share. */

  datatype Option<T> = None | Some(value: T)

  ghost predicate Distinct<T>(s: seq<T>) { forall i, j :: 0 <= i < j < |s| ==> s[i] != s[j] }
}

module Closed {

  /**
   Always true.  A predicate of the form `forall k: int :: Key(n, k) ==> P` means P, but a proof sees P only after it
   has mentioned `Key(n, 0)`.
   */
  ghost predicate Key(n: int, k: int) { true }
}

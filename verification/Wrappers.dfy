/** Small types that every part of the model shares. */
module Wrappers {

  datatype Option<+T> = None | Some(value: T)

  datatype Result<+T, +E> = Ok(value: T) | Err(error: E)

  predicate FailsWith<T, E(==)>(r: Result<T, E>, error: E) {
    r.Err? && r.error == error
  }

  /** An address after netip.Addr.Unmap. */
  type Addr = nat

  predicate Distinct<T(==)>(s: seq<T>) {
    forall i, j :: 0 <= i < j < |s| ==> s[i] != s[j]
  }
}

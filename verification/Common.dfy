/** Small value types and list functions shared by the components of the model. */
module Common {

  /** A value that may be absent: a nil pointer, a missing row, a missing map key. */
  datatype Option<+T> = None | Some(value: T)

  /** The outcome of a call that can fail. */
  datatype Result<+T, +E> = Ok(value: T) | Err(error: E)

  ghost predicate Distinct<T>(s: seq<T>) {
    forall i, j :: 0 <= i < j < |s| ==> s[i] != s[j]
  }
}

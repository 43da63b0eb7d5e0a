/** Failure-carrying result types shared by every module of the model. */
module Wrappers {

  datatype Option<+T> = None | Some(value: T)

  /** A Go `(value, err)` pair in which exactly one side is meaningful. */
  datatype Result<+R, +E> = Ok(value: R) | Err(error: E)

  /** The map lookup Go performs on a missing key: the zero value "" . */
  function GetOrEmpty<K>(m: map<K, string>, k: K): (v: string)
    ensures k in m ==> v == m[k]
    ensures k !in m ==> v == ""
  {
    if k in m then m[k] else ""
  }
}

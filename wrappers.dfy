/** Failure-carrying values shared by the other modules: Python's `None`
    and the exceptions of the calculate page become explicit alternatives. */
module Wrappers {

  datatype Option<+T> = None | Some(value: T)

  datatype Result<+T, +E> = Ok(value: T) | Err(error: E)

  /** Mirrors Python's `d.get(key, default)` on a dictionary. */
  function GetOr<K, V>(m: map<K, V>, key: K, default: V): (v: V)
    ensures key in m ==> v == m[key]
    ensures key !in m ==> v == default
  {
    if key in m then m[key] else default
  }
}

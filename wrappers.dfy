/** Option and Result values, and Python's dictionary subscript `d[k]`. */
module Wrappers {

  datatype Option<+T> = None | Some(value: T) {
    function GetOr(default: T): T {
      match this
      case Some(v) => v
      case None => default
    }
  }

  /** `Err` carries what the Python code would raise. */
  datatype Result<+T, +E> = Ok(value: T) | Err(error: E)

  /** The exception raised by a dictionary subscript on a missing key. */
  datatype KeyError<K> = KeyError(key: K)

  /** `m[k]`: the value stored under `k`, or a KeyError naming `k`. */
  function Lookup<K, V>(m: map<K, V>, k: K): (r: Result<V, KeyError<K>>)
    ensures r.Ok? <==> k in m
    ensures r.Ok? ==> r.value == m[k]
    ensures r.Err? ==> r.error == KeyError(k)
  {
    if k in m then Ok(m[k]) else Err(KeyError(k))
  }
}

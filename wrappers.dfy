/** Optional values. */
module Wrappers {

  datatype Option<+T> = None | Some(value: T)

  /** The entry of a map under a key, if there is one. */
  function Lookup<K, V>(m: map<K, V>, k: K): (r: Option<V>)
    ensures r.Some? <==> k in m
    ensures r.Some? ==> r.value == m[k]
  {
    if k in m then Some(m[k]) else None
  }
}

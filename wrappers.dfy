/** A value that may be absent: JavaScript's `undefined`/`null` next to a present value. */
module Wrappers {

  datatype Option<T> = None | Some(value: T)

  /** `m[k]`: the value under `k`, or `None` (undefined) when `k` is not a key. */
  function Get<K, V>(m: map<K, V>, k: K): (r: Option<V>)
    ensures r.Some? <==> k in m
    ensures r.Some? ==> r.value == m[k]
  {
    if k in m then Some(m[k]) else None
  }
}

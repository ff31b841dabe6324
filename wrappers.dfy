/** The optional value returned by lookups that may miss and by operations that can fail. */
module Wrappers {

  datatype Option<T> = None | Some(value: T)

  /** `BTreeMap::get`: the value under `k`, or None when `k` is absent. */
  function Get<K, V>(m: map<K, V>, k: K): (r: Option<V>)
    ensures r.Some? <==> k in m
    ensures r.Some? ==> r.value == m[k]
  {
    if k in m then Some(m[k]) else None
  }
}

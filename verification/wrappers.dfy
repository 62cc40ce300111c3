/** The optional-value datatype used for JavaScript's `undefined` results and
    for file reads that may fail. */
module Wrappers {

  datatype Option<+T> = None | Some(value: T)

  /** Looks `key` up in `m`: the model of reading a file that may be absent. */
  function Lookup<K, V>(m: map<K, V>, key: K): (r: Option<V>)
    ensures r.Some? <==> key in m
    ensures r.Some? ==> r.value == m[key]
  {
    if key in m then Some(m[key]) else None
  }
}

module Options {
  datatype Option<+T> = None | Some(value: T)

  /** A map read with its missing keys as None. */
  function Lookup<K, V>(m: map<K, V>, k: K): Option<V> {
    if k in m then Some(m[k]) else None
  }
}

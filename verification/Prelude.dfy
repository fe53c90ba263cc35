/** Small datatypes shared by every module. */
module Prelude {
  /** In nanoseconds, like every time in this project. */
  const HOUR := 3600 * 1_000_000_000

  datatype Option<+T> = None | Some(value: T) {
    function GetOr(default: T): T {
      if Some? then value else default
    }
  }

  function Min(a: int, b: int): int { if b < a then b else a }

  /** Lookup in a map, as a Go map read with the comma-ok form. */
  function Get<K, V>(m: map<K, V>, k: K): Option<V> {
    if k in m then Some(m[k]) else None
  }
}

/** The part of Redis the services rely on: string keys with an expiry, and NX writes. */
module Redis {

  /** Milliseconds. */
  type Time = nat

  datatype Option<+T> = None | Some(value: T)

  /** A string key: never written, or last written with a value that lives through `expiresAt`.
      A lapsed key keeps its cell here; only `Live` cells are visible to readers. */
  datatype Cell<+T> = Unset | Cell(value: T, expiresAt: Time) {
    predicate Live(now: Time) { Cell? && now <= expiresAt }

    function Get(now: Time): Option<T> {
      if Live(now) then Some(value) else None
    }
  }

  function CellOf<K, V>(cells: map<K, Cell<V>>, k: K): Cell<V> {
    if k in cells then cells[k] else Unset
  }

  /** `SET k v PX ttl NX`: writes only over a key that is not live. */
  function SetNx<K, V>(cells: map<K, Cell<V>>, k: K, v: V, now: Time, ttl: nat): map<K, Cell<V>> {
    if CellOf(cells, k).Live(now) then cells else cells[k := Cell(v, now + ttl)]
  }
}

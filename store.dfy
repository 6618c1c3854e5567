/** The keyed store: one explicitly constructed context object holding a
    map from string keys to arbitrary values. */
module Store {

  /** `dict.get(key, default)` on the store's map. */
  function Lookup<V>(m: map<string, V>, key: string, default: V): V {
    if key in m then m[key] else default
  }

  /** After storing `value` under `key`, reading `key` gives `value` and
      every other key reads as before. */
  lemma LookupAfterSet<V>(m: map<string, V>, key: string, value: V, other: string, default: V)
    ensures Lookup(m[key := value], key, default) == value
    ensures other != key ==> Lookup(m[key := value], other, default) == Lookup(m, other, default)
  {
  }

  /** Every key of an emptied store reads as the default. */
  lemma LookupAfterDeinit<V>(key: string, default: V)
    ensures Lookup(map[], key, default) == default
  {
  }

  class DataContext<V> {
    /** The stored entries; one value per key, the last `Set` wins. */
    var data: map<string, V>

    /** A fresh context starts empty. */
    constructor ()
      ensures data == map[]
    {
      data := map[];
    }

    /** Stores `value` under `key`, overwriting any earlier value and
        leaving every other entry as it was. */
    method Set(key: string, value: V)
      modifies this
      ensures data == old(data)[key := value]
      ensures key in data && data[key] == value
      ensures forall k :: k != key ==> (k in data <==> k in old(data))
      ensures forall k :: k != key && k in old(data) ==> data[k] == old(data)[k]
    {
      data := data[key := value];
    }

    /** Reads `key`, or `default` when the store has no entry for it; the
        store is not changed. */
    method Get(key: string, default: V) returns (v: V)
      ensures v == Lookup(data, key, default)
      ensures key in data ==> v == data[key]
      ensures key !in data ==> v == default
    {
      if key in data {
        v := data[key];
      } else {
        v := default;
      }
    }

    /** Removes every entry. The new state does not depend on the old one,
        so calling it twice leaves the same state as calling it once. */
    method Deinit()
      modifies this
      ensures data == map[]
      ensures forall k :: k !in data
    {
      data := map[];
    }
  }
}

/** A JavaScript `Map` as a value: its entries together with the insertion order of its keys. */
module OrderedMaps {
  import opened Sequences

  datatype OMap<K, V> = OMap(keys: seq<K>, entries: map<K, V>) {

    /** Every key is listed once, and the listed keys are exactly the entries' keys. */
    ghost predicate Valid() {
      NoDup(keys) && entries.Keys == set i | 0 <= i < |keys| :: keys[i]
    }

    /** `Map.prototype.set`: a new key is appended to the order, an existing key keeps its place. */
    function Set(k: K, v: V): (r: OMap<K, V>)
      requires Valid()
      ensures r.Valid()
      ensures r.entries == entries[k := v]
      ensures k in entries ==> r.keys == keys
      ensures k !in entries ==> r.keys == keys + [k]
    {
      if k in entries then OMap(keys, entries[k := v])
      else
        var r := OMap(keys + [k], entries[k := v]);
        assert forall i :: 0 <= i < |keys| ==> r.keys[i] == keys[i];
        assert (set i | 0 <= i < |r.keys| :: r.keys[i]) == (set i | 0 <= i < |keys| :: keys[i]) + {k} by {
          forall i | 0 <= i < |keys|
            ensures keys[i] in set j | 0 <= j < |r.keys| :: r.keys[j]
          {
            assert r.keys[i] == keys[i];
          }
          assert r.keys[|keys|] == k;
        }
        r
    }
  }

  function Empty<K, V>(): (r: OMap<K, V>)
    ensures r.Valid() && r.keys == [] && r.entries == map[]
  {
    OMap([], map[])
  }

  lemma KeysInEntries<K, V>(m: OMap<K, V>, k: K)
    requires m.Valid()
    ensures k in m.entries <==> k in m.keys
  {
    if k in m.keys {
      var i :| 0 <= i < |m.keys| && m.keys[i] == k;
    }
  }
}

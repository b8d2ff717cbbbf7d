/** `crates/map-utils/src/cleanup.rs`: maps in which a missing key and a stored default mean the
    same, and entries that clean up after themselves when dropped. */
module DefaultMap {
  /** The value at a key, defaulting. */
  function Get<K, V>(m: map<K, V>, k: K, default: V): (v: V) {
    if k in m then m[k] else default
  }

  /** The map after an entry with the value `v` is dropped: a default is not stored. */
  function Put<K(!new), V(==)>(m: map<K, V>, k: K, v: V, default: V): (r: map<K, V>)
    ensures Get(r, k, default) == v
    ensures forall j :: j != k ==> (j in r <==> j in m) && Get(r, j, default) == Get(m, j, default)
    ensures NoDefaults(m, default) ==> NoDefaults(r, default)
    ensures k in r <==> v != default
  {
    if v == default then m - {k} else m[k := v]
  }

  predicate NoDefaults<K, V(==)>(m: map<K, V>, default: V) {
    forall k :: k in m ==> m[k] != default
  }

  /** Without stored defaults, maps with the same values are the same maps. */
  lemma SameValuesSameMap<K(!new), V>(a: map<K, V>, b: map<K, V>, default: V)
    requires NoDefaults(a, default) && NoDefaults(b, default)
    requires forall k :: Get(a, k, default) == Get(b, k, default)
    ensures a == b
  {
    forall k ensures k in a <==> k in b {
      assert Get(a, k, default) == Get(b, k, default);
    }
    forall k | k in a ensures a[k] == b[k] {
      assert Get(a, k, default) == Get(b, k, default);
    }
  }

  /** Writing back the value that is there changes nothing, except that it removes a stored default. */
  lemma PutSame<K(!new), V>(m: map<K, V>, k: K, default: V)
    ensures Put(m, k, Get(m, k, default), default) == m <==> !(k in m && m[k] == default)
  {
    var r := Put(m, k, Get(m, k, default), default);
    if !(k in m && m[k] == default) {
      assert forall j :: j in r <==> j in m;
      assert forall j :: j in m ==> r[j] == m[j];
    } else {
      assert k !in r;
    }
  }

  /** The handle `entry_or_default` returns, with the map it writes to. */
  class Entry<K(==,!new), V(==)> {
    const default: V
    const key: K
    const occupied: bool
    /** The map, which holds the value while the entry is occupied. */
    var entries: map<K, V>
    /** The value of a vacant entry, not in the map yet. */
    var vacant: V

    predicate Valid()
      reads this
    {
      occupied <==> key in entries
    }

    function Value(): V
      reads this
      requires Valid()
    {
      if occupied then entries[key] else vacant
    }

    /** `entry_or_default` */
    constructor (m: map<K, V>, k: K, default: V)
      ensures Valid() && entries == m && key == k && this.default == default
      ensures Value() == Get(m, k, default)
    {
      this.default := default;
      key := k;
      occupied := k in m;
      entries := m;
      vacant := default;
    }

    /** Assignment through `DerefMut`. */
    method Assign(v: V)
      requires Valid()
      modifies this
      ensures Valid() && Value() == v
      ensures entries == if occupied then old(entries)[key := v] else old(entries)
    {
      if occupied {
        entries := entries[key := v];
      } else {
        vacant := v;
      }
    }

    /** `Drop` of both kinds of entry: a vacant one inserts a non-default value, an occupied one
        removes a default value. */
    method Drop() returns (m: map<K, V>)
      requires Valid()
      ensures m == Put(entries, key, Value(), default)
    {
      if !occupied {
        m := if vacant != default then entries[key := vacant] else entries;
        assert entries - {key} == entries;
      } else {
        m := if entries[key] == default then entries - {key} else entries;
        assert entries[key := entries[key]] == entries;
      }
    }
  }
}

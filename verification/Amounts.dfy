/** `contracts/defuse/core/src/amounts.rs`: maps of amounts in which zero is not stored, updated by
    checked arithmetic, and their sums. */
module Amounts {
  import opened Wrappers
  import opened Numbers
  import opened DefaultMap

  /** `checked_apply`: write `f` of the amount through the entry; when `f` fails the entry is dropped
      as it was. */
  method CheckedApply<K(==, !new)>(m: map<K, int>, k: K, f: int -> Option<int>) returns (r: map<K, int>, v: Option<int>)
    ensures v == f(Get(m, k, 0))
    ensures v.Some? ==> r == Put(m, k, v.value, 0)
    ensures v.None? ==> (r == m <==> !(k in m && m[k] == 0))
  {
    var entry := new Entry(m, k, 0);
    v := f(entry.Value());
    if v.Some? {
      entry.Assign(v.value);
      assert k in m ==> m[k := v.value] - {k} == m - {k};
    } else {
      PutSame(m, k, 0);
    }
    r := entry.Drop();
  }

  /** `Amounts::add` on unsigned amounts. */
  function Add<K(!new)>(m: map<K, int>, k: K, amount: nat): (r: Option<map<K, int>>) {
    if Get(m, k, 0) + amount <= U128_MAX then Some(Put(m, k, Get(m, k, 0) + amount, 0)) else None
  }

  /** `Amounts::sub` on unsigned amounts. */
  function Sub<K(!new)>(m: map<K, int>, k: K, amount: nat): (r: Option<map<K, int>>) {
    if amount <= Get(m, k, 0) then Some(Put(m, k, Get(m, k, 0) - amount, 0)) else None
  }

  /** `Amounts::apply_delta` on signed amounts. */
  function ApplyDelta<K(!new)>(m: map<K, int>, k: K, delta: int): (r: Option<map<K, int>>) {
    if I128_MIN <= Get(m, k, 0) + delta <= I128_MAX then Some(Put(m, k, Get(m, k, 0) + delta, 0)) else None
  }

  /** The sum of all amounts. */
  ghost function SumOf<K>(m: map<K, int>): (r: int) {
    if m == map[] then 0
    else
      var k :| k in m;
      m[k] + SumOf(m - {k})
  }

  /** The sum does not depend on the order of summation. */
  lemma {:induction false} SumRemove<K>(m: map<K, int>, k: K)
    requires k in m
    ensures SumOf(m) == m[k] + SumOf(m - {k})
    decreases |m|
  {
    var j :| j in m && SumOf(m) == m[j] + SumOf(m - {j});
    if j != k {
      SumRemove(m - {j}, k);
      SumRemove(m - {k}, j);
      assert m - {j} - {k} == m - {k} - {j};
    }
  }

  /** Changing one amount changes the sum by the difference. */
  lemma SumUpdate<K>(m: map<K, int>, k: K, v: int)
    ensures SumOf(m[k := v]) == SumOf(m) - Get(m, k, 0) + v
  {
    SumRemove(m[k := v], k);
    if k in m {
      SumRemove(m, k);
      assert m[k := v] - {k} == m - {k};
    } else {
      assert m[k := v] - {k} == m;
    }
  }

  lemma SumPut<K(!new)>(m: map<K, int>, k: K, v: int)
    ensures SumOf(Put(m, k, v, 0)) == SumOf(m) - Get(m, k, 0) + v
  {
    if v == 0 {
      if k in m {
        SumRemove(m, k);
      } else {
        assert m - {k} == m;
      }
    } else {
      SumUpdate(m, k, v);
    }
  }

  lemma {:induction false} SumNonNegative<K>(m: map<K, int>)
    requires forall k :: k in m ==> m[k] >= 0
    ensures SumOf(m) >= 0
    decreases |m|
  {
    if m != map[] {
      var k :| k in m;
      SumRemove(m, k);
      SumNonNegative(m - {k});
    }
  }
}

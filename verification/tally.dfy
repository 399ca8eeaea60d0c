/**
 Counting rows per key, as `groupby(...).size()` and `value_counts()` do:
 a key that no row carries is absent rather than counted as zero.
 */
module Tally {

  /** How many times each key occurs in `keys`; only keys that occur are present. */
  function Count<K(==,!new)>(keys: seq<K>): (m: map<K, nat>)
    ensures forall k :: k in m <==> k in keys
    ensures forall k :: k in m ==> m[k] == multiset(keys)[k]
    ensures forall k :: k in m ==> m[k] >= 1
  {
    if |keys| == 0 then map[]
    else
      var m := Count(keys[1..]);
      var k := keys[0];
      assert keys == [k] + keys[1..];
      m[k := if k in m then m[k] + 1 else 1]
  }

  /** The sum of all counts in `m`. */
  ghost function Total<K>(m: map<K, nat>): nat
    decreases |m|
  {
    if m == map[] then 0
    else
      var k :| k in m;
      assert |m - {k}| < |m| by {
        assert (m - {k}).Keys == m.Keys - {k};
      }
      m[k] + Total(m - {k})
  }

  /** The sum does not depend on which key is taken out first. */
  lemma {:induction false} TotalRemove<K>(m: map<K, nat>, k: K)
    requires k in m
    ensures Total(m) == m[k] + Total(m - {k})
    decreases |m|
  {
    var j :| j in m && Total(m) == m[j] + Total(m - {j});
    if j != k {
      var mj := m - {j};
      var mk := m - {k};
      assert (m - {j}).Keys == m.Keys - {j};
      assert (m - {k}).Keys == m.Keys - {k};
      TotalRemove(mj, k);
      TotalRemove(mk, j);
      assert mj - {k} == mk - {j};
    }
  }

  /** Counting one more occurrence of a key adds one to the sum. */
  lemma TotalIncrement<K>(m: map<K, nat>, k: K)
    ensures Total(m[k := if k in m then m[k] + 1 else 1]) == Total(m) + 1
  {
    var u := m[k := if k in m then m[k] + 1 else 1];
    TotalRemove(u, k);
    assert u - {k} == m - {k};
    if k in m {
      TotalRemove(m, k);
    } else {
      assert m - {k} == m;
    }
  }

  /** The counts of a key column add up to the number of rows. */
  lemma {:induction false} CountTotal<K(!new)>(keys: seq<K>)
    ensures Total(Count(keys)) == |keys|
  {
    if |keys| > 0 {
      var m := Count(keys[1..]);
      var k := keys[0];
      assert Count(keys) == m[k := if k in m then m[k] + 1 else 1];
      CountTotal(keys[1..]);
      TotalIncrement(m, k);
    }
  }
}

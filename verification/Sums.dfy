/** Sums over finite sets, independent of the order in which a set is visited. */
module Sums {

  ghost function Sum<K(!new)>(keys: set<K>, f: K -> nat): nat
  {
    if keys == {} then 0 else
    var k :| k in keys;
    f(k) + Sum(keys - {k}, f)
  }

  lemma {:induction false} SumRemove<K(!new)>(keys: set<K>, k: K, f: K -> nat)
    requires k in keys
    ensures Sum(keys, f) == f(k) + Sum(keys - {k}, f)
    decreases |keys|
  {
    var j :| j in keys && Sum(keys, f) == f(j) + Sum(keys - {j}, f);
    if j != k {
      SumRemove(keys - {j}, k, f);
      SumRemove(keys - {k}, j, f);
      assert keys - {j} - {k} == keys - {k} - {j};
    }
  }

  lemma SumAdd<K(!new)>(keys: set<K>, k: K, f: K -> nat)
    requires k !in keys
    ensures Sum(keys + {k}, f) == f(k) + Sum(keys, f)
  {
    SumRemove(keys + {k}, k, f);
    assert keys + {k} - {k} == keys;
  }

  lemma {:induction false} SumMonotone<K(!new)>(keys: set<K>, f: K -> nat, g: K -> nat)
    requires forall k :: k in keys ==> f(k) <= g(k)
    ensures Sum(keys, f) <= Sum(keys, g)
    decreases |keys|
  {
    if keys != {} {
      var k :| k in keys;
      SumRemove(keys, k, f);
      SumRemove(keys, k, g);
      SumMonotone(keys - {k}, f, g);
    }
  }

  /** Visiting one element leaves it out of what remains of s exactly when it belongs to s. */
  lemma CountRemove<K>(s: set<K>, todo: set<K>, k: K)
    requires k in todo
    ensures |s * todo| == |s * (todo - {k})| + if k in s then 1 else 0
  {
    assert s * todo == (s * (todo - {k})) + (if k in s then {k} else {});
  }
}

/**
 Sums of sizes kept in a map, and how they move
 when an entry comes or goes.
 */
module Totals {
  import opened Sizes

  ghost function Total<K>(sizes: map<K, nat>): nat {
    if sizes == map[] then 0
    else
      var k :| k in sizes;
      sizes[k] + Total(sizes - {k})
  }

  lemma {:induction false} TotalRemove<K>(sizes: map<K, nat>, k: K)
    requires k in sizes
    ensures Total(sizes) == sizes[k] + Total(sizes - {k})
    decreases |sizes|
  {
    var p :| p in sizes && Total(sizes) == sizes[p] + Total(sizes - {p});
    if p != k {
      SizeRemove(sizes, p);
      SizeRemove(sizes, k);
      TotalRemove(sizes - {p}, k);
      TotalRemove(sizes - {k}, p);
      assert sizes - {p} - {k} == sizes - {k} - {p};
    }
  }

  lemma {:induction false} TotalInsert<K>(sizes: map<K, nat>, k: K, n: nat)
    requires k !in sizes
    ensures Total(sizes[k := n]) == Total(sizes) + n
  {
    TotalRemove(sizes[k := n], k);
    assert sizes[k := n] - {k} == sizes;
  }

  lemma {:induction false} TotalSubmap<K>(a: map<K, nat>, b: map<K, nat>)
    requires a.Keys <= b.Keys && forall k :: k in a ==> a[k] == b[k]
    ensures Total(a) <= Total(b)
    ensures |a| <= |b|
    decreases |b|
  {
    if a.Keys == b.Keys {
      assert a == b;
    } else {
      var k :| k in b && k !in a;
      TotalRemove(b, k);
      SizeRemove(b, k);
      TotalSubmap(a, b - {k});
    }
  }
}

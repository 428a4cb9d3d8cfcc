/** Sums over the values of a map. */
module Totals {

  ghost function Pick<K, V>(m: map<K, V>): (k: K)
    requires m != map[]
    ensures k in m
  {
    var k :| k in m;
    k
  }

  ghost function Total<K, V>(m: map<K, V>, weight: V -> nat): nat
    decreases |m.Keys|
  {
    if m == map[] then 0
    else
      assert (m - {Pick(m)}).Keys == m.Keys - {Pick(m)};
      weight(m[Pick(m)]) + Total(m - {Pick(m)}, weight)
  }

  /** Whichever key is taken first, the sum is the same. */
  lemma {:induction false} AnyFirst<K, V>(m: map<K, V>, weight: V -> nat, k: K)
    requires k in m
    ensures Total(m, weight) == weight(m[k]) + Total(m - {k}, weight)
    decreases |m.Keys|
  {
    var j := Pick(m);
    if j != k {
      assert (m - {j}).Keys == m.Keys - {j} && (m - {k}).Keys == m.Keys - {k};
      AnyFirst(m - {j}, weight, k);
      AnyFirst(m - {k}, weight, j);
      assert m - {j} - {k} == m - {k} - {j};
    }
  }

  function WeightAt<K, V>(m: map<K, V>, weight: V -> nat, k: K): nat {
    if k in m then weight(m[k]) else 0
  }

  lemma Without<K, V>(m: map<K, V>, weight: V -> nat, k: K)
    ensures Total(m - {k}, weight) + WeightAt(m, weight, k) == Total(m, weight)
  {
    if k in m {
      AnyFirst(m, weight, k);
    } else {
      assert m - {k} == m;
    }
  }

  lemma With<K, V>(m: map<K, V>, weight: V -> nat, k: K, v: V)
    ensures Total(m[k := v], weight) + WeightAt(m, weight, k) == Total(m, weight) + weight(v)
  {
    AnyFirst(m[k := v], weight, k);
    Without(m, weight, k);
    assert m[k := v] - {k} == m - {k};
  }

  lemma {:induction false} Part<K, V>(part: map<K, V>, m: map<K, V>, weight: V -> nat)
    requires forall k :: k in part ==> k in m && part[k] == m[k]
    ensures Total(part, weight) <= Total(m, weight)
    decreases |part.Keys|
  {
    if part != map[] {
      var k := Pick(part);
      AnyFirst(m, weight, k);
      assert (part - {k}).Keys == part.Keys - {k};
      Part(part - {k}, m - {k}, weight);
    }
  }

  lemma {:induction false} NothingWeighs<K, V>(m: map<K, V>, weight: V -> nat)
    ensures Total(m, weight) == 0 <==> forall k :: k in m ==> weight(m[k]) == 0
    decreases |m.Keys|
  {
    if m != map[] {
      var j := Pick(m);
      assert (m - {j}).Keys == m.Keys - {j};
      NothingWeighs(m - {j}, weight);
      assert forall k :: k in m ==> k == j || k in m - {j};
    }
  }
}

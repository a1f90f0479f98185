/** Generic facts about finite maps, proved once away from the store's definitions. */
module MapFacts {

  lemma UnionAssoc<K, V>(s: map<K, V>, a: map<K, V>, b: map<K, V>)
    ensures s + (a + b) == (s + a) + b
  {
  }

  lemma UnionEmpty<K, V>(m: map<K, V>)
    ensures m + map[] == m
  {
  }

  lemma EmptyUnion<K, V>(m: map<K, V>)
    ensures map[] + m == m
  {
  }

  lemma UnionSingleton<K, V>(m: map<K, V>, k: K, v: V)
    ensures m + map[k := v] == m[k := v]
  {
  }

  /** Adding entries a map already holds changes nothing. */
  lemma UnionSubsumed<K, V>(m: map<K, V>, a: map<K, V>)
    requires forall k :: k in a ==> k in m && m[k] == a[k]
    ensures m + a == m
  {
  }

  lemma UnionUpdate<K, V>(m: map<K, V>, a: map<K, V>, k: K, v: V)
    ensures (m + a)[k := v] == m + a[k := v]
  {
  }

  lemma Extensionality<K, V>(m1: map<K, V>, m2: map<K, V>)
    requires forall k :: k in m1 <==> k in m2
    requires forall k :: k in m1 ==> m1[k] == m2[k]
    ensures m1 == m2
  {
  }

  lemma UpdateRemove<K, V>(m: map<K, V>, k: K, v: V)
    requires k !in m
    ensures m[k := v] - {k} == m
  {
  }

  /** Two maps that agree away from one key each, and hold the same value there, agree
      once each also receives the other's key with that value. */
  lemma SwapKeys<K, V>(m1: map<K, V>, m2: map<K, V>, a: K, b: K, x: V)
    requires a != b && a in m1 && b in m2
    requires m1 - {a} == m2 - {b}
    requires m1[a] == x && m2[b] == x
    ensures m1[b := x] == m2[a := x]
  {
    var l := m1[b := x];
    var r := m2[a := x];
    forall k ensures k in l <==> k in r {
      assert k != a && k != b ==> (k in m1 <==> k in m1 - {a}) && (k in m2 <==> k in m2 - {b});
    }
    forall k | k in l ensures l[k] == r[k] {
      if k != a && k != b {
        assert (m1 - {a})[k] == (m2 - {b})[k];
      }
    }
    Extensionality(l, r);
  }
}

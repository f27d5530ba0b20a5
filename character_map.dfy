/** CharacterMap.invert: the table that maps each entity back to its character. */
module CharacterMap {

  ghost predicate Injective<K, V>(m: map<K, V>)
  {
    forall a, b :: a in m && b in m && a != b ==> m[a] != m[b]
  }

  /**
   * `invert`: a fresh map from every value of `m` to a key holding it. When two
   * keys share a value, the later entry of the iteration wins; the iteration
   * order of a HashMap is unspecified, so the model only promises that the
   * chosen key is one of them. For an injective map the result is the exact
   * inverse, entry for entry.
   */
  method Invert<K, V(==)>(m: map<K, V>) returns (inverted: map<V, K>)
    ensures inverted.Keys == m.Values
    ensures forall v :: v in inverted ==> inverted[v] in m && m[inverted[v]] == v
    ensures Injective(m) ==> |inverted| == |m| && forall k :: k in m ==> m[k] in inverted && inverted[m[k]] == k
  {
    inverted := map[];
    var done: set<K> := {};
    while done != m.Keys
      invariant done <= m.Keys
      invariant forall k :: k in done ==> m[k] in inverted
      invariant forall v :: v in inverted ==> inverted[v] in done && m[inverted[v]] == v
      invariant Injective(m) ==> |inverted| == |done|
      decreases |m.Keys - done|
    {
      var k :| k in m.Keys - done;
      if Injective(m) {
        FreshValue(m, inverted, done, k);
        GrowsByOne(inverted, done, m[k], k);
      }
      inverted := inverted[m[k] := k];
      done := done + {k};
    }
    Inverse(m, inverted);
  }

  /** What the loop has built once every key is done. */
  lemma {:induction false} Inverse<K, V>(m: map<K, V>, inverted: map<V, K>)
    requires forall k :: k in m ==> m[k] in inverted
    requires forall v :: v in inverted ==> inverted[v] in m && m[inverted[v]] == v
    ensures inverted.Keys == m.Values
    ensures Injective(m) ==> forall k :: k in m ==> inverted[m[k]] == k
  {
    forall v | v in m.Values ensures v in inverted {
      var k :| k in m && m[k] == v;
    }
    if Injective(m) {
      forall k | k in m ensures inverted[m[k]] == k {
        InjectiveAt(m, inverted[m[k]], k);
      }
    }
  }

  lemma {:induction false} FreshValue<K, V>(m: map<K, V>, inverted: map<V, K>, done: set<K>, k: K)
    requires Injective(m) && k in m && k !in done && done <= m.Keys
    requires forall v :: v in inverted ==> inverted[v] in done && m[inverted[v]] == v
    ensures m[k] !in inverted
  {
    assert forall v :: v in inverted ==> inverted[v] != k;
  }

  lemma {:induction false} GrowsByOne<K, V>(inverted: map<V, K>, done: set<K>, v: V, k: K)
    requires v !in inverted && k !in done && |inverted| == |done|
    ensures |inverted[v := k]| == |done + {k}|
  {
  }

  lemma {:induction false} InjectiveAt<K, V>(m: map<K, V>, a: K, b: K)
    requires Injective(m) && a in m && b in m && m[a] == m[b]
    ensures a == b
  {
  }
}

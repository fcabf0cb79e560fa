/** Extensionality of maps, for proofs that build one entry by entry. */
module Maps {

  lemma SameMap<K, V>(a: map<K, V>, b: map<K, V>)
    requires a.Keys == b.Keys
    requires forall k :: k in a ==> a[k] == b[k]
    ensures a == b
  {
    assert forall k :: k in b ==> a[k] == b[k];
  }
}

/**
 * A .NET `Dictionary<K, V>` as the service uses it: a sequence of entries in
 * insertion (enumeration) order whose keys are pairwise distinct.
 */
module Dictionaries {

  /** No key occurs twice; this is what `ToDictionary` needs in order not to throw. */
  predicate DistinctKeys<K(==), V>(entries: seq<(K, V)>)
  {
    forall i, j :: 0 <= i < j < |entries| ==> entries[i].0 != entries[j].0
  }

  type Dict<K(==), V> = entries: seq<(K, V)> | DistinctKeys(entries) witness []

  /** A contiguous run of a dictionary's entries is again a dictionary. */
  lemma SliceKeepsKeysDistinct<K, V>(d: seq<(K, V)>, lo: nat, hi: nat)
    requires DistinctKeys(d)
    requires lo <= hi <= |d|
    ensures DistinctKeys(d[lo..hi])
  {
    var s := d[lo..hi];
    forall i, j | 0 <= i < j < |s|
      ensures s[i].0 != s[j].0
    {
      assert s[i] == d[lo + i] && s[j] == d[lo + j];
    }
  }
}

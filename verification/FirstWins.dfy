/** `std::map::insert` keeps the entry that is already there; a run of insertions keeps the first of each key. */
module FirstWins {
  import opened Sequences

  function Insert<K, V>(m: map<K, V>, k: K, v: V): map<K, V> {
    if k in m then m else m[k := v]
  }

  function InsertAll<K, V>(m: map<K, V>, entries: seq<(K, V)>): map<K, V> {
    if entries == [] then m
    else
      var last := entries[|entries| - 1];
      Insert(InsertAll(m, entries[..|entries| - 1]), last.0, last.1)
  }

  /** The first entry with the given key, or the number of entries when there is none. */
  function FirstEntry<K(==), V>(entries: seq<(K, V)>, k: K): (n: nat)
    ensures n <= |entries|
    ensures n < |entries| ==> entries[n].0 == k
    ensures forall j :: 0 <= j < n ==> entries[j].0 != k
  {
    FirstWhere(entries, (e: (K, V)) => e.0 == k)
  }

  lemma {:induction false} InsertAllKeepsFirst<K, V>(m: map<K, V>, entries: seq<(K, V)>, k: K)
    ensures var all, n := InsertAll(m, entries), FirstEntry(entries, k);
            && (k in all <==> k in m || n < |entries|)
            && (k in m ==> k in all && all[k] == m[k])
            && (k !in m && n < |entries| ==> k in all && all[k] == entries[n].1)
  {
    if entries == [] {
    } else {
      InsertAllKeepsFirst(m, entries[..|entries| - 1], k);
    }
  }
}

/** The iteration order of `std::map` and `std::set`: every key once, in ascending order. */
module OrderedKeys {

  ghost predicate StrictTotal<K(!new)>(less: (K, K) -> bool) {
    && (forall a, b :: less(a, b) ==> !less(b, a))
    && (forall a, b, c :: less(a, b) && less(b, c) ==> less(a, c))
    && (forall a, b :: a != b ==> less(a, b) || less(b, a))
  }

  /** The sequence holds every element of the set once, in ascending order. */
  ghost predicate Lists<K>(keys: seq<K>, s: set<K>, less: (K, K) -> bool) {
    && (forall i, j :: 0 <= i < j < |keys| ==> less(keys[i], keys[j]))
    && |keys| == |s|
    && (forall k :: 0 <= k < |keys| ==> keys[k] in s)
  }

  ghost predicate IsGreatest<K>(s: set<K>, less: (K, K) -> bool, m: K) {
    m in s && forall k :: k in s && k != m ==> less(k, m)
  }

  lemma {:induction false} GreatestExists<K(!new)>(s: set<K>, less: (K, K) -> bool) returns (m: K)
    requires StrictTotal(less) && s != {}
    ensures IsGreatest(s, less, m)
    decreases |s|
  {
    m :| m in s;
    if s != {m} {
      var rest := s - {m};
      var n := GreatestExists(rest, less);
      assert forall k :: k in s ==> k == m || k in rest;
      m := if less(n, m) then m else n;
    }
  }

  lemma {:induction false} ListingExists<K(!new)>(s: set<K>, less: (K, K) -> bool) returns (keys: seq<K>)
    requires StrictTotal(less)
    ensures Lists(keys, s, less)
    decreases |s|
  {
    if s == {} {
      keys := [];
    } else {
      var m := GreatestExists(s, less);
      keys := ListingExists(s - {m}, less);
      keys := keys + [m];
    }
  }

  lemma {:induction false} ListingHasAll<K(!new)>(keys: seq<K>, s: set<K>, less: (K, K) -> bool)
    requires StrictTotal(less) && Lists(keys, s, less)
    ensures forall k :: k in s ==> k in keys
  {
    if keys == [] {
    } else {
      var n := |keys| - 1;
      var rest := s - {keys[n]};
      assert forall i :: 0 <= i < n ==> less(keys[i], keys[n]);
      ListingHasAll(keys[..n], rest, less);
      assert forall k :: k in s ==> k == keys[n] || k in rest;
      assert keys == keys[..n] + [keys[n]];
    }
  }

  lemma LastIsGreatest<K(!new)>(keys: seq<K>, s: set<K>, less: (K, K) -> bool)
    requires StrictTotal(less) && Lists(keys, s, less) && keys != []
    ensures IsGreatest(s, less, keys[|keys| - 1])
  {
    ListingHasAll(keys, s, less);
  }

  /** There is only one ascending listing of a set, so "the" iteration order is well defined. */
  lemma {:induction false} ListingIsUnique<K(!new)>(a: seq<K>, b: seq<K>, s: set<K>, less: (K, K) -> bool)
    requires StrictTotal(less) && Lists(a, s, less) && Lists(b, s, less)
    ensures a == b
  {
    if a == [] {
    } else {
      var n := |a| - 1;
      LastIsGreatest(a, s, less);
      LastIsGreatest(b, s, less);
      assert a[n] == b[n];
      assert forall i :: 0 <= i < n ==> less(a[i], a[n]) && less(b[i], b[n]);
      ListingIsUnique(a[..n], b[..n], s - {a[n]}, less);
      assert a == a[..n] + [a[n]] && b == b[..n] + [b[n]];
    }
  }

  /** The keys of a map in the order its iterator visits them. */
  ghost function InOrder<K(!new)>(s: set<K>, less: (K, K) -> bool): (keys: seq<K>)
    requires StrictTotal(less)
    ensures Lists(keys, s, less)
    ensures forall k :: k in s ==> k in keys
  {
    assert exists keys :: Lists(keys, s, less) by { var keys := ListingExists(s, less); }
    var keys :| Lists(keys, s, less);
    ListingHasAll(keys, s, less);
    keys
  }

  method LeastOf<K(!new, ==)>(s: set<K>, less: (K, K) -> bool) returns (m: K)
    requires StrictTotal(less) && s != {}
    ensures m in s && forall k :: k in s && k != m ==> less(m, k)
  {
    m :| m in s;
    var rest := s - {m};
    while rest != {}
      invariant m in s && rest <= s
      invariant forall k :: k in s ==> k in rest || k == m || less(m, k)
      decreases rest
    {
      var k :| k in rest;
      if less(k, m) {
        m := k;
      }
      rest := rest - {k};
    }
  }

  lemma ListingGrows<K(!new)>(keys: seq<K>, s: set<K>, m: K, less: (K, K) -> bool)
    requires Lists(keys, s, less) && m !in s && forall k :: 0 <= k < |keys| ==> less(keys[k], m)
    ensures Lists(keys + [m], s + {m}, less)
  {
  }

  /** Stepping an iterator from `begin()` to `end()`. */
  method Iterate<K(!new, ==)>(s: set<K>, less: (K, K) -> bool) returns (keys: seq<K>)
    requires StrictTotal(less)
    ensures keys == InOrder(s, less)
  {
    keys := [];
    var rest := s;
    while rest != {}
      invariant rest <= s && Lists(keys, s - rest, less)
      invariant forall k, r :: 0 <= k < |keys| && r in rest ==> less(keys[k], r)
      decreases rest
    {
      var m := LeastOf(rest, less);
      assert s - (rest - {m}) == (s - rest) + {m};
      ListingGrows(keys, s - rest, m, less);
      rest := rest - {m};
      keys := keys + [m];
    }
    assert s - rest == s;
    ListingIsUnique(keys, InOrder(s, less), s, less);
  }

  // ----- Numeric ids -----

  function NatLess(a: nat, b: nat): bool { a < b }

  ghost predicate ListsIds(keys: seq<nat>, s: set<nat>) {
    && (forall i, j :: 0 <= i < j < |keys| ==> keys[i] < keys[j])
    && |keys| == |s|
    && (forall k :: 0 <= k < |keys| ==> keys[k] in s)
  }

  lemma ListsIdsIsLists(keys: seq<nat>, s: set<nat>)
    ensures ListsIds(keys, s) <==> Lists(keys, s, NatLess)
  {
    assert forall i, j :: 0 <= i < j < |keys| ==> (NatLess(keys[i], keys[j]) <==> keys[i] < keys[j]);
  }

  /** The keys of a map with numeric keys, in order. */
  ghost function Ids(s: set<nat>): (keys: seq<nat>)
    ensures ListsIds(keys, s)
    ensures forall k :: k in s ==> k in keys
  {
    ListsIdsIsLists(InOrder(s, NatLess), s);
    var keys :| ListsIds(keys, s);
    ListsIdsIsLists(keys, s);
    ListingHasAll(keys, s, NatLess);
    keys
  }

  method IterateIds(s: set<nat>) returns (keys: seq<nat>)
    ensures keys == Ids(s)
  {
    keys := Iterate(s, NatLess);
    ListsIdsIsLists(Ids(s), s);
    ListingIsUnique(keys, Ids(s), s, NatLess);
  }
}

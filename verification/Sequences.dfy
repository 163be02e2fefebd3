/** Searching sequences, and sequences without repeats. */
module Sequences {

  /** The first position whose element satisfies `p`, or the length when there is none. */
  function FirstWhere<T>(s: seq<T>, p: T -> bool): (n: nat)
    ensures n <= |s|
    ensures n < |s| ==> p(s[n])
    ensures forall j :: 0 <= j < n ==> !p(s[j])
  {
    if s == [] then 0
    else
      var n := FirstWhere(s[..|s| - 1], p);
      if n < |s| - 1 || p(s[|s| - 1]) then n else |s|
  }

  ghost predicate Distinct<T>(s: seq<T>) {
    forall i, j :: 0 <= i < j < |s| ==> s[i] != s[j]
  }

  lemma {:induction false} DistinctCount<T>(s: seq<T>)
    requires Distinct(s)
    ensures |set x | x in s| == |s|
  {
    if s == [] {
    } else {
      var n := |s| - 1;
      DistinctCount(s[..n]);
      assert (set x | x in s) == (set x | x in s[..n]) + {s[n]};
    }
  }

  lemma {:induction false} DistinctOnce<T>(s: seq<T>, k: nat)
    requires k < |s| && Distinct(s)
    ensures multiset(s)[s[k]] == 1
  {
    var n := |s| - 1;
    var front := s[..n];
    assert s == front + [s[n]];
    if k < n {
      DistinctOnce(front, k);
    } else {
      assert s[n] !in front;
    }
  }

  /** Two sequences of the same length that may differ only at positions in `lo..hi`. */
  ghost predicate SameOutside<T>(a: seq<T>, b: seq<T>, lo: nat, hi: nat) {
    |a| == |b| && forall k :: 0 <= k < |a| && !(lo <= k < hi) ==> a[k] == b[k]
  }

  lemma SameOutsideStep<T>(a: seq<T>, b: seq<T>, c: seq<T>, lo: nat, mid: nat, hi: nat)
    requires SameOutside(a, b, lo, mid) && SameOutside(b, c, mid, hi) && lo <= mid <= hi
    ensures SameOutside(a, c, lo, hi)
  {
  }
}

/** Concatenating a sequence of groups, as a nested loop visits them. */
module Flattening {

  function Flatten<T>(groups: seq<seq<T>>): seq<T> {
    if groups == [] then [] else Flatten(groups[..|groups| - 1]) + groups[|groups| - 1]
  }

  /** The position of an element within its group. */
  datatype Place = Place(group: nat, index: nat)

  predicate Before(a: Place, b: Place) {
    a.group < b.group || (a.group == b.group && a.index < b.index)
  }

  /** Where the k-th visited element sits; later visits sit at later places. */
  function PlaceOf<T>(groups: seq<seq<T>>, k: nat): (p: Place)
    requires k < |Flatten(groups)|
    ensures p.group < |groups| && p.index < |groups[p.group]|
    ensures Flatten(groups)[k] == groups[p.group][p.index]
  {
    var n := |groups| - 1;
    var before := |Flatten(groups[..n])|;
    if k < before then PlaceOf(groups[..n], k) else Place(n, k - before)
  }

  lemma {:induction false} PlacesAscend<T>(groups: seq<seq<T>>, a: nat, b: nat)
    requires a < b < |Flatten(groups)|
    ensures Before(PlaceOf(groups, a), PlaceOf(groups, b))
  {
    var n := |groups| - 1;
    if b < |Flatten(groups[..n])| {
      PlacesAscend(groups[..n], a, b);
    }
  }

  /** Every place is visited. */
  function VisitOf<T>(groups: seq<seq<T>>, p: Place): (k: nat)
    requires p.group < |groups| && p.index < |groups[p.group]|
    ensures k < |Flatten(groups)| && Flatten(groups)[k] == groups[p.group][p.index]
  {
    var n := |groups| - 1;
    if p.group < n then VisitOf(groups[..n], p) else |Flatten(groups[..n])| + p.index
  }

  lemma {:induction false} VisitIsPlace<T>(groups: seq<seq<T>>, p: Place)
    requires p.group < |groups| && p.index < |groups[p.group]|
    ensures PlaceOf(groups, VisitOf(groups, p)) == p
  {
    var n := |groups| - 1;
    if p.group == n {
    } else {
      VisitIsPlace(groups[..n], p);
    }
  }

  lemma FlattenStep<T>(groups: seq<seq<T>>, n: nat)
    requires n < |groups|
    ensures Flatten(groups[..n + 1]) == Flatten(groups[..n]) + groups[n]
  {
    assert groups[..n + 1][..n] == groups[..n];
  }

  lemma {:induction false} FlattenPrefix<T>(groups: seq<seq<T>>, g: nat)
    requires g <= |groups|
    ensures Flatten(groups[..g]) <= Flatten(groups)
    decreases |groups|
  {
    if g == |groups| {
      assert groups[..g] == groups;
    } else {
      FlattenPrefix(groups[..|groups| - 1], g);
      assert groups[..|groups| - 1][..g] == groups[..g];
    }
  }

  /** What two nested loops have visited: all of the first `g` groups, and `i` elements of the next. */
  ghost function Visited<T>(groups: seq<seq<T>>, g: nat, i: nat): seq<T>
    requires g < |groups| && i <= |groups[g]|
  {
    Flatten(groups[..g]) + groups[g][..i]
  }

  lemma VisitedStep<T>(groups: seq<seq<T>>, g: nat, i: nat)
    requires g < |groups| && i < |groups[g]|
    ensures Visited(groups, g, i + 1) == Visited(groups, g, i) + [groups[g][i]]
  {
  }

  lemma VisitedAll<T>(groups: seq<seq<T>>, g: nat)
    requires g < |groups|
    ensures Visited(groups, g, |groups[g]|) == Flatten(groups[..g + 1])
  {
    FlattenStep(groups, g);
    assert groups[g][..|groups[g]|] == groups[g];
  }

  lemma VisitedIsPrefix<T>(groups: seq<seq<T>>, g: nat, i: nat)
    requires g < |groups| && i <= |groups[g]|
    ensures Visited(groups, g, i) <= Flatten(groups)
  {
    FlattenPrefix(groups, g + 1);
    FlattenStep(groups, g);
  }

  /** Groupings of the same shape place their elements alike. */
  lemma {:induction false} SameShape<T, U>(a: seq<seq<T>>, b: seq<seq<U>>)
    requires |a| == |b| && forall j :: 0 <= j < |a| ==> |a[j]| == |b[j]|
    ensures |Flatten(a)| == |Flatten(b)|
    ensures forall k :: 0 <= k < |Flatten(a)| ==> PlaceOf(a, k) == PlaceOf(b, k)
  {
    if a == [] {
    } else {
      SameShape(a[..|a| - 1], b[..|b| - 1]);
    }
  }
}

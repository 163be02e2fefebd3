/** The chained functors that build a metrics description, and what a run of calls leaves behind. */
module Builder {
  import opened Pcp
  import opened FirstWins
  import opened Sequences
  import opened Catalog

  // ----- Specification: a builder state and the effect of one call -----

  datatype State = State(catalog: Catalog, current: Option<nat>)

  datatype Call = OpenCluster(id: nat, name: string) | AddMetric(item: nat, desc: MetricDescription)

  predicate Fails(st: State, call: Call) { call.AddMetric? && st.current.None? }

  function Apply(st: State, call: Call): State
    requires st.current.Some? ==> st.current.value in st.catalog
  {
    match call
    case OpenCluster(id, name) =>
      State(Insert(st.catalog, id, Cluster(id, name, map[])), Some(id))
    case AddMetric(item, desc) =>
      if st.current.None? then st
      else
        var c := st.catalog[st.current.value];
        st.(catalog := st.catalog[st.current.value := c.(metrics := Insert(c.metrics, item, desc))])
  }

  /** The state after a run of calls on an empty description; a call that throws leaves the description as it was. */
  function Run(calls: seq<Call>): (st: State)
    ensures st.current.Some? ==> st.current.value in st.catalog
  {
    if calls == [] then State(map[], None)
    else Apply(Run(calls[..|calls| - 1]), calls[|calls| - 1])
  }

  // ----- The classes -----

  class MetricCluster {
    const clusterId: nat
    const clusterName: string
    var metrics: map<nat, MetricDescription>

    constructor (id: nat, name: string)
      ensures clusterId == id && clusterName == name && metrics == map[]
    {
      clusterId, clusterName, metrics := id, name, map[];
    }

    method Add(item: nat, desc: MetricDescription)
      modifies this
      ensures metrics == Insert(old(metrics), item, desc)
    {
      if item !in metrics {
        metrics := metrics[item := desc];
      }
    }
  }

  class MetricsDescription {
    var clusters: map<nat, MetricCluster>
    var mostRecent: Option<nat>

    ghost predicate Valid()
      reads this
    {
      && (mostRecent.Some? ==> mostRecent.value in clusters)
      && (forall c :: c in clusters ==> clusters[c].clusterId == c)
    }

    /** The value the object denotes: its clusters, and the cluster that metrics are added to. */
    ghost function Value(): State
      reads this, clusters.Values
    {
      State(map c | c in clusters :: Cluster(clusters[c].clusterId, clusters[c].clusterName, clusters[c].metrics),
            mostRecent)
    }

    constructor ()
      ensures Valid() && Value() == Run([]) && clusters == map[]
    {
      clusters, mostRecent := map[], None;
    }

    /** The cluster functor: insert if the id is new, and in either case make that id the current cluster. */
    method Open(id: nat, name: string)
      requires Valid()
      modifies this
      ensures Valid()
      ensures Value() == Apply(old(Value()), OpenCluster(id, name))
      ensures forall c :: c in clusters ==>
                (c in old(clusters) && clusters[c] == old(clusters)[c]) || fresh(clusters[c])
    {
      if id !in clusters {
        var cluster := new MetricCluster(id, name);
        clusters := clusters[id := cluster];
      }
      mostRecent := Some(id);
    }

    /** The metric functors: throw without a current cluster, else add to it unless the item is taken. */
    method Add(item: nat, desc: MetricDescription) returns (thrown: Option<Thrown>)
      requires Valid()
      modifies clusters.Values
      ensures Valid()
      ensures thrown == if Fails(old(Value()), AddMetric(item, desc)) then Some(PcpException(PmErrGeneric)) else None
      ensures Value() == Apply(old(Value()), AddMetric(item, desc))
    {
      if mostRecent.None? {
        return Some(PcpException(PmErrGeneric));
      }
      var target := clusters[mostRecent.value];
      target.Add(item, desc);
      assert forall c :: c in clusters && c != mostRecent.value ==> clusters[c] != target;
      return None;
    }
  }

  // ----- What a run of calls means -----

  /** The cluster that is current after some calls: the one opened last. */
  function CurrentAfter(calls: seq<Call>): Option<nat> {
    if calls == [] then None
    else
      var last := calls[|calls| - 1];
      if last.OpenCluster? then Some(last.id) else CurrentAfter(calls[..|calls| - 1])
  }

  /** The k-th call opens cluster `c`. */
  predicate Opens(calls: seq<Call>, k: nat, c: nat) {
    k < |calls| && calls[k].OpenCluster? && calls[k].id == c
  }

  /** The k-th call adds item `i` while cluster `c` is current. */
  predicate Adds(calls: seq<Call>, k: nat, c: nat, i: nat) {
    k < |calls| && calls[k].AddMetric? && calls[k].item == i && CurrentAfter(calls[..k]) == Some(c)
  }

  lemma {:induction false} CurrentIsLastOpened(calls: seq<Call>)
    ensures Run(calls).current == CurrentAfter(calls)
  {
    if calls == [] {
    } else {
      CurrentIsLastOpened(calls[..|calls| - 1]);
    }
  }

  /** A metric call throws exactly when no cluster call came before it. */
  lemma {:induction false} FailsWithoutCluster(calls: seq<Call>, k: nat)
    requires k < |calls|
    ensures Fails(Run(calls[..k]), calls[k])
      <==> calls[k].AddMetric? && forall j :: 0 <= j < k ==> !calls[j].OpenCluster?
    decreases k
  {
    CurrentIsLastOpened(calls[..k]);
    NoneMeansNoneOpened(calls[..k]);
  }

  lemma {:induction false} NoneMeansNoneOpened(calls: seq<Call>)
    ensures CurrentAfter(calls).None? <==> forall j :: 0 <= j < |calls| ==> !calls[j].OpenCluster?
  {
    if calls == [] {
    } else {
      var front := calls[..|calls| - 1];
      NoneMeansNoneOpened(front);
      assert forall j :: 0 <= j < |front| ==> calls[j] == front[j];
    }
  }

  lemma {:induction false} KeysAreIds(calls: seq<Call>)
    ensures KeyedById(Run(calls).catalog)
  {
    if calls == [] {
    } else {
      KeysAreIds(calls[..|calls| - 1]);
    }
  }

  /** The first call that opens cluster `c`, or the number of calls when none does. */
  function FirstOpen(calls: seq<Call>, c: nat): (n: nat)
    ensures n <= |calls| && (n < |calls| ==> Opens(calls, n, c))
    ensures forall j: nat :: j < n ==> !Opens(calls, j, c)
  {
    FirstWhere(calls, (call: Call) => call.OpenCluster? && call.id == c)
  }

  /** The first call that adds item `i` while cluster `c` is current, or the number of calls when none does. */
  function FirstAdd(calls: seq<Call>, c: nat, i: nat): (n: nat)
    ensures n <= |calls| && (n < |calls| ==> Adds(calls, n, c, i))
    ensures forall j: nat :: j < n ==> !Adds(calls, j, c, i)
  {
    if calls == [] then 0
    else
      var front := calls[..|calls| - 1];
      assert forall j: nat {:trigger calls[..j]} :: j < |front| ==> front[..j] == calls[..j];
      assert forall j: nat :: j < |front| ==> Adds(front, j, c, i) == Adds(calls, j, c, i);
      var n := FirstAdd(front, c, i);
      if n < |front| || Adds(calls, |front|, c, i) then n else |calls|
  }

  /** A cluster exists iff it was opened, and re-opening it changes neither its name nor its contents. */
  lemma {:induction false} ClusterIsFirstOpened(calls: seq<Call>, c: nat)
    ensures var cat, n := Run(calls).catalog, FirstOpen(calls, c);
            (c in cat <==> n < |calls|) && (n < |calls| ==> cat[c].id == c && cat[c].name == calls[n].name)
  {
    if calls == [] {
    } else {
      ClusterIsFirstOpened(calls[..|calls| - 1], c);
    }
  }

  /** An item exists in a cluster iff it was added while that cluster was current, with the first description so
      added. */
  lemma {:induction false} MetricIsFirstAdded(calls: seq<Call>, c: nat, i: nat)
    ensures var cat, n := Run(calls).catalog, FirstAdd(calls, c, i);
            (c in cat && i in cat[c].metrics <==> n < |calls|) && (n < |calls| ==> Describes(cat, c, i, calls[n].desc))
  {
    if calls == [] {
    } else {
      var front := calls[..|calls| - 1];
      MetricIsFirstAdded(front, c, i);
      CurrentIsLastOpened(front);
    }
  }
}

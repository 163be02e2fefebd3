/** Instance domains, metric descriptions and the value that a metrics description denotes. */
module Catalog {
  import opened Pcp
  import opened FirstWins
  import opened Flattening
  import opened OrderedKeys

  datatype InstanceInfo = InstanceInfo(name: string, shortText: string, verboseText: string)

  /** `pcp::instance_domain`. Other structures refer to it by pointer, so its identity matters. */
  class InstanceDomain {
    var domainId: nat
    var pmInstanceDomain: nat
    var instances: map<nat, InstanceInfo>

    constructor (id: nat := PM_INDOM_NULL)
      ensures domainId == id && pmInstanceDomain == PM_INDOM_NULL && instances == map[]
    {
      domainId, pmInstanceDomain, instances := id, PM_INDOM_NULL, map[];
    }

    method SetPmInstanceDomain(indom: nat)
      modifies `pmInstanceDomain
      ensures pmInstanceDomain == indom
    {
      pmInstanceDomain := indom;
    }

    /** The functor that renumbers the domain also forgets the identifier that PCP had given it. */
    method Renumber(id: nat)
      modifies `domainId, `pmInstanceDomain
      ensures domainId == id && pmInstanceDomain == PM_INDOM_NULL
    {
      domainId := id;
      pmInstanceDomain := PM_INDOM_NULL;
    }

    /** The insertion functor: an instance id that is present keeps its first description. */
    method AddInstance(id: nat, info: InstanceInfo)
      modifies `instances
      ensures instances == Insert(old(instances), id, info)
    {
      if id !in instances {
        instances := instances[id := info];
      }
    }
  }

  datatype Units = Units(dimSpace: int, dimTime: int, dimCount: int, scaleSpace: int, scaleTime: int, scaleCount: int)

  datatype MetricDescription = MetricDescription(
    name: string, typ: nat, semantic: nat, units: Units, domain: InstanceDomain?,
    shortText: string, verboseText: string, opaquePointer: nat, storable: bool)

  datatype Cluster = Cluster(id: nat, name: string, metrics: map<nat, MetricDescription>)

  /** The contents of a `metrics_description`. */
  type Catalog = map<nat, Cluster>

  /** What the builder guarantees: a cluster is filed under its own id. */
  ghost predicate KeyedById(cat: Catalog) {
    forall c :: c in cat ==> cat[c].id == c
  }

  // ----- Iteration -----

  /** One step of the nested iteration that every traversal performs. */
  datatype Row = Row(cluster: nat, item: nat, desc: MetricDescription)

  predicate Holds(c: Cluster, row: Row) {
    row.cluster == c.id && row.item in c.metrics && row.desc == c.metrics[row.item]
  }

  /** The metrics of a cluster in the order of iteration. */
  ghost function ClusterRows(c: Cluster): (rows: seq<Row>)
    ensures |rows| == |c.metrics|
    ensures forall k :: 0 <= k < |rows| ==> Holds(c, rows[k]) && rows[k].item == Ids(c.metrics.Keys)[k]
  {
    var items := Ids(c.metrics.Keys);
    assert forall k :: 0 <= k < |items| ==> items[k] in c.metrics;
    seq(|items|, k requires 0 <= k < |items| => Row(c.id, items[k], c.metrics[items[k]]))
  }

  lemma ClusterRowIndex(c: Cluster, i: nat) returns (k: nat)
    requires i in c.metrics
    ensures k < |ClusterRows(c)| && ClusterRows(c)[k] == Row(c.id, i, c.metrics[i])
  {
    k :| 0 <= k < |Ids(c.metrics.Keys)| && Ids(c.metrics.Keys)[k] == i;
  }

  /** The clusters in the order of iteration. */
  ghost function Clusters(cat: Catalog): (cs: seq<Cluster>)
    ensures |cs| == |cat|
  {
    var ids := Ids(cat.Keys);
    assert forall k :: 0 <= k < |ids| ==> ids[k] in cat;
    seq(|ids|, k requires 0 <= k < |ids| => cat[ids[k]])
  }

  ghost function Groups(cs: seq<Cluster>): (groups: seq<seq<Row>>)
    ensures |groups| == |cs|
    ensures forall j :: 0 <= j < |cs| ==> groups[j] == ClusterRows(cs[j])
  {
    seq(|cs|, j requires 0 <= j < |cs| => ClusterRows(cs[j]))
  }

  ghost function Rows(cat: Catalog): seq<Row> { Flatten(Groups(Clusters(cat))) }

  predicate RowLess(a: Row, b: Row) {
    a.cluster < b.cluster || (a.cluster == b.cluster && a.item < b.item)
  }

  predicate Describes(cat: Catalog, cluster: nat, item: nat, desc: MetricDescription) {
    cluster in cat && item in cat[cluster].metrics && cat[cluster].metrics[item] == desc
  }

  ghost predicate AscendingRows(rows: seq<Row>) {
    forall a, b :: 0 <= a < b < |rows| ==> RowLess(rows[a], rows[b])
  }

  lemma ClustersInOrder(cat: Catalog)
    ensures var cs, ids := Clusters(cat), Ids(cat.Keys);
            |cs| == |ids| && forall j :: 0 <= j < |ids| ==> ids[j] in cat && cs[j] == cat[ids[j]]
  {
  }

  /** What the nested iteration finds at its g-th cluster and that cluster's i-th metric. */
  lemma RowAt(cat: Catalog, g: nat, i: nat)
    requires g < |cat| && i < |Groups(Clusters(cat))[g]|
    ensures var c := cat[Ids(cat.Keys)[g]];
            && |Groups(Clusters(cat))[g]| == |Ids(c.metrics.Keys)| && Ids(c.metrics.Keys)[i] in c.metrics
            && Groups(Clusters(cat))[g][i] == Row(c.id, Ids(c.metrics.Keys)[i], c.metrics[Ids(c.metrics.Keys)[i]])
  {
    ClustersInOrder(cat);
    assert Holds(Clusters(cat)[g], ClusterRows(Clusters(cat)[g])[i]);
  }

  /** The nested iteration visits every described metric, nothing else, in strict lexicographic order (so each once). */
  lemma RowsAreTheCatalog(cat: Catalog)
    requires KeyedById(cat)
    ensures var rows := Rows(cat);
            && (forall k :: 0 <= k < |rows| ==> Describes(cat, rows[k].cluster, rows[k].item, rows[k].desc))
            && (forall c, i :: c in cat && i in cat[c].metrics ==> Row(c, i, cat[c].metrics[i]) in rows)
            && AscendingRows(rows)
  {
    var cs, rows, ids := Clusters(cat), Rows(cat), Ids(cat.Keys);
    var groups := Groups(cs);
    ClustersInOrder(cat);
    forall k | 0 <= k < |rows| ensures Describes(cat, rows[k].cluster, rows[k].item, rows[k].desc) {
      var p := PlaceOf(groups, k);
      assert Holds(cs[p.group], groups[p.group][p.index]);
    }
    forall c, i | c in cat && i in cat[c].metrics ensures Row(c, i, cat[c].metrics[i]) in rows {
      var j :| 0 <= j < |ids| && ids[j] == c;
      var n := ClusterRowIndex(cs[j], i);
      assert rows[VisitOf(groups, Place(j, n))] == Row(c, i, cat[c].metrics[i]);
    }
    forall a, b | 0 <= a < b < |rows| ensures RowLess(rows[a], rows[b]) {
      PlacesAscend(groups, a, b);
      var p, q := PlaceOf(groups, a), PlaceOf(groups, b);
      assert Holds(cs[p.group], groups[p.group][p.index]) && Holds(cs[q.group], groups[q.group][q.index]);
      assert p.group < q.group ==> ids[p.group] < ids[q.group];
    }
  }

  /** The rows are in strict lexicographic order. */
  lemma RowOrder(cat: Catalog, j: nat, k: nat)
    requires KeyedById(cat) && j < |Rows(cat)| && k < |Rows(cat)|
    ensures RowLess(Rows(cat)[j], Rows(cat)[k]) <==> j < k
  {
    RowsAreTheCatalog(cat);
  }

  lemma RowOfPair(cat: Catalog, c: nat, i: nat) returns (j: nat)
    requires KeyedById(cat) && c in cat && i in cat[c].metrics
    ensures j < |Rows(cat)| && Rows(cat)[j] == Row(c, i, cat[c].metrics[i])
  {
    RowsAreTheCatalog(cat);
    j :| 0 <= j < |Rows(cat)| && Rows(cat)[j] == Row(c, i, cat[c].metrics[i]);
  }
}

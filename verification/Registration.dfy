/** Compiling a metrics description into the two tables that PCP works from. */
module Registration {
  import opened Pcp
  import opened Sequences
  import opened OrderedKeys
  import opened Flattening
  import opened Catalog

  datatype PmDesc = PmDesc(pmid: nat, typ: nat, indom: nat, semantic: nat, units: Units)

  datatype PmdaMetric = PmdaMetric(user: nat, desc: PmDesc)

  datatype Instid = Instid(inst: nat, name: string)

  datatype PmdaIndom = PmdaIndom(itIndom: nat, itNuminst: nat, itSet: seq<Instid>)

  /** The conversion of a description to a `pmDesc`; the identifiers are left for the caller to fill in. */
  function ToPmDesc(d: MetricDescription): (r: PmDesc)
    ensures r.typ == d.typ && r.semantic == d.semantic && r.units == d.units
    ensures r.pmid == 0 && r.indom == PM_INDOM_NULL
  {
    PmDesc(0, d.typ, PM_INDOM_NULL, d.semantic, d.units)
  }

  // ----- Specification: interning domains by first use -----

  /** The distinct domain objects that the rows use, in order of first use. */
  function FirstUse(rows: seq<Row>): seq<InstanceDomain> {
    if rows == [] then []
    else
      var order, d := FirstUse(rows[..|rows| - 1]), rows[|rows| - 1].desc.domain;
      if d == null || d in order then order else order + [d]
  }

  function Position(order: seq<InstanceDomain>, d: InstanceDomain): (p: nat)
    ensures p <= |order|
    ensures p < |order| ==> order[p] == d
    ensures d in order <==> p < |order|
  {
    if order == [] || order[0] == d then 0 else 1 + Position(order[1..], d)
  }

  /** The table row for a metric, given the interning order of the domains. */
  function TableRow(row: Row, order: seq<InstanceDomain>): PmdaMetric {
    var indom := if row.desc.domain == null then PM_INDOM_NULL else Position(order, row.desc.domain);
    PmdaMetric(row.desc.opaquePointer, ToPmDesc(row.desc).(pmid := PmId(row.cluster, row.item), indom := indom))
  }

  /** What a metric's table row must say, field by field. */
  ghost predicate RowSays(metric: PmdaMetric, row: Row, order: seq<InstanceDomain>) {
    && metric.user == row.desc.opaquePointer
    && metric.desc.typ == row.desc.typ && metric.desc.semantic == row.desc.semantic
    && metric.desc.units == row.desc.units
    && PmIdCluster(metric.desc.pmid) == row.cluster % CLUSTERS && PmIdItem(metric.desc.pmid) == row.item % ITEMS
    && if row.desc.domain == null then metric.desc.indom == PM_INDOM_NULL
       else metric.desc.indom < |order| && order[metric.desc.indom] == row.desc.domain
  }

  lemma TableRowSays(rows: seq<Row>, k: nat)
    requires k < |rows|
    ensures RowSays(TableRow(rows[k], FirstUse(rows)), rows[k], FirstUse(rows))
  {
    DomainBitsKeepIds(0, rows[k].cluster, rows[k].item);
    if rows[k].desc.domain != null {
      InternedIffUsed(rows, rows[k].desc.domain);
    }
  }

  lemma FirstUseStep(rows: seq<Row>, row: Row)
    ensures var order, d := FirstUse(rows), row.desc.domain;
            FirstUse(rows + [row]) == if d == null || d in order then order else order + [d]
  {
    assert (rows + [row])[..|rows|] == rows;
  }

  /** The first row that uses a domain, or the number of rows when none does. */
  function FirstUser(rows: seq<Row>, d: InstanceDomain): (n: nat)
    ensures n <= |rows|
    ensures n < |rows| ==> rows[n].desc.domain == d
    ensures forall k :: 0 <= k < n ==> rows[k].desc.domain != d
  {
    FirstWhere(rows, (row: Row) => row.desc.domain == d)
  }

  /** Exactly the domains that some row uses are interned. */
  lemma {:induction false} InternedIffUsed(rows: seq<Row>, d: InstanceDomain)
    ensures d in FirstUse(rows) <==> FirstUser(rows, d) < |rows|
  {
    if rows == [] {
    } else {
      InternedIffUsed(rows[..|rows| - 1], d);
    }
  }

  /** Domains are interned in the order of their first use, so each one once. */
  lemma {:induction false} InternedInOrder(rows: seq<Row>, i: nat, j: nat)
    requires i < j < |FirstUse(rows)|
    ensures FirstUser(rows, FirstUse(rows)[i]) < FirstUser(rows, FirstUse(rows)[j])
  {
    var last := |rows| - 1;
    var front := rows[..last];
    var order := FirstUse(front);
    InternedIffUsed(front, FirstUse(rows)[i]);
    if j < |order| {
      InternedIffUsed(front, order[j]);
      InternedInOrder(front, i, j);
    } else {
      InternedIffUsed(front, rows[last].desc.domain);
    }
  }

  lemma FirstUseDistinct(rows: seq<Row>)
    ensures Distinct(FirstUse(rows))
  {
    forall i, j | 0 <= i < j < |FirstUse(rows)| ensures FirstUse(rows)[i] != FirstUse(rows)[j] {
      InternedInOrder(rows, i, j);
    }
  }

  lemma {:induction false} FirstUsePrefix(rows: seq<Row>, k: nat)
    requires k <= |rows|
    ensures FirstUse(rows[..k]) <= FirstUse(rows)
    decreases |rows|
  {
    if k == |rows| {
      assert rows[..k] == rows;
    } else {
      var front := rows[..|rows| - 1];
      FirstUsePrefix(front, k);
      assert front[..k] == rows[..k];
    }
  }

  lemma {:induction false} PositionInPrefix(order: seq<InstanceDomain>, more: seq<InstanceDomain>, d: InstanceDomain)
    requires order <= more && d in order
    ensures Position(more, d) == Position(order, d)
  {
    if order[0] != d {
      PositionInPrefix(order[1..], more[1..], d);
    }
  }

  /** The domain objects that the rows use. */
  function DomainSet(rows: seq<Row>): set<InstanceDomain> {
    set d: InstanceDomain | d in FirstUse(rows)
  }

  lemma DomainSetStep(rows: seq<Row>, row: Row)
    ensures DomainSet(rows + [row]) ==
            if row.desc.domain == null then DomainSet(rows) else DomainSet(rows) + {row.desc.domain}
  {
    FirstUseStep(rows, row);
  }

  lemma DomainCount(rows: seq<Row>)
    ensures |DomainSet(rows)| == |FirstUse(rows)|
  {
    FirstUseDistinct(rows);
    DistinctCount(FirstUse(rows));
  }

  /** What an instance set must be: every instance of the domain, ascending by id. */
  ghost predicate ListsInstances(ids: seq<Instid>, instances: map<nat, InstanceInfo>) {
    && |ids| == |instances|
    && (forall k :: 0 <= k < |ids| ==> ids[k].inst in instances && ids[k].name == instances[ids[k].inst].name)
    && (forall i, j :: 0 <= i < j < |ids| ==> ids[i].inst < ids[j].inst)
  }

  // ----- The traversals -----

  /** The rows of the first `g` clusters. */
  ghost function RowsBefore(cat: Catalog, g: nat): seq<Row>
    requires g <= |cat|
  {
    Flatten(Groups(Clusters(cat))[..g])
  }

  lemma AllRowsBefore(cat: Catalog)
    ensures RowsBefore(cat, |cat|) == Rows(cat)
  {
    assert Groups(Clusters(cat))[..|cat|] == Groups(Clusters(cat));
  }

  /** `count_metrics`: the number of rows, and the number of distinct domain objects. */
  method CountMetrics(cat: Catalog) returns (metricCount: nat, indomCount: nat)
    ensures metricCount == |Rows(cat)|
    ensures indomCount == |DomainSet(Rows(cat))|
  {
    ghost var groups, visited: seq<Row> := Groups(Clusters(cat)), [];
    var domains: set<InstanceDomain> := {};
    metricCount := 0;
    var clusterIds := IterateIds(cat.Keys);
    for g := 0 to |clusterIds|
      invariant visited == Flatten(groups[..g])
      invariant metricCount == |visited| && domains == DomainSet(visited)
    {
      var cluster := cat[clusterIds[g]];
      var items := IterateIds(cluster.metrics.Keys);
      for i := 0 to |items|
        invariant visited == Visited(groups, g, i)
        invariant metricCount == |visited| && domains == DomainSet(visited)
      {
        var description := cluster.metrics[items[i]];
        assert groups[g][i].desc == description;
        DomainSetStep(visited, groups[g][i]);
        VisitedStep(groups, g, i);
        if description.domain != null {
          domains := domains + {description.domain};
        }
        metricCount := metricCount + 1;
        visited := visited + [groups[g][i]];
      }
      VisitedAll(groups, g);
    }
    assert groups[..|clusterIds|] == groups;
    indomCount := |domains|;
  }

  /** `allocate_pmda_indom` */
  method AllocatePmdaIndom(domain: InstanceDomain) returns (indom: PmdaIndom, itSet: array<Instid>)
    ensures BuiltFrom(indom, domain)
    ensures fresh(itSet) && itSet.Length == |domain.instances| && indom.itSet == itSet[..]
  {
    var keys := IterateIds(domain.instances.Keys);
    itSet := new Instid[|keys|];
    for index := 0 to |keys|
      invariant forall k :: 0 <= k < index ==> itSet[k] == Instid(keys[k], domain.instances[keys[k]].name)
    {
      itSet[index] := Instid(keys[index], domain.instances[keys[index]].name);
    }
    indom := PmdaIndom(domain.domainId, |keys|, itSet[..]);
  }

  /** The domains met so far: the map from a domain object to its index, and the list in order of first use. */
  datatype Interning = Interning(ids: map<InstanceDomain, nat>, domains: seq<InstanceDomain>)

  /** The map and the list are mutually inverse. */
  ghost predicate Inverse(known: Interning) {
    match known
    case Interning(ids, domains) =>
      && |ids| == |domains|
      && (forall j :: 0 <= j < |domains| ==> domains[j] in ids && ids[domains[j]] == j)
      && (forall d :: d in ids ==> ids[d] < |domains| && domains[ids[d]] == d)
  }

  /** An instance domain table entry that was allocated for this very domain object. */
  ghost predicate BuiltFrom(indom: PmdaIndom, d: InstanceDomain)
    reads d
  {
    indom.itIndom == d.domainId && indom.itNuminst == |d.instances| && ListsInstances(indom.itSet, d.instances)
  }

  /** A row's table entry does not change as later domains are interned. */
  lemma RowIsStable(visited: seq<Row>, more: seq<InstanceDomain>, k: nat)
    requires FirstUse(visited) <= more && k < |visited|
    ensures TableRow(visited[k], FirstUse(visited)) == TableRow(visited[k], more)
  {
    var d := visited[k].desc.domain;
    if d != null {
      InternedIffUsed(visited, d);
      PositionInPrefix(FirstUse(visited), more, d);
    }
  }

  lemma PositionIsId(known: Interning, d: InstanceDomain)
    requires Inverse(known)
    ensures d in known.ids <==> d in known.domains
    ensures d in known.ids ==> Position(known.domains, d) == known.ids[d]
  {
    var p := Position(known.domains, d);
    if p < |known.domains| {
      assert known.ids[known.domains[p]] == p;
    }
  }

  /** A slot remains to be filled for each row that is still to come, and for each domain that it introduces. */
  lemma RoomForRow(rows: seq<Row>, visited: seq<Row>, row: Row)
    requires visited + [row] <= rows
    ensures |visited| < |rows|
    ensures |FirstUse(visited + [row])| <= |FirstUse(rows)|
  {
    var k := |visited| + 1;
    assert rows[..k] == visited + [row];
    FirstUsePrefix(rows, k);
  }

  ghost predicate MetricsFilled(visited: seq<Row>, domains: seq<InstanceDomain>, metricTable: array<PmdaMetric>)
    reads metricTable
  {
    && |visited| <= metricTable.Length
    && forall k :: 0 <= k < |visited| ==> metricTable[k] == TableRow(visited[k], domains)
  }

  ghost predicate IndomsFilled(domains: seq<InstanceDomain>, indomTable: array<PmdaIndom>)
    reads indomTable, domains
  {
    && |domains| <= indomTable.Length
    && forall j :: 0 <= j < |domains| ==> BuiltFrom(indomTable[j], domains[j])
  }

  /** A new domain object gets the next index. */
  function Extended(known: Interning, d: InstanceDomain): Interning {
    Interning(known.ids[d := |known.ids|], known.domains + [d])
  }

  lemma InverseExtends(known: Interning, d: InstanceDomain)
    requires Inverse(known) && d !in known.ids
    ensures Inverse(Extended(known, d)) && Position(Extended(known, d).domains, d) == |known.domains|
  {
    PositionIsId(Extended(known, d), d);
  }

  /** Write counts after the first `n` slots of a table have been written once. */
  ghost function Once(n: nat, length: nat): (writes: seq<nat>)
    ensures |writes| == length && forall k :: 0 <= k < length ==> writes[k] == if k < n then 1 else 0
  {
    seq(length, k => if k < n then 1 else 0)
  }

  /** One more write to a slot. */
  ghost function Wrote(writes: seq<nat>, k: nat): (writes': seq<nat>)
    requires k < |writes|
    ensures |writes'| == |writes| && writes'[k] == writes[k] + 1
    ensures forall j :: 0 <= j < |writes| && j != k ==> writes'[j] == writes[j]
  {
    writes[k := writes[k] + 1]
  }

  lemma OnceStep(n: nat, length: nat)
    requires n < length
    ensures Wrote(Once(n, length), n) == Once(n + 1, length)
  {
  }

  method StoreIndom(domain: InstanceDomain, domains: seq<InstanceDomain>, indomTable: array<PmdaIndom>,
                    ghost writes: seq<nat>)
    returns (ghost writes': seq<nat>)
    requires IndomsFilled(domains, indomTable) && |domains| < indomTable.Length == |writes|
    modifies indomTable
    ensures IndomsFilled(domains + [domain], indomTable)
    ensures forall j :: 0 <= j < indomTable.Length && j != |domains| ==> indomTable[j] == old(indomTable[j])
    ensures writes' == Wrote(writes, |domains|)
  {
    var entry, _ := AllocatePmdaIndom(domain);
    indomTable[|domains|] := entry;
    writes' := Wrote(writes, |domains|);
    assert forall j :: 0 <= j < |domains| ==> indomTable[j] == old(indomTable[j]);
  }

  /** Look a domain object up by identity, allocating its table entry the first time it is met. */
  method Intern(domain: InstanceDomain, known: Interning, indomTable: array<PmdaIndom>, ghost writes: seq<nat>)
    returns (indom: nat, known': Interning, ghost writes': seq<nat>)
    requires Inverse(known) && IndomsFilled(known.domains, indomTable) && |writes| == indomTable.Length
    requires domain !in known.domains ==> |known.domains| < indomTable.Length
    modifies indomTable
    ensures known' == if domain in known.domains then known else Extended(known, domain)
    ensures Inverse(known') && indom == Position(known'.domains, domain) < |known'.domains|
    ensures IndomsFilled(known'.domains, indomTable)
    ensures forall j :: 0 <= j < indomTable.Length && (j != |known.domains| || known' == known) ==>
              indomTable[j] == old(indomTable[j])
    ensures writes' == if known' == known then writes else Wrote(writes, |known.domains|)
  {
    PositionIsId(known, domain);
    known', writes' := known, writes;
    var inserted := domain !in known.ids;
    if inserted {
      InverseExtends(known, domain);
      known' := known'.(ids := known.ids[domain := |known.ids|]);
    }
    indom := known'.ids[domain];
    assert indom < indomTable.Length;
    if inserted {
      writes' := StoreIndom(domain, known.domains, indomTable, writes);
      known' := known'.(domains := known.domains + [domain]);
      assert |known'.ids| == |known'.domains|;
    }
  }

  method StoreMetric(entry: PmdaMetric, ghost row: Row, ghost visited: seq<Row>, ghost domains: seq<InstanceDomain>,
                     metricTable: array<PmdaMetric>, metricIndex: nat, ghost writes: seq<nat>)
    returns (ghost writes': seq<nat>)
    requires metricIndex == |visited| < metricTable.Length == |writes| && entry == TableRow(row, domains)
    requires FirstUse(visited) <= domains && MetricsFilled(visited, FirstUse(visited), metricTable)
    modifies metricTable
    ensures MetricsFilled(visited + [row], domains, metricTable)
    ensures forall k :: 0 <= k < metricTable.Length && k != metricIndex ==> metricTable[k] == old(metricTable[k])
    ensures writes' == Wrote(writes, metricIndex)
  {
    metricTable[metricIndex] := entry;
    writes' := Wrote(writes, metricIndex);
    forall k | 0 <= k < |visited| ensures metricTable[k] == TableRow(visited[k], domains) {
      assert metricTable[k] == old(metricTable[k]);
      RowIsStable(visited, domains, k);
    }
  }

  /** The state of the traversal after some rows. */
  ghost predicate Filled(visited: seq<Row>, known: Interning, indomTable: array<PmdaIndom>,
                         metricTable: array<PmdaMetric>)
    reads indomTable, metricTable, known.domains
  {
    match known
    case Interning(_, domains) =>
      && domains == FirstUse(visited) && Inverse(known)
      && MetricsFilled(visited, domains, metricTable) && IndomsFilled(domains, indomTable)
  }

  /** How often the slots of both tables have been written. */
  datatype Writes = Writes(metrics: seq<nat>, indoms: seq<nat>)

  predicate CountsSlots(writes: Writes, indomTable: array<PmdaIndom>, metricTable: array<PmdaMetric>) {
    match writes
    case Writes(metrics, indoms) => |metrics| == metricTable.Length && |indoms| == indomTable.Length
  }

  /** The write counts after one row: its own slot, and the next domain slot if its domain is new. */
  ghost function WritesAfter(writes: Writes, metricIndex: nat, known: Interning, known': Interning): Writes
    requires metricIndex < |writes.metrics| && (known' != known ==> |known.domains| < |writes.indoms|)
  {
    Writes(Wrote(writes.metrics, metricIndex),
           if known' == known then writes.indoms else Wrote(writes.indoms, |known.domains|))
  }

  /** The instance domain identifier of one metric: the index of its domain object, or the null identifier. */
  method IndomFor(domain: InstanceDomain?, ghost visited: seq<Row>, ghost row: Row, known: Interning,
                  indomTable: array<PmdaIndom>, ghost writes: seq<nat>)
    returns (indom: nat, known': Interning, ghost writes': seq<nat>)
    requires Inverse(known) && IndomsFilled(known.domains, indomTable) && |writes| == indomTable.Length
    requires domain == row.desc.domain && known.domains == FirstUse(visited)
    requires |FirstUse(visited + [row])| <= indomTable.Length
    modifies indomTable
    ensures known'.domains == FirstUse(visited + [row]) && known.domains <= known'.domains
    ensures known' == known || |known'.domains| == |known.domains| + 1
    ensures indom == TableRow(row, known'.domains).desc.indom
    ensures Inverse(known') && IndomsFilled(known'.domains, indomTable)
    ensures forall j :: 0 <= j < indomTable.Length && (j != |known.domains| || known' == known) ==>
              indomTable[j] == old(indomTable[j])
    ensures writes' == if known' == known then writes else Wrote(writes, |known.domains|)
  {
    FirstUseStep(visited, row);
    if domain != null {
      indom, known', writes' := Intern(domain, known, indomTable, writes);
    } else {
      indom, known', writes' := PM_INDOM_NULL, known, writes;
    }
  }

  /** The body of the inner loop: one metric's row, and one domain's entry at the most; no other slot is touched. */
  method FillRow(clusterId: nat, item: nat, description: MetricDescription, ghost visited: seq<Row>, known: Interning,
                 indomTable: array<PmdaIndom>, metricTable: array<PmdaMetric>, metricIndex: nat, ghost writes: Writes)
    returns (known': Interning, ghost writes': Writes)
    requires Filled(visited, known, indomTable, metricTable) && CountsSlots(writes, indomTable, metricTable)
    requires metricIndex == |visited| < metricTable.Length
    requires |FirstUse(visited + [Row(clusterId, item, description)])| <= indomTable.Length
    modifies indomTable, metricTable
    ensures Filled(visited + [Row(clusterId, item, description)], known', indomTable, metricTable)
    ensures known' == known || |known'.domains| == |known.domains| + 1
    ensures forall k :: 0 <= k < metricTable.Length && k != metricIndex ==> metricTable[k] == old(metricTable[k])
    ensures forall j :: 0 <= j < indomTable.Length && (j != |known.domains| || known' == known) ==>
              indomTable[j] == old(indomTable[j])
    ensures writes' == WritesAfter(writes, metricIndex, known, known')
  {
    ghost var row := Row(clusterId, item, description);
    var indom;
    ghost var indomWrites, metricWrites;
    indom, known', indomWrites := IndomFor(description.domain, visited, row, known, indomTable, writes.indoms);
    var entry := PmdaMetric(description.opaquePointer,
                            ToPmDesc(description).(pmid := PmId(clusterId, item), indom := indom));
    metricWrites := StoreMetric(entry, row, visited, known'.domains, metricTable, metricIndex, writes.metrics);
    writes' := Writes(metricWrites, indomWrites);
  }

  /** What one step of the inner loop visits, and that there is room for it. */
  lemma StepInCluster(cat: Catalog, g: nat, i: nat)
    requires g < |cat| && i < |Groups(Clusters(cat))[g]|
    ensures var groups := Groups(Clusters(cat)); var visited, row := Visited(groups, g, i), groups[g][i];
            && Visited(groups, g, i + 1) == visited + [row]
            && |visited| < |Rows(cat)| && |FirstUse(visited + [row])| <= |FirstUse(Rows(cat))|
  {
    var groups := Groups(Clusters(cat));
    VisitedIsPrefix(groups, g, i + 1);
    VisitedStep(groups, g, i);
    RoomForRow(Rows(cat), Visited(groups, g, i), groups[g][i]);
  }

  /** Every slot that has been written so far was written once. */
  ghost predicate Tally(writes: Writes, metricIndex: nat, known: Interning, cat: Catalog) {
    match writes
    case Writes(metrics, indoms) =>
      metrics == Once(metricIndex, |Rows(cat)|) && indoms == Once(|known.domains|, |FirstUse(Rows(cat))|)
  }

  lemma TallyStep(writes: Writes, metricIndex: nat, known: Interning, known': Interning, cat: Catalog)
    requires Tally(writes, metricIndex, known, cat) && metricIndex < |Rows(cat)|
    requires known' == known || |known'.domains| == |known.domains| + 1 <= |FirstUse(Rows(cat))|
    ensures Tally(WritesAfter(writes, metricIndex, known, known'), metricIndex + 1, known', cat)
  {
    OnceStep(metricIndex, |Rows(cat)|);
    if known' != known {
      OnceStep(|known.domains|, |FirstUse(Rows(cat))|);
    }
  }

  /** One step of the inner loop, seen as a step of the whole traversal. */
  method FillItem(cat: Catalog, clusterId: nat, item: nat, ghost g: nat, ghost i: nat, known: Interning,
                  indomTable: array<PmdaIndom>, metricTable: array<PmdaMetric>, metricIndex: nat, ghost writes: Writes)
    returns (known': Interning, ghost writes': Writes)
    requires g < |cat| && i < |Groups(Clusters(cat))[g]|
    requires clusterId == Ids(cat.Keys)[g] && clusterId in cat && item == Groups(Clusters(cat))[g][i].item
    requires metricTable.Length == |Rows(cat)| && indomTable.Length == |FirstUse(Rows(cat))|
    requires metricIndex == |Visited(Groups(Clusters(cat)), g, i)| && Tally(writes, metricIndex, known, cat)
    requires Filled(Visited(Groups(Clusters(cat)), g, i), known, indomTable, metricTable)
    modifies indomTable, metricTable
    ensures Filled(Visited(Groups(Clusters(cat)), g, i + 1), known', indomTable, metricTable)
    ensures metricIndex + 1 == |Visited(Groups(Clusters(cat)), g, i + 1)|
      && Tally(writes', metricIndex + 1, known', cat)
    ensures |known'.domains| >= |known.domains|
    ensures SameOutside(old(metricTable[..]), metricTable[..], metricIndex, metricIndex + 1)
    ensures SameOutside(old(indomTable[..]), indomTable[..], |known.domains|, |known'.domains|)
  {
    RowAt(cat, g, i);
    StepInCluster(cat, g, i);
    var cluster := cat[clusterId];
    known', writes' := FillRow(cluster.id, item, cluster.metrics[item], Visited(Groups(Clusters(cat)), g, i), known,
                               indomTable, metricTable, metricIndex, writes);
    TallyStep(writes, metricIndex, known, known', cat);
  }

  /** The inner loop: one cluster's rows. Only the cluster's own metric slots and the slots of new domains change. */
  method FillCluster(cat: Catalog, clusterId: nat, ghost g: nat, known: Interning,
                     indomTable: array<PmdaIndom>, metricTable: array<PmdaMetric>, metricIndex: nat,
                     ghost writes: Writes)
    returns (known': Interning, metricIndex': nat, ghost writes': Writes)
    requires g < |cat| && clusterId == Ids(cat.Keys)[g]
    requires metricTable.Length == |Rows(cat)| && indomTable.Length == |FirstUse(Rows(cat))|
    requires metricIndex == |RowsBefore(cat, g)| && Tally(writes, metricIndex, known, cat)
    requires Filled(RowsBefore(cat, g), known, indomTable, metricTable)
    modifies indomTable, metricTable
    ensures metricIndex' == |RowsBefore(cat, g + 1)| && Tally(writes', metricIndex', known', cat)
    ensures Filled(RowsBefore(cat, g + 1), known', indomTable, metricTable)
    ensures metricIndex' >= metricIndex && SameOutside(old(metricTable[..]), metricTable[..], metricIndex, metricIndex')
    ensures |known'.domains| >= |known.domains|
    ensures SameOutside(old(indomTable[..]), indomTable[..], |known.domains|, |known'.domains|)
  {
    ghost var groups, metrics, indoms := Groups(Clusters(cat)), metricTable[..], indomTable[..];
    var items := IterateIds(cat[clusterId].metrics.Keys);
    known', metricIndex', writes' := known, metricIndex, writes;
    assert Visited(groups, g, 0) == RowsBefore(cat, g);
    for i := 0 to |items|
      invariant metricIndex' == |Visited(groups, g, i)| >= metricIndex && |known'.domains| >= |known.domains|
      invariant Filled(Visited(groups, g, i), known', indomTable, metricTable)
        && Tally(writes', metricIndex', known', cat)
      invariant SameOutside(metrics, metricTable[..], metricIndex, metricIndex')
      invariant SameOutside(indoms, indomTable[..], |known.domains|, |known'.domains|)
    {
      ghost var metricsBefore, indomsBefore, knownBefore := metricTable[..], indomTable[..], known';
      known', writes' := FillItem(cat, clusterId, items[i], g, i, known', indomTable, metricTable, metricIndex',
                                  writes');
      SameOutsideStep(metrics, metricsBefore, metricTable[..], metricIndex, metricIndex', metricIndex' + 1);
      SameOutsideStep(indoms, indomsBefore, indomTable[..], |known.domains|, |knownBefore.domains|, |known'.domains|);
      metricIndex' := metricIndex' + 1;
    }
    VisitedAll(groups, g);
  }

  /** The outer loop. */
  method FillTables(cat: Catalog, indomTable: array<PmdaIndom>, metricTable: array<PmdaMetric>)
    returns (known: Interning, metricIndex: nat, ghost writes: Writes)
    requires metricTable.Length == |Rows(cat)| && indomTable.Length == |FirstUse(Rows(cat))|
    modifies indomTable, metricTable
    ensures metricIndex == |Rows(cat)| && Tally(writes, metricIndex, known, cat)
    ensures Filled(Rows(cat), known, indomTable, metricTable)
  {
    known, metricIndex := Interning(map[], []), 0;
    writes := Writes(Once(0, metricTable.Length), Once(0, indomTable.Length));
    var clusterIds := IterateIds(cat.Keys);
    for g := 0 to |clusterIds|
      invariant metricIndex == |RowsBefore(cat, g)| && Tally(writes, metricIndex, known, cat)
      invariant Filled(RowsBefore(cat, g), known, indomTable, metricTable)
    {
      known, metricIndex, writes :=
        FillCluster(cat, clusterIds[g], g, known, indomTable, metricTable, metricIndex, writes);
    }
    AllRowsBefore(cat);
  }

  /** The first half of `initialize_pmda`: allocate both tables from the counts, then fill them in one traversal, which
      writes every slot of both tables exactly once. */
  method BuildTables(cat: Catalog)
    returns (indomTable: array<PmdaIndom>, metricTable: array<PmdaMetric>, domains: seq<InstanceDomain>,
             ghost writes: Writes)
    ensures fresh(indomTable) && fresh(metricTable)
    ensures domains == FirstUse(Rows(cat))
    ensures metricTable.Length == |Rows(cat)| && MetricsFilled(Rows(cat), domains, metricTable)
    ensures forall k :: 0 <= k < metricTable.Length ==> RowSays(metricTable[k], Rows(cat)[k], domains)
    ensures indomTable.Length == |domains| && IndomsFilled(domains, indomTable)
    ensures |writes.metrics| == metricTable.Length && forall k :: 0 <= k < metricTable.Length ==> writes.metrics[k] == 1
    ensures |writes.indoms| == indomTable.Length && forall j :: 0 <= j < indomTable.Length ==> writes.indoms[j] == 1
  {
    var metricCount, indomCount := CountMetrics(cat);
    DomainCount(Rows(cat));
    indomTable := new PmdaIndom[indomCount];
    metricTable := new PmdaMetric[metricCount];
    var known, metricIndex;
    known, metricIndex, writes := FillTables(cat, indomTable, metricTable);
    domains := known.domains;
    forall k | 0 <= k < metricTable.Length ensures RowSays(metricTable[k], Rows(cat)[k], domains) {
      TableRowSays(Rows(cat), k);
    }
    assert |known.ids| == indomCount;
    assert |domains| == indomCount;
    assert metricIndex == metricCount;
  }
}

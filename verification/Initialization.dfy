/** `initialize_pmda`: the tables, PCP's completion of them, and what the registry records afterwards. */
module Initialization {
  import opened Pcp
  import opened FirstWins
  import opened Sequences
  import opened Flattening
  import opened Catalog
  import opened Registration

  // ----- Specification -----

  /** A metric's row as PCP leaves it. */
  function Completed(metric: PmdaMetric, domainNumber: nat): PmdaMetric {
    var indom := metric.desc.indom;
    metric.(desc := metric.desc.(
      pmid := PmIdWithDomain(domainNumber, metric.desc.pmid),
      indom := if indom == PM_INDOM_NULL then indom else InDomWithDomain(domainNumber, indom)))
  }

  function CompletedIndom(indom: PmdaIndom, domainNumber: nat): PmdaIndom {
    indom.(itIndom := InDomWithDomain(domainNumber, indom.itIndom))
  }

  /** The user-defined identifiers of some domains. */
  ghost function DomainIds(domains: seq<InstanceDomain>): (ids: seq<nat>)
    reads domains
    ensures |ids| == |domains| && forall j :: 0 <= j < |ids| ==> ids[j] == domains[j].domainId
  {
    seq(|domains|, j requires 0 <= j < |domains| reads domains => domains[j].domainId)
  }

  /** What the registry inserts for each domain: the object under its own id, then under PCP's. */
  function Entries(domains: seq<InstanceDomain>, ids: seq<nat>, domainNumber: nat): seq<(nat, InstanceDomain)>
    requires |domains| == |ids|
  {
    if domains == [] then []
    else
      var n := |domains| - 1;
      Entries(domains[..n], ids[..n], domainNumber)
      + [(ids[n], domains[n])] + [(InDomWithDomain(domainNumber, ids[n]), domains[n])]
  }

  lemma InsertTwo<K, V>(m: map<K, V>, entries: seq<(K, V)>, a: (K, V), b: (K, V))
    ensures InsertAll(m, entries + [a] + [b]) == Insert(Insert(InsertAll(m, entries), a.0, a.1), b.0, b.1)
  {
    assert (entries + [a] + [b])[..|entries| + 1] == entries + [a];
    assert (entries + [a])[..|entries|] == entries;
  }

  lemma EntriesStep(domains: seq<InstanceDomain>, ids: seq<nat>, domainNumber: nat, n: nat)
    requires |domains| == |ids| && n < |domains|
    ensures Entries(domains[..n + 1], ids[..n + 1], domainNumber) ==
            Entries(domains[..n], ids[..n], domainNumber) + [(ids[n], domains[n])]
              + [(InDomWithDomain(domainNumber, ids[n]), domains[n])]
  {
    assert domains[..n + 1][..n] == domains[..n] && ids[..n + 1][..n] == ids[..n];
  }

  // ----- The operations -----

  /** `pmdaInit`, as far as the library relies on it: it fills in the domain bits of every identifier. */
  method PmdaInit(domainNumber: nat, indomTable: array<PmdaIndom>, metricTable: array<PmdaMetric>)
    modifies indomTable, metricTable
    ensures forall j :: 0 <= j < indomTable.Length ==> indomTable[j] == CompletedIndom(old(indomTable[j]), domainNumber)
    ensures forall k :: 0 <= k < metricTable.Length ==> metricTable[k] == Completed(old(metricTable[k]), domainNumber)
  {
    for j := 0 to indomTable.Length
      invariant forall i :: 0 <= i < indomTable.Length ==>
        indomTable[i] == if i < j then CompletedIndom(old(indomTable[i]), domainNumber) else old(indomTable[i])
      invariant forall k :: 0 <= k < metricTable.Length ==> metricTable[k] == old(metricTable[k])
    {
      indomTable[j] := CompletedIndom(indomTable[j], domainNumber);
    }
    for k := 0 to metricTable.Length
      invariant forall i :: 0 <= i < metricTable.Length ==>
        metricTable[i] == if i < k then Completed(old(metricTable[i]), domainNumber) else old(metricTable[i])
      invariant forall j :: 0 <= j < indomTable.Length ==>
                  indomTable[j] == CompletedIndom(old(indomTable[j]), domainNumber)
    {
      metricTable[k] := Completed(metricTable[k], domainNumber);
    }
  }

  class Registry {
    var supportedMetrics: Catalog
    var instanceDomains: map<nat, InstanceDomain>

    /** Tell a domain object its identifier, and file it under each of its two ids unless that id is taken. */
    method RecordDomain(domain: InstanceDomain, itIndom: nat)
      modifies this`instanceDomains, domain`pmInstanceDomain
      ensures domain.pmInstanceDomain == itIndom
      ensures instanceDomains == Insert(Insert(old(instanceDomains), domain.domainId, domain), itIndom, domain)
    {
      domain.SetPmInstanceDomain(itIndom);
      if domain.domainId !in instanceDomains {
        instanceDomains := instanceDomains[domain.domainId := domain];
      }
      if domain.pmInstanceDomain !in instanceDomains {
        instanceDomains := instanceDomains[domain.pmInstanceDomain := domain];
      }
    }

    /** The closing loop, over the domains in order of first use. */
    method RecordDomains(domains: seq<InstanceDomain>, indomTable: array<PmdaIndom>, ghost domainNumber: nat)
      requires Distinct(domains) && IndomsCompleted(domains, domainNumber, indomTable)
      modifies this`instanceDomains, domains`pmInstanceDomain
      ensures IndomsCompleted(domains, domainNumber, indomTable)
      ensures forall j :: 0 <= j < |domains| ==> domains[j].pmInstanceDomain == indomTable[j].itIndom
      ensures instanceDomains == InsertAll(old(instanceDomains), Entries(domains, DomainIds(domains), domainNumber))
    {
      ghost var ids := DomainIds(domains);
      for j := 0 to |domains|
        invariant forall i :: 0 <= i < |domains| ==> domains[i].domainId == ids[i]
        invariant forall i :: 0 <= i < j ==> domains[i].pmInstanceDomain == InDomWithDomain(domainNumber, ids[i])
        invariant instanceDomains == InsertAll(old(instanceDomains), Entries(domains[..j], ids[..j], domainNumber))
      {
        var domain := domains[j];
        EntriesStep(domains, ids, domainNumber, j);
        InsertTwo(old(instanceDomains), Entries(domains[..j], ids[..j], domainNumber),
                  (ids[j], domain), (InDomWithDomain(domainNumber, ids[j]), domain));
        RecordDomain(domain, indomTable[j].itIndom);
      }
      assert domains[..|domains|] == domains && ids[..|domains|] == ids;
      assert DomainIds(domains) == ids;
    }

    method InitializePmda(cat: Catalog, domainNumber: nat)
      returns (indomTable: array<PmdaIndom>, metricTable: array<PmdaMetric>)
      modifies this, FirstUse(Rows(cat))`pmInstanceDomain
      ensures supportedMetrics == cat
      ensures MetricsCompleted(cat, domainNumber, metricTable) && MetricsSay(cat, domainNumber, metricTable)
      ensures IndomsCompleted(FirstUse(Rows(cat)), domainNumber, indomTable)
      ensures forall j :: 0 <= j < indomTable.Length ==>
                FirstUse(Rows(cat))[j].pmInstanceDomain == indomTable[j].itIndom
      ensures var order := FirstUse(Rows(cat));
              instanceDomains == InsertAll(old(instanceDomains), Entries(order, DomainIds(order), domainNumber))
    {
      supportedMetrics := cat;
      var domains;
      indomTable, metricTable, domains := BuildCompletedTables(cat, domainNumber);
      FirstUseDistinct(Rows(cat));
      RecordDomains(domains, indomTable, domainNumber);
    }
  }

  /** Each metric's row, in order, as PCP leaves it. */
  ghost predicate MetricsCompleted(cat: Catalog, domainNumber: nat, metricTable: array<PmdaMetric>)
    reads metricTable
  {
    && metricTable.Length == |Rows(cat)|
    && forall k :: 0 <= k < metricTable.Length ==>
         metricTable[k] == Completed(TableRow(Rows(cat)[k], FirstUse(Rows(cat))), domainNumber)
  }

  /** What a metric's row must say after PCP has filled in the domain bits, field by field. */
  ghost predicate CompletedRowSays(metric: PmdaMetric, row: Row, order: seq<InstanceDomain>, domainNumber: nat) {
    && metric.user == row.desc.opaquePointer
    && metric.desc.typ == row.desc.typ && metric.desc.semantic == row.desc.semantic
    && metric.desc.units == row.desc.units
    && PmIdCluster(metric.desc.pmid) == row.cluster % CLUSTERS && PmIdItem(metric.desc.pmid) == row.item % ITEMS
    && PmIdDomain(metric.desc.pmid) == domainNumber % DOMAINS
    && (row.desc.domain == null ==> metric.desc.indom == PM_INDOM_NULL)
    && (row.desc.domain != null && |order| <= SERIALS ==>
          && InDomSerial(metric.desc.indom) < |order| && order[InDomSerial(metric.desc.indom)] == row.desc.domain
          && InDomDomain(metric.desc.indom) == domainNumber % DOMAINS)
  }

  ghost predicate MetricsSay(cat: Catalog, domainNumber: nat, metricTable: array<PmdaMetric>)
    reads metricTable
  {
    && metricTable.Length == |Rows(cat)|
    && forall k :: 0 <= k < metricTable.Length ==>
         CompletedRowSays(metricTable[k], Rows(cat)[k], FirstUse(Rows(cat)), domainNumber)
  }

  lemma CompletedRowSaysIt(cat: Catalog, domainNumber: nat, k: nat)
    requires k < |Rows(cat)|
    ensures var rows, order := Rows(cat), FirstUse(Rows(cat));
            CompletedRowSays(Completed(TableRow(rows[k], order), domainNumber), rows[k], order, domainNumber)
  {
    var rows, order := Rows(cat), FirstUse(Rows(cat));
    TableRowSays(rows, k);
    DomainBitsKeepIds(domainNumber, rows[k].cluster, rows[k].item);
    CompletedPmIdDomain(domainNumber, rows[k].cluster, rows[k].item);
    CompletedDomainField(domainNumber, TableRow(rows[k], order).desc.indom);
  }

  lemma CompletedMetricsSay(cat: Catalog, domainNumber: nat, metricTable: array<PmdaMetric>)
    requires MetricsCompleted(cat, domainNumber, metricTable)
    ensures MetricsSay(cat, domainNumber, metricTable)
  {
    forall k | 0 <= k < metricTable.Length
      ensures CompletedRowSays(metricTable[k], Rows(cat)[k], FirstUse(Rows(cat)), domainNumber)
    {
      CompletedRowSaysIt(cat, domainNumber, k);
    }
  }

  /** Each domain object's entry, in order of first use, as PCP leaves it. */
  ghost predicate IndomsCompleted(order: seq<InstanceDomain>, domainNumber: nat, indomTable: array<PmdaIndom>)
    reads indomTable, order
  {
    && indomTable.Length == |order|
    && forall j :: 0 <= j < |order| ==>
         && indomTable[j].itIndom == InDomWithDomain(domainNumber, order[j].domainId)
         && indomTable[j].itNuminst == |order[j].instances|
         && ListsInstances(indomTable[j].itSet, order[j].instances)
  }

  /** Filling the tables and handing them to PCP. */
  method BuildCompletedTables(cat: Catalog, domainNumber: nat)
    returns (indomTable: array<PmdaIndom>, metricTable: array<PmdaMetric>, domains: seq<InstanceDomain>)
    ensures fresh(indomTable) && fresh(metricTable)
    ensures domains == FirstUse(Rows(cat))
    ensures MetricsCompleted(cat, domainNumber, metricTable) && MetricsSay(cat, domainNumber, metricTable)
    ensures IndomsCompleted(domains, domainNumber, indomTable)
  {
    ghost var writes;
    indomTable, metricTable, domains, writes := BuildTables(cat);
    label Built:
    PmdaInit(domainNumber, indomTable, metricTable);
    forall j | 0 <= j < |domains| ensures indomTable[j] == CompletedIndom(old@Built(indomTable[j]), domainNumber) {
      assert old@Built(BuiltFrom(indomTable[j], domains[j]));
    }
    CompletedMetricsSay(cat, domainNumber, metricTable);
  }

  // ----- What the tables mean -----

  /** The (cluster, item) pairs of a description that come before a given row. */
  ghost function SmallerPairs(cat: Catalog, row: Row): set<(nat, nat)> {
    set c, i | c in cat && i in cat[c].metrics && (c < row.cluster || (c == row.cluster && i < row.item)) :: (c, i)
  }

  ghost function PairsOf(rows: seq<Row>): (pairs: seq<(nat, nat)>)
    ensures |pairs| == |rows| && forall k :: 0 <= k < |rows| ==> pairs[k] == (rows[k].cluster, rows[k].item)
  {
    seq(|rows|, k requires 0 <= k < |rows| => (rows[k].cluster, rows[k].item))
  }

  lemma EarlierPairIsSmaller(cat: Catalog, k: nat, j: nat)
    requires KeyedById(cat) && j < k < |Rows(cat)|
    ensures (Rows(cat)[j].cluster, Rows(cat)[j].item) in SmallerPairs(cat, Rows(cat)[k])
  {
    RowOrder(cat, j, k);
    RowsAreTheCatalog(cat);
    var row := Rows(cat)[j];
    assert Describes(cat, row.cluster, row.item, row.desc);
  }

  lemma SmallerPairIsEarlier(cat: Catalog, k: nat, p: (nat, nat)) returns (j: nat)
    requires KeyedById(cat) && k < |Rows(cat)| && p in SmallerPairs(cat, Rows(cat)[k])
    ensures j < k && p == (Rows(cat)[j].cluster, Rows(cat)[j].item)
  {
    j := RowOfPair(cat, p.0, p.1);
    RowOrder(cat, j, k);
  }

  lemma EarlierPairsDiffer(cat: Catalog, k: nat)
    requires KeyedById(cat) && k <= |Rows(cat)|
    ensures Distinct(PairsOf(Rows(cat)[..k]))
  {
    var rows := Rows(cat);
    forall i, j | 0 <= i < j < k ensures PairsOf(rows[..k])[i] != PairsOf(rows[..k])[j] {
      RowOrder(cat, i, j);
    }
  }

  /** A row's index is the number of (cluster, item) pairs of the description that are lexicographically smaller. */
  lemma RowIndexCountsSmallerPairs(cat: Catalog, k: nat)
    requires KeyedById(cat) && k < |Rows(cat)|
    ensures |SmallerPairs(cat, Rows(cat)[k])| == k
  {
    var pairs, smaller := PairsOf(Rows(cat)[..k]), SmallerPairs(cat, Rows(cat)[k]);
    EarlierPairsDiffer(cat, k);
    DistinctCount(pairs);
    forall p: (nat, nat) ensures p in pairs <==> p in smaller {
      if p in pairs {
        var j :| 0 <= j < k && pairs[j] == p;
        EarlierPairIsSmaller(cat, k, j);
      }
      if p in smaller {
        var j := SmallerPairIsEarlier(cat, k, p);
        assert pairs[j] == p;
      }
    }
    assert (set p | p in pairs) == smaller;
  }

  /** While ids fit their fields, the PMIDs in the table are strictly increasing, hence unique. */
  lemma PmidsAscend(cat: Catalog, domainNumber: nat, a: nat, b: nat)
    requires KeyedById(cat) && a < b < |Rows(cat)|
    requires forall k :: 0 <= k < |Rows(cat)| ==> InRange(Rows(cat)[k].cluster, Rows(cat)[k].item)
    ensures var rows, order := Rows(cat), FirstUse(Rows(cat));
            Completed(TableRow(rows[a], order), domainNumber).desc.pmid
            < Completed(TableRow(rows[b], order), domainNumber).desc.pmid
  {
    RowsAreTheCatalog(cat);
    var x, y := Rows(cat)[a], Rows(cat)[b];
    assert RowLess(x, y);
    PmIdOrder(x.cluster, x.item, y.cluster, y.item);
    DomainBitsKeepOrder(domainNumber, PmId(x.cluster, x.item), PmId(y.cluster, y.item));
  }

  /** A metric's index names exactly its own domain object, and two metrics share an index iff they share the object. */
  lemma IndexNamesDomain(cat: Catalog, k: nat, l: nat)
    requires k < |Rows(cat)| && l < |Rows(cat)|
    requires Rows(cat)[k].desc.domain != null && Rows(cat)[l].desc.domain != null
    ensures var rows, order := Rows(cat), FirstUse(Rows(cat));
            var indom := TableRow(rows[k], order).desc.indom;
            && indom < |order| && order[indom] == rows[k].desc.domain
            && (indom == TableRow(rows[l], order).desc.indom <==> rows[k].desc.domain == rows[l].desc.domain)
  {
    InternedIffUsed(Rows(cat), Rows(cat)[k].desc.domain);
    InternedIffUsed(Rows(cat), Rows(cat)[l].desc.domain);
  }

  /** The instance domain identifier that PCP holds for a metric is the one its domain object holds
      exactly when the dense index and the domain's own id agree outside the domain bits. */
  lemma MetricIndomAgreement(cat: Catalog, domainNumber: nat, k: nat)
    requires k < |Rows(cat)| && Rows(cat)[k].desc.domain != null
    requires |FirstUse(Rows(cat))| <= PM_INDOM_NULL
    ensures var d, order := Rows(cat)[k].desc.domain, FirstUse(Rows(cat));
            var index := TableRow(Rows(cat)[k], order).desc.indom;
            Completed(TableRow(Rows(cat)[k], order), domainNumber).desc.indom
            == InDomWithDomain(domainNumber, d.domainId)
            <==>
            index % SERIALS == d.domainId % SERIALS && index / (SERIALS * DOMAINS) == d.domainId / (SERIALS * DOMAINS)
  {
    var d, order := Rows(cat)[k].desc.domain, FirstUse(Rows(cat));
    var index := TableRow(Rows(cat)[k], order).desc.indom;
    IndexNamesDomain(cat, k, k);
    InDomFields(domainNumber, index, d.domainId);
  }

  lemma InDomFields(domainNumber: nat, x: nat, y: nat)
    ensures InDomWithDomain(domainNumber, x) == InDomWithDomain(domainNumber, y)
            <==> x % SERIALS == y % SERIALS && x / (SERIALS * DOMAINS) == y / (SERIALS * DOMAINS)
  {
    var hx, hy, lx, ly := x / 0x8000_0000, y / 0x8000_0000, x % 0x40_0000, y % 0x40_0000;
    assert InDomWithDomain(domainNumber, x) - InDomWithDomain(domainNumber, y) == (hx - hy) * 0x8000_0000 + (lx - ly);
  }

  /** The identifiers agree for every metric exactly when the domains are numbered in the order in which they are
      first used. */
  lemma AllIndomsAgree(cat: Catalog, domainNumber: nat)
    requires |FirstUse(Rows(cat))| <= SERIALS
    requires forall j :: 0 <= j < |FirstUse(Rows(cat))| ==> FirstUse(Rows(cat))[j].domainId < SERIALS
    ensures (forall k :: 0 <= k < |Rows(cat)| && Rows(cat)[k].desc.domain != null ==>
               Completed(TableRow(Rows(cat)[k], FirstUse(Rows(cat))), domainNumber).desc.indom
               == InDomWithDomain(domainNumber, Rows(cat)[k].desc.domain.domainId))
            <==> forall j :: 0 <= j < |FirstUse(Rows(cat))| ==> FirstUse(Rows(cat))[j].domainId == j
  {
    var rows, order := Rows(cat), FirstUse(Rows(cat));
    forall k | 0 <= k < |rows| && rows[k].desc.domain != null
      ensures var index := TableRow(rows[k], order).desc.indom;
              var completed := Completed(TableRow(rows[k], order), domainNumber).desc.indom;
              && index < |order| && order[index] == rows[k].desc.domain
              && (completed == InDomWithDomain(domainNumber, order[index].domainId) <==> index == order[index].domainId)
    {
      IndexNamesDomain(cat, k, k);
      MetricIndomAgreement(cat, domainNumber, k);
    }
    forall j | 0 <= j < |order|
      ensures var k := FirstUser(rows, order[j]);
              k < |rows| && rows[k].desc.domain == order[j] && TableRow(rows[k], order).desc.indom == j
    {
      InternedIffUsed(rows, order[j]);
      FirstUseDistinct(rows);
    }
  }

  /** A description whose only metric uses a domain with id 5 gets index 0, so the two identifiers differ. */
  lemma IndomDisagreementExample(d: InstanceDomain, domainNumber: nat)
    requires d.domainId == 5
    ensures var metric := MetricDescription("m", 0, 0, Units(0, 0, 0, 0, 0, 0), d, "", "", 0, false);
            var cat := map[0 := Cluster(0, "", map[0 := metric])];
            && |Rows(cat)| == 1
            && Completed(TableRow(Rows(cat)[0], FirstUse(Rows(cat))), domainNumber).desc.indom
               != InDomWithDomain(domainNumber, d.domainId)
  {
    var metric := MetricDescription("m", 0, 0, Units(0, 0, 0, 0, 0, 0), d, "", "", 0, false);
    SingleRow(metric);
    FirstUseStep([], Row(0, 0, metric));
    assert [] + [Row(0, 0, metric)] == [Row(0, 0, metric)];
    assert FirstUse([Row(0, 0, metric)]) == [d];
    InDomFields(domainNumber, 0, 5);
  }

  lemma SingleRow(metric: MetricDescription)
    ensures Rows(map[0 := Cluster(0, "", map[0 := metric])]) == [Row(0, 0, metric)]
  {
    var c := Cluster(0, "", map[0 := metric]);
    var cat: Catalog := map[0 := c];
    ClustersInOrder(cat);
    assert Clusters(cat) == [c];
    assert ClusterRows(c) == [Row(0, 0, metric)];
    var groups := Groups(Clusters(cat));
    assert groups[..0] == [];
    assert Flatten(groups) == Flatten(groups[..0]) + groups[0];
  }
}

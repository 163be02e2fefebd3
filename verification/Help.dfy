/** `export_help_text`: help for every metric name and every instance, in sorted order. */
module Help {
  import opened Pcp
  import opened Text
  import opened FirstWins
  import opened Sequences
  import opened OrderedKeys
  import opened Flattening
  import opened Catalog

  // ----- The order of std::string -----

  function StringLess(a: string, b: string): bool {
    if b == "" then false
    else if a == "" then true
    else if a[0] != b[0] then a[0] < b[0]
    else StringLess(a[1..], b[1..])
  }

  lemma {:induction false} StringLessAsymmetric(a: string, b: string)
    requires StringLess(a, b)
    ensures !StringLess(b, a)
  {
    if a != "" && a[0] == b[0] {
      StringLessAsymmetric(a[1..], b[1..]);
    }
  }

  lemma {:induction false} StringLessTransitive(a: string, b: string, c: string)
    requires StringLess(a, b) && StringLess(b, c)
    ensures StringLess(a, c)
  {
    if a != "" && a[0] == b[0] == c[0] {
      StringLessTransitive(a[1..], b[1..], c[1..]);
    }
  }

  lemma {:induction false} StringLessConnected(a: string, b: string)
    requires a != b
    ensures StringLess(a, b) || StringLess(b, a)
  {
    if a != "" && b != "" && a[0] == b[0] {
      assert a == [a[0]] + a[1..] && b == [b[0]] + b[1..];
      StringLessConnected(a[1..], b[1..]);
    }
  }

  /** The strings agree up to position `k`, where `a` has ended or has the smaller character. */
  predicate DecidedAt(a: string, b: string, k: nat) {
    k <= |a| && k < |b| && a[..k] == b[..k] && (k == |a| || a[k] < b[k])
  }

  lemma {:induction false} LessIsDecided(a: string, b: string) returns (k: nat)
    requires StringLess(a, b)
    ensures DecidedAt(a, b, k)
  {
    if a == "" || a[0] != b[0] {
      k := 0;
    } else {
      var n := LessIsDecided(a[1..], b[1..]);
      k := n + 1;
      assert a[..k] == [a[0]] + a[1..][..n] && b[..k] == [b[0]] + b[1..][..n];
    }
  }

  lemma {:induction false} DecidedIsLess(a: string, b: string, k: nat)
    requires DecidedAt(a, b, k)
    ensures StringLess(a, b)
  {
    if k == 0 {
    } else {
      assert a[..k][0] == b[..k][0];
      assert a[1..][..k - 1] == a[..k][1..] && b[1..][..k - 1] == b[..k][1..];
      DecidedIsLess(a[1..], b[1..], k - 1);
    }
  }

  /** It is the lexicographic order: a proper prefix comes first, and else the first difference decides. */
  lemma StringLessIff(a: string, b: string)
    ensures StringLess(a, b) <==> exists k :: DecidedAt(a, b, k)
  {
    if StringLess(a, b) {
      var k := LessIsDecided(a, b);
    }
    if k :| DecidedAt(a, b, k) {
      DecidedIsLess(a, b, k);
    }
  }

  lemma StringLessIsStrictTotal()
    ensures StrictTotal(StringLess)
  {
    forall a, b | StringLess(a, b) ensures !StringLess(b, a) { StringLessAsymmetric(a, b); }
    forall a, b, c | StringLess(a, b) && StringLess(b, c) ensures StringLess(a, c) { StringLessTransitive(a, b, c); }
    forall a: string, b: string | a != b ensures StringLess(a, b) || StringLess(b, a) { StringLessConnected(a, b); }
  }

  // ----- Specification: the two maps -----

  function FullName(pmda: string, cluster: string, metric: string): string {
    (if cluster == "" then pmda else pmda + "." + cluster) + "." + metric
  }

  ghost function NamedGroups(pmda: string, cs: seq<Cluster>): (groups: seq<seq<(string, MetricDescription)>>)
    ensures |groups| == |cs|
    ensures forall j :: 0 <= j < |cs| ==> groups[j] == NamedRows(pmda, cs[j])
  {
    seq(|cs|, j requires 0 <= j < |cs| => NamedRows(pmda, cs[j]))
  }

  ghost function NamedRows(pmda: string, c: Cluster): (entries: seq<(string, MetricDescription)>)
    ensures |entries| == |ClusterRows(c)|
    ensures forall k :: 0 <= k < |entries| ==>
      entries[k] == (FullName(pmda, c.name, ClusterRows(c)[k].desc.name), ClusterRows(c)[k].desc)
  {
    seq(|ClusterRows(c)|, k requires 0 <= k < |ClusterRows(c)| =>
      (FullName(pmda, c.name, ClusterRows(c)[k].desc.name), ClusterRows(c)[k].desc))
  }

  /** The full name and description of every metric, in the order of the traversal. */
  ghost function MetricEntries(pmda: string, cat: Catalog): seq<(string, MetricDescription)> {
    Flatten(NamedGroups(pmda, Clusters(cat)))
  }

  function DomainsOf(rows: seq<Row>): set<InstanceDomain> {
    set k | 0 <= k < |rows| && rows[k].desc.domain != null :: rows[k].desc.domain
  }

  /** These are the user-defined ids of the domain objects at the time of the export. */
  ghost predicate DomainIds(ids: map<InstanceDomain, nat>, rows: seq<Row>)
    reads DomainsOf(rows)
  {
    forall k :: 0 <= k < |rows| && rows[k].desc.domain != null ==>
      rows[k].desc.domain in ids && ids[rows[k].desc.domain] == rows[k].desc.domain.domainId
  }

  function Entry(id: nat, d: InstanceDomain): (nat, InstanceDomain) { (id, d) }

  /** The id and the object of every domain used, in the order of the traversal. */
  function DomainEntries(rows: seq<Row>, ids: map<InstanceDomain, nat>): seq<(nat, InstanceDomain)> {
    if rows == [] then []
    else
      var front, d := DomainEntries(rows[..|rows| - 1], ids), rows[|rows| - 1].desc.domain;
      if d == null || d !in ids then front else front + [Entry(ids[d], d)]
  }

  ghost function HelpMetrics(pmda: string, cat: Catalog): map<string, MetricDescription> {
    InsertAll(map[], MetricEntries(pmda, cat))
  }

  ghost function HelpDomains(cat: Catalog, ids: map<InstanceDomain, nat>): map<nat, InstanceDomain> {
    InsertAll(map[], DomainEntries(Rows(cat), ids))
  }

  // ----- Specification: the text -----

  datatype HelpEntry = HelpEntry(subject: string, shortText: string, verboseText: string)

  function EntryText(e: HelpEntry): string {
    "@ " + e.subject + " " + e.shortText + "\n" + (if e.verboseText == "" then "" else e.verboseText + "\n") + "\n"
  }

  function EntriesText(entries: seq<HelpEntry>): string {
    if entries == [] then "" else EntriesText(entries[..|entries| - 1]) + EntryText(entries[|entries| - 1])
  }

  /** The names in the order of `std::string`. */
  ghost function SortedNames(s: set<string>): (names: seq<string>)
    ensures Lists(names, s, StringLess)
    ensures forall name :: name in s ==> name in names
  {
    StringLessIsStrictTotal();
    InOrder(s, StringLess)
  }

  function MetricEntry(name: string, m: MetricDescription): HelpEntry {
    HelpEntry(name, m.shortText, m.verboseText)
  }

  /** One entry for each name, in the order of the names. */
  ghost function MetricHelp(metrics: map<string, MetricDescription>): (entries: seq<HelpEntry>)
    ensures |entries| == |SortedNames(metrics.Keys)|
    ensures forall k :: 0 <= k < |entries| ==>
              && SortedNames(metrics.Keys)[k] in metrics
              && entries[k] == MetricEntry(SortedNames(metrics.Keys)[k], metrics[SortedNames(metrics.Keys)[k]])
  {
    var names := SortedNames(metrics.Keys);
    assert forall k :: 0 <= k < |names| ==> names[k] in metrics;
    seq(|names|, k requires 0 <= k < |names| => MetricEntry(names[k], metrics[names[k]]))
  }

  function InstanceEntry(id: nat, inst: nat, info: InstanceInfo): HelpEntry {
    HelpEntry(Decimal(id) + "." + Decimal(inst), info.shortText, info.verboseText)
  }

  /** One entry for each instance of a domain, ascending. */
  ghost function InstanceHelp(id: nat, instances: map<nat, InstanceInfo>): (entries: seq<HelpEntry>)
    ensures |entries| == |Ids(instances.Keys)|
    ensures forall k :: 0 <= k < |entries| ==>
              && Ids(instances.Keys)[k] in instances
              && entries[k] == InstanceEntry(id, Ids(instances.Keys)[k], instances[Ids(instances.Keys)[k]])
  {
    var keys := Ids(instances.Keys);
    assert forall k :: 0 <= k < |keys| ==> keys[k] in instances;
    seq(|keys|, k requires 0 <= k < |keys| => InstanceEntry(id, keys[k], instances[keys[k]]))
  }

  /** The instances of each domain, ascending by domain id. */
  ghost function DomainHelp(domains: map<nat, InstanceDomain>): (groups: seq<seq<HelpEntry>>)
    reads domains.Values
    ensures |groups| == |Ids(domains.Keys)|
    ensures forall j :: 0 <= j < |groups| ==>
              && Ids(domains.Keys)[j] in domains
              && groups[j] == InstanceHelp(Ids(domains.Keys)[j], domains[Ids(domains.Keys)[j]].instances)
  {
    var ids := Ids(domains.Keys);
    assert forall j :: 0 <= j < |ids| ==> ids[j] in domains;
    seq(|ids|, j requires 0 <= j < |ids| reads domains.Values => InstanceHelp(ids[j], domains[ids[j]].instances))
  }

  ghost function HelpEntries(metrics: map<string, MetricDescription>, domains: map<nat, InstanceDomain>): seq<HelpEntry>
    reads domains.Values
  {
    MetricHelp(metrics) + Flatten(DomainHelp(domains))
  }

  /** The file's text. */
  ghost function HelpText(metrics: map<string, MetricDescription>, domains: map<nat, InstanceDomain>): string
    reads domains.Values
  {
    "\n" + EntriesText(HelpEntries(metrics, domains))
  }

  // ----- What the maps hold -----

  /** The metric filed under (c, i) bears this full name. */
  predicate Bears(pmda: string, cat: Catalog, c: nat, i: nat, name: string) {
    c in cat && i in cat[c].metrics && FullName(pmda, cat[c].name, cat[c].metrics[i].name) == name
  }

  /** No metric with a lexicographically smaller (cluster, item) bears the name. */
  ghost predicate BearsFirst(pmda: string, cat: Catalog, c: nat, i: nat, name: string) {
    && Bears(pmda, cat, c, i, name)
    && forall c', i' :: Bears(pmda, cat, c', i', name) ==> c < c' || (c == c' && i <= i')
  }

  lemma MetricEntryAt(pmda: string, cat: Catalog, k: nat)
    requires KeyedById(cat) && k < |Rows(cat)|
    ensures |MetricEntries(pmda, cat)| == |Rows(cat)|
    ensures var row, entry := Rows(cat)[k], MetricEntries(pmda, cat)[k];
            && Describes(cat, row.cluster, row.item, row.desc)
            && entry == (FullName(pmda, cat[row.cluster].name, row.desc.name), row.desc)
  {
    var groups, named := Groups(Clusters(cat)), NamedGroups(pmda, Clusters(cat));
    SameShape(groups, named);
    var p := PlaceOf(groups, k);
    ClustersInOrder(cat);
    RowsAreTheCatalog(cat);
    assert Holds(Clusters(cat)[p.group], groups[p.group][p.index]);
    assert MetricEntries(pmda, cat)[k] == named[p.group][p.index];
  }

  /** The entry that the first bearer has in the order of the traversal is that of the lowest (cluster, item). */
  lemma FirstEntryBearsFirst(pmda: string, cat: Catalog, name: string)
    requires KeyedById(cat) && FirstEntry(MetricEntries(pmda, cat), name) < |Rows(cat)|
    ensures var row := Rows(cat)[FirstEntry(MetricEntries(pmda, cat), name)];
            BearsFirst(pmda, cat, row.cluster, row.item, name)
  {
    var n := FirstEntry(MetricEntries(pmda, cat), name);
    var row := Rows(cat)[n];
    MetricEntryAt(pmda, cat, n);
    forall c, i | Bears(pmda, cat, c, i, name) ensures row.cluster < c || (row.cluster == c && row.item <= i) {
      var j := RowOfPair(cat, c, i);
      MetricEntryAt(pmda, cat, j);
      RowOrder(cat, n, j);
    }
  }

  /** A name has help iff some metric bears it, and then it is the help of the lowest (cluster, item) that does. */
  lemma HelpIsFirstBearers(pmda: string, cat: Catalog, name: string)
    requires KeyedById(cat)
    ensures name in HelpMetrics(pmda, cat) <==> exists c, i :: Bears(pmda, cat, c, i, name)
    ensures name in HelpMetrics(pmda, cat) ==>
              exists c, i :: BearsFirst(pmda, cat, c, i, name) && HelpMetrics(pmda, cat)[name] == cat[c].metrics[i]
  {
    var entries := MetricEntries(pmda, cat);
    var n := FirstEntry(entries, name);
    InsertAllKeepsFirst(map[], entries, name);
    SameShape(Groups(Clusters(cat)), NamedGroups(pmda, Clusters(cat)));
    if c, i :| Bears(pmda, cat, c, i, name) {
      var j := RowOfPair(cat, c, i);
      MetricEntryAt(pmda, cat, j);
    }
    if n < |entries| {
      MetricEntryAt(pmda, cat, n);
      FirstEntryBearsFirst(pmda, cat, name);
    }
  }

  /** The first row whose domain has the given id, or the number of rows when none has. */
  function FirstBearer(rows: seq<Row>, ids: map<InstanceDomain, nat>, id: nat): (n: nat)
    ensures n <= |rows|
    ensures n < |rows| ==> rows[n].desc.domain != null && rows[n].desc.domain in ids && ids[rows[n].desc.domain] == id
    ensures forall k :: 0 <= k < n ==>
              rows[k].desc.domain == null || rows[k].desc.domain !in ids || ids[rows[k].desc.domain] != id
  {
    FirstWhere(rows, (row: Row) => row.desc.domain != null && row.desc.domain in ids && ids[row.desc.domain] == id)
  }

  /** An id has instance help iff some metric's domain has that id, and then it is the help of the first such domain
      used. */
  lemma {:induction false} DomainHelpIsFirstUsed(rows: seq<Row>, ids: map<InstanceDomain, nat>, id: nat)
    ensures var domains, n := InsertAll(map[], DomainEntries(rows, ids)), FirstBearer(rows, ids, id);
            && (id in domains <==> n < |rows|)
            && (n < |rows| ==> domains[id] == rows[n].desc.domain)
  {
    if rows == [] {
    } else {
      var front := rows[..|rows| - 1];
      DomainHelpIsFirstUsed(front, ids, id);
      DomainEntriesStep(front, ids, rows[|rows| - 1]);
      assert front + [rows[|rows| - 1]] == rows;
    }
  }

  lemma InsertStep<K, V>(entries: seq<(K, V)>, k: K, v: V)
    ensures InsertAll(map[], entries + [(k, v)]) == Insert(InsertAll(map[], entries), k, v)
  {
    assert (entries + [(k, v)])[..|entries|] == entries;
  }

  lemma DomainEntriesStep(rows: seq<Row>, ids: map<InstanceDomain, nat>, row: Row)
    ensures InsertAll(map[], DomainEntries(rows + [row], ids)) ==
            if row.desc.domain == null || row.desc.domain !in ids then InsertAll(map[], DomainEntries(rows, ids))
            else Insert(InsertAll(map[], DomainEntries(rows, ids)), ids[row.desc.domain], row.desc.domain)
  {
    assert (rows + [row])[..|rows|] == rows;
    if row.desc.domain != null && row.desc.domain in ids {
      InsertStep(DomainEntries(rows, ids), ids[row.desc.domain], row.desc.domain);
    }
  }

  // ----- The export -----

  /** The body of the traversal: insert one metric and its domain; an entry that is there already stays. */
  method CollectOne(name: string, metric: MetricDescription, metrics: map<string, MetricDescription>, 
                    domains: map<nat, InstanceDomain>)
    returns (metrics': map<string, MetricDescription>, domains': map<nat, InstanceDomain>)
    ensures metrics' == Insert(metrics, name, metric)
    ensures domains' ==
            if metric.domain == null then domains else Insert(domains, metric.domain.domainId, metric.domain)
  {
    metrics', domains' := metrics, domains;
    if name !in metrics {
      metrics' := metrics[name := metric];
    }
    if metric.domain != null && metric.domain.domainId !in domains {
      domains' := domains[metric.domain.domainId := metric.domain];
    }
  }

  /** The two maps after some rows. */
  ghost predicate Collected(metrics: map<string, MetricDescription>, domains: map<nat, InstanceDomain>,
                            entries: seq<(string, MetricDescription)>, rows: seq<Row>, ids: map<InstanceDomain, nat>) {
    metrics == InsertAll(map[], entries) && domains == InsertAll(map[], DomainEntries(rows, ids))
  }

  lemma NamedRowAt(pmda: string, c: Cluster, i: nat)
    requires i < |ClusterRows(c)|
    ensures Ids(c.metrics.Keys)[i] in c.metrics
    ensures var metric := c.metrics[Ids(c.metrics.Keys)[i]];
            ClusterRows(c)[i].desc == metric && NamedRows(pmda, c)[i] == (FullName(pmda, c.name, metric.name), metric)
  {
    assert Holds(c, ClusterRows(c)[i]);
  }

  lemma OneMore<T>(a: seq<T>, b: seq<T>, i: nat)
    requires i < |b|
    ensures a + b[..i + 1] == a + b[..i] + [b[i]]
  {
  }

  lemma CollectedStep(metrics: map<string, MetricDescription>, domains: map<nat, InstanceDomain>,
                      entries: seq<(string, MetricDescription)>, named: seq<(string, MetricDescription)>,
                      rows: seq<Row>, mine: seq<Row>, ids: map<InstanceDomain, nat>, i: nat)
    requires |named| == |mine| && i < |mine| && Collected(metrics, domains, entries + named[..i], rows + mine[..i], ids)
    requires mine[i].desc.domain != null ==> mine[i].desc.domain in ids
    ensures var d := mine[i].desc.domain;
            Collected(Insert(metrics, named[i].0, named[i].1),
                      if d == null then domains else Insert(domains, ids[d], d),
                      entries + named[..i + 1], rows + mine[..i + 1], ids)
  {
    OneMore(entries, named, i);
    OneMore(rows, mine, i);
    InsertStep(entries + named[..i], named[i].0, named[i].1);
    DomainEntriesStep(rows + mine[..i], ids, mine[i]);
  }

  /** One step of the inner loop. */
  method CollectItem(pmda: string, cluster: Cluster, item: nat, metrics: map<string, MetricDescription>,
                     domains: map<nat, InstanceDomain>, ghost entries: seq<(string, MetricDescription)>,
                     ghost rows: seq<Row>, ghost ids: map<InstanceDomain, nat>, ghost i: nat)
    returns (metrics': map<string, MetricDescription>, domains': map<nat, InstanceDomain>)
    requires i < |ClusterRows(cluster)| && item == Ids(cluster.metrics.Keys)[i]
    requires DomainIds(ids, ClusterRows(cluster))
    requires Collected(metrics, domains, entries + NamedRows(pmda, cluster)[..i], rows + ClusterRows(cluster)[..i], ids)
    ensures Collected(metrics', domains', entries + NamedRows(pmda, cluster)[..i + 1],
                      rows + ClusterRows(cluster)[..i + 1], ids)
  {
    NamedRowAt(pmda, cluster, i);
    CollectedStep(metrics, domains, entries, NamedRows(pmda, cluster), rows, ClusterRows(cluster), ids, i);
    var metric := cluster.metrics[item];
    metrics', domains' := CollectOne(FullName(pmda, cluster.name, metric.name), metric, metrics, domains);
  }

  lemma WholeSlice<T>(a: seq<T>, b: seq<T>)
    ensures a + b[..0] == a && a + b[..|b|] == a + b
  {
    assert b[..|b|] == b;
  }

  /** The inner loop: one cluster. */
  method CollectCluster(pmda: string, cluster: Cluster, metrics: map<string, MetricDescription>,
                        domains: map<nat, InstanceDomain>, ghost entries: seq<(string, MetricDescription)>,
                        ghost rows: seq<Row>, ghost ids: map<InstanceDomain, nat>)
    returns (metrics': map<string, MetricDescription>, domains': map<nat, InstanceDomain>)
    requires Collected(metrics, domains, entries, rows, ids) && DomainIds(ids, ClusterRows(cluster))
    ensures Collected(metrics', domains', entries + NamedRows(pmda, cluster), rows + ClusterRows(cluster), ids)
  {
    metrics', domains' := metrics, domains;
    WholeSlice(entries, NamedRows(pmda, cluster));
    WholeSlice(rows, ClusterRows(cluster));
    var items := IterateIds(cluster.metrics.Keys);
    for i := 0 to |items|
      invariant Collected(metrics', domains', entries + NamedRows(pmda, cluster)[..i],
                          rows + ClusterRows(cluster)[..i], ids)
    {
      metrics', domains' := CollectItem(pmda, cluster, items[i], metrics', domains', entries, rows, ids, i);
    }
  }

  lemma ClusterDomainIds(ids: map<InstanceDomain, nat>, groups: seq<seq<Row>>, g: nat)
    requires g < |groups| && DomainIds(ids, Flatten(groups))
    ensures DomainIds(ids, groups[g])
  {
    forall i | 0 <= i < |groups[g]| && groups[g][i].desc.domain != null
      ensures groups[g][i].desc.domain in ids && ids[groups[g][i].desc.domain] == groups[g][i].desc.domain.domainId
    {
      assert Flatten(groups)[VisitOf(groups, Place(g, i))] == groups[g][i];
    }
  }

  method Collect(pmda: string, cat: Catalog, ghost ids: map<InstanceDomain, nat>)
    returns (metrics: map<string, MetricDescription>, domains: map<nat, InstanceDomain>)
    requires DomainIds(ids, Rows(cat))
    ensures metrics == HelpMetrics(pmda, cat) && domains == HelpDomains(cat, ids)
  {
    ghost var groups, named := Groups(Clusters(cat)), NamedGroups(pmda, Clusters(cat));
    metrics, domains := map[], map[];
    var clusterIds := IterateIds(cat.Keys);
    for g := 0 to |clusterIds|
      invariant Collected(metrics, domains, Flatten(named[..g]), Flatten(groups[..g]), ids)
    {
      ClusterDomainIds(ids, groups, g);
      FlattenStep(groups, g);
      FlattenStep(named, g);
      metrics, domains := CollectCluster(pmda, cat[clusterIds[g]], metrics, domains, Flatten(named[..g]),
                                         Flatten(groups[..g]), ids);
    }
    assert groups[..|clusterIds|] == groups && named[..|clusterIds|] == named;
  }

  lemma EntriesTextStep(entries: seq<HelpEntry>, n: nat)
    requires n < |entries|
    ensures EntriesText(entries[..n + 1]) == EntriesText(entries[..n]) + EntryText(entries[n])
  {
    assert entries[..n + 1][..n] == entries[..n];
  }

  lemma {:induction false} EntriesTextAppend(a: seq<HelpEntry>, b: seq<HelpEntry>)
    ensures EntriesText(a + b) == EntriesText(a) + EntriesText(b)
  {
    if b == [] {
      assert a + b == a;
    } else {
      var n := |b| - 1;
      assert (a + b)[..|a + b| - 1] == a + b[..n];
      EntriesTextAppend(a, b[..n]);
      Assoc(EntriesText(a), EntriesText(b[..n]), EntryText(b[n]));
    }
  }

  method WriteEntry(subject: string, shortText: string, verboseText: string) returns (text: string)
    ensures text == EntryText(HelpEntry(subject, shortText, verboseText))
  {
    text := "@ " + subject + " " + shortText + "\n";
    if verboseText != "" {
      text := text + (verboseText + "\n");
    }
    text := text + "\n";
  }

  method WriteMetrics(metrics: map<string, MetricDescription>) returns (text: string)
    ensures text == EntriesText(MetricHelp(metrics))
  {
    ghost var entries := MetricHelp(metrics);
    text := "";
    StringLessIsStrictTotal();
    var names := Iterate(metrics.Keys, StringLess);
    for k := 0 to |names|
      invariant text == EntriesText(entries[..k])
    {
      EntriesTextStep(entries, k);
      var metric := metrics[names[k]];
      var entry := WriteEntry(names[k], metric.shortText, metric.verboseText);
      text := text + entry;
    }
    assert entries[..|names|] == entries;
  }

  method WriteInstances(id: nat, domain: InstanceDomain) returns (text: string)
    ensures text == EntriesText(InstanceHelp(id, domain.instances))
  {
    ghost var entries := InstanceHelp(id, domain.instances);
    text := "";
    var keys := IterateIds(domain.instances.Keys);
    for k := 0 to |keys|
      invariant text == EntriesText(entries[..k])
    {
      EntriesTextStep(entries, k);
      var info := domain.instances[keys[k]];
      var entry := WriteEntry(Decimal(id) + "." + Decimal(keys[k]), info.shortText, info.verboseText);
      text := text + entry;
    }
    assert entries[..|keys|] == entries;
  }

  method WriteDomains(domains: map<nat, InstanceDomain>) returns (text: string)
    ensures text == EntriesText(Flatten(DomainHelp(domains)))
  {
    ghost var groups := DomainHelp(domains);
    text := "";
    var ids := IterateIds(domains.Keys);
    for j := 0 to |ids|
      invariant text == EntriesText(Flatten(groups[..j]))
    {
      FlattenStep(groups, j);
      EntriesTextAppend(Flatten(groups[..j]), groups[j]);
      var block := WriteInstances(ids[j], domains[ids[j]]);
      text := text + block;
    }
    assert groups[..|ids|] == groups;
  }

  /** The whole export. `opens` says whether the output can be written to: it is standard output, or the file opened. */
  method ExportHelpText(pmda: string, cat: Catalog, opens: bool, ghost ids: map<InstanceDomain, nat>)
    returns (r: Result<string>)
    requires DomainIds(ids, Rows(cat))
    ensures r == if opens then Returned(HelpText(HelpMetrics(pmda, cat), HelpDomains(cat, ids)))
                 else Threw(PcpException(PmErrGeneric))
  {
    var metrics, domains := Collect(pmda, cat, ids);
    if !opens {
      return Threw(PcpException(PmErrGeneric));
    }
    var metricPart := WriteMetrics(metrics);
    var domainPart := WriteDomains(domains);
    EntriesTextAppend(MetricHelp(metrics), Flatten(DomainHelp(domains)));
    Assoc("\n", metricPart, domainPart);
    r := Returned("\n" + metricPart + domainPart);
  }
}

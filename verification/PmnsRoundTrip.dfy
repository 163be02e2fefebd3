/** The exported PMNS text, read back, says exactly what the metrics description says. */
module PmnsRoundTrip {
  import opened Pcp
  import opened Text
  import opened Catalog
  import opened Flattening
  import opened Sequences
  import OrderedKeys
  import opened PmnsSpec
  import opened Pmns

  // ----- What a reader should find -----

  function Path(pmda: string, name: string): string { if name == "" then pmda else pmda + "." + name }

  function RowFor(path: string, domain: int, row: Row): PmnsRow {
    PmnsRow(path, row.desc.name, domain, row.cluster, row.item)
  }

  function Printed(path: string, domain: int, rows: seq<Row>): (printed: seq<PmnsRow>)
    ensures |printed| == |rows| && forall k :: 0 <= k < |rows| ==> printed[k] == RowFor(path, domain, rows[k])
  {
    if rows == [] then []
    else Printed(path, domain, rows[..|rows| - 1]) + [RowFor(path, domain, rows[|rows| - 1])]
  }

  /** The rows of the clusters that are, or are not, named, in ascending order of cluster and item. */
  ghost function RowsWhere(named: bool, pmda: string, domain: int, cs: seq<Cluster>): seq<PmnsRow> {
    if cs == [] then []
    else
      var front, c := RowsWhere(named, pmda, domain, cs[..|cs| - 1]), cs[|cs| - 1];
      if (c.name != "") == named then front + Printed(Path(pmda, c.name), domain, ClusterRows(c)) else front
  }

  /** The non-empty cluster names in ascending order of cluster id. */
  function Names(cs: seq<Cluster>): seq<string> {
    if cs == [] then []
    else
      var front, c := Names(cs[..|cs| - 1]), cs[|cs| - 1];
      if c.name == "" then front else front + [c.name]
  }

  function LastName(names: seq<string>, previous: string): string {
    if names == [] then previous else names[|names| - 1]
  }

  /** The names with adjacent repeats removed, where `previous` counts as standing in front of the first. */
  function Dedupe(names: seq<string>, previous: string): seq<string> {
    if names == [] then []
    else
      var front, last := names[..|names| - 1], names[|names| - 1];
      if last == LastName(front, previous) then Dedupe(front, previous) else Dedupe(front, previous) + [last]
  }

  function Qualified(pmda: string, names: seq<string>): seq<string> {
    if names == [] then [] else Qualified(pmda, names[..|names| - 1]) + [pmda + "." + names[|names| - 1]]
  }

  // ----- Names that the description must use for the file to be readable -----

  ghost predicate RowsNamed(rows: seq<Row>) {
    forall k :: 0 <= k < |rows| ==> IsName(rows[k].desc.name)
  }

  ghost predicate Named(cs: seq<Cluster>) {
    forall j :: 0 <= j < |cs| ==> (cs[j].name == "" || IsName(cs[j].name)) && RowsNamed(ClusterRows(cs[j]))
  }

  lemma NamedByMetrics(cat: Catalog)
    requires KeyedById(cat) && forall c :: c in cat ==> cat[c].name == "" || IsName(cat[c].name)
    requires forall c, i :: c in cat && i in cat[c].metrics ==> IsName(cat[c].metrics[i].name)
    ensures Named(Clusters(cat))
  {
    var cs := Clusters(cat);
    ClustersInOrder(cat);
    forall j, k | 0 <= j < |cs| && 0 <= k < |ClusterRows(cs[j])| ensures IsName(ClusterRows(cs[j])[k].desc.name) {
      assert Holds(cs[j], ClusterRows(cs[j])[k]);
      assert cat[cs[j].id] == cs[j];
    }
  }

  // ----- Reading the passes -----

  ghost predicate NonEmptyNames(names: seq<string>) {
    forall k :: 0 <= k < |names| ==> names[k] != ""
  }

  lemma {:induction false} NamesNonEmpty(cs: seq<Cluster>)
    ensures NonEmptyNames(Names(cs))
  {
    if cs == [] {
    } else {
      NamesNonEmpty(cs[..|cs| - 1]);
    }
  }

  lemma {:induction false} ReadAppend(r: Reader, a: seq<Line>, b: seq<Line>)
    ensures ReadLines(r, a + b) == ReadLines(ReadLines(r, a), b)
  {
    if b == [] {
      assert a + b == a;
    } else {
      var n := |b| - 1;
      assert (a + b)[..|a + b| - 1] == a + b[..n];
      ReadAppend(r, a, b[..n]);
    }
  }

  lemma ReadSnoc(r: Reader, a: seq<Line>, line: Line)
    ensures ReadLines(r, a + [line]) == ReadLine(ReadLines(r, a), line)
  {
    assert (a + [line])[..|a|] == a;
  }

  lemma {:induction false} MetricLinesRead(r: Reader, macro: string, rows: seq<Row>)
    requires r.open.Some? && macro in r.macros
    ensures ReadLines(r, MetricLines(macro, rows)) == r.(rows := r.rows + Printed(r.open.value, r.macros[macro], rows))
  {
    if rows == [] {
    } else {
      var front, row := rows[..|rows| - 1], rows[|rows| - 1];
      MetricLinesRead(r, macro, front);
      ReadSnoc(r, MetricLines(macro, front), Metric(row.desc.name, macro, row.cluster, row.item));
    }
  }

  ghost predicate ListedTo(style: Style, r: Reader, cs: seq<Cluster>, previous: string, r': Reader)
    requires style.upper in r.macros
  {
    r' == r.(rows := r.rows + RowsWhere(false, style.pmda, r.macros[style.upper], cs),
             listed := r.listed + Qualified(style.pmda, Dedupe(Names(cs), previous)))
  }

  lemma {:induction false} ListingReads(style: Style, r: Reader, cs: seq<Cluster>, previous: string)
    requires r.open == Some(style.pmda) && style.upper in r.macros
    ensures var page := Listing(style, cs, previous);
            page.previous == LastName(Names(cs), previous) && ListedTo(style, r, cs, previous, ReadLines(r, page.lines))
  {
    if cs == [] {
    } else {
      var front, c := cs[..|cs| - 1], cs[|cs| - 1];
      var page := Listing(style, front, previous);
      ListingReads(style, r, front, previous);
      if c.name == "" {
        var domain, lines := r.macros[style.upper], MetricLines(style.upper, ClusterRows(c));
        ReadAppend(r, page.lines, lines);
        MetricLinesRead(ReadLines(r, page.lines), style.upper, ClusterRows(c));
        Assoc(r.rows, RowsWhere(false, style.pmda, domain, front), Printed(style.pmda, domain, ClusterRows(c)));
        assert Listing(style, cs, previous) == Page(page.lines + lines, page.previous);
        assert Names(cs) == Names(front);
      } else {
        ListChild(style, r, page, c.name);
        SnocName(style.pmda, Names(front), c.name, previous);
        Assoc(r.listed, Qualified(style.pmda, Dedupe(Names(front), previous)), [style.pmda + "." + c.name]);
        assert Listing(style, cs, previous)
          == (if c.name == page.previous then page else Page(page.lines + [Child(c.name)], c.name));
      }
    }
  }

  lemma ListChild(style: Style, r: Reader, page: Page, name: string)
    requires ReadLines(r, page.lines).open == Some(style.pmda)
    ensures var mid := ReadLines(r, page.lines);
            ReadLines(r, page.lines + [Child(name)]) == mid.(listed := mid.listed + [style.pmda + "." + name])
  {
    ReadSnoc(r, page.lines, Child(name));
  }

  lemma SnocName(pmda: string, names: seq<string>, name: string, previous: string)
    ensures LastName(names + [name], previous) == name
    ensures Qualified(pmda, Dedupe(names + [name], previous)) ==
            if name == LastName(names, previous) then Qualified(pmda, Dedupe(names, previous))
            else Qualified(pmda, Dedupe(names, previous)) + [pmda + "." + name]
  {
    assert (names + [name])[..|names|] == names;
    var before := Dedupe(names, previous);
    assert (before + [name])[..|before|] == before;
  }

  lemma OpeningReads(style: Style, r: Reader, previous: string, name: string)
    requires r.open == if previous == "" then None else Some(style.pmda + "." + previous)
    ensures name != "" ==>
            ReadLines(r, Opening(style, previous, name)) ==
            r.(open := Some(style.pmda + "." + name),
               groups := if name == previous then r.groups else r.groups + [style.pmda + "." + name])
  {
    if name != previous {
      var close: seq<Line> := if previous == "" then [] else [Close];
      ReadSnoc(r, close + [Blank], Open(style.pmda + "." + name));
      ReadSnoc(r, close, Blank);
      ReadSnoc(r, [], Close);
      assert [] + [Close] == [Close];
    }
  }

  ghost predicate GroupedTo(style: Style, r: Reader, cs: seq<Cluster>, r': Reader)
    requires style.upper in r.macros
  {
    r' == r.(rows := r.rows + RowsWhere(true, style.pmda, r.macros[style.upper], cs),
             groups := r.groups + Qualified(style.pmda, Dedupe(Names(cs), "")),
             open := if Names(cs) == [] then None else Some(style.pmda + "." + LastName(Names(cs), "")))
  }

  lemma {:induction false} GroupingReads(style: Style, r: Reader, cs: seq<Cluster>)
    requires r.open.None? && style.upper in r.macros
    ensures var page := Grouping(style, cs);
            page.previous == LastName(Names(cs), "") && GroupedTo(style, r, cs, ReadLines(r, page.lines))
  {
    if cs == [] {
    } else {
      var front, c := cs[..|cs| - 1], cs[|cs| - 1];
      GroupingReads(style, r, front);
      if c.name != "" {
        var page := Grouping(style, front);
        var domain := r.macros[style.upper];
        var mid, opening := ReadLines(r, page.lines), Opening(style, page.previous, c.name);
        NamesNonEmpty(front);
        OpeningReads(style, mid, page.previous, c.name);
        MetricLinesRead(ReadLines(mid, opening), style.upper, ClusterRows(c));
        ReadAppend(r, page.lines, opening);
        ReadAppend(r, page.lines + opening, MetricLines(style.upper, ClusterRows(c)));
        SnocName(style.pmda, Names(front), c.name, "");
        Assoc(r.rows, RowsWhere(true, style.pmda, domain, front),
              Printed(style.pmda + "." + c.name, domain, ClusterRows(c)));
        Assoc(r.groups, Qualified(style.pmda, Dedupe(Names(front), "")), [style.pmda + "." + c.name]);
      }
    }
  }

  lemma RootBlockReads(style: Style, domainNumber: int, listing: seq<Line>)
    ensures var before := START.(macros := map[style.upper := domainNumber], open := Some(style.pmda),
                                 groups := [style.pmda]);
            ReadLines(START, RootBlock(style, domainNumber, listing)) == ReadLine(ReadLines(before, listing), Close)
  {
    var header := Header(style, domainNumber);
    ReadSnoc(START, [Blank] + [IfNotDefined(style.upper)] + [Define(style.upper, domainNumber)], EndIf);
    ReadSnoc(START, [Blank] + [IfNotDefined(style.upper)], Define(style.upper, domainNumber));
    ReadSnoc(START, [Blank], IfNotDefined(style.upper));
    ReadSnoc(START, [], Blank);
    assert [] + [Blank] == [Blank];
    assert START.macros[style.upper := domainNumber] == map[style.upper := domainNumber];
    assert ReadLines(START, header) == START.(macros := map[style.upper := domainNumber]);
    assert START.groups + [style.pmda] == [style.pmda];
    ReadSnoc(START, header, Blank);
    ReadSnoc(START, header + [Blank], Open(style.pmda));
    ReadAppend(START, header + [Blank] + [Open(style.pmda)], listing);
    ReadSnoc(START, header + [Blank] + [Open(style.pmda)] + listing, Close);
  }

  lemma GroupBlocksRead(r: Reader, page: Page)
    requires ReadLines(r, page.lines).open.None? <==> page.previous == ""
    ensures ReadLines(r, GroupBlocks(page)) == ReadLines(r, page.lines).(open := None)
  {
    ReadSnoc(r, page.lines + Closing(page.previous), Blank);
    if page.previous == "" {
      assert page.lines + [] == page.lines;
    } else {
      ReadSnoc(r, page.lines, Close);
    }
  }

  // ----- Every line that is printed can be read -----

  ghost predicate StyleOk(style: Style) { IsName(style.pmda) && style.upper == Upper(style.pmda) }

  lemma BothOk(a: seq<Line>, b: seq<Line>)
    requires AllOk(a) && AllOk(b)
    ensures AllOk(a + b)
  {
  }

  lemma MetricLinesOk(upper: string, rows: seq<Row>)
    requires IsName(upper) && RowsNamed(rows)
    ensures AllOk(MetricLines(upper, rows))
  {
  }

  lemma ListUnnamedOk(style: Style, page: Page, c: Cluster)
    requires IsName(style.upper) && AllOk(page.lines) && c.name == "" && RowsNamed(ClusterRows(c))
    ensures AllOk(ListCluster(style, page, c).lines)
  {
    MetricLinesOk(style.upper, ClusterRows(c));
    BothOk(page.lines, MetricLines(style.upper, ClusterRows(c)));
  }

  lemma ListNamedOk(style: Style, page: Page, c: Cluster)
    requires AllOk(page.lines) && IsName(c.name)
    ensures AllOk(ListCluster(style, page, c).lines)
  {
    var child := [Child(c.name)];
    assert AllOk(child);
    BothOk(page.lines, child);
  }

  lemma {:induction false} ListingOk(style: Style, cs: seq<Cluster>, previous: string)
    requires StyleOk(style) && Named(cs)
    ensures AllOk(Listing(style, cs, previous).lines)
  {
    if cs == [] {
    } else {
      var n := |cs| - 1;
      ListingOk(style, cs[..n], previous);
      UpperIsName(style.pmda);
      if cs[n].name == "" {
        ListUnnamedOk(style, Listing(style, cs[..n], previous), cs[n]);
      } else {
        ListNamedOk(style, Listing(style, cs[..n], previous), cs[n]);
      }
    }
  }

  lemma PathIsName(pmda: string, name: string)
    requires IsName(pmda) && IsName(name)
    ensures IsName(pmda + "." + name)
  {
    var path := pmda + "." + name;
    assert path[0] == pmda[0] && |path| > 1;
  }

  lemma OpeningOk(style: Style, previous: string, name: string)
    requires StyleOk(style) && IsName(name)
    ensures AllOk(Opening(style, previous, name))
  {
    PathIsName(style.pmda, name);
  }

  lemma {:induction false} GroupingOk(style: Style, cs: seq<Cluster>)
    requires StyleOk(style) && Named(cs)
    ensures AllOk(Grouping(style, cs).lines)
  {
    if cs == [] {
    } else {
      var c, page := cs[|cs| - 1], Grouping(style, cs[..|cs| - 1]);
      GroupingOk(style, cs[..|cs| - 1]);
      UpperIsName(style.pmda);
      if c.name != "" {
        OpeningOk(style, page.previous, c.name);
        MetricLinesOk(style.upper, ClusterRows(c));
        BothOk(page.lines, Opening(style, page.previous, c.name));
        BothOk(page.lines + Opening(style, page.previous, c.name), MetricLines(style.upper, ClusterRows(c)));
      }
    }
  }

  lemma BlocksOk(style: Style, domainNumber: int, listing: seq<Line>, page: Page)
    requires StyleOk(style) && AllOk(listing) && AllOk(page.lines)
    ensures AllOk(RootBlock(style, domainNumber, listing))
    ensures AllOk(GroupBlocks(page))
  {
    UpperIsName(style.pmda);
  }

  // ----- The main results -----

  lemma PmnsLinesOk(style: Style, domainNumber: int, cs: seq<Cluster>, previous: string)
    requires StyleOk(style) && Named(cs)
    ensures AllOk(PmnsLines(style, domainNumber, cs, previous))
  {
    var listing, grouping := Listing(style, cs, previous).lines, Grouping(style, cs);
    ListingOk(style, cs, previous);
    GroupingOk(style, cs);
    BlocksOk(style, domainNumber, listing, grouping);
    BothOk(RootBlock(style, domainNumber, listing), GroupBlocks(grouping));
  }

  /** Reading back the exported text: every line is understood, braces balance, the ungrouped metrics come first and the
      grouped ones follow (each in ascending order of cluster and item), and groups are listed and opened as named. */
  lemma PmnsReadsBack(style: Style, domainNumber: int, cs: seq<Cluster>, previous: string)
    requires StyleOk(style) && Named(cs)
    ensures ReadPmns(PmnsText(style, domainNumber, cs, previous)) ==
            Reader(true, map[style.upper := domainNumber], None,
                   RowsWhere(false, style.pmda, domainNumber, cs) + RowsWhere(true, style.pmda, domainNumber, cs),
                   Qualified(style.pmda, Dedupe(Names(cs), previous)),
                   [style.pmda] + Qualified(style.pmda, Dedupe(Names(cs), "")))
  {
    var listing, grouping := Listing(style, cs, previous).lines, Grouping(style, cs);
    var root, groups := RootBlock(style, domainNumber, listing), GroupBlocks(grouping);
    PmnsLinesOk(style, domainNumber, cs, previous);
    PmnsLinesFit(style, domainNumber, cs, previous);
    TextReads(LongestName(Flatten(Groups(cs))), root + groups);
    ReadAppend(START, root, groups);
    LinesRead(style, domainNumber, cs, previous);
  }

  lemma LinesRead(style: Style, domainNumber: int, cs: seq<Cluster>, previous: string)
    ensures ReadLines(ReadLines(START, RootBlock(style, domainNumber, Listing(style, cs, previous).lines)),
                      GroupBlocks(Grouping(style, cs))) ==
            Reader(true, map[style.upper := domainNumber], None,
                   RowsWhere(false, style.pmda, domainNumber, cs) + RowsWhere(true, style.pmda, domainNumber, cs),
                   Qualified(style.pmda, Dedupe(Names(cs), previous)),
                   [style.pmda] + Qualified(style.pmda, Dedupe(Names(cs), "")))
  {
    var r := START.(macros := map[style.upper := domainNumber], open := Some(style.pmda), groups := [style.pmda]);
    RootBlockReads(style, domainNumber, Listing(style, cs, previous).lines);
    ListingReads(style, r, cs, previous);
    var closed := ReadLine(ReadLines(r, Listing(style, cs, previous).lines), Close);
    assert [] + RowsWhere(false, style.pmda, domainNumber, cs) == RowsWhere(false, style.pmda, domainNumber, cs);
    assert [] + Qualified(style.pmda, Dedupe(Names(cs), previous))
      == Qualified(style.pmda, Dedupe(Names(cs), previous));
    GroupingReads(style, closed, cs);
    NamesNonEmpty(cs);
    GroupBlocksRead(closed, Grouping(style, cs));
  }

  /** All rows of the file, cluster by cluster. */
  ghost function PrintedGroups(pmda: string, domain: int, cs: seq<Cluster>): (groups: seq<seq<PmnsRow>>)
    ensures |groups| == |cs|
    ensures forall j :: 0 <= j < |cs| ==> groups[j] == Printed(Path(pmda, cs[j].name), domain, ClusterRows(cs[j]))
  {
    seq(|cs|, j requires 0 <= j < |cs| => Printed(Path(pmda, cs[j].name), domain, ClusterRows(cs[j])))
  }

  ghost function Expected(pmda: string, domain: int, cs: seq<Cluster>): seq<PmnsRow> {
    Flatten(PrintedGroups(pmda, domain, cs))
  }

  lemma {:induction false} RowsArePartitioned(pmda: string, domain: int, cs: seq<Cluster>)
    ensures multiset(RowsWhere(false, pmda, domain, cs)) + multiset(RowsWhere(true, pmda, domain, cs))
            == multiset(Expected(pmda, domain, cs))
  {
    if cs == [] {
    } else {
      var n := |cs| - 1;
      RowsArePartitioned(pmda, domain, cs[..n]);
      assert PrintedGroups(pmda, domain, cs)[..n] == PrintedGroups(pmda, domain, cs[..n]);
    }
  }

  lemma ExpectedLength(pmda: string, domain: int, cs: seq<Cluster>)
    ensures |Expected(pmda, domain, cs)| == |Flatten(Groups(cs))|
  {
    SameShape(Groups(cs), PrintedGroups(pmda, domain, cs));
  }

  lemma ExpectedAt(pmda: string, domain: int, cs: seq<Cluster>, k: nat)
    requires k < |Flatten(Groups(cs))| == |Expected(pmda, domain, cs)|
    ensures var row, c := Flatten(Groups(cs))[k], cs[PlaceOf(Groups(cs), k).group];
            Expected(pmda, domain, cs)[k] == RowFor(Path(pmda, c.name), domain, row) && Holds(c, row)
  {
    SameShape(Groups(cs), PrintedGroups(pmda, domain, cs));
    var p := PlaceOf(Groups(cs), k);
    assert Holds(cs[p.group], ClusterRows(cs[p.group])[p.index]);
  }

  /** The row that the file must hold for a metric. */
  function MetricRow(pmda: string, domain: int, cat: Catalog, c: nat, i: nat): PmnsRow
    requires c in cat && i in cat[c].metrics
  {
    RowFor(Path(pmda, cat[c].name), domain, Row(c, i, cat[c].metrics[i]))
  }

  lemma ExpectedIsMetricRow(pmda: string, domain: int, cat: Catalog, k: nat)
    requires KeyedById(cat) && k < |Rows(cat)|
    ensures var row := Rows(cat)[k];
            Describes(cat, row.cluster, row.item, row.desc)
            && |Expected(pmda, domain, Clusters(cat))| == |Rows(cat)|
            && Expected(pmda, domain, Clusters(cat))[k] == MetricRow(pmda, domain, cat, row.cluster, row.item)
  {
    var cs, ids := Clusters(cat), OrderedKeys.Ids(cat.Keys);
    ExpectedLength(pmda, domain, cs);
    ExpectedAt(pmda, domain, cs, k);
    ClustersInOrder(cat);
    var j := PlaceOf(Groups(cs), k).group;
    assert cs[j] == cat[ids[j]] && cs[j].id == ids[j];
  }

  /** The file holds the row of every metric of the description exactly once. */
  lemma EveryMetricOnce(pmda: string, domain: int, cat: Catalog, c: nat, i: nat)
    requires KeyedById(cat) && c in cat && i in cat[c].metrics
    ensures var all := RowsWhere(false, pmda, domain, Clusters(cat)) + RowsWhere(true, pmda, domain, Clusters(cat));
            multiset(all)[MetricRow(pmda, domain, cat, c, i)] == 1
  {
    var rows, expected := Rows(cat), Expected(pmda, domain, Clusters(cat));
    RowsArePartitioned(pmda, domain, Clusters(cat));
    RowsAreTheCatalog(cat);
    ExpectedLength(pmda, domain, Clusters(cat));
    forall k | 0 <= k < |rows|
      ensures Describes(cat, rows[k].cluster, rows[k].item, rows[k].desc)
      ensures expected[k] == MetricRow(pmda, domain, cat, rows[k].cluster, rows[k].item)
    {
      ExpectedIsMetricRow(pmda, domain, cat, k);
    }
    assert Distinct(expected) by {
      forall a, b | 0 <= a < b < |expected| ensures expected[a] != expected[b] {
        assert RowLess(rows[a], rows[b]);
      }
    }
    var k :| 0 <= k < |rows| && rows[k] == Row(c, i, cat[c].metrics[i]);
    DistinctOnce(expected, k);
  }

  /** The file holds nothing else: each of its rows is the row of some metric. */
  lemma NothingElse(pmda: string, domain: int, cat: Catalog, row: PmnsRow)
    requires KeyedById(cat)
    requires row in RowsWhere(false, pmda, domain, Clusters(cat)) + RowsWhere(true, pmda, domain, Clusters(cat))
    ensures row.cluster in cat && row.item in cat[row.cluster].metrics
      && row == MetricRow(pmda, domain, cat, row.cluster, row.item)
  {
    var expected := Expected(pmda, domain, Clusters(cat));
    RowsArePartitioned(pmda, domain, Clusters(cat));
    var all := RowsWhere(false, pmda, domain, Clusters(cat)) + RowsWhere(true, pmda, domain, Clusters(cat));
    assert row in multiset(all);
    ExpectedLength(pmda, domain, Clusters(cat));
    var k :| 0 <= k < |expected| && expected[k] == row;
    ExpectedIsMetricRow(pmda, domain, cat, k);
  }

  // ----- Order -----

  predicate PrintedLess(a: PmnsRow, b: PmnsRow) {
    a.cluster < b.cluster || (a.cluster == b.cluster && a.item < b.item)
  }

  ghost predicate AscendingPrinted(rows: seq<PmnsRow>) {
    forall a, b :: 0 <= a < b < |rows| ==> PrintedLess(rows[a], rows[b])
  }

  ghost predicate AscendingClusters(cs: seq<Cluster>) {
    forall i, j :: 0 <= i < j < |cs| ==> cs[i].id < cs[j].id
  }

  ghost predicate Below(rows: seq<PmnsRow>, bound: nat) {
    forall k :: 0 <= k < |rows| ==> rows[k].cluster < bound
  }

  lemma PrintedAscends(path: string, domain: int, c: Cluster)
    ensures var rows := Printed(path, domain, ClusterRows(c));
            AscendingPrinted(rows) && forall k :: 0 <= k < |rows| ==> rows[k].cluster == c.id
  {
    assert forall k :: 0 <= k < |ClusterRows(c)| ==> Holds(c, ClusterRows(c)[k]);
  }

  lemma AppendAscends(a: seq<PmnsRow>, b: seq<PmnsRow>, bound: nat)
    requires AscendingPrinted(a) && AscendingPrinted(b) && Below(a, bound)
    requires forall k :: 0 <= k < |b| ==> b[k].cluster == bound
    ensures AscendingPrinted(a + b) && Below(a + b, bound + 1)
  {
  }

  lemma {:induction false} RowsWhereAscend(named: bool, pmda: string, domain: int, cs: seq<Cluster>, bound: nat)
    requires AscendingClusters(cs) && forall j :: 0 <= j < |cs| ==> cs[j].id < bound
    ensures AscendingPrinted(RowsWhere(named, pmda, domain, cs)) && Below(RowsWhere(named, pmda, domain, cs), bound)
  {
    if cs == [] {
    } else {
      var front, c := cs[..|cs| - 1], cs[|cs| - 1];
      RowsWhereAscend(named, pmda, domain, front, c.id);
      PrintedAscends(Path(pmda, c.name), domain, c);
      AppendAscends(RowsWhere(named, pmda, domain, front), Printed(Path(pmda, c.name), domain, ClusterRows(c)), c.id);
    }
  }

  /** Both halves of the file hold their rows in strictly ascending order of (cluster, item). */
  lemma FileRowsAscend(named: bool, pmda: string, domain: int, cat: Catalog)
    requires KeyedById(cat)
    ensures AscendingPrinted(RowsWhere(named, pmda, domain, Clusters(cat)))
  {
    var cs := Clusters(cat);
    ClustersInOrder(cat);
    RowsWhereAscend(named, pmda, domain, cs, if cs == [] then 0 else cs[|cs| - 1].id + 1);
  }

  // ----- Headings -----

  /** Whatever name an earlier export left behind, pass two omits at most the first heading, and does so iff it equals
      that name. */
  lemma {:induction false} StaleNameHidesFirstHeading(names: seq<string>, previous: string)
    requires NonEmptyNames(names)
    ensures names != [] ==> Dedupe(names, "") != [] && Dedupe(names, "")[0] == names[0]
    ensures Dedupe(names, previous) ==
            if names != [] && names[0] == previous then Dedupe(names, "")[1..] else Dedupe(names, "")
  {
    if |names| == 1 {
      assert names[..0] == [];
      assert Dedupe(names[..0], "") == [] && Dedupe(names[..0], previous) == [];
    } else if |names| > 1 {
      StaleNameHidesFirstHeading(names[..|names| - 1], previous);
    }
  }

  /** Pass two lists exactly the groups that pass three opens iff no stale name hides the first one. */
  lemma ListedAreOpened(cs: seq<Cluster>, previous: string)
    ensures Dedupe(Names(cs), previous) == Dedupe(Names(cs), "") <==> Names(cs) == [] || Names(cs)[0] != previous
  {
    NamesNonEmpty(cs);
    StaleNameHidesFirstHeading(Names(cs), previous);
  }

  /** After one export from a fresh process, a second one lists every group iff the first named cluster's name differs
      from the last one's. */
  lemma SecondExport(style: Style, cs: seq<Cluster>)
    ensures var again := Listing(style, cs, "").previous;
            Dedupe(Names(cs), again) == Dedupe(Names(cs), "") <==>
            Names(cs) == [] || Names(cs)[0] != Names(cs)[|Names(cs)| - 1]
  {
    ListedAreOpened(cs, LastName(Names(cs), ""));
    ListingRemembers(style, cs, "");
  }

  /** With a single named cluster, a second export by the same process lists no group at all. */
  lemma SecondExportExample(style: Style, c: Cluster)
    requires c.name != ""
    ensures var again := Listing(style, [c], "").previous;
            Dedupe(Names([c]), "") == [c.name] && Dedupe(Names([c]), again) == []
  {
    ListingRemembers(style, [c], "");
    assert [c][..0] == [];
    assert Names([c]) == [c.name];
    assert [c.name][..0] == [];
  }

  lemma {:induction false} ListingRemembers(style: Style, cs: seq<Cluster>, previous: string)
    ensures Listing(style, cs, previous).previous == LastName(Names(cs), previous)
  {
    if cs == [] {
    } else {
      ListingRemembers(style, cs[..|cs| - 1], previous);
    }
  }

  // ----- When the file is a name space -----

  /** All is well, and every group but the root is listed as a child exactly once and opened exactly once. */
  ghost predicate NameSpace(r: Reader) {
    && r.ok && r.groups != []
    && Distinct(r.listed) && Distinct(r.groups)
    && forall g :: g in r.listed <==> g in r.groups[1..]
  }

  /** Equal names stand next to each other. */
  ghost predicate Adjacent(names: seq<string>) {
    forall i, j, k :: 0 <= i < j < k < |names| && names[i] == names[k] ==> names[j] == names[k]
  }

  lemma {:induction false} DedupeMembers(names: seq<string>, x: string)
    requires NonEmptyNames(names)
    ensures x in Dedupe(names, "") <==> x in names
  {
    if names == [] {
    } else {
      var front := names[..|names| - 1];
      DedupeMembers(front, x);
      assert names == front + [names[|names| - 1]];
    }
  }

  lemma AdjacentSnoc(front: seq<string>, x: string)
    requires front != []
    ensures Adjacent(front + [x]) <==> Adjacent(front) && (x == front[|front| - 1] || x !in front)
  {
    var names, n := front + [x], |front|;
    assert forall i :: 0 <= i < n ==> names[i] == front[i];
    if Adjacent(names) {
      assert Adjacent(front);
      forall i | 0 <= i < n && front[i] == x ensures front[n - 1] == x {
        assert names[n - 1] == front[n - 1] && names[n] == x;
      }
    }
    if Adjacent(front) && (x == front[n - 1] || x !in front) {
      forall i, j, k | 0 <= i < j < k < |names| && names[i] == names[k] ensures names[j] == names[k] {
        if k == n {
          assert front[i] == front[n - 1];
        }
      }
    }
  }

  lemma DistinctSnoc<T>(s: seq<T>, x: T)
    ensures Distinct(s + [x]) <==> Distinct(s) && x !in s
  {
    var t := s + [x];
    assert forall i :: 0 <= i < |s| ==> t[i] == s[i];
    assert t[|s|] == x;
  }

  lemma {:induction false} DedupeDistinct(names: seq<string>)
    requires NonEmptyNames(names)
    ensures Distinct(Dedupe(names, "")) <==> Adjacent(names)
  {
    if names == [] {
    } else {
      var front, x := names[..|names| - 1], names[|names| - 1];
      assert names == front + [x];
      DedupeDistinct(front);
      DedupeMembers(front, x);
      DistinctSnoc(Dedupe(front, ""), x);
      if front != [] {
        AdjacentSnoc(front, x);
      }
    }
  }

  lemma {:induction false} QualifiedAt(pmda: string, names: seq<string>)
    ensures |Qualified(pmda, names)| == |names|
    ensures forall k :: 0 <= k < |names| ==> Qualified(pmda, names)[k] == pmda + "." + names[k]
  {
    if names == [] {
    } else {
      QualifiedAt(pmda, names[..|names| - 1]);
    }
  }

  lemma SamePath(pmda: string, a: string, b: string)
    ensures pmda + "." + a == pmda + "." + b <==> a == b
    ensures pmda + "." + a != pmda
  {
    assert (pmda + "." + a)[|pmda| + 1..] == a && (pmda + "." + b)[|pmda| + 1..] == b;
    assert |pmda + "." + a| > |pmda|;
  }

  lemma QualifiedDistinct(pmda: string, names: seq<string>)
    ensures Distinct(Qualified(pmda, names)) <==> Distinct(names)
    ensures Distinct([pmda] + Qualified(pmda, names)) <==> Distinct(names)
  {
    var paths := Qualified(pmda, names);
    QualifiedAt(pmda, names);
    forall i, j | 0 <= i < j < |names| ensures paths[i] == paths[j] <==> names[i] == names[j] {
      SamePath(pmda, names[i], names[j]);
    }
    forall i | 0 <= i < |names| ensures paths[i] != pmda {
      SamePath(pmda, names[i], names[i]);
    }
    var all := [pmda] + paths;
    assert forall i :: 0 <= i < |paths| ==> all[i + 1] == paths[i];
  }

  lemma StaleIsNoNameSpace(pmda: string, heads: seq<string>)
    requires heads != [] && Distinct(heads)
    ensures pmda + "." + heads[0] in Qualified(pmda, heads)
    ensures pmda + "." + heads[0] !in Qualified(pmda, heads[1..])
  {
    QualifiedAt(pmda, heads);
    QualifiedAt(pmda, heads[1..]);
    assert Qualified(pmda, heads)[0] == pmda + "." + heads[0];
    forall k | 1 <= k < |heads| ensures pmda + "." + heads[k] != pmda + "." + heads[0] {
      SamePath(pmda, heads[k], heads[0]);
    }
  }

  lemma NameSpaceByHeadings(pmda: string, r: Reader, heads: seq<string>, listed: seq<string>)
    requires r.ok && r.listed == Qualified(pmda, listed) && r.groups == [pmda] + Qualified(pmda, heads)
    requires listed == heads || (heads != [] && listed == heads[1..])
    ensures NameSpace(r) <==> listed == heads && Distinct(heads)
  {
    QualifiedDistinct(pmda, heads);
    QualifiedDistinct(pmda, listed);
    assert r.groups[1..] == Qualified(pmda, heads);
    if listed != heads && Distinct(heads) {
      StaleIsNoNameSpace(pmda, heads);
    }
  }

  /** The exported file is a name space exactly when no stale name hides the first heading and clusters with the same
      name are adjacent among the named ones. */
  lemma NameSpaceIff(style: Style, domainNumber: int, cs: seq<Cluster>, previous: string)
    requires StyleOk(style) && Named(cs)
    ensures NameSpace(ReadPmns(PmnsText(style, domainNumber, cs, previous))) <==>
            (Names(cs) == [] || Names(cs)[0] != previous) && Adjacent(Names(cs))
  {
    var names, r := Names(cs), ReadPmns(PmnsText(style, domainNumber, cs, previous));
    PmnsReadsBack(style, domainNumber, cs, previous);
    NamesNonEmpty(cs);
    DedupeDistinct(names);
    StaleNameHidesFirstHeading(names, previous);
    NameSpaceByHeadings(style.pmda, r, Dedupe(names, ""), Dedupe(names, previous));
  }

  /** Three clusters named x, y and x in that order open one group twice. */
  lemma RepeatedGroupExample(style: Style, a: Cluster, b: Cluster, c: Cluster)
    requires a.name == c.name != b.name && a.name != "" && b.name != ""
    ensures Dedupe(Names([a, b, c]), "") == [a.name, b.name, a.name] && !Adjacent(Names([a, b, c]))
  {
    var cs, names := [a, b, c], [a.name, b.name, a.name];
    assert cs[..2] == [a, b] && cs[..2][..1] == [a] && cs[..2][..1][..0] == [];
    assert names[..2] == [a.name, b.name] && names[..2][..1] == [a.name] && names[..2][..1][..0] == [];
    assert Names([a]) == [a.name] && Names([a, b]) == [a.name, b.name] && Names(cs) == names;
    assert Dedupe([a.name], "") == [a.name] && Dedupe([a.name, b.name], "") == [a.name, b.name];
    assert names[0] == names[2] && names[1] != names[2];
  }
}

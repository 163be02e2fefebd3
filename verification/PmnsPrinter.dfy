/** `export_pmns_data`: three passes over the description, appending to a stream. */
module PmnsPrinter {
  import opened Pcp
  import opened Text
  import opened OrderedKeys
  import opened Catalog
  import opened Flattening
  import opened PmnsSpec

  // ----- The output stream -----

  lemma WrittenSnoc(width: nat, lines: seq<Line>, line: Line)
    requires AllFit(width, lines) && FitsLine(width, line)
    ensures AllFit(width, lines + [line])
    ensures Written(width, lines + [line]) == Written(width, lines) + Render(width, line) + "\n"
  {
    var text := RenderAll(width, lines);
    assert RenderAll(width, lines + [line]) == text + [Render(width, line)];
    UnlinesAppend(text, [Render(width, line)]);
    assert [Render(width, line)][1..] == [];
    assert Unlines([Render(width, line)]) == Render(width, line) + "\n";
    Assoc(Unlines(text), Render(width, line), "\n");
  }

  /** A stream that is written line by line; `lines` is what has been written, before it was laid out as text. */
  class LineStream {
    var text: string
    ghost const width: nat
    ghost var lines: seq<Line>

    ghost predicate Valid()
      reads this
    {
      AllFit(width, lines) && text == Written(width, lines)
    }

    constructor (ghost width: nat)
      ensures Valid() && this.width == width && lines == [] && text == ""
    {
      text, this.width, lines := "", width, [];
    }

    /** `stream << line << std::endl` */
    method WriteLine(line: string, ghost as_: Line)
      requires Valid() && FitsLine(width, as_) && line == Render(width, as_)
      modifies this
      ensures Valid() && lines == old(lines) + [as_]
    {
      WrittenSnoc(width, lines, as_);
      text := text + line + "\n";
      lines := lines + [as_];
    }
  }

  // ----- Steps of the specification -----

  lemma LongestNameStep(rows: seq<Row>, row: Row)
    ensures LongestName(rows + [row]) ==
            if |row.desc.name| > LongestName(rows) then |row.desc.name| else LongestName(rows)
  {
    assert (rows + [row])[..|rows|] == rows;
  }

  lemma MetricLinesStep(upper: string, rows: seq<Row>, i: nat)
    requires i < |rows|
    ensures MetricLines(upper, rows[..i + 1]) ==
            MetricLines(upper, rows[..i]) + [Metric(rows[i].desc.name, upper, rows[i].cluster, rows[i].item)]
  {
    assert rows[..i + 1][..i] == rows[..i];
  }

  lemma ListingStep(style: Style, cs: seq<Cluster>, previous: string, g: nat)
    requires g < |cs|
    ensures Listing(style, cs[..g + 1], previous) == ListCluster(style, Listing(style, cs[..g], previous), cs[g])
  {
    assert cs[..g + 1][..g] == cs[..g];
  }

  lemma GroupingStep(style: Style, cs: seq<Cluster>, g: nat)
    requires g < |cs|
    ensures Grouping(style, cs[..g + 1]) == GroupCluster(style, Grouping(style, cs[..g]), cs[g])
  {
    assert cs[..g + 1][..g] == cs[..g];
  }

  // ----- The passes -----

  /** Pass one. */
  method LongestMetricName(cat: Catalog) returns (maxSize: nat)
    ensures maxSize == LongestName(Rows(cat))
  {
    ghost var groups, visited: seq<Row> := Groups(Clusters(cat)), [];
    maxSize := 0;
    var clusterIds := IterateIds(cat.Keys);
    for g := 0 to |clusterIds|
      invariant visited == Flatten(groups[..g]) && maxSize == LongestName(visited)
    {
      var cluster := cat[clusterIds[g]];
      var items := IterateIds(cluster.metrics.Keys);
      for i := 0 to |items|
        invariant visited == Visited(groups, g, i) && maxSize == LongestName(visited)
      {
        var description := cluster.metrics[items[i]];
        assert groups[g][i].desc == description;
        LongestNameStep(visited, groups[g][i]);
        VisitedStep(groups, g, i);
        if |description.name| > maxSize {
          maxSize := |description.name|;
        }
        visited := visited + [groups[g][i]];
      }
      VisitedAll(groups, g);
    }
    assert groups[..|clusterIds|] == groups;
  }

  method WriteMetric(stream: LineStream, width: nat, upper: string, cluster: nat, item: nat, name: string)
    requires stream.Valid() && stream.width == width && |name| <= width
    modifies stream
    ensures stream.Valid() && stream.lines == old(stream.lines) + [Metric(name, upper, cluster, item)]
  {
    assert width - |name| >= 0;
    stream.WriteLine("    " + name + Spaces(width - |name| + 4) + PmidText(upper, cluster, item),
                     Metric(name, upper, cluster, item));
  }

  /** The loop that passes two and three share: one cluster's metric lines. */
  method WriteMetrics(stream: LineStream, width: nat, upper: string, cluster: Cluster)
    requires stream.Valid() && stream.width == width && RowsFit(width, ClusterRows(cluster))
    modifies stream
    ensures stream.Valid() && stream.lines == old(stream.lines) + MetricLines(upper, ClusterRows(cluster))
  {
    ghost var rows, written: seq<Line> := ClusterRows(cluster), [];
    var items := IterateIds(cluster.metrics.Keys);
    assert forall k :: 0 <= k < |items| ==> rows[k] == Row(cluster.id, items[k], cluster.metrics[items[k]]);
    for i := 0 to |items|
      invariant written == MetricLines(upper, rows[..i])
      invariant stream.Valid() && stream.lines == old(stream.lines) + written
    {
      MetricLinesStep(upper, rows, i);
      WriteMetric(stream, width, upper, cluster.id, items[i], cluster.metrics[items[i]].name);
      ghost var line := Metric(cluster.metrics[items[i]].name, upper, cluster.id, items[i]);
      Assoc(old(stream.lines), written, [line]);
      written := written + [line];
    }
    assert rows[..|items|] == rows;
  }

  method WriteHeader(stream: LineStream, style: Style, domainNumber: int)
    requires stream.Valid() && stream.lines == []
    modifies stream
    ensures stream.Valid() && stream.lines == Header(style, domainNumber)
  {
    stream.WriteLine("", Blank);
    stream.WriteLine("#ifndef " + style.upper, IfNotDefined(style.upper));
    stream.WriteLine("#define " + style.upper + " " + IntText(domainNumber), Define(style.upper, domainNumber));
    stream.WriteLine("#endif", EndIf);
  }

  /** The body of pass three. */
  method WriteGroup(stream: LineStream, width: nat, style: Style, cluster: Cluster, previous: string,
                    ghost base: seq<Line>, ghost page: Page)
    returns (previous': string)
    requires stream.Valid() && stream.width == width && RowsFit(width, ClusterRows(cluster))
    requires previous == page.previous && stream.lines == base + page.lines
    modifies stream
    ensures stream.Valid()
    ensures var page' := GroupCluster(style, page, cluster);
            previous' == page'.previous && stream.lines == base + page'.lines
  {
    previous' := previous;
    if cluster.name != "" {
      if cluster.name != previous {
        if previous != "" {
          stream.WriteLine("}", Close);
        }
        stream.WriteLine("", Blank);
        stream.WriteLine(style.pmda + "." + cluster.name + " {", Open(style.pmda + "." + cluster.name));
      }
      ghost var opening := Opening(style, previous, cluster.name);
      assert stream.lines == base + page.lines + opening;
      Assoc(base, page.lines, opening);
      Assoc(base, page.lines + opening, MetricLines(style.upper, ClusterRows(cluster)));
      WriteMetrics(stream, width, style.upper, cluster);
      previous' := cluster.name;
    }
  }

  /** Pass three. */
  method WriteGroups(stream: LineStream, width: nat, style: Style, cat: Catalog) returns (previous: string)
    requires stream.Valid() && stream.width == width && ClustersFit(width, Clusters(cat))
    modifies stream
    ensures stream.Valid()
    ensures var page := Grouping(style, Clusters(cat));
            previous == page.previous && stream.lines == old(stream.lines) + page.lines
  {
    previous := "";
    ghost var cs, page := Clusters(cat), Page([], "");
    var clusterIds := IterateIds(cat.Keys);
    for g := 0 to |clusterIds|
      invariant page == Grouping(style, cs[..g]) && previous == page.previous
      invariant stream.Valid() && stream.lines == old(stream.lines) + page.lines
    {
      assert cs[g] == cat[clusterIds[g]];
      GroupingStep(style, cs, g);
      previous := WriteGroup(stream, width, style, cat[clusterIds[g]], previous, old(stream.lines), page);
      page := GroupCluster(style, page, cs[g]);
    }
    assert cs[..|clusterIds|] == cs;
  }

  class Exporter {
    /** The function-level static: it outlives the call. */
    var previousClusterName: string

    constructor ()
      ensures previousClusterName == ""
    {
      previousClusterName := "";
    }

    /** The body of pass two. */
    method WriteListed(stream: LineStream, width: nat, style: Style, cluster: Cluster, ghost base: seq<Line>,
                       ghost page: Page)
      requires stream.Valid() && stream.width == width && RowsFit(width, ClusterRows(cluster))
      requires previousClusterName == page.previous && stream.lines == base + page.lines
      modifies this, stream
      ensures stream.Valid()
      ensures var page' := ListCluster(style, page, cluster);
              previousClusterName == page'.previous && stream.lines == base + page'.lines
    {
      if cluster.name == "" {
        Assoc(base, page.lines, MetricLines(style.upper, ClusterRows(cluster)));
        WriteMetrics(stream, width, style.upper, cluster);
      } else if cluster.name != previousClusterName {
        Assoc(base, page.lines, [Child(cluster.name)]);
        stream.WriteLine("    " + cluster.name, Child(cluster.name));
        previousClusterName := cluster.name;
      }
    }

    /** Pass two. */
    method WriteListing(stream: LineStream, width: nat, style: Style, cat: Catalog)
      requires stream.Valid() && stream.width == width && ClustersFit(width, Clusters(cat))
      modifies this, stream
      ensures stream.Valid()
      ensures var page := Listing(style, Clusters(cat), old(previousClusterName));
              previousClusterName == page.previous && stream.lines == old(stream.lines) + page.lines
    {
      ghost var cs, page := Clusters(cat), Page([], previousClusterName);
      var clusterIds := IterateIds(cat.Keys);
      for g := 0 to |clusterIds|
        invariant page == Listing(style, cs[..g], old(previousClusterName)) && previousClusterName == page.previous
        invariant stream.Valid() && stream.lines == old(stream.lines) + page.lines
      {
        assert cs[g] == cat[clusterIds[g]];
        ListingStep(style, cs, old(previousClusterName), g);
        WriteListed(stream, width, style, cat[clusterIds[g]], old(stream.lines), page);
        page := ListCluster(style, page, cs[g]);
      }
      assert cs[..|clusterIds|] == cs;
    }

    /** The whole export. `opens` says whether the output can be written to: it is standard output, or the file
        opened. */
    method ExportPmnsData(pmda: string, domainNumber: int, cat: Catalog, opens: bool) returns (r: Result<string>)
      modifies this
      ensures var style := Style(pmda, Upper(pmda));
              if opens then
                && r == Returned(PmnsText(style, domainNumber, Clusters(cat), old(previousClusterName)))
                && previousClusterName == Listing(style, Clusters(cat), old(previousClusterName)).previous
              else r == Threw(PcpException(PmErrGeneric)) && previousClusterName == old(previousClusterName)
    {
      if !opens {
        return Threw(PcpException(PmErrGeneric));
      }
      var style := Style(pmda, Upper(pmda));
      var stream := new LineStream(LongestName(Rows(cat)));
      LongestFits(Clusters(cat));
      WriteHeader(stream, style, domainNumber);
      var width := LongestMetricName(cat);
      stream.WriteLine("", Blank);
      stream.WriteLine(pmda + " {", Open(pmda));
      WriteListing(stream, width, style, cat);
      stream.WriteLine("}", Close);
      WriteRest(stream, width, style, cat);
      r := Returned(stream.text);
    }
  }

  /** Pass three with its closing brace and the final blank line. */
  method WriteRest(stream: LineStream, width: nat, style: Style, cat: Catalog)
    requires stream.Valid() && stream.width == width && ClustersFit(width, Clusters(cat))
    modifies stream
    ensures stream.Valid() && stream.lines == old(stream.lines) + GroupBlocks(Grouping(style, Clusters(cat)))
  {
    ghost var page := Grouping(style, Clusters(cat));
    var previous := WriteGroups(stream, width, style, cat);
    if previous != "" {
      stream.WriteLine("}", Close);
    }
    assert stream.lines == old(stream.lines) + page.lines + Closing(previous);
    stream.WriteLine("", Blank);
    Assoc(old(stream.lines), page.lines, Closing(previous));
    Assoc(old(stream.lines), page.lines + Closing(previous), [Blank]);
  }
}

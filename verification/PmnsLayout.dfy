/** The layout of the exported PMNS text: the conditional around the macro, blank lines, and columns. */
module PmnsLayout {
  import opened Pcp
  import opened Text
  import opened Catalog
  import opened Flattening
  import opened PmnsSpec
  import opened Pmns
  import opened PmnsRoundTrip

  // ----- A reader that watches the layout -----

  /** Whether all is well, the macro whose conditional is open, the macros defined, whether the last line was blank, and
      how many blank lines and how many group openings there have been. */
  datatype Layout =
    Layout(ok: bool, conditional: Option<string>, defined: seq<string>, blank: bool, blanks: nat, opens: nat)

  const MARGIN: Layout := Layout(true, None, [], false, 0, 0)

  /** A macro is defined under its own `#ifndef`, nothing else stands under one, and a blank line stands in front of
      each `#ifndef` and of each group. */
  function LayLine(l: Layout, line: Line): Layout {
    match line
    case Blank => l.(blank := true, blanks := l.blanks + 1)
    case IfNotDefined(macro) =>
      l.(ok := l.ok && l.conditional.None? && l.blank, conditional := Some(macro), blank := false)
    case Define(macro, _) =>
      l.(ok := l.ok && l.conditional == Some(macro), defined := l.defined + [macro], blank := false)
    case EndIf => l.(ok := l.ok && l.conditional.Some?, conditional := None, blank := false)
    case Open(_) => l.(ok := l.ok && l.conditional.None? && l.blank, opens := l.opens + 1, blank := false)
    case Close => l.(ok := l.ok && l.conditional.None?, blank := false)
    case Child(_) => l.(ok := l.ok && l.conditional.None?, blank := false)
    case Metric(_, _, _, _) => l.(ok := l.ok && l.conditional.None?, blank := false)
  }

  function LayLines(l: Layout, lines: seq<Line>): Layout {
    if lines == [] then l else LayLine(LayLines(l, lines[..|lines| - 1]), lines[|lines| - 1])
  }

  function LayParsed(l: Layout, lines: seq<Option<Line>>): Layout {
    if lines == [] then l
    else
      var before, last := LayParsed(l, lines[..|lines| - 1]), lines[|lines| - 1];
      if last.None? then before.(ok := false) else LayLine(before, last.value)
  }

  function LayoutOf(text: string): Layout { LayParsed(MARGIN, ParseLines(Lines(text))) }

  // ----- Following the printer -----

  lemma {:induction false} LayAppend(l: Layout, a: seq<Line>, b: seq<Line>)
    ensures LayLines(l, a + b) == LayLines(LayLines(l, a), b)
  {
    if b == [] {
      assert a + b == a;
    } else {
      var n := |b| - 1;
      assert (a + b)[..|a + b| - 1] == a + b[..n];
      LayAppend(l, a, b[..n]);
    }
  }

  lemma LaySnoc(l: Layout, a: seq<Line>, line: Line)
    ensures LayLines(l, a + [line]) == LayLine(LayLines(l, a), line)
  {
    assert (a + [line])[..|a|] == a;
  }

  predicate IsMember(line: Line) { line.Metric? || line.Child? }

  ghost predicate Members(lines: seq<Line>) {
    forall k :: 0 <= k < |lines| ==> IsMember(lines[k])
  }

  /** Members of a group change nothing but what the last line was. */
  lemma {:induction false} MembersLay(l: Layout, lines: seq<Line>)
    requires Members(lines) && l.ok && l.conditional.None?
    ensures LayLines(l, lines) == l.(blank := l.blank && lines == [])
  {
    if lines == [] {
    } else {
      MembersLay(l, lines[..|lines| - 1]);
    }
  }

  lemma MetricLinesAreMembers(macro: string, rows: seq<Row>)
    ensures Members(MetricLines(macro, rows))
  {
  }

  lemma {:induction false} ListingIsMembers(style: Style, cs: seq<Cluster>, previous: string)
    ensures Members(Listing(style, cs, previous).lines)
  {
    if cs == [] {
    } else {
      ListingIsMembers(style, cs[..|cs| - 1], previous);
      MetricLinesAreMembers(style.upper, ClusterRows(cs[|cs| - 1]));
    }
  }

  lemma OpeningLays(style: Style, l: Layout, previous: string, name: string)
    requires l.ok && l.conditional.None?
    ensures LayLines(l, Opening(style, previous, name)) ==
            if name == previous then l else l.(blank := false, blanks := l.blanks + 1, opens := l.opens + 1)
  {
    if name == previous {
    } else {
      var close: seq<Line> := if previous == "" then [] else [Close];
      LaySnoc(l, close + [Blank], Open(style.pmda + "." + name));
      LaySnoc(l, close, Blank);
      LaySnoc(l, [], Close);
      assert [] + [Close] == [Close];
    }
  }

  lemma DedupeLength(names: seq<string>, name: string)
    ensures |Dedupe(names + [name], "")| == |Dedupe(names, "")| + (if name == LastName(names, "") then 0 else 1)
  {
    assert (names + [name])[..|names|] == names;
  }

  lemma GroupClusterLays(style: Style, l: Layout, page: Page, c: Cluster)
    requires var mid := LayLines(l, page.lines); mid.ok && mid.conditional.None? && !mid.blank
    ensures var mid := LayLines(l, page.lines);
            LayLines(l, GroupCluster(style, page, c).lines) ==
            if c.name == "" || c.name == page.previous then mid
            else mid.(blanks := mid.blanks + 1, opens := mid.opens + 1)
  {
    if c.name != "" {
      var opening, metrics := Opening(style, page.previous, c.name), MetricLines(style.upper, ClusterRows(c));
      LayAppend(l, page.lines, opening);
      LayAppend(l, page.lines + opening, metrics);
      OpeningLays(style, LayLines(l, page.lines), page.previous, c.name);
      MetricLinesAreMembers(style.upper, ClusterRows(c));
      MembersLay(LayLines(l, page.lines + opening), metrics);
    }
  }

  /** After pass three as much has been opened as there are headings, with one blank line for each. */
  lemma {:induction false} GroupingLays(style: Style, l: Layout, cs: seq<Cluster>)
    requires l.ok && l.conditional.None? && !l.blank
    ensures var n := |Dedupe(Names(cs), "")|;
            LayLines(l, Grouping(style, cs).lines) == l.(blanks := l.blanks + n, opens := l.opens + n)
  {
    if cs == [] {
    } else {
      var front, c := cs[..|cs| - 1], cs[|cs| - 1];
      GroupingLays(style, l, front);
      GroupClusterLays(style, l, Grouping(style, front), c);
      GroupingRemembers(style, front);
      DedupeLength(Names(front), c.name);
    }
  }

  lemma {:induction false} GroupingRemembers(style: Style, cs: seq<Cluster>)
    ensures Grouping(style, cs).previous == LastName(Names(cs), "")
  {
    if cs == [] {
    } else {
      GroupingRemembers(style, cs[..|cs| - 1]);
    }
  }

  lemma HeaderLays(style: Style, domainNumber: int)
    ensures LayLines(MARGIN, Header(style, domainNumber)) == Layout(true, None, [style.upper], false, 1, 0)
  {
    LaySnoc(MARGIN, [Blank] + [IfNotDefined(style.upper)] + [Define(style.upper, domainNumber)], EndIf);
    LaySnoc(MARGIN, [Blank] + [IfNotDefined(style.upper)], Define(style.upper, domainNumber));
    LaySnoc(MARGIN, [Blank], IfNotDefined(style.upper));
    LaySnoc(MARGIN, [], Blank);
    assert [] + [Blank] == [Blank];
  }

  lemma RootBlockLays(style: Style, domainNumber: int, listing: seq<Line>)
    requires Members(listing)
    ensures LayLines(MARGIN, RootBlock(style, domainNumber, listing)) == Layout(true, None, [style.upper], false, 2, 1)
  {
    var start := Header(style, domainNumber) + [Blank] + [Open(style.pmda)];
    HeaderLays(style, domainNumber);
    LaySnoc(MARGIN, Header(style, domainNumber), Blank);
    LaySnoc(MARGIN, Header(style, domainNumber) + [Blank], Open(style.pmda));
    LayAppend(MARGIN, start, listing);
    MembersLay(LayLines(MARGIN, start), listing);
    LaySnoc(MARGIN, start + listing, Close);
  }

  lemma GroupBlocksLay(l: Layout, page: Page)
    requires LayLines(l, page.lines).ok && LayLines(l, page.lines).conditional.None?
    ensures var mid := LayLines(l, page.lines);
            LayLines(l, GroupBlocks(page)) == mid.(blank := true, blanks := mid.blanks + 1)
  {
    LaySnoc(l, page.lines + Closing(page.previous), Blank);
    if page.previous == "" {
      assert page.lines + [] == page.lines;
    } else {
      LaySnoc(l, page.lines, Close);
    }
  }

  lemma PmnsLinesLay(style: Style, domainNumber: int, cs: seq<Cluster>, previous: string)
    ensures var n := |Dedupe(Names(cs), "")|;
            LayLines(MARGIN, PmnsLines(style, domainNumber, cs, previous)) ==
            Layout(true, None, [style.upper], true, n + 3, n + 1)
  {
    var listing, grouping := Listing(style, cs, previous).lines, Grouping(style, cs);
    var root := RootBlock(style, domainNumber, listing);
    ListingIsMembers(style, cs, previous);
    RootBlockLays(style, domainNumber, listing);
    GroupingLays(style, LayLines(MARGIN, root), cs);
    GroupBlocksLay(LayLines(MARGIN, root), grouping);
    LayAppend(MARGIN, root, GroupBlocks(grouping));
  }

  lemma {:induction false} ParsedLays(l: Layout, lines: seq<Line>, parsed: seq<Option<Line>>)
    requires |parsed| == |lines| && forall k :: 0 <= k < |lines| ==> parsed[k] == Some(lines[k])
    ensures LayParsed(l, parsed) == LayLines(l, lines)
  {
    if lines == [] {
    } else {
      ParsedLays(l, lines[..|lines| - 1], parsed[..|lines| - 1]);
    }
  }

  // ----- The main results -----

  lemma PmnsTextParses(style: Style, domainNumber: int, cs: seq<Cluster>, previous: string)
    requires StyleOk(style) && Named(cs)
    ensures var width, lines := LongestName(Flatten(Groups(cs))), PmnsLines(style, domainNumber, cs, previous);
            && AllFit(width, lines)
            && Lines(PmnsText(style, domainNumber, cs, previous)) == RenderAll(width, lines)
            && forall k :: 0 <= k < |lines| ==> ParseLine(RenderAll(width, lines)[k]) == Some(lines[k])
  {
    PmnsLinesFit(style, domainNumber, cs, previous);
    PmnsLinesOk(style, domainNumber, cs, previous);
    TextParses(LongestName(Flatten(Groups(cs))), PmnsLines(style, domainNumber, cs, previous));
  }

  /** The exported text is laid out well: the macro is defined once, under its own conditional, which is closed again;
      and of its blank lines one stands before the conditional, one before each group, and one at the file's end. */
  lemma PmnsLaidOut(style: Style, domainNumber: int, cs: seq<Cluster>, previous: string)
    requires StyleOk(style) && Named(cs)
    ensures var n := |Dedupe(Names(cs), "")|;
            LayoutOf(PmnsText(style, domainNumber, cs, previous)) ==
            Layout(true, None, [style.upper], true, n + 3, n + 1)
  {
    var lines := PmnsLines(style, domainNumber, cs, previous);
    PmnsTextParses(style, domainNumber, cs, previous);
    PmnsLinesLay(style, domainNumber, cs, previous);
    ParsedLays(MARGIN, lines, ParseLines(Lines(PmnsText(style, domainNumber, cs, previous))));
  }

  lemma HeaderFirst(style: Style, domainNumber: int, cs: seq<Cluster>, previous: string)
    ensures var lines := PmnsLines(style, domainNumber, cs, previous);
            && |lines| > 4 && lines[0] == Blank && lines[1] == IfNotDefined(style.upper)
            && lines[2] == Define(style.upper, domainNumber) && lines[3] == EndIf
  {
    var header, rest := Header(style, domainNumber), Listing(style, cs, previous).lines;
    assert |header| == 4 && RootBlock(style, domainNumber, rest)[..4] == header;
  }

  /** The file starts with the definition of the agent's macro, guarded against a second one. */
  lemma PmnsStartsWithMacro(style: Style, domainNumber: int, cs: seq<Cluster>, previous: string)
    requires StyleOk(style) && Named(cs)
    ensures var lines := Lines(PmnsText(style, domainNumber, cs, previous));
            && |lines| > 4
            && lines[0] == "" && lines[1] == "#ifndef " + Upper(style.pmda)
            && lines[2] == "#define " + Upper(style.pmda) + " " + IntText(domainNumber) && lines[3] == "#endif"
  {
    PmnsTextParses(style, domainNumber, cs, previous);
    HeaderFirst(style, domainNumber, cs, previous);
  }

  /** In every metric line of the file the identifier starts in the same column, 8 past the longest metric name. */
  lemma PmnsColumns(style: Style, domainNumber: int, cs: seq<Cluster>, previous: string, k: nat, line: Line)
    requires StyleOk(style) && Named(cs) && k < |Lines(PmnsText(style, domainNumber, cs, previous))|
    requires line.Metric? && ParseLine(Lines(PmnsText(style, domainNumber, cs, previous))[k]) == Some(line)
    ensures var text, width := Lines(PmnsText(style, domainNumber, cs, previous))[k], LongestName(Flatten(Groups(cs)));
            && |line.name| <= width && |text| > width + 8
            && text[width + 8..] == PmidText(line.macro, line.cluster, line.item)
            && text[..4] == Spaces(4) && text[4..4 + |line.name|] == line.name
            && forall j :: 4 + |line.name| <= j < width + 8 ==> text[j] == ' '
  {
    var width, lines := LongestName(Flatten(Groups(cs))), PmnsLines(style, domainNumber, cs, previous);
    PmnsTextParses(style, domainNumber, cs, previous);
    assert lines[k] == line;
    MetricColumn(width, line);
  }
}

/** The text of the PMNS file, as a function of the metrics description. */
module PmnsSpec {
  import opened Text
  import opened Catalog
  import opened Flattening

  function UpperChar(c: char): char { if 'a' <= c <= 'z' then (c as int - 32) as char else c }

  /** `std::transform` with `toupper`. */
  function Upper(s: string): (u: string)
    ensures |u| == |s| && forall k :: 0 <= k < |s| ==> u[k] == UpperChar(s[k])
  {
    seq(|s|, k requires 0 <= k < |s| => UpperChar(s[k]))
  }

  /** Each lower-case letter becomes the capital of the same place in the alphabet, and nothing else changes. */
  lemma UpperLetters(c: char)
    ensures var lower, capital := "abcdefghijklmnopqrstuvwxyz", "ABCDEFGHIJKLMNOPQRSTUVWXYZ";
            && (forall k :: 0 <= k < 26 && c == lower[k] ==> UpperChar(c) == capital[k])
            && (c !in lower ==> UpperChar(c) == c)
  {
    var lower, capital := "abcdefghijklmnopqrstuvwxyz", "ABCDEFGHIJKLMNOPQRSTUVWXYZ";
    if 'a' <= c <= 'z' {
      assert lower[c as int - 97] == c;
    }
  }

  // ----- Pass one: the longest metric name -----

  function LongestName(rows: seq<Row>): nat {
    if rows == [] then 0
    else
      var n, size := LongestName(rows[..|rows| - 1]), |rows[|rows| - 1].desc.name|;
      if size > n then size else n
  }

  /** It is the least width that every name fits. */
  lemma {:induction false} LongestNameIsLeastWidth(rows: seq<Row>, width: nat)
    ensures LongestName(rows) <= width <==> forall k :: 0 <= k < |rows| ==> |rows[k].desc.name| <= width
  {
    if rows == [] {
    } else {
      var front := rows[..|rows| - 1];
      LongestNameIsLeastWidth(front, width);
      assert forall k :: 0 <= k < |front| ==> front[k] == rows[k];
    }
  }

  // ----- Lines -----

  /** The lines that a PMNS file is made of. */
  datatype Line =
    | Blank
    | IfNotDefined(macro: string)
    | Define(macro: string, value: int)
    | EndIf
    | Open(path: string)
    | Close
    | Child(name: string)
    | Metric(name: string, macro: string, cluster: nat, item: nat)

  predicate FitsLine(width: nat, line: Line) { line.Metric? ==> |line.name| <= width }

  function PmidText(macro: string, cluster: nat, item: nat): string {
    macro + ":" + Decimal(cluster) + ":" + Decimal(item)
  }

  function Render(width: nat, line: Line): string
    requires FitsLine(width, line)
  {
    match line
    case Blank => ""
    case IfNotDefined(macro) => "#ifndef " + macro
    case Define(macro, value) => "#define " + macro + " " + IntText(value)
    case EndIf => "#endif"
    case Open(path) => path + " {"
    case Close => "}"
    case Child(name) => "    " + name
    case Metric(name, macro, cluster, item) =>
      "    " + name + Spaces(width - |name| + 4) + PmidText(macro, cluster, item)
  }

  ghost predicate AllFit(width: nat, lines: seq<Line>) {
    forall k :: 0 <= k < |lines| ==> FitsLine(width, lines[k])
  }

  function RenderAll(width: nat, lines: seq<Line>): (text: seq<string>)
    requires AllFit(width, lines)
    ensures |text| == |lines| && forall k :: 0 <= k < |text| ==> text[k] == Render(width, lines[k])
  {
    seq(|lines|, k requires 0 <= k < |lines| => Render(width, lines[k]))
  }

  function MetricLines(macro: string, rows: seq<Row>): (lines: seq<Line>)
    ensures |lines| == |rows|
    ensures forall k :: 0 <= k < |lines| ==> lines[k] == Metric(rows[k].desc.name, macro, rows[k].cluster, rows[k].item)
  {
    if rows == [] then []
    else
      var row := rows[|rows| - 1];
      MetricLines(macro, rows[..|rows| - 1]) + [Metric(row.desc.name, macro, row.cluster, row.item)]
  }

  // ----- Passes two and three -----

  /** The agent's name as it is written, and in upper case. */
  datatype Style = Style(pmda: string, upper: string)

  /** Lines printed so far, and the cluster name that the printer remembers. */
  datatype Page = Page(lines: seq<Line>, previous: string)

  ghost function ListCluster(style: Style, page: Page, c: Cluster): Page {
    if c.name == "" then page.(lines := page.lines + MetricLines(style.upper, ClusterRows(c)))
    else if c.name != page.previous then Page(page.lines + [Child(c.name)], c.name)
    else page
  }

  /** Pass two: ungrouped metrics and group names. */
  ghost function Listing(style: Style, cs: seq<Cluster>, previous: string): Page {
    if cs == [] then Page([], previous)
    else ListCluster(style, Listing(style, cs[..|cs| - 1], previous), cs[|cs| - 1])
  }

  function Opening(style: Style, previous: string, name: string): seq<Line> {
    if name == previous then []
    else (if previous == "" then [] else [Close]) + [Blank] + [Open(style.pmda + "." + name)]
  }

  ghost function GroupCluster(style: Style, page: Page, c: Cluster): Page {
    if c.name == "" then page
    else Page(page.lines + Opening(style, page.previous, c.name) + MetricLines(style.upper, ClusterRows(c)), c.name)
  }

  /** Pass three: the groups. */
  ghost function Grouping(style: Style, cs: seq<Cluster>): Page {
    if cs == [] then Page([], "")
    else GroupCluster(style, Grouping(style, cs[..|cs| - 1]), cs[|cs| - 1])
  }

  function Closing(previous: string): seq<Line> { if previous == "" then [] else [Close] }

  // ----- The whole file -----

  function Header(style: Style, domainNumber: int): seq<Line> {
    [Blank] + [IfNotDefined(style.upper)] + [Define(style.upper, domainNumber)] + [EndIf]
  }

  function RootBlock(style: Style, domainNumber: int, listing: seq<Line>): seq<Line> {
    Header(style, domainNumber) + [Blank] + [Open(style.pmda)] + listing + [Close]
  }

  function GroupBlocks(page: Page): seq<Line> { page.lines + Closing(page.previous) + [Blank] }

  ghost function PmnsLines(style: Style, domainNumber: int, cs: seq<Cluster>, previous: string): seq<Line> {
    RootBlock(style, domainNumber, Listing(style, cs, previous).lines) + GroupBlocks(Grouping(style, cs))
  }

  // ----- Every line fits the column -----

  ghost predicate RowsFit(width: nat, rows: seq<Row>) {
    forall k :: 0 <= k < |rows| ==> |rows[k].desc.name| <= width
  }

  ghost predicate ClustersFit(width: nat, cs: seq<Cluster>) {
    forall j :: 0 <= j < |cs| ==> RowsFit(width, ClusterRows(cs[j]))
  }

  /** The longest name over all rows is long enough for every cluster. */
  lemma LongestFits(cs: seq<Cluster>)
    ensures ClustersFit(LongestName(Flatten(Groups(cs))), cs)
  {
    var groups := Groups(cs);
    var width := LongestName(Flatten(groups));
    LongestNameIsLeastWidth(Flatten(groups), width);
    forall j, k | 0 <= j < |cs| && 0 <= k < |ClusterRows(cs[j])| ensures |ClusterRows(cs[j])[k].desc.name| <= width {
      assert groups[j][k] == Flatten(groups)[VisitOf(groups, Place(j, k))];
    }
  }

  lemma {:induction false} ListingFits(width: nat, style: Style, cs: seq<Cluster>, previous: string)
    requires ClustersFit(width, cs)
    ensures AllFit(width, Listing(style, cs, previous).lines)
  {
    if cs == [] {
    } else {
      ListingFits(width, style, cs[..|cs| - 1], previous);
      assert RowsFit(width, ClusterRows(cs[|cs| - 1]));
    }
  }

  lemma MetricLinesFit(width: nat, macro: string, rows: seq<Row>)
    requires RowsFit(width, rows)
    ensures AllFit(width, MetricLines(macro, rows))
  {
  }

  lemma OpeningFits(width: nat, style: Style, previous: string, name: string)
    ensures AllFit(width, Opening(style, previous, name))
  {
  }

  lemma {:induction false} GroupingFits(width: nat, style: Style, cs: seq<Cluster>)
    requires ClustersFit(width, cs)
    ensures AllFit(width, Grouping(style, cs).lines)
  {
    if cs == [] {
    } else {
      var c, page := cs[|cs| - 1], Grouping(style, cs[..|cs| - 1]);
      GroupingFits(width, style, cs[..|cs| - 1]);
      var opening, lines := Opening(style, page.previous, c.name), MetricLines(style.upper, ClusterRows(c));
      OpeningFits(width, style, page.previous, c.name);
      MetricLinesFit(width, style.upper, ClusterRows(c));
      BothFit(width, page.lines, opening);
      BothFit(width, page.lines + opening, lines);
    }
  }

  lemma BothFit(width: nat, a: seq<Line>, b: seq<Line>)
    requires AllFit(width, a) && AllFit(width, b)
    ensures AllFit(width, a + b)
  {
  }

  lemma BlocksFit(width: nat, style: Style, domainNumber: int, listing: seq<Line>, page: Page)
    requires AllFit(width, listing) && AllFit(width, page.lines)
    ensures AllFit(width, RootBlock(style, domainNumber, listing))
    ensures AllFit(width, GroupBlocks(page))
  {
  }

  lemma PmnsLinesFit(style: Style, domainNumber: int, cs: seq<Cluster>, previous: string)
    ensures AllFit(LongestName(Flatten(Groups(cs))), PmnsLines(style, domainNumber, cs, previous))
  {
    var width := LongestName(Flatten(Groups(cs)));
    LongestFits(cs);
    ListingFits(width, style, cs, previous);
    GroupingFits(width, style, cs);
    BlocksFit(width, style, domainNumber, Listing(style, cs, previous).lines, Grouping(style, cs));
  }

  /** Some lines as they stand in the file. */
  ghost function Written(width: nat, lines: seq<Line>): string
    requires AllFit(width, lines)
  {
    Unlines(RenderAll(width, lines))
  }

  /** The file's text. */
  ghost function PmnsText(style: Style, domainNumber: int, cs: seq<Cluster>, previous: string): string {
    PmnsLinesFit(style, domainNumber, cs, previous);
    Written(LongestName(Flatten(Groups(cs))), PmnsLines(style, domainNumber, cs, previous))
  }

  /** In every metric line the identifier starts at the same column: 8 past the longest name. */
  lemma MetricColumn(width: nat, line: Line)
    requires line.Metric? && FitsLine(width, line)
    ensures var text := Render(width, line);
            && |text| > width + 8
            && text[width + 8..] == PmidText(line.macro, line.cluster, line.item)
            && text[..4] == Spaces(4) && text[4..4 + |line.name|] == line.name
            && forall k :: 4 + |line.name| <= k < width + 8 ==> text[k] == ' '
  {
    assert Spaces(4) == "    ";
  }
}

/** Reading a PMNS file, and what the exported file says. */
module Pmns {
  import opened Pcp
  import opened Text
  import opened PmnsSpec

  // ----- A reader for PMNS text -----

  predicate Digits(s: string) { s != "" && forall k :: 0 <= k < |s| ==> IsDigit(s[k]) }

  function ReadPmid(name: string, text: string): Option<Line> {
    var parts := Split(text, ':');
    if |parts| == 3 && Digits(parts[1]) && Digits(parts[2])
    then Some(Metric(name, parts[0], Value(parts[1]), Value(parts[2])))
    else None
  }

  function ReadInt(s: string): Option<int> {
    if Digits(s) then Some(Value(s))
    else if s != "" && s[0] == '-' && Digits(s[1..]) then Some(0 - Value(s[1..]))
    else None
  }

  const INDENT: string := "    "

  /** One line of text; `None` when it is not a PMNS line, or is not laid out as one: members are indented by four
      spaces, and everything else starts at the margin with single spaces between its words. */
  function ParseLine(text: string): Option<Line> {
    var words := Words(text);
    if text == "" then Some(Blank)
    else if text == "#endif" then Some(EndIf)
    else if text == "}" then Some(Close)
    else if |words| == 1 then if text == INDENT + words[0] then Some(Child(words[0])) else None
    else if |words| == 2 then
      if text == "#ifndef " + words[1] then Some(IfNotDefined(words[1]))
      else if text == words[0] + " {" then Some(Open(words[0]))
      else if |text| > 4 && text[..4] == INDENT && text[4] != ' ' then ReadPmid(words[0], words[1])
      else None
    else if |words| == 3 && text == "#define " + words[1] + " " + words[2] && ReadInt(words[2]).Some? then
      Some(Define(words[1], ReadInt(words[2]).value))
    else None
  }

  function ParseLines(text: seq<string>): (lines: seq<Option<Line>>)
    ensures |lines| == |text| && forall k :: 0 <= k < |text| ==> lines[k] == ParseLine(text[k])
  {
    seq(|text|, k requires 0 <= k < |text| => ParseLine(text[k]))
  }

  datatype PmnsRow = PmnsRow(path: string, name: string, domain: int, cluster: nat, item: nat)

  /** What has been read: whether all is well, the macros defined, the open group if any, the metric rows,
      the groups that open groups list as children, and the groups that were opened. */
  datatype Reader = Reader(ok: bool, macros: map<string, int>, open: Option<string>,
                           rows: seq<PmnsRow>, listed: seq<string>, groups: seq<string>)

  const START: Reader := Reader(true, map[], None, [], [], [])

  /** Metrics and children belong to an open group, groups do not nest, and a PMID's macro must have been defined. */
  function ReadLine(r: Reader, line: Line): Reader {
    match line
    case Blank => r
    case IfNotDefined(_) => r
    case EndIf => r
    case Define(macro, value) => r.(macros := r.macros[macro := value])
    case Open(path) =>
      if r.open.None? then r.(open := Some(path), groups := r.groups + [path]) else r.(ok := false)
    case Close => if r.open.Some? then r.(open := None) else r.(ok := false)
    case Child(name) =>
      if r.open.Some? then r.(listed := r.listed + [r.open.value + "." + name]) else r.(ok := false)
    case Metric(name, macro, cluster, item) =>
      if r.open.Some? && macro in r.macros
      then r.(rows := r.rows + [PmnsRow(r.open.value, name, r.macros[macro], cluster, item)])
      else r.(ok := false)
  }

  function ReadLines(r: Reader, lines: seq<Line>): Reader {
    if lines == [] then r else ReadLine(ReadLines(r, lines[..|lines| - 1]), lines[|lines| - 1])
  }

  function ReadParsed(r: Reader, lines: seq<Option<Line>>): Reader {
    if lines == [] then r
    else
      var before, last := ReadParsed(r, lines[..|lines| - 1]), lines[|lines| - 1];
      if last.None? then before.(ok := false) else ReadLine(before, last.value)
  }

  function ReadPmns(text: string): Reader { ReadParsed(START, ParseLines(Lines(text))) }

  // ----- Names that survive being printed and read -----

  predicate IsName(s: string) {
    s != "" && s[0] != '#' && s != "}" && s != "{" && Free(s, ' ') && Free(s, '\n') && Free(s, ':')
  }

  predicate LineOk(line: Line) {
    match line
    case Blank => true
    case IfNotDefined(macro) => IsName(macro)
    case Define(macro, _) => IsName(macro)
    case EndIf => true
    case Open(path) => IsName(path)
    case Close => true
    case Child(name) => IsName(name)
    case Metric(name, macro, _, _) => IsName(name) && IsName(macro)
  }

  lemma UpperIsName(s: string)
    requires IsName(s)
    ensures IsName(Upper(s))
  {
    assert forall k :: 0 <= k < |s| ==> s[k] != ' ' && s[k] != '\n' && s[k] != ':';
  }

  // ----- Every kind of line is read as it was written -----

  lemma PmidTextReads(name: string, macro: string, cluster: nat, item: nat)
    requires IsName(macro)
    ensures ReadPmid(name, PmidText(macro, cluster, item)) == Some(Metric(name, macro, cluster, item))
    ensures IsWord(PmidText(macro, cluster, item)) && Free(PmidText(macro, cluster, item), '\n')
    ensures PmidText(macro, cluster, item) != "{"
  {
    var c, i := Decimal(cluster), Decimal(item);
    DecimalIsFreeOf(cluster, ':');
    DecimalIsFreeOf(item, ':');
    DecimalIsFreeOf(cluster, ' ');
    DecimalIsFreeOf(item, ' ');
    DecimalIsFreeOf(cluster, '\n');
    DecimalIsFreeOf(item, '\n');
    assert PmidText(macro, cluster, item) == macro + ":" + (c + ":" + i);
    SplitField(macro, c + ":" + i, ':');
    SplitField(c, i, ':');
    SplitLast(i, ':');
    ValueOfDecimal(cluster);
    ValueOfDecimal(item);
  }

  lemma MetricReads(width: nat, name: string, macro: string, cluster: nat, item: nat)
    requires IsName(name) && IsName(macro) && |name| <= width
    ensures var line := Metric(name, macro, cluster, item);
            ParseLine(Render(width, line)) == Some(line) && Free(Render(width, line), '\n')
  {
    var pmid, gap := PmidText(macro, cluster, item), width - |name| + 4;
    PmidTextReads(name, macro, cluster, item);
    assert Spaces(4) == "    ";
    assert Render(width, Metric(name, macro, cluster, item)) == Spaces(4) + (name + Spaces(gap) + pmid);
    assert Words(Spaces(4) + (name + Spaces(gap) + pmid)) == [name, pmid] by {
      WordsAfterSpaces(4, name + Spaces(gap) + pmid);
      WordsCons(name, gap, pmid);
      WordsOne(pmid);
    }
  }

  lemma IntTextReads(i: int)
    ensures ReadInt(IntText(i)) == Some(i)
    ensures IsWord(IntText(i)) && Free(IntText(i), '\n')
  {
    var n := if i < 0 then -i else i;
    DecimalIsFreeOf(n, ' ');
    DecimalIsFreeOf(n, '\n');
    DecimalIsFreeOf(n, '-');
    ValueOfDecimal(n);
    assert i < 0 ==> IntText(i)[1..] == Decimal(n);
  }

  lemma TwoWordsRead(a: string, b: string)
    requires IsWord(a) && IsWord(b)
    ensures Words(a + " " + b) == [a, b]
  {
    assert Spaces(1) == " ";
    WordsCons(a, 1, b);
    WordsOne(b);
  }

  lemma ThreeWordsRead(a: string, b: string, c: string)
    requires IsWord(a) && IsWord(b) && IsWord(c)
    ensures Words(a + " " + b + " " + c) == [a, b, c]
  {
    assert Spaces(1) == " ";
    assert a + " " + b + " " + c == a + Spaces(1) + (b + " " + c);
    WordsCons(a, 1, b + " " + c);
    TwoWordsRead(b, c);
  }

  lemma DefineReads(width: nat, macro: string, value: int)
    requires IsName(macro)
    ensures var line := Define(macro, value);
            ParseLine(Render(width, line)) == Some(line) && Free(Render(width, line), '\n')
  {
    IntTextReads(value);
    assert "#define" + " " + macro + " " + IntText(value) == Render(width, Define(macro, value));
    ThreeWordsRead("#define", macro, IntText(value));
  }

  lemma IfNotDefinedReads(width: nat, macro: string)
    requires IsName(macro)
    ensures var line := IfNotDefined(macro);
            ParseLine(Render(width, line)) == Some(line) && Free(Render(width, line), '\n')
  {
    assert Render(width, IfNotDefined(macro)) == "#ifndef" + " " + macro;
    TwoWordsRead("#ifndef", macro);
  }

  lemma OpenReads(width: nat, path: string)
    requires IsName(path)
    ensures var line := Open(path);
            ParseLine(Render(width, line)) == Some(line) && Free(Render(width, line), '\n')
  {
    assert Render(width, Open(path)) == path + " " + "{";
    TwoWordsRead(path, "{");
  }

  lemma ChildReads(width: nat, name: string)
    requires IsName(name)
    ensures var line := Child(name);
            ParseLine(Render(width, line)) == Some(line) && Free(Render(width, line), '\n')
  {
    assert Render(width, Child(name)) == Spaces(4) + name by { assert Spaces(4) == "    "; }
    WordsAfterSpaces(4, name);
    WordsOne(name);
  }

  lemma FixedReads(width: nat, line: Line)
    requires line.Blank? || line.EndIf? || line.Close?
    ensures ParseLine(Render(width, line)) == Some(line) && Free(Render(width, line), '\n')
  {
    match line
    case Blank => assert Words("") == [];
    case EndIf => WordsOne("#endif");
    case Close => WordsOne("}");
  }

  /** Reading undoes printing, line by line. */
  lemma LineReads(width: nat, line: Line)
    requires LineOk(line) && FitsLine(width, line)
    ensures ParseLine(Render(width, line)) == Some(line) && Free(Render(width, line), '\n')
  {
    match line
    case Blank => FixedReads(width, line);
    case IfNotDefined(macro) => IfNotDefinedReads(width, macro);
    case Define(macro, value) => DefineReads(width, macro, value);
    case EndIf => FixedReads(width, line);
    case Open(path) => OpenReads(width, path);
    case Close => FixedReads(width, line);
    case Child(name) => ChildReads(width, name);
    case Metric(name, macro, cluster, item) => MetricReads(width, name, macro, cluster, item);
  }

  ghost predicate AllOk(lines: seq<Line>) {
    forall k :: 0 <= k < |lines| ==> LineOk(lines[k])
  }

  lemma {:induction false} ParsedReads(r: Reader, lines: seq<Line>, parsed: seq<Option<Line>>)
    requires |parsed| == |lines| && forall k :: 0 <= k < |lines| ==> parsed[k] == Some(lines[k])
    ensures ReadParsed(r, parsed) == ReadLines(r, lines)
  {
    if lines == [] {
    } else {
      ParsedReads(r, lines[..|lines| - 1], parsed[..|lines| - 1]);
    }
  }

  /** The text of some lines splits into those lines, and each is understood as what it was written for. */
  lemma TextParses(width: nat, lines: seq<Line>)
    requires AllFit(width, lines) && AllOk(lines)
    ensures Lines(Unlines(RenderAll(width, lines))) == RenderAll(width, lines)
    ensures forall k :: 0 <= k < |lines| ==> ParseLine(RenderAll(width, lines)[k]) == Some(lines[k])
  {
    var text := RenderAll(width, lines);
    forall k | 0 <= k < |lines| ensures ParseLine(text[k]) == Some(lines[k]) && Free(text[k], '\n') {
      LineReads(width, lines[k]);
    }
    LinesUnlines(text);
  }

  /** Reading the text of some lines is reading the lines. */
  lemma TextReads(width: nat, lines: seq<Line>)
    requires AllFit(width, lines) && AllOk(lines)
    ensures ReadPmns(Unlines(RenderAll(width, lines))) == ReadLines(START, lines)
  {
    TextParses(width, lines);
    ParsedReads(START, lines, ParseLines(RenderAll(width, lines)));
  }
}

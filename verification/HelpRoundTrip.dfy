/** Reading a help file, and what the exported file says. */
module HelpRoundTrip {
  import opened Pcp
  import opened Text
  import opened OrderedKeys
  import opened Flattening
  import opened Catalog
  import opened Help
  import PmnsRoundTrip

  // ----- A reader for help text -----

  /** An entry whose lines after the heading have not been interpreted yet. */
  datatype RawEntry = RawEntry(subject: string, shortText: string, body: seq<string>)

  predicate IsHeading(line: string) { |line| >= 2 && line[..2] == "@ " }

  /** The word after the mark is the subject, and the rest of the line is the short text. */
  function ReadHeading(line: string): RawEntry
    requires IsHeading(line)
  {
    var rest := line[2..];
    var e := Find(rest, ' ');
    RawEntry(rest[..e], if e < |rest| then rest[e + 1..] else "", [])
  }

  /** A line that is not a heading belongs to the entry before it, if there is one. */
  function ReadHelpLine(raws: seq<RawEntry>, line: string): seq<RawEntry> {
    if IsHeading(line) then raws + [ReadHeading(line)]
    else if raws == [] then raws
    else
      var n := |raws| - 1;
      raws[..n] + [raws[n].(body := raws[n].body + [line])]
  }

  function ReadHelpLines(raws: seq<RawEntry>, lines: seq<string>): seq<RawEntry> {
    if lines == [] then raws
    else ReadHelpLine(ReadHelpLines(raws, lines[..|lines| - 1]), lines[|lines| - 1])
  }

  /** The last line of an entry is blank, and the lines before it are the verbose text. */
  function Interpreted(raw: RawEntry): HelpEntry {
    var n := |raw.body|;
    HelpEntry(raw.subject, raw.shortText, if n <= 1 then "" else Join(raw.body[..n - 1], '\n'))
  }

  function AllInterpreted(raws: seq<RawEntry>): seq<HelpEntry> {
    if raws == [] then [] else AllInterpreted(raws[..|raws| - 1]) + [Interpreted(raws[|raws| - 1])]
  }

  /** An entry ends with one blank line. */
  predicate Complete(raw: RawEntry) {
    raw.body != [] && raw.body[|raw.body| - 1] == "" && !(|raw.body| == 2 && raw.body[0] == "")
  }

  /** The entries of a help file; `None` unless it starts with one blank line and every entry ends with one. */
  function ReadHelp(text: string): Option<seq<HelpEntry>> {
    var lines := Lines(text);
    if lines == [] || lines[0] != "" || (|lines| > 1 && !IsHeading(lines[1])) then None
    else
      var raws := ReadHelpLines([], lines[1..]);
      if forall k :: 0 <= k < |raws| ==> Complete(raws[k]) then Some(AllInterpreted(raws)) else None
  }

  // ----- The text as lines -----

  /** The verbose text of an entry may have many lines, as long as none of them looks like a heading. */
  ghost predicate EntryOk(e: HelpEntry) {
    && Free(e.subject, ' ') && Free(e.subject, '\n') && Free(e.shortText, '\n')
    && forall k :: 0 <= k < |Split(e.verboseText, '\n')| ==> !IsHeading(Split(e.verboseText, '\n')[k])
  }

  ghost predicate EntriesOk(entries: seq<HelpEntry>) {
    forall k :: 0 <= k < |entries| ==> EntryOk(entries[k])
  }

  function Heading(e: HelpEntry): string { "@ " + e.subject + " " + e.shortText }

  function BodyLines(e: HelpEntry): seq<string> {
    (if e.verboseText == "" then [] else Split(e.verboseText, '\n')) + [""]
  }

  function EntryLines(e: HelpEntry): seq<string> { [Heading(e)] + BodyLines(e) }

  function AllLines(entries: seq<HelpEntry>): seq<string> {
    if entries == [] then [] else AllLines(entries[..|entries| - 1]) + EntryLines(entries[|entries| - 1])
  }

  lemma {:induction false} UnlinesJoin(parts: seq<string>)
    requires parts != []
    ensures Unlines(parts) == Join(parts, '\n') + "\n"
  {
    if |parts| == 1 {
      assert Unlines(parts[1..]) == "";
    } else {
      UnlinesJoin(parts[1..]);
      assert parts[0] + "\n" + (Join(parts[1..], '\n') + "\n") == parts[0] + ['\n'] + Join(parts[1..], '\n') + "\n";
    }
  }

  lemma UnlinesOne(line: string)
    ensures Unlines([line]) == line + "\n"
  {
    assert [line][1..] == [] && Unlines([]) == "";
  }

  lemma BodyText(e: HelpEntry)
    ensures Unlines(BodyLines(e)) == (if e.verboseText == "" then "" else e.verboseText + "\n") + "\n"
  {
    UnlinesOne("");
    if e.verboseText == "" {
      assert BodyLines(e) == [""];
    } else {
      var verbose := Split(e.verboseText, '\n');
      UnlinesAppend(verbose, [""]);
      UnlinesJoin(verbose);
      JoinSplit(e.verboseText, '\n');
    }
  }

  lemma EntryTextIsLines(e: HelpEntry)
    ensures EntryText(e) == Unlines(EntryLines(e))
  {
    UnlinesAppend([Heading(e)], BodyLines(e));
    UnlinesOne(Heading(e));
    BodyText(e);
    Assoc(Heading(e) + "\n", if e.verboseText == "" then "" else e.verboseText + "\n", "\n");
  }

  lemma {:induction false} EntriesTextIsLines(entries: seq<HelpEntry>)
    ensures EntriesText(entries) == Unlines(AllLines(entries))
  {
    if entries == [] {
    } else {
      var n := |entries| - 1;
      EntriesTextIsLines(entries[..n]);
      EntryTextIsLines(entries[n]);
      UnlinesAppend(AllLines(entries[..n]), EntryLines(entries[n]));
    }
  }

  lemma EntryLinesFree(e: HelpEntry)
    requires EntryOk(e)
    ensures AllFree(EntryLines(e), '\n')
  {
    assert Free(Heading(e), '\n');
    JoinSplit(e.verboseText, '\n');
    forall k | 0 <= k < |EntryLines(e)| ensures Free(EntryLines(e)[k], '\n') {
      if 0 < k < |EntryLines(e)| - 1 {
        assert EntryLines(e)[k] == Split(e.verboseText, '\n')[k - 1];
      }
    }
  }

  lemma {:induction false} AllLinesFree(entries: seq<HelpEntry>)
    requires EntriesOk(entries)
    ensures AllFree(AllLines(entries), '\n')
  {
    if entries == [] {
    } else {
      AllLinesFree(entries[..|entries| - 1]);
      EntryLinesFree(entries[|entries| - 1]);
    }
  }

  // ----- Reading undoes printing -----

  lemma {:induction false} ReadHelpAppend(raws: seq<RawEntry>, a: seq<string>, b: seq<string>)
    ensures ReadHelpLines(raws, a + b) == ReadHelpLines(ReadHelpLines(raws, a), b)
  {
    if b == [] {
      assert a + b == a;
    } else {
      var n := |b| - 1;
      assert (a + b)[..|a + b| - 1] == a + b[..n];
      ReadHelpAppend(raws, a, b[..n]);
    }
  }

  lemma {:induction false} BodyReads(raws: seq<RawEntry>, raw: RawEntry, lines: seq<string>)
    requires forall k :: 0 <= k < |lines| ==> !IsHeading(lines[k])
    ensures ReadHelpLines(raws + [raw], lines) == raws + [raw.(body := raw.body + lines)]
  {
    if lines == [] {
      assert raw.body + lines == raw.body;
    } else {
      var n := |lines| - 1;
      BodyReads(raws, raw, lines[..n]);
      assert raw.body + lines == raw.body + lines[..n] + [lines[n]];
    }
  }

  lemma HeadingReads(e: HelpEntry)
    requires Free(e.subject, ' ')
    ensures IsHeading(Heading(e)) && ReadHeading(Heading(e)) == RawEntry(e.subject, e.shortText, [])
  {
    var rest := e.subject + " " + e.shortText;
    assert Heading(e)[2..] == rest && Heading(e)[..2] == "@ ";
    assert rest[..|e.subject|] == e.subject && rest[|e.subject|] == ' ' && rest[|e.subject| + 1..] == e.shortText;
    assert Find(rest, ' ') == |e.subject|;
  }

  function RawOf(e: HelpEntry): RawEntry { RawEntry(e.subject, e.shortText, BodyLines(e)) }

  lemma EntryReads(raws: seq<RawEntry>, e: HelpEntry)
    requires EntryOk(e)
    ensures ReadHelpLines(raws, EntryLines(e)) == raws + [RawOf(e)]
  {
    var raw := RawEntry(e.subject, e.shortText, []);
    HeadingReads(e);
    ReadHelpAppend(raws, [Heading(e)], BodyLines(e));
    assert [Heading(e)][..0] == [];
    assert ReadHelpLines(raws, [Heading(e)]) == raws + [raw];
    forall k | 0 <= k < |BodyLines(e)| ensures !IsHeading(BodyLines(e)[k]) {
      if k < |BodyLines(e)| - 1 {
        assert BodyLines(e)[k] == Split(e.verboseText, '\n')[k];
      }
    }
    BodyReads(raws, raw, BodyLines(e));
    assert [] + BodyLines(e) == BodyLines(e);
  }

  lemma InterpretedRaw(e: HelpEntry)
    ensures Interpreted(RawOf(e)) == e
  {
    var body := BodyLines(e);
    if e.verboseText == "" {
      assert body == [""];
    } else {
      assert body[..|body| - 1] == Split(e.verboseText, '\n');
      JoinSplit(e.verboseText, '\n');
    }
  }

  function RawsOf(entries: seq<HelpEntry>): seq<RawEntry> {
    if entries == [] then [] else RawsOf(entries[..|entries| - 1]) + [RawOf(entries[|entries| - 1])]
  }

  lemma {:induction false} AllRead(entries: seq<HelpEntry>)
    requires EntriesOk(entries)
    ensures ReadHelpLines([], AllLines(entries)) == RawsOf(entries)
  {
    if entries == [] {
    } else {
      var n := |entries| - 1;
      AllRead(entries[..n]);
      ReadHelpAppend([], AllLines(entries[..n]), EntryLines(entries[n]));
      EntryReads(RawsOf(entries[..n]), entries[n]);
    }
  }

  lemma {:induction false} RawsInterpreted(entries: seq<HelpEntry>)
    ensures AllInterpreted(RawsOf(entries)) == entries
  {
    if entries == [] {
    } else {
      var n := |entries| - 1;
      RawsInterpreted(entries[..n]);
      InterpretedRaw(entries[n]);
      var raws := RawsOf(entries);
      assert raws[..|raws| - 1] == RawsOf(entries[..n]);
    }
  }

  lemma TextLines(entries: seq<HelpEntry>)
    requires EntriesOk(entries)
    ensures Lines("\n" + EntriesText(entries)) == [""] + AllLines(entries)
  {
    UnlinesAppend([""], AllLines(entries));
    UnlinesOne("");
    EntriesTextIsLines(entries);
    AllLinesFree(entries);
    LinesUnlines([""] + AllLines(entries));
  }

  lemma {:induction false} RawsComplete(entries: seq<HelpEntry>)
    ensures forall k :: 0 <= k < |RawsOf(entries)| ==> Complete(RawsOf(entries)[k])
  {
    if entries == [] {
    } else {
      var n := |entries| - 1;
      RawsComplete(entries[..n]);
      RawComplete(entries[n]);
    }
  }

  lemma RawComplete(e: HelpEntry)
    ensures Complete(RawOf(e))
  {
    if e.verboseText != "" {
      var verbose := Split(e.verboseText, '\n');
      JoinSplit(e.verboseText, '\n');
      assert |BodyLines(e)| == 2 ==> verbose[0] == BodyLines(e)[0] && Join(verbose, '\n') == verbose[0];
    }
  }

  lemma {:induction false} AllLinesHeading(entries: seq<HelpEntry>)
    ensures entries != [] ==> AllLines(entries) != [] && AllLines(entries)[0] == Heading(entries[0])
  {
    if entries == [] {
    } else {
      AllLinesHeading(entries[..|entries| - 1]);
      assert |entries| == 1 ==> entries[..0] == [];
    }
  }

  /** A reader of the text of some entries recovers the entries. */
  lemma EntriesRead(entries: seq<HelpEntry>)
    requires EntriesOk(entries)
    ensures ReadHelp("\n" + EntriesText(entries)) == Some(entries)
  {
    TextLines(entries);
    AllLinesHeading(entries);
    if entries != [] {
      assert EntryOk(entries[0]);
      HeadingReads(entries[0]);
    }
    var lines := Lines("\n" + EntriesText(entries));
    assert lines[1..] == AllLines(entries);
    AllRead(entries);
    RawsInterpreted(entries);
    RawsComplete(entries);
  }

  // ----- What the file says -----

  /** The entry gives the texts of the lowest (cluster, item) that bears its subject. */
  ghost predicate HelpsFirstBearer(pmda: string, cat: Catalog, e: HelpEntry) {
    exists c, i :: BearsFirst(pmda, cat, c, i, e.subject)
                   && e.shortText == cat[c].metrics[i].shortText && e.verboseText == cat[c].metrics[i].verboseText
  }

  /** A full name is the path that the PMNS file gives a metric: the agent, the cluster if named, and the metric. */
  lemma NamesMatchPmns(pmda: string, cluster: string, metric: string)
    ensures FullName(pmda, cluster, metric) == PmnsRoundTrip.Path(pmda, cluster) + "." + metric
    ensures cluster == "" ==> FullName(pmda, cluster, metric) == pmda + "." + metric
    ensures cluster != "" ==> FullName(pmda, cluster, metric) == pmda + "." + cluster + "." + metric
  {
  }

  ghost predicate Subject(entries: seq<HelpEntry>, name: string) {
    exists k :: 0 <= k < |entries| && entries[k].subject == name
  }

  lemma MetricSubjectsAscend(pmda: string, cat: Catalog, a: nat, b: nat)
    requires a < b < |MetricHelp(HelpMetrics(pmda, cat))|
    ensures var entries := MetricHelp(HelpMetrics(pmda, cat)); StringLess(entries[a].subject, entries[b].subject)
  {
  }

  lemma MetricHasEntry(pmda: string, cat: Catalog, c: nat, i: nat)
    requires KeyedById(cat) && c in cat && i in cat[c].metrics
    ensures Subject(MetricHelp(HelpMetrics(pmda, cat)), FullName(pmda, cat[c].name, cat[c].metrics[i].name))
  {
    var names, name := SortedNames(HelpMetrics(pmda, cat).Keys), FullName(pmda, cat[c].name, cat[c].metrics[i].name);
    assert Bears(pmda, cat, c, i, name);
    HelpIsFirstBearers(pmda, cat, name);
    assert name in names;
    var k :| 0 <= k < |names| && names[k] == name;
    assert MetricHelp(HelpMetrics(pmda, cat))[k].subject == name;
  }

  /** The metric entries: strictly ascending subjects (so each once), every metric's full name among them, and each
      entry with the help of the lowest (cluster, item) that bears the name. */
  lemma MetricHelpSays(pmda: string, cat: Catalog)
    requires KeyedById(cat)
    ensures var entries := MetricHelp(HelpMetrics(pmda, cat));
            && (forall a, b :: 0 <= a < b < |entries| ==> StringLess(entries[a].subject, entries[b].subject))
            && (forall k :: 0 <= k < |entries| ==> HelpsFirstBearer(pmda, cat, entries[k]))
            && (forall c, i :: c in cat && i in cat[c].metrics ==>
                  Subject(entries, FullName(pmda, cat[c].name, cat[c].metrics[i].name)))
  {
    var entries := MetricHelp(HelpMetrics(pmda, cat));
    forall a, b | 0 <= a < b < |entries| ensures StringLess(entries[a].subject, entries[b].subject) {
      MetricSubjectsAscend(pmda, cat, a, b);
    }
    forall k | 0 <= k < |entries| ensures HelpsFirstBearer(pmda, cat, entries[k]) {
      HelpIsFirstBearers(pmda, cat, entries[k].subject);
    }
    forall c, i | c in cat && i in cat[c].metrics
      ensures Subject(entries, FullName(pmda, cat[c].name, cat[c].metrics[i].name))
    {
      MetricHasEntry(pmda, cat, c, i);
    }
  }

  /** The domain and the instance that the k-th instance entry is about. */
  ghost function InstanceAt(domains: map<nat, InstanceDomain>, k: nat): (key: (nat, nat))
    requires k < |Flatten(DomainHelp(domains))|
    reads domains.Values
  {
    var p := PlaceOf(DomainHelp(domains), k);
    var id := Ids(domains.Keys)[p.group];
    (id, Ids(domains[id].instances.Keys)[p.index])
  }

  predicate KeyLess(a: (nat, nat), b: (nat, nat)) { a.0 < b.0 || (a.0 == b.0 && a.1 < b.1) }

  ghost predicate About(domains: map<nat, InstanceDomain>, k: nat, id: nat, inst: nat)
    requires k < |Flatten(DomainHelp(domains))|
    reads domains.Values
  {
    && InstanceAt(domains, k) == (id, inst) && id in domains && inst in domains[id].instances
    && var e, info := Flatten(DomainHelp(domains))[k], domains[id].instances[inst];
       && e.subject == Decimal(id) + "." + Decimal(inst)
       && e.shortText == info.shortText && e.verboseText == info.verboseText
  }

  lemma InstanceEntryAt(domains: map<nat, InstanceDomain>, k: nat)
    requires k < |Flatten(DomainHelp(domains))|
    ensures About(domains, k, InstanceAt(domains, k).0, InstanceAt(domains, k).1)
  {
    var groups := DomainHelp(domains);
    var p := PlaceOf(groups, k);
    var id := Ids(domains.Keys)[p.group];
    assert groups[p.group] == InstanceHelp(id, domains[id].instances);
  }

  lemma InstanceEntriesAscend(domains: map<nat, InstanceDomain>, a: nat, b: nat)
    requires a < b < |Flatten(DomainHelp(domains))|
    ensures KeyLess(InstanceAt(domains, a), InstanceAt(domains, b))
  {
    var groups := DomainHelp(domains);
    PlacesAscend(groups, a, b);
    var p, q := PlaceOf(groups, a), PlaceOf(groups, b);
    if p.group == q.group {
      var id := Ids(domains.Keys)[p.group];
      assert groups[p.group] == InstanceHelp(id, domains[id].instances);
    }
  }

  lemma InstanceHasEntry(domains: map<nat, InstanceDomain>, id: nat, inst: nat) returns (k: nat)
    requires id in domains && inst in domains[id].instances
    ensures k < |Flatten(DomainHelp(domains))| && About(domains, k, id, inst)
  {
    var groups, ids, keys := DomainHelp(domains), Ids(domains.Keys), Ids(domains[id].instances.Keys);
    var j :| 0 <= j < |ids| && ids[j] == id;
    var n :| 0 <= n < |keys| && keys[n] == inst;
    assert groups[j] == InstanceHelp(id, domains[id].instances);
    k := VisitOf(groups, Place(j, n));
    VisitIsPlace(groups, Place(j, n));
    InstanceEntryAt(domains, k);
  }

  /** The instance entries: one for every instance of every domain, in strictly ascending order of domain id and
      instance id (so each once), with that instance's texts. */
  lemma DomainHelpSays(domains: map<nat, InstanceDomain>)
    ensures var entries := Flatten(DomainHelp(domains));
            && (forall k :: 0 <= k < |entries| ==>
                  About(domains, k, InstanceAt(domains, k).0, InstanceAt(domains, k).1))
            && (forall a, b :: 0 <= a < b < |entries| ==> KeyLess(InstanceAt(domains, a), InstanceAt(domains, b)))
            && (forall id, inst :: id in domains && inst in domains[id].instances ==>
                  exists k :: 0 <= k < |entries| && About(domains, k, id, inst))
  {
    var entries := Flatten(DomainHelp(domains));
    forall k | 0 <= k < |entries| ensures About(domains, k, InstanceAt(domains, k).0, InstanceAt(domains, k).1) {
      InstanceEntryAt(domains, k);
    }
    forall a, b | 0 <= a < b < |entries| ensures KeyLess(InstanceAt(domains, a), InstanceAt(domains, b)) {
      InstanceEntriesAscend(domains, a, b);
    }
    forall id, inst | id in domains && inst in domains[id].instances
      ensures exists k :: 0 <= k < |entries| && About(domains, k, id, inst)
    {
      var k := InstanceHasEntry(domains, id, inst);
    }
  }

  /** Reading back the exported help text: first the metric entries of `MetricHelpSays`, then the instance entries of
      `DomainHelpSays`, and nothing else. */
  lemma HelpReadsBack(pmda: string, cat: Catalog, ids: map<InstanceDomain, nat>)
    requires DomainIds(ids, Rows(cat)) && EntriesOk(HelpEntries(HelpMetrics(pmda, cat), HelpDomains(cat, ids)))
    ensures ReadHelp(HelpText(HelpMetrics(pmda, cat), HelpDomains(cat, ids))) ==
            Some(MetricHelp(HelpMetrics(pmda, cat)) + Flatten(DomainHelp(HelpDomains(cat, ids))))
  {
    EntriesRead(HelpEntries(HelpMetrics(pmda, cat), HelpDomains(cat, ids)));
  }
}

/** What the `simple` agent's operations return, over every run of dispatched requests. */
module SimpleReturns {
  import opened Pcp
  import opened Text
  import opened Catalog
  import opened Registration
  import opened Dispatch
  import opened DispatchCodes
  import Pmns
  import PmnsLayout
  import PmnsRoundTrip
  import PmnsSpec
  import opened SimpleAgent
  import opened SimpleLaws
  import opened Composed

  // ----- Starting a batch -----

  /** The error that starting a batch throws, when the file last loaded had modification time `t`. */
  function BatchError(t: (int, int), conf: Conf): Option<int> {
    if conf.modified.None? then conf.clearError
    else if conf.modified.value == t then None
    else if conf.clearError.Some? then conf.clearError
    else if !conf.isOpen || conf.line.None? then None
    else
      var fields := Split(conf.line.value, ',');
      var n := FirstError(conf.storeErrors, fields);
      if n < |fields| then Some(conf.storeErrors[fields[n]]) else conf.sizeError
  }

  lemma {:induction false} LoadThrows(idOf: string -> nat, errors: map<string, int>, s: State, fields: seq<string>)
    ensures var n := FirstError(errors, fields);
            LoadFields(idOf, errors, s, fields).1 ==
            if n < |fields| then Some(PcpException(Number(errors[fields[n]]))) else None
  {
    if fields == [] {
    } else {
      LoadThrows(idOf, errors, s, fields[..|fields| - 1]);
    }
  }

  /** Starting a batch throws exactly that error, and otherwise notes the time. */
  lemma BatchThrows(idOf: string -> nat, s: State, conf: Conf, clock: Clock)
    ensures var (s', thrown), error := Begin(idOf, s, conf, clock), BatchError(s.fileTime, conf);
            && thrown == (if error.None? then None else Some(PcpException(Number(error.value))))
            && s'.fields == if error.None? then [clock.second, clock.minute, clock.hour] else s.fields
  {
    var counted := s.(numfetch := (s.numfetch + 1) % UINT_MODULUS);
    CheckKeeps(idOf, counted, conf);
    if conf.line.Some? {
      LoadThrows(idOf, conf.storeErrors, counted.(cache := Deactivate(counted.cache)), Split(conf.line.value, ','));
    }
  }

  /** A batch that throws nothing. */
  predicate Refreshes(t: (int, int), e: Event) { e.BeginBatch? && BatchError(t, e.conf).None? }

  /** How many events there are up to and including the last batch that threw nothing. */
  function LastRefresh(t: (int, int), events: seq<Event>): (n: nat)
    ensures n <= |events|
    ensures n > 0 ==> Refreshes(FileTimeAfter(t, events[..n - 1]), events[n - 1])
  {
    if events == [] then 0
    else
      var front := events[..|events| - 1];
      if Refreshes(FileTimeAfter(t, front), events[|events| - 1]) then |events|
      else
        var n := LastRefresh(t, front);
        assert n > 0 ==> front[..n - 1] == events[..n - 1];
        n
  }

  /** The part of the time that a timeslice stands for. */
  function Part(clock: Clock, name: string): int {
    if name == "sec" then clock.second
    else if name == "min" then clock.minute
    else if name == "hour" then clock.hour
    else 0
  }

  lemma RecognisedIff(name: string)
    ensures Recognised(name) <==> name == "sec" || name == "min" || name == "hour"
  {
    var k := SliceOf(name);
    assert k < SLICES ==> k == 0 || k == 1 || k == 2;
  }

  lemma PartIsField(clock: Clock, name: string)
    requires Recognised(name)
    ensures [clock.second, clock.minute, clock.hour][SliceOf(name)] == Part(clock, name)
  {
  }

  /** After any run, a timeslice holds its part of the time of the last batch that threw nothing, or 0 before one. */
  lemma {:induction false} ClockLaw(idOf: string -> nat, events: seq<Event>, name: string)
    requires Recognised(name) && Injective(idOf)
    ensures var fields, n := Run(idOf, INITIAL, events).fields, LastRefresh((0, 0), events);
            |fields| == SLICES && fields[SliceOf(name)] == if n == 0 then 0 else Part(events[n - 1].clock, name)
  {
    if events == [] {
    } else {
      var front, last := events[..|events| - 1], events[|events| - 1];
      ClockLaw(idOf, front, name);
      RunFileTime(idOf, front, name);
      ClockStep(idOf, Run(idOf, INITIAL, front), last, name);
    }
  }

  lemma ClockStep(idOf: string -> nat, s: State, e: Event, name: string)
    requires Recognised(name) && |s.fields| == SLICES
    ensures var fields := Step(idOf, s, e).fields;
            && |fields| == SLICES
            && fields[SliceOf(name)] ==
               if Refreshes(s.fileTime, e) then Part(e.clock, name) else s.fields[SliceOf(name)]
  {
    match e
    case BeginBatch(conf, clock) =>
      BatchThrows(idOf, s, conf, clock);
      PartIsField(clock, name);
    case FetchValue(id, runTimes) => FetchKeepsTables(s.(runTimes := runTimes), id);
    case StoreValue(id, value) => StoreKeepsTables(s, id, value);
  }

  // ----- Fetching -----

  predicate Addresses(metric: PmdaMetric, cluster: nat, item: nat) {
    PmIdCluster(metric.desc.pmid) == cluster && PmIdItem(metric.desc.pmid) == item
  }

  /** What a dispatched fetch returns in a state. */
  function Fetched(color: InstanceDomain, now: InstanceDomain, s: State, metric: PmdaMetric, inst: nat)
    : Result<FetchResult>
  {
    FetchOutcome(SimpleMetrics(color, now), AgentOf(color, now), s, metric, inst).1
  }

  lemma ColourIsShown(s: State, id: MetricId)
    requires id.cluster == 0 && id.item == 1 && id.instance < |s.rgb|
    ensures var (s', r) := Fetch(s, id);
            |s'.rgb| == |s.rgb| && r == Returned(FetchResult(Int(s'.rgb[id.instance]), id.typ, FetchStatic))
  {
  }

  lemma ColourReturns(idOf: string -> nat, events: seq<Event>, id: MetricId, runTimes: (real, real))
    requires id.cluster == 0 && id.item == 1 && id.instance < 3
    ensures var i := id.instance;
            Fetch(Run(idOf, INITIAL, events).(runTimes := runTimes), id).1
            == Returned(FetchResult(Int(ExpectedColour(100 * i, events + [FetchValue(id, runTimes)], i)),
                                    id.typ, FetchStatic))
  {
    InitialRunLaws(idOf, events, id.instance);
    InitialRunLaws(idOf, events + [FetchValue(id, runTimes)], id.instance);
    RunOneMore(idOf, INITIAL, events, FetchValue(id, runTimes));
    ColourIsShown(Run(idOf, INITIAL, events).(runTimes := runTimes), id);
  }

  lemma ColourIsDispatched(color: InstanceDomain, now: InstanceDomain, s: State, metric: PmdaMetric, i: nat,
                           runTimes: (real, real))
    requires i < 3 && Addresses(metric, 0, 1)
    ensures var id := MetricId(0, 1, i, PM_TYPE_32, metric.user);
            && EventsOf(color, now, s, Callback(metric, i, runTimes)) == [FetchValue(id, runTimes)]
            && Fetched(color, now, s.(runTimes := runTimes), metric, i) == Fetch(s.(runTimes := runTimes), id).1
  {
  }

  /** After any run, a fetch of a colour returns the colour as the law has it with this very fetch counted. */
  lemma DispatchedColour(idOf: string -> nat, color: InstanceDomain, now: InstanceDomain, requests: seq<Request>,
                         metric: PmdaMetric, i: nat, runTimes: (real, real))
    requires i < 3 && Addresses(metric, 0, 1)
    ensures var s, events := ServeAll(idOf, color, now, requests), AllEvents(idOf, color, now, requests);
            var fetch := FetchValue(MetricId(0, 1, i, PM_TYPE_32, metric.user), runTimes);
            && EventsOf(color, now, s, Callback(metric, i, runTimes)) == [fetch]
            && Fetched(color, now, s.(runTimes := runTimes), metric, i)
               == Returned(FetchResult(Int(ExpectedColour(100 * i, events + [fetch], i)), PM_TYPE_32, FetchStatic))
  {
    RequestsAreEvents(idOf, color, now, requests);
    ColourIsDispatched(color, now, ServeAll(idOf, color, now, requests), metric, i, runTimes);
    ColourReturns(idOf, AllEvents(idOf, color, now, requests), MetricId(0, 1, i, PM_TYPE_32, metric.user), runTimes);
  }

  /** After any run, a fetch of the counter returns it as the law has it. */
  lemma DispatchedCounter(idOf: string -> nat, color: InstanceDomain, now: InstanceDomain, requests: seq<Request>,
                          metric: PmdaMetric, runTimes: (real, real))
    requires Addresses(metric, 0, 0)
    ensures var s, events := ServeAll(idOf, color, now, requests), AllEvents(idOf, color, now, requests);
            Fetched(color, now, s.(runTimes := runTimes), metric, PM_INDOM_NULL)
            == Returned(FetchResult(Int(ExpectedCounter(0, events)), PM_TYPE_U32, FetchStatic))
  {
    RequestsAreEvents(idOf, color, now, requests);
    InitialRunLaws(idOf, AllEvents(idOf, color, now, requests), 0);
  }

  /** A fetch of a time returns a component of the current sample, taken now if the counter has moved on since the last
      one: the user time for item 3 and the system time for item 2. */
  lemma DispatchedTime(color: InstanceDomain, now: InstanceDomain, s: State, metric: PmdaMetric, item: nat)
    requires (item == 2 || item == 3) && Addresses(metric, 1, item)
    ensures var sample := if s.oldfetch < s.numfetch then s.runTimes else (s.usr, s.sys);
            Fetched(color, now, s, metric, PM_INDOM_NULL)
            == Returned(FetchResult(Real(if item == 3 then sample.0 else sample.1), PM_TYPE_DOUBLE, FetchStatic))
  {
  }

  /** After any run, a fetch of an active instance of the now domain returns the part of the time that the instance's
      name stands for, as of the last batch that threw nothing. */
  lemma DispatchedClock(idOf: string -> nat, color: InstanceDomain, now: InstanceDomain, requests: seq<Request>,
                        metric: PmdaMetric, inst: nat)
    requires color != now && Injective(idOf) && FetchesNow(metric, inst)
    requires inst in ServeAll(idOf, color, now, requests).now && IsActive(ServeAll(idOf, color, now, requests), inst)
    ensures var s, events := ServeAll(idOf, color, now, requests), AllEvents(idOf, color, now, requests);
            var n := LastRefresh((0, 0), events);
            Fetched(color, now, s, metric, inst)
            == Returned(FetchResult(Int(if n == 0 then 0 else Part(events[n - 1].clock, s.now[inst])),
                                    PM_TYPE_U32, FetchStatic))
  {
    var s := ServeAll(idOf, color, now, requests);
    DispatchedNow(idOf, color, now, requests, metric, inst);
    RequestsAreEvents(idOf, color, now, requests);
    ClockLaw(idOf, AllEvents(idOf, color, now, requests), s.now[inst]);
  }

  /** Exactly which fetches of `simple` are refused, and with which code; all others reach the agent. */
  lemma SimpleRefusals(color: InstanceDomain, now: InstanceDomain, s: State, cluster: nat, item: nat, inst: nat)
    requires color != now
    ensures FetchRefusal(SimpleMetrics(color, now), cluster, item, inst, Live(AgentOf(color, now), s)) ==
            if (cluster == 0 && item == 0) || (cluster == 1 && (item == 2 || item == 3)) then
              if inst == PM_INDOM_NULL then None else Some(PmErrIndom)
            else if cluster == 0 && item == 1 then
              if inst < 3 then None else if inst == PM_INDOM_NULL then Some(PmErrIndom) else Some(PmErrInst)
            else if cluster == 2 && item == 4 then
              if inst == PM_INDOM_NULL then Some(PmErrIndom) else if inst in s.now then None else Some(PmErrInst)
            else Some(PmErrPmid)
  {
  }

  // ----- Storing -----

  /** Exactly which values `simple` stores, and the code for every other one. */
  lemma SimpleVerdicts(color: InstanceDomain, now: InstanceDomain, s: State, a: Attempt)
    requires color != now
    ensures StoreVerdict(SimpleMetrics(color, now), AgentOf(color, now), s, a) ==
            var live := Live(AgentOf(color, now), s);
            var refusal := FetchRefusal(SimpleMetrics(color, now), a.cluster, a.item, a.instance, live);
            if refusal.Some? then refusal
            else if a.cluster != 0 || a.value.ExSitu? then Some(PmErrPermission)
            else if a.item == 0 then None
            else if a.value.lval < 0 then Some(PmErrSign)
            else if a.value.lval > 255 then Some(PmErrConv)
            else None
  {
    SimpleRefusals(color, now, s, a.cluster, a.item, a.instance);
  }

  // ----- The name space -----

  ghost function AllRows(cat: Catalog): seq<Pmns.PmnsRow> {
    PmnsRoundTrip.RowsWhere(false, "simple", 253, Clusters(cat))
    + PmnsRoundTrip.RowsWhere(true, "simple", 253, Clusters(cat))
  }

  lemma RowIff(cat: Catalog, row: Pmns.PmnsRow)
    requires KeyedById(cat)
    ensures row in AllRows(cat) <==>
            && row.cluster in cat && row.item in cat[row.cluster].metrics
            && row == PmnsRoundTrip.MetricRow("simple", 253, cat, row.cluster, row.item)
  {
    if row in AllRows(cat) {
      PmnsRoundTrip.NothingElse("simple", 253, cat, row);
    }
    if row.cluster in cat && row.item in cat[row.cluster].metrics {
      PmnsRoundTrip.EveryMetricOnce("simple", 253, cat, row.cluster, row.item);
      assert PmnsRoundTrip.MetricRow("simple", 253, cat, row.cluster, row.item) in multiset(AllRows(cat));
    }
  }

  /** The name space that the agent's source announces: `simple.numfetch` is SIMPLE:0:0, and so on. */
  function Announced(cluster: nat, item: nat): Option<(string, string)> {
    if cluster == 0 && item == 0 then Some(("simple", "numfetch"))
    else if cluster == 0 && item == 1 then Some(("simple", "color"))
    else if cluster == 1 && item == 2 then Some(("simple.time", "user"))
    else if cluster == 1 && item == 3 then Some(("simple.time", "sys"))
    else if cluster == 2 && item == 4 then Some(("simple", "now"))
    else None
  }

  lemma AnnouncedIsDescribed(color: InstanceDomain, now: InstanceDomain, c: nat, i: nat)
    ensures var cat, named := SimpleMetrics(color, now), Announced(c, i);
            && (Known(cat, c, i) <==> named.Some?)
            && (named.Some? ==> PmnsRoundTrip.MetricRow("simple", 253, cat, c, i)
                                == Pmns.PmnsRow(named.value.0, named.value.1, 253, c, i))
  {
    assert "simple" + "." + "time" == "simple.time";
  }

  /** The exported PMNS rows of `simple` are exactly the five that are announced. */
  lemma SimplePmnsRows(color: InstanceDomain, now: InstanceDomain, row: Pmns.PmnsRow)
    ensures var named := Announced(row.cluster, row.item);
            row in AllRows(SimpleMetrics(color, now)) <==>
            named.Some? && row == Pmns.PmnsRow(named.value.0, named.value.1, 253, row.cluster, row.item)
  {
    RowIff(SimpleMetrics(color, now), row);
    AnnouncedIsDescribed(color, now, row.cluster, row.item);
  }

  lemma NumfetchIsName()
    ensures Pmns.IsName("numfetch")
  {
  }

  lemma ColorIsName()
    ensures Pmns.IsName("color")
  {
  }

  lemma TimeIsName()
    ensures Pmns.IsName("time")
  {
  }

  lemma UserAndSysAreNames()
    ensures Pmns.IsName("user") && Pmns.IsName("sys")
  {
  }

  lemma NowIsName()
    ensures Pmns.IsName("now")
  {
  }

  lemma SimpleNames(color: InstanceDomain, now: InstanceDomain, c: nat, i: nat)
    requires Known(SimpleMetrics(color, now), c, i)
    ensures Pmns.IsName(SimpleMetrics(color, now)[c].metrics[i].name)
  {
    if c == 0 && i == 0 {
      NumfetchIsName();
    } else if c == 0 {
      ColorIsName();
    } else if c == 1 {
      UserAndSysAreNames();
    } else {
      NowIsName();
    }
  }

  lemma SimpleIsNamed(color: InstanceDomain, now: InstanceDomain)
    ensures PmnsRoundTrip.Named(Clusters(SimpleMetrics(color, now)))
  {
    var cat := SimpleMetrics(color, now);
    TimeIsName();
    forall c, i | Known(cat, c, i) ensures Pmns.IsName(cat[c].metrics[i].name) {
      SimpleNames(color, now, c, i);
    }
    PmnsRoundTrip.NamedByMetrics(cat);
  }

  lemma SimpleUpper()
    ensures PmnsSpec.Upper("simple") == "SIMPLE"
    ensures "#ifndef " + PmnsSpec.Upper("simple") == "#ifndef SIMPLE"
  {
  }

  lemma SimpleDefine()
    ensures "#define " + PmnsSpec.Upper("simple") + " " + IntText(253) == "#define SIMPLE 253"
  {
    SimpleUpper();
    assert Decimal(2) == "2" && Decimal(25) == "25" && Decimal(253) == "253";
  }

  lemma SimpleStyleOk()
    ensures PmnsRoundTrip.StyleOk(PmnsSpec.Style("simple", "SIMPLE"))
  {
    SimpleUpper();
  }

  /** How the exported file of `simple` starts, to the letter. */
  lemma SimplePmnsStarts(color: InstanceDomain, now: InstanceDomain, previous: string)
    ensures var cs := Clusters(SimpleMetrics(color, now));
            var lines := Lines(PmnsSpec.PmnsText(PmnsSpec.Style("simple", "SIMPLE"), 253, cs, previous));
            && |lines| > 4 && lines[0] == "" && lines[1] == "#ifndef SIMPLE" && lines[2] == "#define SIMPLE 253"
            && lines[3] == "#endif"
  {
    SimpleIsNamed(color, now);
    SimpleStyleOk();
    var style := PmnsSpec.Style("simple", "SIMPLE");
    PmnsLayout.PmnsStartsWithMacro(style, 253, Clusters(SimpleMetrics(color, now)), previous);
    SimpleUpper();
    SimpleDefine();
  }
}

/** The `simple` agent behind the dispatcher: its description, and every run of requests. */
module Composed {
  import opened Pcp
  import opened Text
  import opened Catalog
  import Builder
  import opened Registration
  import opened Dispatch
  import opened DispatchLaws
  import opened SimpleAgent
  import opened SimpleLaws

  // ----- The description that `get_supported_metrics` chains together -----

  const PM_TYPE_32: nat := 0
  const PM_TYPE_U32: nat := 1
  const PM_TYPE_DOUBLE: nat := 5
  const PM_SEM_COUNTER: nat := 1
  const PM_SEM_INSTANT: nat := 3

  const PLAIN: Units := Units(0, 0, 0, 0, 0, 0)
  const SECONDS: Units := Units(0, 1, 0, 0, 3, 0)

  function Described(name: string, typ: nat, semantic: nat, units: Units, domain: InstanceDomain?,
                     storable: bool): MetricDescription {
    MetricDescription(name, typ, semantic, units, domain, "", "", 0, storable)
  }

  const NUMFETCH: MetricDescription := Described("numfetch", PM_TYPE_U32, PM_SEM_INSTANT, PLAIN, null, true)
  const USER: MetricDescription := Described("user", PM_TYPE_DOUBLE, PM_SEM_COUNTER, SECONDS, null, false)
  const SYS: MetricDescription := Described("sys", PM_TYPE_DOUBLE, PM_SEM_COUNTER, SECONDS, null, false)

  function Color(color: InstanceDomain): MetricDescription {
    Described("color", PM_TYPE_32, PM_SEM_INSTANT, PLAIN, color, true)
  }

  function Now(now: InstanceDomain): MetricDescription {
    Described("now", PM_TYPE_U32, PM_SEM_INSTANT, PLAIN, now, false)
  }

  function Chain(color: InstanceDomain, now: InstanceDomain): seq<Builder.Call> {
    [Builder.OpenCluster(0, ""), Builder.AddMetric(0, NUMFETCH), Builder.AddMetric(1, Color(color)),
     Builder.OpenCluster(1, "time"), Builder.AddMetric(2, USER), Builder.AddMetric(3, SYS),
     Builder.OpenCluster(2, ""), Builder.AddMetric(4, Now(now))]
  }

  function SimpleMetrics(color: InstanceDomain, now: InstanceDomain): Catalog {
    map[0 := Cluster(0, "", map[0 := NUMFETCH, 1 := Color(color)]),
        1 := Cluster(1, "time", map[2 := USER, 3 := SYS]),
        2 := Cluster(2, "", map[4 := Now(now)])]
  }

  lemma RunStep(calls: seq<Builder.Call>, call: Builder.Call)
    ensures Builder.Run(calls + [call]) == Builder.Apply(Builder.Run(calls), call)
  {
    assert (calls + [call])[..|calls|] == calls;
  }

  /** The chained functor calls build exactly this description, and none of them throws. */
  lemma ChainBuildsSimpleMetrics(color: InstanceDomain, now: InstanceDomain)
    ensures Builder.Run(Chain(color, now)) == Builder.State(SimpleMetrics(color, now), Some(2))
    ensures var c := Chain(color, now);
            forall k :: 0 <= k < |c| ==> !Builder.Fails(Builder.Run(c[..k]), c[k])
  {
    var c := Chain(color, now);
    forall k | 0 <= k < |c| ensures !Builder.Fails(Builder.Run(c[..k]), c[k]) {
      ChainNeverThrows(color, now, k);
    }
    FirstTwoClusters(color, now);
    RunStep(c[..6], c[6]);
    RunStep(c[..7], c[7]);
    assert c[..6] + [c[6]] == c[..7] && c[..7] + [c[7]] == c;
  }

  lemma ChainNeverThrows(color: InstanceDomain, now: InstanceDomain, k: nat)
    requires k < |Chain(color, now)|
    ensures !Builder.Fails(Builder.Run(Chain(color, now)[..k]), Chain(color, now)[k])
  {
    Builder.FailsWithoutCluster(Chain(color, now), k);
    assert Chain(color, now)[0].OpenCluster?;
  }

  lemma FirstTwoClusters(color: InstanceDomain, now: InstanceDomain)
    ensures Builder.Run(Chain(color, now)[..6]) == Builder.State(
              map[0 := Cluster(0, "", map[0 := NUMFETCH, 1 := Color(color)]),
                  1 := Cluster(1, "time", map[2 := USER, 3 := SYS])], Some(1))
  {
    var c := Chain(color, now);
    FirstCluster(color, now);
    RunStep(c[..3], c[3]);
    RunStep(c[..4], c[4]);
    RunStep(c[..5], c[5]);
    assert c[..3] + [c[3]] == c[..4] && c[..4] + [c[4]] == c[..5] && c[..5] + [c[5]] == c[..6];
  }

  lemma FirstCluster(color: InstanceDomain, now: InstanceDomain)
    ensures Builder.Run(Chain(color, now)[..3]) == Builder.State(
              map[0 := Cluster(0, "", map[0 := NUMFETCH, 1 := Color(color)])], Some(0))
  {
    var c := Chain(color, now);
    RunStep([], c[0]);
    RunStep(c[..1], c[1]);
    RunStep(c[..2], c[2]);
    assert [] + [c[0]] == c[..1] && c[..1] + [c[1]] == c[..2] && c[..2] + [c[2]] == c[..3];
  }

  // ----- Requests -----

  /** The agent as the dispatcher sees it. */
  function AgentOf(color: InstanceDomain, now: InstanceDomain): Agent<State> {
    Agent((s: State, id: MetricId) => Fetch(s, id), (s: State, id: MetricId, v: Value) => Store(s, id, v),
          (s: State, d: InstanceDomain) => if d == color then {0, 1, 2} else if d == now then s.now.Keys else {})
  }

  /** What PCP asks of the agent, in any order: start a batch, fetch one value of any table row, store any values. */
  datatype Request =
    | Batch(conf: Conf, clock: Clock)
    | Callback(metric: PmdaMetric, inst: nat, runTimes: (real, real))
    | StoreRequest(attempts: seq<Attempt>)

  /** What happens on the agent when a request is dispatched. */
  function EventsOf(color: InstanceDomain, now: InstanceDomain, s: State, r: Request): seq<Event> {
    var cat, agent := SimpleMetrics(color, now), AgentOf(color, now);
    match r
    case Batch(conf, clock) => [BeginBatch(conf, clock)]
    case Callback(metric, inst, runTimes) =>
      var cluster, item := PmIdCluster(metric.desc.pmid), PmIdItem(metric.desc.pmid);
      var found := Lookup(cat, cluster, item);
      if found.Threw? || ValidateInstance(found.value, inst, Live(agent, s)).Some? then []
      else [FetchValue(MetricId(cluster, item, inst, found.value.typ, metric.user), runTimes)]
    case StoreRequest(attempts) => StoreEvents(StoreRun(cat, agent, s, attempts).calls)
  }

  function StoreEvents(calls: seq<(MetricId, Value)>): (events: seq<Event>)
    ensures |events| == |calls| && forall k :: 0 <= k < |calls| ==> events[k] == StoreValue(calls[k].0, calls[k].1)
  {
    if calls == [] then []
    else StoreEvents(calls[..|calls| - 1]) + [StoreValue(calls[|calls| - 1].0, calls[|calls| - 1].1)]
  }

  /** The agent's state after a request, through the dispatcher. */
  function Serve(idOf: string -> nat, color: InstanceDomain, now: InstanceDomain, s: State, r: Request): State {
    var cat, agent := SimpleMetrics(color, now), AgentOf(color, now);
    match r
    case Batch(conf, clock) => Begin(idOf, s, conf, clock).0
    case Callback(metric, inst, runTimes) =>
      FetchOutcome(cat, agent, s.(runTimes := if EventsOf(color, now, s, r) == [] then s.runTimes else runTimes),
                   metric, inst).0
    case StoreRequest(attempts) => StoreRun(cat, agent, s, attempts).state
  }

  function ServeAll(idOf: string -> nat, color: InstanceDomain, now: InstanceDomain, requests: seq<Request>): State {
    if requests == [] then INITIAL
    else Serve(idOf, color, now, ServeAll(idOf, color, now, requests[..|requests| - 1]), requests[|requests| - 1])
  }

  function AllEvents(idOf: string -> nat, color: InstanceDomain, now: InstanceDomain,
                     requests: seq<Request>): seq<Event> {
    if requests == [] then []
    else
      var front := requests[..|requests| - 1];
      AllEvents(idOf, color, now, front)
      + EventsOf(color, now, ServeAll(idOf, color, now, front), requests[|requests| - 1])
  }

  // ----- Dispatching is running the agent -----

  lemma StoreEventsStep(calls: seq<(MetricId, Value)>, call: (MetricId, Value))
    ensures StoreEvents(calls + [call]) == StoreEvents(calls) + [StoreValue(call.0, call.1)]
  {
    assert (calls + [call])[..|calls|] == calls;
  }

  lemma RunOneMore(idOf: string -> nat, s: State, events: seq<Event>, e: Event)
    ensures Run(idOf, s, events + [e]) == Step(idOf, Run(idOf, s, events), e)
  {
    assert (events + [e])[..|events|] == events;
  }

  lemma StoreStepIsStep(idOf: string -> nat, color: InstanceDomain, now: InstanceDomain, p: Progress<State>, a: Attempt)
    ensures var q := StoreStep(SimpleMetrics(color, now), AgentOf(color, now), p, a);
            || (q.calls == p.calls && q.state == p.state)
            || (|q.calls| == |p.calls| + 1 && q.calls == p.calls + [q.calls[|p.calls|]]
                && q.state == Step(idOf, p.state, StoreValue(q.calls[|p.calls|].0, q.calls[|p.calls|].1)))
  {
  }

  lemma {:induction false} StoreRunIsRun(idOf: string -> nat, color: InstanceDomain, now: InstanceDomain, s: State,
                                         attempts: seq<Attempt>)
    ensures var p := StoreRun(SimpleMetrics(color, now), AgentOf(color, now), s, attempts);
            p.state == Run(idOf, s, StoreEvents(p.calls))
  {
    if attempts == [] {
    } else {
      var n := |attempts| - 1;
      var p := StoreRun(SimpleMetrics(color, now), AgentOf(color, now), s, attempts[..n]);
      var q := StoreRun(SimpleMetrics(color, now), AgentOf(color, now), s, attempts);
      StoreRunIsRun(idOf, color, now, s, attempts[..n]);
      StoreStepIsStep(idOf, color, now, p, attempts[n]);
      if q.calls != p.calls {
        var call := q.calls[|p.calls|];
        StoreEventsStep(p.calls, call);
        RunOneMore(idOf, s, StoreEvents(p.calls), StoreValue(call.0, call.1));
      }
    }
  }

  lemma ServeIsRun(idOf: string -> nat, color: InstanceDomain, now: InstanceDomain, s: State, r: Request)
    ensures Serve(idOf, color, now, s, r) == Run(idOf, s, EventsOf(color, now, s, r))
  {
    var events := EventsOf(color, now, s, r);
    match r
    case Batch(_, _) => assert events[..0] == [];
    case Callback(_, _, runTimes) =>
      if events != [] {
        assert events[..0] == [];
        assert |events| == 1 && Run(idOf, s, events) == Step(idOf, s, events[0]);
      }
    case StoreRequest(attempts) => StoreRunIsRun(idOf, color, now, s, attempts);
  }

  /** Every run of requests is a run of the agent over the events that the dispatcher lets through. */
  lemma {:induction false} RequestsAreEvents(idOf: string -> nat, color: InstanceDomain, now: InstanceDomain,
                                             requests: seq<Request>)
    ensures ServeAll(idOf, color, now, requests) == Run(idOf, INITIAL, AllEvents(idOf, color, now, requests))
  {
    if requests == [] {
    } else {
      var front, last := requests[..|requests| - 1], requests[|requests| - 1];
      RequestsAreEvents(idOf, color, now, front);
      var s := ServeAll(idOf, color, now, front);
      ServeIsRun(idOf, color, now, s, last);
      RunAppend(idOf, INITIAL, AllEvents(idOf, color, now, front), EventsOf(color, now, s, last));
    }
  }

  // ----- The composed guard -----

  /** The ids with which the agent's `store_value` may be called. */
  predicate StoreIdGuarded(id: MetricId) {
    || (id.cluster == 0 && id.item == 0 && id.instance == PM_INDOM_NULL)
    || (id.cluster == 0 && id.item == 1 && id.instance < 3)
  }

  /** The ids with which the agent's `fetch_value` may be called. */
  predicate FetchIdGuarded(id: MetricId) {
    || (id.cluster == 0 && id.item == 0 && id.instance == PM_INDOM_NULL)
    || (id.cluster == 0 && id.item == 1 && id.instance < 3)
    || (id.cluster == 1 && (id.item == 2 || id.item == 3) && id.instance == PM_INDOM_NULL)
    || (id.cluster == 2 && id.item == 4 && id.instance != PM_INDOM_NULL)
  }

  predicate Guarded(e: Event) {
    match e
    case BeginBatch(_, _) => true
    case FetchValue(id, _) => FetchIdGuarded(id)
    case StoreValue(id, _) => StoreIdGuarded(id)
  }

  ghost predicate AllGuarded(events: seq<Event>) {
    forall k :: 0 <= k < |events| ==> Guarded(events[k])
  }

  lemma RequestIsGuarded(color: InstanceDomain, now: InstanceDomain, s: State, r: Request)
    requires color != now
    ensures AllGuarded(EventsOf(color, now, s, r))
  {
    var cat, agent := SimpleMetrics(color, now), AgentOf(color, now);
    match r
    case Batch(_, _) =>
    case Callback(_, _, _) =>
    case StoreRequest(attempts) =>
      var calls := StoreRun(cat, agent, s, attempts).calls;
      forall k | 0 <= k < |calls| ensures StoreIdGuarded(calls[k].0) {
        OffersAreGuarded(cat, agent, s, attempts, k);
      }
  }

  lemma {:induction false} EveryEventIsGuarded(idOf: string -> nat, color: InstanceDomain, now: InstanceDomain,
                                               requests: seq<Request>)
    requires color != now
    ensures AllGuarded(AllEvents(idOf, color, now, requests))
  {
    if requests == [] {
    } else {
      var front := requests[..|requests| - 1];
      EveryEventIsGuarded(idOf, color, now, front);
      RequestIsGuarded(color, now, ServeAll(idOf, color, now, front), requests[|requests| - 1]);
    }
  }

  lemma GuardedStepStays(idOf: string -> nat, s: State, e: Event)
    requires Guarded(e) && |s.rgb| == 3 && !s.strayed
    ensures |Step(idOf, s, e).rgb| == 3 && !Step(idOf, s, e).strayed
  {
    if e.BeginBatch? {
      BeginKeeps(idOf, s, e.conf, e.clock);
    }
  }

  lemma {:induction false} GuardedRunStays(idOf: string -> nat, events: seq<Event>)
    requires AllGuarded(events)
    ensures |Run(idOf, INITIAL, events).rgb| == 3 && !Run(idOf, INITIAL, events).strayed
  {
    if events == [] {
    } else {
      var n := |events| - 1;
      assert Guarded(events[n]);
      GuardedRunStays(idOf, events[..n]);
      GuardedStepStays(idOf, Run(idOf, INITIAL, events[..n]), events[n]);
    }
  }

  /** Reached only through the dispatcher, the agent never indexes its colour array out of bounds, although it does not
      check, and its virtual functions only ever see the ids above. */
  lemma NeverStrays(idOf: string -> nat, color: InstanceDomain, now: InstanceDomain, requests: seq<Request>)
    requires color != now
    ensures !ServeAll(idOf, color, now, requests).strayed
    ensures AllGuarded(AllEvents(idOf, color, now, requests))
  {
    RequestsAreEvents(idOf, color, now, requests);
    EveryEventIsGuarded(idOf, color, now, requests);
    GuardedRunStays(idOf, AllEvents(idOf, color, now, requests));
  }

  /** Without the dispatcher the check is missing: one fetch of a fourth colour strays. */
  lemma UnguardedFetchStrays(id: MetricId)
    requires id == MetricId(0, 1, 3, PM_TYPE_32, 0)
    ensures Fetch(INITIAL, id).0.strayed
  {
  }

  /** A dispatched fetch of `simple.now` for an instance that PCP knows returns the matching field or reports
      inactivity. */
  lemma DispatchedNow(idOf: string -> nat, color: InstanceDomain, now: InstanceDomain, requests: seq<Request>,
                      metric: PmdaMetric, inst: nat)
    requires color != now && Injective(idOf)
    requires PmIdCluster(metric.desc.pmid) == 2 && PmIdItem(metric.desc.pmid) == 4 && inst != PM_INDOM_NULL
    ensures var s := ServeAll(idOf, color, now, requests);
            var r := FetchOutcome(SimpleMetrics(color, now), AgentOf(color, now), s, metric, inst).1;
            if inst !in s.now then r == Threw(PcpException(PmErrInst))
            else if IsActive(s, inst)
            then Recognised(s.now[inst]) && |s.fields| == 3
                 && r == Returned(FetchResult(Int(s.fields[SliceOf(s.now[inst])]), PM_TYPE_U32, FetchStatic))
            else r == Threw(PcpException(CacheInactive))
  {
    var s := ServeAll(idOf, color, now, requests);
    RequestsAreEvents(idOf, color, now, requests);
    CacheAlwaysAgrees(idOf, AllEvents(idOf, color, now, requests));
    if inst in s.now {
      NowFetchMatches(idOf, s, MetricId(2, 4, inst, PM_TYPE_U32, metric.user));
    }
  }

  /** The colour and counter laws hold for every run of requests, over the events that the dispatcher lets through. */
  lemma DispatchedLaws(idOf: string -> nat, color: InstanceDomain, now: InstanceDomain, requests: seq<Request>, i: nat)
    requires i < 3
    ensures var s, events := ServeAll(idOf, color, now, requests), AllEvents(idOf, color, now, requests);
            && |s.rgb| == 3 && s.rgb[i] == ExpectedColour(100 * i, events, i)
            && s.numfetch == ExpectedCounter(0, events)
  {
    RequestsAreEvents(idOf, color, now, requests);
    InitialRunLaws(idOf, AllEvents(idOf, color, now, requests), i);
  }

  // ----- Return codes -----

  /** The ways in which a dispatched fetch can end. */
  lemma FetchEnds(idOf: string -> nat, color: InstanceDomain, now: InstanceDomain, s: State, metric: PmdaMetric,
                  inst: nat)
    requires CacheAgreement(idOf, s) && color != now
    ensures var r := FetchOutcome(SimpleMetrics(color, now), AgentOf(color, now), s, metric, inst).1;
            && (r.Returned? ==> r.value.code == FetchStatic)
            && (r.Threw? ==> || r.thrown == OutOfRange || r.thrown == PcpException(PmErrIndom)
                             || r.thrown == PcpException(PmErrInst) || r.thrown == PcpException(CacheInactive))
  {
  }

  predicate FetchesNow(metric: PmdaMetric, inst: nat) {
    PmIdCluster(metric.desc.pmid) == 2 && PmIdItem(metric.desc.pmid) == 4 && inst != PM_INDOM_NULL
  }

  lemma InactiveIff(idOf: string -> nat, color: InstanceDomain, now: InstanceDomain, s: State, metric: PmdaMetric,
                    inst: nat)
    requires CacheAgreement(idOf, s) && color != now
    ensures FetchOutcome(SimpleMetrics(color, now), AgentOf(color, now), s, metric, inst).1
            == Threw(PcpException(CacheInactive))
            <==> FetchesNow(metric, inst) && inst in s.now && !IsActive(s, inst)
  {
    if FetchesNow(metric, inst) && inst in s.now {
      NowFetchMatches(idOf, s, MetricId(2, 4, inst, PM_TYPE_U32, metric.user));
    }
  }

  /** What a dispatched fetch returns, whatever the run so far: a value with a positive code, a negative error code, or,
      exactly for an instance of the now domain whose cache entry is inactive, a positive code without a value. */
  lemma PositiveWithoutValue(numeric: Code -> int, idOf: string -> nat, color: InstanceDomain, now: InstanceDomain,
                             requests: seq<Request>, metric: PmdaMetric, inst: nat, runTimes: (real, real))
    requires ReadsAs(numeric) && color != now && Injective(idOf)
    ensures var s := ServeAll(idOf, color, now, requests);
            var r := FetchOutcome(SimpleMetrics(color, now), AgentOf(color, now), s.(runTimes := runTimes), metric,
                                  inst).1;
            var code := numeric(FetchCode(r));
            && code != 0 && (r.Returned? ==> code > 0)
            && (r.Threw? && code > 0 <==> FetchesNow(metric, inst) && inst in s.now && !IsActive(s, inst))
  {
    var s := ServeAll(idOf, color, now, requests);
    RequestsAreEvents(idOf, color, now, requests);
    CacheAlwaysAgrees(idOf, AllEvents(idOf, color, now, requests));
    FetchEnds(idOf, color, now, s.(runTimes := runTimes), metric, inst);
    InactiveIff(idOf, color, now, s.(runTimes := runTimes), metric, inst);
  }

  const LOADED: Conf := Conf(Some((1, 0)), true, Some("sec"), None, map[], None)
  const MISSING: Conf := Conf(None, false, None, None, map[], None)

  lemma LoadsSec()
    ensures Loads(LOADED, "sec") && !LoadFails(LOADED) && LOADED.modified == Some((1, 0))
  {
    assert Free("sec", ',');
    SplitLast("sec", ',');
    assert FirstError(map[], ["sec"]) == 1 && ["sec"][..1] == ["sec"];
    assert "sec" in ["sec"];
  }

  lemma SecIsLost(idOf: string -> nat, clock: Clock)
    requires Injective(idOf)
    ensures var s := Begin(idOf, Begin(idOf, INITIAL, LOADED, clock).0, MISSING, clock).0;
            idOf("sec") in s.now && !IsActive(s, idOf("sec"))
  {
    var first := Begin(idOf, INITIAL, LOADED, clock).0;
    LoadsSec();
    ReloadActivatesExactly(idOf, INITIAL, LOADED, clock, "sec");
    ReloadActivatesExactly(idOf, first, MISSING, clock, "sec");
    BeginAgrees(idOf, INITIAL, LOADED, clock);
    assert Begin(idOf, first, MISSING, clock).0.now == first.now;
  }

  /** Such a fetch is reachable: load "sec", lose the file, fetch the instance of "sec". */
  lemma InactiveFetchExample(idOf: string -> nat, color: InstanceDomain, now: InstanceDomain, clock: Clock)
    requires color != now && Injective(idOf) && idOf("sec") != PM_INDOM_NULL
    ensures var s := ServeAll(idOf, color, now, [Batch(LOADED, clock), Batch(MISSING, clock)]);
            var metric := PmdaMetric(0, PmDesc(PmId(2, 4), PM_TYPE_U32, PM_INDOM_NULL, PM_SEM_INSTANT, PLAIN));
            FetchOutcome(SimpleMetrics(color, now), AgentOf(color, now), s, metric, idOf("sec")).1
            == Threw(PcpException(CacheInactive))
  {
    var requests := [Batch(LOADED, clock), Batch(MISSING, clock)];
    var metric := PmdaMetric(0, PmDesc(PmId(2, 4), PM_TYPE_U32, PM_INDOM_NULL, PM_SEM_INSTANT, PLAIN));
    TwoBatches(idOf, color, now, requests[0], requests[1]);
    SecIsLost(idOf, clock);
    assert PmIdCluster(metric.desc.pmid) == 2 && PmIdItem(metric.desc.pmid) == 4;
    DispatchedNow(idOf, color, now, requests, metric, idOf("sec"));
  }

  lemma TwoBatches(idOf: string -> nat, color: InstanceDomain, now: InstanceDomain, a: Request, b: Request)
    ensures ServeAll(idOf, color, now, [a, b]) == Serve(idOf, color, now, Serve(idOf, color, now, INITIAL, a), b)
  {
    assert [a, b][..1] == [a] && [a][..0] == [];
    assert ServeAll(idOf, color, now, [a]) == Serve(idOf, color, now, INITIAL, a);
  }

  /** A store request to `simple` returns 0 exactly when every value was stored and there was one. */
  lemma SimpleZeroIsReliable(color: InstanceDomain, now: InstanceDomain, s: State, numpmid: int, vset: seq<ValueSet>,
                             fallback: Code)
    requires WellFormed(numpmid, vset) && fallback != Number(0)
    ensures ZeroTells(SimpleMetrics(color, now), AgentOf(color, now), s, Dispatch.Request(numpmid, vset), fallback)
  {
    ZeroMeansStored(SimpleMetrics(color, now), AgentOf(color, now), s, numpmid, vset, fallback);
  }
}

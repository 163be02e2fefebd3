/** The request dispatcher: decoding, validation, the calls into the agent and the mapping of exceptions to codes. */
module Dispatch {
  import opened Pcp
  import opened Flattening
  import opened Catalog
  import opened Registration

  datatype MetricId = MetricId(cluster: nat, item: nat, instance: nat, typ: nat, opaquePointer: nat)

  datatype Number = Int(i: int) | Real(r: real)

  datatype FetchResult = FetchResult(value: Number, typ: nat, code: Code)

  /** What is stored: an int held in the value itself, or a pointer to a value block. */
  datatype Value = InSitu(lval: int) | ExSitu(block: seq<int>)

  /** An agent: what its two virtual functions do to its state, and the contents of its live instance domains. */
  datatype Agent<!S> = Agent(
    fetchValue: (S, MetricId) -> (S, Result<FetchResult>),
    storeValue: (S, MetricId, Value) -> (S, Option<Thrown>),
    instances: (S, InstanceDomain) -> set<nat>)

  // ----- Requests -----

  datatype StoredValue = StoredValue(inst: int, lval: int, block: seq<int>)

  datatype ValueSet = ValueSet(pmid: nat, numval: int, inSitu: bool, vlist: seq<StoredValue>)

  /** One value of a store request, with the PMID of its set decoded. */
  datatype Attempt = Attempt(cluster: nat, item: nat, instance: nat, value: Value)

  /** The counts that the request carries cover no more than what it points to. */
  ghost predicate WellFormedSet(vs: ValueSet) { vs.numval <= |vs.vlist| }

  ghost predicate WellFormed(numpmid: int, vset: seq<ValueSet>) {
    numpmid <= |vset| && forall k :: 0 <= k < numpmid ==> WellFormedSet(vset[k])
  }

  function Count(n: int): nat { if n < 0 then 0 else n }

  function AttemptOf(vs: ValueSet, v: StoredValue): Attempt {
    Attempt(PmIdCluster(vs.pmid), PmIdItem(vs.pmid), ToUint(v.inst),
            if vs.inSitu then InSitu(v.lval) else ExSitu(v.block))
  }

  ghost function SetAttempts(vs: ValueSet): (attempts: seq<Attempt>)
    requires WellFormedSet(vs)
    ensures |attempts| == Count(vs.numval)
    ensures forall k :: 0 <= k < |attempts| ==> attempts[k] == AttemptOf(vs, vs.vlist[k])
  {
    seq(Count(vs.numval), k requires 0 <= k < Count(vs.numval) => AttemptOf(vs, vs.vlist[k]))
  }

  ghost function RequestGroups(numpmid: int, vset: seq<ValueSet>): (groups: seq<seq<Attempt>>)
    requires WellFormed(numpmid, vset)
    ensures |groups| == Count(numpmid)
    ensures forall k :: 0 <= k < |groups| ==> groups[k] == SetAttempts(vset[k])
  {
    seq(Count(numpmid), k requires 0 <= k < Count(numpmid) => SetAttempts(vset[k]))
  }

  /** All values of a request, set by set. */
  ghost function Request(numpmid: int, vset: seq<ValueSet>): seq<Attempt>
    requires WellFormed(numpmid, vset)
  {
    Flatten(RequestGroups(numpmid, vset))
  }

  // ----- Validation -----

  /** `validate_instance`, against the domain's instances at the time of the call. */
  function ValidateInstance(d: MetricDescription, instance: nat,
                            live: InstanceDomain -> set<nat>): (thrown: Option<Thrown>) {
    if instance != PM_INDOM_NULL then
      if d.domain == null then Some(PcpException(PmErrIndom))
      else if instance !in live(d.domain) then Some(PcpException(PmErrInst))
      else None
    else if d.domain != null then Some(PcpException(PmErrIndom))
    else None
  }

  /** An instance is accepted iff the metric has none and none is given, or it has a domain that now holds the given
      one. */
  ghost predicate Accepts(d: MetricDescription, instance: nat, live: InstanceDomain -> set<nat>) {
    if d.domain == null then instance == PM_INDOM_NULL
    else instance != PM_INDOM_NULL && instance in live(d.domain)
  }

  lemma ValidateIffAccepts(d: MetricDescription, instance: nat, live: InstanceDomain -> set<nat>)
    ensures ValidateInstance(d, instance, live).None? <==> Accepts(d, instance, live)
    ensures ValidateInstance(d, instance, live) == Some(PcpException(PmErrInst)) <==>
            d.domain != null && instance != PM_INDOM_NULL && instance !in live(d.domain)
  {
  }

  /** `supported_metrics.at(cluster).at(item)` */
  function Lookup(cat: Catalog, cluster: nat, item: nat): Result<MetricDescription> {
    if cluster in cat && item in cat[cluster].metrics then Returned(cat[cluster].metrics[item]) else Threw(OutOfRange)
  }

  /** What stops a value from being offered to the agent. */
  function StoreObstacle(cat: Catalog, a: Attempt, live: InstanceDomain -> set<nat>): Option<Thrown> {
    match Lookup(cat, a.cluster, a.item)
    case Threw(t) => Some(t)
    case Returned(d) =>
      var invalid := ValidateInstance(d, a.instance, live);
      if invalid.Some? then invalid
      else if !d.storable then Some(PcpException(PmErrPermission))
      else None
  }

  function StoreId(cat: Catalog, a: Attempt): MetricId
    requires Lookup(cat, a.cluster, a.item).Returned?
  {
    MetricId(a.cluster, a.item, a.instance, Lookup(cat, a.cluster, a.item).value.typ, 0)
  }

  function Live<S>(agent: Agent<S>, s: S): InstanceDomain -> set<nat> {
    d => agent.instances(s, d)
  }

  // ----- Storing: the meaning of a run of values -----

  /** How far a store request got: values stored, the agent's state, the calls made on it, and the failure that ended
      it. */
  datatype Progress<S> = Progress(stored: nat, state: S, calls: seq<(MetricId, Value)>, failure: Option<Thrown>)

  function StoreStep<S>(cat: Catalog, agent: Agent<S>, p: Progress<S>, a: Attempt): Progress<S>
  {
    if p.failure.Some? then p
    else
      var obstacle := StoreObstacle(cat, a, Live(agent, p.state));
      if obstacle.Some? then p.(failure := obstacle)
      else
        var id := StoreId(cat, a);
        var (state, thrown) := agent.storeValue(p.state, id, a.value);
        Progress(if thrown.None? then p.stored + 1 else p.stored, state, p.calls + [(id, a.value)], thrown)
  }

  function StoreRun<S>(cat: Catalog, agent: Agent<S>, s: S, attempts: seq<Attempt>): Progress<S>
  {
    if attempts == [] then Progress(0, s, [], None)
    else StoreStep(cat, agent, StoreRun(cat, agent, s, attempts[..|attempts| - 1]), attempts[|attempts| - 1])
  }

  /** The code a request returns; `fallback` is what `pmdaStore` returns. */
  function StoreCode<S>(p: Progress<S>, fallback: Code): Code {
    if p.failure.Some? then CaughtCode(p.failure.value)
    else if p.stored > 0 then Number(0)
    else fallback
  }

  // ----- Fetching -----

  function FetchOutcome<S>(cat: Catalog, agent: Agent<S>, s: S, metric: PmdaMetric, inst: nat)
    : (S, Result<FetchResult>)
  {
    var cluster, item := PmIdCluster(metric.desc.pmid), PmIdItem(metric.desc.pmid);
    match Lookup(cat, cluster, item)
    case Threw(t) => (s, Threw(t))
    case Returned(d) =>
      match ValidateInstance(d, inst, Live(agent, s))
      case Some(t) => (s, Threw(t))
      case None => agent.fetchValue(s, MetricId(cluster, item, inst, d.typ, metric.user))
  }

  function FetchCode(r: Result<FetchResult>): Code {
    match r
    case Returned(v) => v.code
    case Threw(t) => CaughtCode(t)
  }

  // ----- The dispatcher -----

  class Pmda<S> {
    const agent: Agent<S>
    var state: S
    var supportedMetrics: Catalog

    constructor (agent: Agent<S>, state: S, cat: Catalog)
      ensures this.agent == agent && this.state == state && supportedMetrics == cat
    {
      this.agent, this.state, supportedMetrics := agent, state, cat;
    }

    method OnFetchCallback(metric: PmdaMetric, inst: nat) returns (code: Code, value: Option<FetchResult>)
      modifies `state
      ensures var (s, r) := FetchOutcome(supportedMetrics, agent, old(state), metric, inst);
              state == s && code == FetchCode(r) && value == if r.Returned? then Some(r.value) else None
    {
      var cluster, item := PmIdCluster(metric.desc.pmid), PmIdItem(metric.desc.pmid);
      var found := Lookup(supportedMetrics, cluster, item);
      if found.Threw? {
        return CaughtCode(found.thrown), None;
      }
      var invalid := ValidateInstance(found.value, inst, Live(agent, state));
      if invalid.Some? {
        return CaughtCode(invalid.value), None;
      }
      var (s, r) := agent.fetchValue(state, MetricId(cluster, item, inst, found.value.typ, metric.user));
      state := s;
      if r.Threw? {
        return CaughtCode(r.thrown), None;
      }
      return r.value.code, Some(r.value);
    }

    /** The body of the inner loop: validate one value and offer it to the agent. */
    method StoreOne(cluster: nat, item: nat, valueSet: ValueSet, v: StoredValue, ghost s: S, ghost done: seq<Attempt>,
                    ghost calls: seq<(MetricId, Value)>)
      returns (thrown: Option<Thrown>, ghost calls': seq<(MetricId, Value)>)
      requires cluster == PmIdCluster(valueSet.pmid) && item == PmIdItem(valueSet.pmid)
      requires var p := StoreRun(supportedMetrics, agent, s, done);
               p.failure.None? && p.state == state && p.calls == calls
      modifies `state
      ensures var p := StoreRun(supportedMetrics, agent, s, done);
              var q := StoreRun(supportedMetrics, agent, s, done + [AttemptOf(valueSet, v)]);
              && q.failure == thrown && q.state == state && q.calls == calls'
              && (thrown.None? ==> q.stored == p.stored + 1)
    {
      ghost var attempt := AttemptOf(valueSet, v);
      StoreRunStep(supportedMetrics, agent, s, done, attempt);
      calls' := calls;
      var instance := ToUint(v.inst);
      var found := Lookup(supportedMetrics, cluster, item);
      if found.Threw? {
        return Some(found.thrown), calls';
      }
      var invalid := ValidateInstance(found.value, instance, Live(agent, state));
      if invalid.Some? {
        return invalid, calls';
      }
      if !found.value.storable {
        return Some(PcpException(PmErrPermission)), calls';
      }
      var id := MetricId(cluster, item, instance, found.value.typ, 0);
      var value := if valueSet.inSitu then InSitu(v.lval) else ExSitu(v.block);
      var (after, rejected) := agent.storeValue(state, id, value);
      state, calls' := after, calls' + [(id, value)];
      thrown := rejected;
    }

    /** The inner loop: the values of one set, up to the first exception. */
    method StoreSet(valueSet: ValueSet, ghost s: S, ghost groups: seq<seq<Attempt>>, ghost g: nat,
                    ghost calls: seq<(MetricId, Value)>, stored: bool)
      returns (thrown: Option<Thrown>, ghost calls': seq<(MetricId, Value)>, stored': bool)
      requires WellFormedSet(valueSet) && g < |groups| && groups[g] == SetAttempts(valueSet)
      requires Reached(s, Flatten(groups[..g]), calls, stored)
      modifies `state
      ensures thrown.None? ==> Reached(s, Flatten(groups[..g + 1]), calls', stored')
      ensures thrown.Some? ==> Failed(s, Flatten(groups), calls', thrown)
    {
      ghost var done := Visited(groups, g, 0);
      calls', stored' := calls, stored;
      assert done == Flatten(groups[..g]);
      var cluster, item := PmIdCluster(valueSet.pmid), PmIdItem(valueSet.pmid);
      var instanceIndex := 0;
      while instanceIndex < valueSet.numval
        invariant 0 <= instanceIndex <= Count(valueSet.numval)
        invariant done == Visited(groups, g, instanceIndex) && Reached(s, done, calls', stored')
      {
        var v := valueSet.vlist[instanceIndex];
        assert groups[g][instanceIndex] == AttemptOf(valueSet, v);
        VisitedStep(groups, g, instanceIndex);
        VisitedIsPrefix(groups, g, instanceIndex + 1);
        thrown, calls' := StoreOne(cluster, item, valueSet, v, s, done, calls');
        done := done + [AttemptOf(valueSet, v)];
        if thrown.Some? {
          FailureEndsRun(supportedMetrics, agent, s, done, Flatten(groups));
          return;
        }
        stored' := true;
        instanceIndex := instanceIndex + 1;
      }
      VisitedAll(groups, g);
      thrown := None;
    }

    /** `on_store`: nested loops that stop at the first exception; nothing already stored is undone. */
    method OnStore(numpmid: int, vset: seq<ValueSet>, fallback: Code)
      returns (code: Code, ghost calls: seq<(MetricId, Value)>)
      requires WellFormed(numpmid, vset)
      modifies `state
      ensures var p := StoreRun(supportedMetrics, agent, old(state), Request(numpmid, vset));
              state == p.state && calls == p.calls && code == StoreCode(p, fallback)
    {
      ghost var groups := RequestGroups(numpmid, vset);
      calls := [];
      var anyStored := false;
      var valueSetIndex := 0;
      while valueSetIndex < numpmid
        invariant 0 <= valueSetIndex <= Count(numpmid)
        invariant Reached(old(state), Flatten(groups[..valueSetIndex]), calls, anyStored)
      {
        var thrown;
        thrown, calls, anyStored := StoreSet(vset[valueSetIndex], old(state), groups, valueSetIndex, calls, anyStored);
        if thrown.Some? {
          return CaughtCode(thrown.value), calls;
        }
        valueSetIndex := valueSetIndex + 1;
      }
      assert groups[..valueSetIndex] == groups;
      code := if anyStored then Number(0) else fallback;
    }

    /** The whole request has failed with this exception, after these calls. */
    ghost predicate Failed(s: S, all: seq<Attempt>, calls: seq<(MetricId, Value)>, thrown: Option<Thrown>)
      reads this
    {
      var p := StoreRun(supportedMetrics, agent, s, all);
      p.failure == thrown && p.state == state && p.calls == calls
    }

    /** The values done so far have been stored without failure. */
    ghost predicate Reached(s: S, done: seq<Attempt>, calls: seq<(MetricId, Value)>, anyStored: bool)
      reads this
    {
      var p := StoreRun(supportedMetrics, agent, s, done);
      p.failure.None? && p.state == state && p.calls == calls && (anyStored <==> p.stored > 0)
    }
  }

  lemma StoreRunStep<S>(cat: Catalog, agent: Agent<S>, s: S, done: seq<Attempt>, a: Attempt)
    ensures StoreRun(cat, agent, s, done + [a]) == StoreStep(cat, agent, StoreRun(cat, agent, s, done), a)
  {
    assert (done + [a])[..|done|] == done;
  }

  lemma {:induction false} FailureEndsRun<S>(cat: Catalog, agent: Agent<S>, s: S, done: seq<Attempt>, all: seq<Attempt>)
    requires done <= all && StoreRun(cat, agent, s, done).failure.Some?
    ensures StoreRun(cat, agent, s, all) == StoreRun(cat, agent, s, done)
  {
    if |all| > |done| {
      FailureEndsRun(cat, agent, s, done, all[..|all| - 1]);
    } else {
      assert all == done;
    }
  }
}

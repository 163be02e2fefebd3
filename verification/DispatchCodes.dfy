/** The return codes of the dispatcher, case by case, and what a request's values are. */
module DispatchCodes {
  import opened Pcp
  import opened Flattening
  import opened Catalog
  import opened Registration
  import opened Dispatch
  import opened DispatchLaws

  /** The code for an exception that the agent throws. */
  function ThrownCode(t: Thrown): (code: Code)
    ensures t.PcpException? ==> code == t.code
    ensures t == OutOfRange ==> code == PmErrPmid
    ensures t == StdException || t == Unknown ==> code == PmErrGeneric
  {
    match t
    case PcpException(code) => code
    case OutOfRange => PmErrPmid
    case StdException => PmErrGeneric
    case Unknown => PmErrGeneric
  }

  predicate Known(cat: Catalog, cluster: nat, item: nat) { cluster in cat && item in cat[cluster].metrics }

  // ----- Storing -----

  /** The value is offered to the agent in this state: the metric is known and storable, and accepts the instance. */
  ghost predicate IsOffered<S>(cat: Catalog, agent: Agent<S>, s: S, a: Attempt) {
    && Known(cat, a.cluster, a.item)
    && var d := cat[a.cluster].metrics[a.item]; d.storable && Accepts(d, a.instance, Live(agent, s))
  }

  /** The id under which a value is offered. */
  function OfferedId(cat: Catalog, a: Attempt): MetricId
    requires Known(cat, a.cluster, a.item)
  {
    MetricId(a.cluster, a.item, a.instance, cat[a.cluster].metrics[a.item].typ, 0)
  }

  /** The code that one value makes a store request return in this state of the agent, or `None` when it is stored. */
  ghost function StoreVerdict<S>(cat: Catalog, agent: Agent<S>, s: S, a: Attempt): Option<Code> {
    if !Known(cat, a.cluster, a.item) then Some(PmErrPmid)
    else
      var d := cat[a.cluster].metrics[a.item];
      if d.domain != null && a.instance != PM_INDOM_NULL && a.instance !in agent.instances(s, d.domain) then
        Some(PmErrInst)
      else if !Accepts(d, a.instance, Live(agent, s)) then Some(PmErrIndom)
      else if !d.storable then Some(PmErrPermission)
      else
        var thrown := agent.storeValue(s, OfferedId(cat, a), a.value).1;
        if thrown.Some? then Some(ThrownCode(thrown.value)) else None
  }

  lemma StepVerdict<S>(cat: Catalog, agent: Agent<S>, p: Progress<S>, a: Attempt, fallback: Code)
    requires p.failure.None?
    ensures var q, verdict := StoreStep(cat, agent, p, a), StoreVerdict(cat, agent, p.state, a);
            && (q.failure.None? <==> verdict.None?)
            && (verdict.Some? ==> StoreCode(q, fallback) == verdict.value)
            && (verdict.None? ==> q.stored == p.stored + 1)
  {
  }

  lemma StepOffers<S>(cat: Catalog, agent: Agent<S>, p: Progress<S>, a: Attempt)
    requires p.failure.None?
    ensures var q := StoreStep(cat, agent, p, a);
            if IsOffered(cat, agent, p.state, a) then
              && q.calls == p.calls + [(OfferedId(cat, a), a.value)]
              && q.state == agent.storeValue(p.state, OfferedId(cat, a), a.value).0
            else q.calls == p.calls && q.state == p.state
  {
  }

  /** The state that the agent is in when the k-th value's turn comes, if everything before it was stored. */
  function StateBefore<S>(cat: Catalog, agent: Agent<S>, s: S, attempts: seq<Attempt>, k: nat): S
    requires k <= |attempts|
  {
    StoreRun(cat, agent, s, attempts[..k]).state
  }

  /** A store request returns the code of the first value that is not stored, and every value before it was stored. */
  lemma StoreReturnsFirstVerdict<S>(cat: Catalog, agent: Agent<S>, s: S, attempts: seq<Attempt>, fallback: Code)
    ensures var p := StoreRun(cat, agent, s, attempts);
            && p.stored <= |attempts|
            && (forall k :: 0 <= k < p.stored ==>
                  StoreVerdict(cat, agent, StateBefore(cat, agent, s, attempts, k), attempts[k]).None?)
            && (p.stored < |attempts| ==>
                  StoreVerdict(cat, agent, StateBefore(cat, agent, s, attempts, p.stored), attempts[p.stored])
                  == Some(StoreCode(p, fallback)))
            && (p.stored == |attempts| ==> StoreCode(p, fallback) == if attempts == [] then fallback else Number(0))
  {
    var p := StoreRun(cat, agent, s, attempts);
    StoreIsPrefix(cat, agent, s, attempts);
    forall k | 0 <= k < p.stored
      ensures StoreVerdict(cat, agent, StateBefore(cat, agent, s, attempts, k), attempts[k]).None?
    {
      StoredBefore(cat, agent, s, attempts, p.stored, k, fallback);
    }
    if p.stored < |attempts| {
      FirstFailure(cat, agent, s, attempts, fallback);
    }
  }

  lemma PrefixStep<S>(cat: Catalog, agent: Agent<S>, s: S, attempts: seq<Attempt>, k: nat)
    requires k < |attempts|
    ensures StoreRun(cat, agent, s, attempts[..k + 1])
            == StoreStep(cat, agent, StoreRun(cat, agent, s, attempts[..k]), attempts[k])
  {
    assert attempts[..k] + [attempts[k]] == attempts[..k + 1];
    StoreRunStep(cat, agent, s, attempts[..k], attempts[k]);
  }

  lemma PrefixSucceeds<S>(cat: Catalog, agent: Agent<S>, s: S, attempts: seq<Attempt>, n: nat, k: nat)
    requires k <= n <= |attempts| && StoreRun(cat, agent, s, attempts[..n]).failure.None?
    ensures StoreRun(cat, agent, s, attempts[..k]).failure.None?
  {
    if StoreRun(cat, agent, s, attempts[..k]).failure.Some? {
      FailureEndsRun(cat, agent, s, attempts[..k], attempts[..n]);
    }
  }

  lemma StoredBefore<S>(cat: Catalog, agent: Agent<S>, s: S, attempts: seq<Attempt>, n: nat, k: nat, fallback: Code)
    requires k < n <= |attempts| && AllStored(cat, agent, s, attempts, n)
    ensures StoreVerdict(cat, agent, StateBefore(cat, agent, s, attempts, k), attempts[k]).None?
  {
    PrefixSucceeds(cat, agent, s, attempts, n, k);
    PrefixSucceeds(cat, agent, s, attempts, n, k + 1);
    PrefixStep(cat, agent, s, attempts, k);
    StepVerdict(cat, agent, StoreRun(cat, agent, s, attempts[..k]), attempts[k], fallback);
  }

  lemma FirstFailure<S>(cat: Catalog, agent: Agent<S>, s: S, attempts: seq<Attempt>, fallback: Code)
    requires StoreRun(cat, agent, s, attempts).stored < |attempts|
    ensures var p := StoreRun(cat, agent, s, attempts);
            StoreVerdict(cat, agent, StateBefore(cat, agent, s, attempts, p.stored), attempts[p.stored])
            == Some(StoreCode(p, fallback))
  {
    StoreIsPrefix(cat, agent, s, attempts);
    var k := StoreRun(cat, agent, s, attempts).stored;
    StepVerdict(cat, agent, StoreRun(cat, agent, s, attempts[..k]), attempts[k], fallback);
  }

  ghost predicate OffersExactly(cat: Catalog, call: (MetricId, Value), a: Attempt) {
    Known(cat, a.cluster, a.item) && call == (OfferedId(cat, a), a.value)
  }

  lemma {:induction false} CallsOffer<S>(cat: Catalog, agent: Agent<S>, s: S, attempts: seq<Attempt>)
    ensures var p := StoreRun(cat, agent, s, attempts);
            && |p.calls| <= |attempts| && (p.failure.None? ==> |p.calls| == |attempts|)
            && forall j :: 0 <= j < |p.calls| ==> OffersExactly(cat, p.calls[j], attempts[j])
  {
    if attempts == [] {
    } else {
      var n := |attempts| - 1;
      var p := StoreRun(cat, agent, s, attempts[..n]);
      CallsOffer(cat, agent, s, attempts[..n]);
      if p.failure.None? {
        StepOffers(cat, agent, p, attempts[n]);
      }
    }
  }

  lemma CallCount<S>(cat: Catalog, agent: Agent<S>, s: S, attempts: seq<Attempt>)
    ensures var p := StoreRun(cat, agent, s, attempts);
            && p.stored <= |attempts|
            && (p.stored == |attempts| ==> |p.calls| == p.stored)
            && (p.stored < |attempts| ==>
                  var before := StateBefore(cat, agent, s, attempts, p.stored);
                  |p.calls| == p.stored + if IsOffered(cat, agent, before, attempts[p.stored]) then 1 else 0)
  {
    StoreIsPrefix(cat, agent, s, attempts);
    var k := StoreRun(cat, agent, s, attempts).stored;
    if k < |attempts| {
      StepOffers(cat, agent, StoreRun(cat, agent, s, attempts[..k]), attempts[k]);
    } else {
      assert attempts[..k] == attempts;
    }
  }

  /** The calls on the agent: exactly the stored values and, if it was offered, the first one that was not stored, in
      order, each under the ids it came with, the metric's type and no opaque pointer. */
  lemma CallsAreTheOffers<S>(cat: Catalog, agent: Agent<S>, s: S, attempts: seq<Attempt>)
    ensures var p := StoreRun(cat, agent, s, attempts);
            && p.stored <= |p.calls| <= |attempts|
            && (forall j :: 0 <= j < |p.calls| ==> OffersExactly(cat, p.calls[j], attempts[j]))
            && (|p.calls| > p.stored <==>
                && p.stored < |attempts|
                && IsOffered(cat, agent, StateBefore(cat, agent, s, attempts, p.stored), attempts[p.stored]))
  {
    CallsOffer(cat, agent, s, attempts);
    CallCount(cat, agent, s, attempts);
  }

  // ----- Fetching -----

  /** The code that a fetch returns without asking the agent, or `None` when the agent is asked. */
  ghost function FetchRefusal(cat: Catalog, cluster: nat, item: nat, inst: nat, live: InstanceDomain -> set<nat>)
    : Option<Code>
  {
    if !Known(cat, cluster, item) then Some(PmErrPmid)
    else
      var d := cat[cluster].metrics[item];
      if Accepts(d, inst, live) then None
      else if d.domain != null && inst != PM_INDOM_NULL then Some(PmErrInst)
      else Some(PmErrIndom)
  }

  /** What a fetch returns for every PMID and instance. */
  lemma FetchCodes<S>(cat: Catalog, agent: Agent<S>, s: S, metric: PmdaMetric, inst: nat)
    ensures var cluster, item := PmIdCluster(metric.desc.pmid), PmIdItem(metric.desc.pmid);
            var (s', r) := FetchOutcome(cat, agent, s, metric, inst);
            var refusal := FetchRefusal(cat, cluster, item, inst, Live(agent, s));
            if refusal.Some? then s' == s && r.Threw? && FetchCode(r) == refusal.value
            else
              var id := MetricId(cluster, item, inst, cat[cluster].metrics[item].typ, metric.user);
              && (s', r) == agent.fetchValue(s, id)
              && FetchCode(r) == if r.Threw? then ThrownCode(r.thrown) else r.value.code
  {
    if Known(cat, PmIdCluster(metric.desc.pmid), PmIdItem(metric.desc.pmid)) {
      ValidateIffAccepts(cat[PmIdCluster(metric.desc.pmid)].metrics[PmIdItem(metric.desc.pmid)], inst, Live(agent, s));
    }
  }

  // ----- The values of a request -----

  lemma RequestPosition(numpmid: int, vset: seq<ValueSet>, g: nat, i: nat)
    requires WellFormed(numpmid, vset) && g < numpmid && i < vset[g].numval
    ensures var k := |Flatten(RequestGroups(numpmid, vset)[..g])| + i;
            k < |Request(numpmid, vset)| && Request(numpmid, vset)[k] == AttemptOf(vset[g], vset[g].vlist[i])
  {
    var groups := RequestGroups(numpmid, vset);
    assert groups[g] == SetAttempts(vset[g]);
    VisitedIsPrefix(groups, g, i + 1);
    VisitedStep(groups, g, i);
  }

  /** The i-th value of the g-th set comes after all values of the sets before and the values before it in its own set.
      It carries the ids in its set's PMID, its instance as an unsigned number, and the value itself if the set says so
      or else the block that it points to. */
  lemma RequestValue(numpmid: int, vset: seq<ValueSet>, g: nat, i: nat)
    requires WellFormed(numpmid, vset) && g < numpmid && i < vset[g].numval
    ensures var k := |Flatten(RequestGroups(numpmid, vset)[..g])| + i;
            && k < |Request(numpmid, vset)|
            && var a, v := Request(numpmid, vset)[k], vset[g].vlist[i];
               && a.cluster == PmIdCluster(vset[g].pmid) && a.item == PmIdItem(vset[g].pmid)
               && (0 <= v.inst < UINT_MODULUS ==> a.instance == v.inst)
               && (v.inst < 0 <= v.inst + UINT_MODULUS ==> a.instance == v.inst + UINT_MODULUS)
               && (vset[g].inSitu ==> a.value == InSitu(v.lval))
               && (!vset[g].inSitu ==> a.value == ExSitu(v.block))
  {
    RequestPosition(numpmid, vset, g, i);
  }

  /** No value stands between the last of one set and the first of the next. */
  lemma RequestSets(numpmid: int, vset: seq<ValueSet>, g: nat)
    requires WellFormed(numpmid, vset) && g < numpmid
    ensures var groups := RequestGroups(numpmid, vset);
            |Flatten(groups[..g + 1])| == |Flatten(groups[..g])| + (if vset[g].numval < 0 then 0 else vset[g].numval)
  {
    FlattenStep(RequestGroups(numpmid, vset), g);
  }
}

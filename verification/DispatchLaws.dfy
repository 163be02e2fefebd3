/** What the dispatcher guarantees for every agent, every description and every request. */
module DispatchLaws {
  import opened Pcp
  import opened Flattening
  import opened Catalog
  import opened Registration
  import opened Initialization
  import opened Dispatch

  // ----- Fetching: from a table row back to the description it came from -----

  /** With ids in range, a fetch through a table row is a fetch of the metric that produced the row:
      the agent is called with that description's type and opaque pointer, for exactly the accepted instances. */
  lemma FetchReachesItsRow<S>(cat: Catalog, agent: Agent<S>, s: S, domainNumber: nat, k: nat, inst: nat)
    requires KeyedById(cat) && k < |Rows(cat)| && InRange(Rows(cat)[k].cluster, Rows(cat)[k].item)
    ensures var row := Rows(cat)[k];
            var metric := TableRow(row, FirstUse(Rows(cat)));
            FetchOutcome(cat, agent, s, Completed(metric, domainNumber), inst) ==
            if Accepts(row.desc, inst, Live(agent, s))
            then agent.fetchValue(s, MetricId(row.cluster, row.item, inst, row.desc.typ, row.desc.opaquePointer))
            else if row.desc.domain != null && inst != PM_INDOM_NULL then (s, Threw(PcpException(PmErrInst)))
            else (s, Threw(PcpException(PmErrIndom)))
  {
    RowsAreTheCatalog(cat);
    var row := Rows(cat)[k];
    PmIdDecodes(domainNumber, row.cluster, row.item);
    ValidateIffAccepts(row.desc, inst, Live(agent, s));
  }

  /** A row whose ids do not fit their fields is decoded to some other key, never to its own. */
  lemma RowDecodesIffInRange(cat: Catalog, domainNumber: nat, k: nat)
    requires k < |Rows(cat)|
    ensures var row := Rows(cat)[k];
            var pmid := Completed(TableRow(row, FirstUse(Rows(cat))), domainNumber).desc.pmid;
            PmIdCluster(pmid) == row.cluster && PmIdItem(pmid) == row.item <==> InRange(row.cluster, row.item)
  {
    PmIdDecodes(domainNumber, Rows(cat)[k].cluster, Rows(cat)[k].item);
  }

  // ----- Storing: exact prefix semantics -----

  /** The call on the agent that offers a value. */
  ghost predicate OffersValue(cat: Catalog, call: (MetricId, Value), a: Attempt) {
    Lookup(cat, a.cluster, a.item).Returned? && call == (StoreId(cat, a), a.value)
  }

  /** Every one of the first `k` values was stored. */
  ghost predicate AllStored<S>(cat: Catalog, agent: Agent<S>, s: S, attempts: seq<Attempt>, k: nat)
    requires k <= |attempts|
  {
    var q := StoreRun(cat, agent, s, attempts[..k]);
    q.failure.None? && q.stored == k == |q.calls|
  }

  /** How a run that has stored its first `k` values ends. */
  ghost predicate EndsAfter<S>(cat: Catalog, agent: Agent<S>, s: S, attempts: seq<Attempt>, p: Progress<S>, k: nat)
    requires k <= |attempts|
  {
    var q := StoreRun(cat, agent, s, attempts[..k]);
    if k == |attempts| then p == q
    else
      var obstacle := StoreObstacle(cat, attempts[k], Live(agent, q.state));
      if obstacle.Some? then p == q.(failure := obstacle)
      else
        var id := StoreId(cat, attempts[k]);
        var (state, thrown) := agent.storeValue(q.state, id, attempts[k].value);
        thrown.Some? && p == Progress(k, state, q.calls + [(id, attempts[k].value)], thrown)
  }

  /** The values of a request are offered to the agent in order, up to and including the first that it rejects or
      up to but excluding the first that fails validation; everything before that value has been stored,
      and stays stored. */
  lemma {:induction false} StoreIsPrefix<S>(cat: Catalog, agent: Agent<S>, s: S, attempts: seq<Attempt>)
    ensures var p := StoreRun(cat, agent, s, attempts);
            && p.stored <= |attempts|
            && AllStored(cat, agent, s, attempts, p.stored)
            && EndsAfter(cat, agent, s, attempts, p, p.stored)
            && (p.failure.None? <==> p.stored == |attempts|)
  {
    if attempts == [] {
      assert attempts[..0] == attempts;
    } else {
      var n := |attempts| - 1;
      var front := attempts[..n];
      StoreIsPrefix(cat, agent, s, front);
      var k := StoreRun(cat, agent, s, front).stored;
      assert front[..k] == attempts[..k];
      if StoreRun(cat, agent, s, attempts).stored == |attempts| {
        assert attempts[..|attempts|] == attempts;
      }
    }
  }

  lemma {:induction false} CallsAreTheFirstValues<S>(cat: Catalog, agent: Agent<S>, s: S, attempts: seq<Attempt>)
    ensures var p := StoreRun(cat, agent, s, attempts);
            && |p.calls| <= |attempts|
            && (forall j :: 0 <= j < |p.calls| ==> OffersValue(cat, p.calls[j], attempts[j]))
            && (p.failure.None? ==> |p.calls| == |attempts|)
  {
    if attempts == [] {
    } else {
      CallsAreTheFirstValues(cat, agent, s, attempts[..|attempts| - 1]);
    }
  }

  /** Only a known, storable metric with an instance its domain holds at that moment is ever offered to the agent. */
  lemma {:induction false} OffersAreGuarded<S>(cat: Catalog, agent: Agent<S>, s: S, attempts: seq<Attempt>, j: nat)
    requires j < |StoreRun(cat, agent, s, attempts).calls|
    ensures j < |attempts|
    ensures var id := StoreRun(cat, agent, s, attempts).calls[j].0;
            && id.cluster in cat && id.item in cat[id.cluster].metrics
            && var d := cat[id.cluster].metrics[id.item];
            d.storable && id.typ == d.typ
              && Accepts(d, id.instance, Live(agent, StoreRun(cat, agent, s, attempts[..j]).state))
  {
    var n := |attempts| - 1;
    var front := attempts[..n];
    CallsAreTheFirstValues(cat, agent, s, front);
    var q := StoreRun(cat, agent, s, front);
    if j < |q.calls| {
      OffersAreGuarded(cat, agent, s, front, j);
      assert front[..j] == attempts[..j];
    } else {
      assert j == n && attempts[..j] == front;
      var id := StoreId(cat, attempts[n]);
      ValidateIffAccepts(cat[id.cluster].metrics[id.item], id.instance, Live(agent, q.state));
    }
  }

  /** When a store request returns 0. The first case is the documented one; an agent that throws the number 0 also
      makes a failed request look successful. */
  lemma StoreReturnsZero<S>(cat: Catalog, agent: Agent<S>, s: S, attempts: seq<Attempt>, fallback: Code)
    ensures var p := StoreRun(cat, agent, s, attempts);
            StoreCode(p, fallback) == Number(0) <==>
            || (p.failure.None? && attempts != [])
            || p.failure == Some(PcpException(Number(0)))
            || (attempts == [] && fallback == Number(0))
  {
    StoreIsPrefix(cat, agent, s, attempts);
  }

  /** A return code of 0 says that every value was stored and that there was one. */
  ghost predicate ZeroTells<S>(cat: Catalog, agent: Agent<S>, s: S, attempts: seq<Attempt>, fallback: Code) {
    var p := StoreRun(cat, agent, s, attempts);
    StoreCode(p, fallback) == Number(0) <==> p.failure.None? && attempts != []
  }

  /** The dispatcher can offer a value under this id in this state, for a metric whose domain is `d`: the ids fit the
      fields of a PMID, no opaque pointer is passed, and there is no instance or one that the domain holds. */
  predicate CanOffer<S>(agent: Agent<S>, s: S, id: MetricId, d: InstanceDomain?) {
    && InRange(id.cluster, id.item) && id.opaquePointer == 0
    && if d == null then id.instance == PM_INDOM_NULL
       else id.instance != PM_INDOM_NULL && id.instance < UINT_MODULUS && id.instance in agent.instances(s, d)
  }

  predicate ThrowsZero<S>(agent: Agent<S>, s: S, id: MetricId, v: Value) {
    agent.storeValue(s, id, v).1 == Some(PcpException(Number(0)))
  }

  predicate FitsFields(a: Attempt) { InRange(a.cluster, a.item) && a.instance < UINT_MODULUS }

  lemma RequestFitsFields(numpmid: int, vset: seq<ValueSet>)
    requires WellFormed(numpmid, vset)
    ensures forall k :: 0 <= k < |Request(numpmid, vset)| ==> FitsFields(Request(numpmid, vset)[k])
  {
    var groups := RequestGroups(numpmid, vset);
    forall k | 0 <= k < |Request(numpmid, vset)| ensures FitsFields(Request(numpmid, vset)[k]) {
      var p := PlaceOf(groups, k);
      assert groups[p.group][p.index] == AttemptOf(vset[p.group], vset[p.group].vlist[p.index]);
    }
  }

  lemma {:induction false} NoZeroFailure<S(!new)>(cat: Catalog, agent: Agent<S>, s: S, attempts: seq<Attempt>)
    requires forall k :: 0 <= k < |attempts| ==> FitsFields(attempts[k])
    requires forall s, id, v, d: InstanceDomain? :: CanOffer(agent, s, id, d) ==> !ThrowsZero(agent, s, id, v)
    ensures StoreRun(cat, agent, s, attempts).failure != Some(PcpException(Number(0)))
  {
    if attempts == [] {
    } else {
      var n := |attempts| - 1;
      NoZeroFailure(cat, agent, s, attempts[..n]);
      var p, a := StoreRun(cat, agent, s, attempts[..n]), attempts[n];
      if p.failure.None? && StoreObstacle(cat, a, Live(agent, p.state)).None? {
        assert CanOffer(agent, p.state, StoreId(cat, a), Lookup(cat, a.cluster, a.item).value.domain);
        assert !ThrowsZero(agent, p.state, StoreId(cat, a), a.value);
      }
    }
  }

  /** For an agent that never throws the number 0 under an id that it can be offered, 0 means what it should. */
  lemma ZeroMeansStored<S(!new)>(cat: Catalog, agent: Agent<S>, s: S, numpmid: int, vset: seq<ValueSet>, fallback: Code)
    requires WellFormed(numpmid, vset) && fallback != Number(0)
    requires forall s, id, v, d: InstanceDomain? :: CanOffer(agent, s, id, d) ==> !ThrowsZero(agent, s, id, v)
    ensures ZeroTells(cat, agent, s, Request(numpmid, vset), fallback)
  {
    var attempts := Request(numpmid, vset);
    RequestFitsFields(numpmid, vset);
    NoZeroFailure(cat, agent, s, attempts);
    StoreReturnsZero(cat, agent, s, attempts, fallback);
  }

  /** A description with one metric, and a request that stores one value of it. */
  function OneMetric(id: MetricId, d: InstanceDomain?): Catalog {
    var metric := MetricDescription("", id.typ, 0, Units(0, 0, 0, 0, 0, 0), d, "", "", 0, true);
    map[id.cluster := Cluster(id.cluster, "", map[id.item := metric])]
  }

  function OneValue(id: MetricId, v: Value): seq<ValueSet> {
    var stored := if v.InSitu? then StoredValue(id.instance, v.lval, []) else StoredValue(id.instance, 0, v.block);
    [ValueSet(PmId(id.cluster, id.item), 1, v.InSitu?, [stored])]
  }

  lemma OneValueRequest(id: MetricId, v: Value)
    requires InRange(id.cluster, id.item) && id.instance < UINT_MODULUS
    ensures WellFormed(1, OneValue(id, v))
    ensures Request(1, OneValue(id, v)) == [Attempt(id.cluster, id.item, id.instance, v)]
  {
    var vset := OneValue(id, v);
    PmIdDecodes(0, id.cluster, id.item);
    assert WellFormedSet(vset[0]);
    var groups := RequestGroups(1, vset);
    assert groups[0] == [Attempt(id.cluster, id.item, id.instance, v)];
    assert groups[..0] == [] && Flatten(groups) == Flatten(groups[..0]) + groups[0];
  }

  /** An agent that can be offered a value for which it throws the number 0 makes some failed request look
      successful. */
  lemma ZeroMisleads<S>(agent: Agent<S>, s: S, id: MetricId, v: Value, d: InstanceDomain?, fallback: Code)
    requires CanOffer(agent, s, id, d) && ThrowsZero(agent, s, id, v)
    ensures KeyedById(OneMetric(id, d)) && WellFormed(1, OneValue(id, v))
    ensures !ZeroTells(OneMetric(id, d), agent, s, Request(1, OneValue(id, v)), fallback)
  {
    OneValueRequest(id, v);
    var cat, attempts := OneMetric(id, d), Request(1, OneValue(id, v));
    assert [] + [attempts[0]] == attempts;
    StoreRunStep(cat, agent, s, [], attempts[0]);
    assert StoreObstacle(cat, attempts[0], Live(agent, s)).None?;
    assert StoreId(cat, attempts[0]) == id;
    assert StoreRun(cat, agent, s, []) == Progress(0, s, [], None);
  }

  lemma EmptyRequest<S>(agent: Agent<S>, s: S, fallback: Code)
    ensures WellFormed(0, []) && KeyedById(map[])
    ensures ZeroTells(map[], agent, s, Request(0, []), fallback) <==> fallback != Number(0)
  {
    var cat: Catalog := map[];
    assert Request(0, []) == [];
    assert StoreRun(cat, agent, s, []) == Progress(0, s, [], None);
  }

  /** Exactly when a caller can rely on the code 0: `pmdaStore` must not return it, and the agent must not throw it
      under any id that it can be offered. `start` is any state, such as the agent's first one. */
  lemma ZeroIsReliableIff<S(!new)>(agent: Agent<S>, start: S, fallback: Code)
    ensures (forall cat: Catalog, s, numpmid, vset :: KeyedById(cat) && WellFormed(numpmid, vset) ==>
               ZeroTells(cat, agent, s, Request(numpmid, vset), fallback))
            <==>
            fallback != Number(0)
            && forall s, id, v, d: InstanceDomain? :: CanOffer(agent, s, id, d) ==> !ThrowsZero(agent, s, id, v)
  {
    EmptyRequest(agent, start, fallback);
    if s, id, v, d: InstanceDomain? :| CanOffer(agent, s, id, d) && ThrowsZero(agent, s, id, v) {
      ZeroMisleads(agent, s, id, v, d, fallback);
    } else if fallback != Number(0) {
      forall cat: Catalog, s, numpmid, vset | KeyedById(cat) && WellFormed(numpmid, vset)
        ensures ZeroTells(cat, agent, s, Request(numpmid, vset), fallback)
      {
        ZeroMeansStored(cat, agent, s, numpmid, vset, fallback);
      }
    }
  }

  /** An agent whose `store_value` throws the number 0 has a rejected request reported as success. */
  lemma ZeroCanMeanFailure(s: int, fallback: Code)
    ensures var agent: Agent<int> := Agent((s: int, id: MetricId) => (s, Threw(Unknown)),
                                         (s: int, id: MetricId, v: Value) => (s, Some(PcpException(Number(0)))),
                                         (s: int, d: InstanceDomain) => {});
            var metric := MetricDescription("m", 0, 0, Units(0, 0, 0, 0, 0, 0), null, "", "", 0, true);
            var p := StoreRun(map[0 := Cluster(0, "", map[0 := metric])], agent, s,
                              [Attempt(0, 0, PM_INDOM_NULL, InSitu(1))]);
            StoreCode(p, fallback) == Number(0) && p.stored == 0 && p.failure.Some?
  {
    assert [Attempt(0, 0, PM_INDOM_NULL, InSitu(1))][..0] == [];
  }
}

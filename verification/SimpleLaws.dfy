/** Laws of the `simple` agent over every run. */
module SimpleLaws {
  import opened Pcp
  import opened Text
  import opened Sequences
  import opened Dispatch
  import opened SimpleAgent

  // ----- What reloading leaves alone -----

  lemma {:induction false} LoadKeeps(idOf: string -> nat, errors: map<string, int>, s: State, fields: seq<string>)
    ensures var s' := LoadFields(idOf, errors, s, fields).0;
            s' == s.(cache := s'.cache, now := s'.now)
  {
    if fields == [] {
    } else {
      LoadKeeps(idOf, errors, s, fields[..|fields| - 1]);
    }
  }

  lemma CheckKeeps(idOf: string -> nat, s: State, conf: Conf)
    ensures var s' := Check(idOf, s, conf).0;
            s' == s.(cache := s'.cache, now := s'.now, fileTime := s'.fileTime)
  {
    if conf.line.Some? {
      LoadKeeps(idOf, conf.storeErrors, s.(cache := Deactivate(s.cache)), Split(conf.line.value, ','));
    }
  }

  lemma BeginKeeps(idOf: string -> nat, s: State, conf: Conf, clock: Clock)
    ensures var s' := Begin(idOf, s, conf, clock).0;
            s' == s.(numfetch := (s.numfetch + 1) % UINT_MODULUS,
                     cache := s'.cache, now := s'.now, fileTime := s'.fileTime, fields := s'.fields)
  {
    CheckKeeps(idOf, s.(numfetch := (s.numfetch + 1) % UINT_MODULUS), conf);
  }

  // ----- The colour law -----

  /** A fetch that reaches the colour array. */
  predicate FetchesColour(e: Event, i: nat) {
    e.FetchValue? && e.id.cluster != 1 && e.id.cluster != 2 && e.id.item != 0 && e.id.instance == i
  }

  /** A store that the agent accepts for a colour. */
  predicate StoresColour(e: Event, i: nat) {
    e.StoreValue? && e.value.InSitu? && e.id.item != 0 && 0 <= e.value.lval <= 255 && e.id.instance == i
  }

  /** How many events there are up to and including the last accepted store of colour `i`. */
  function LastColourStore(events: seq<Event>, i: nat): (n: nat)
    ensures n <= |events|
    ensures n > 0 ==> StoresColour(events[n - 1], i)
    ensures forall k :: n <= k < |events| ==> !StoresColour(events[k], i)
  {
    if events == [] then 0
    else if StoresColour(events[|events| - 1], i) then |events|
    else LastColourStore(events[..|events| - 1], i)
  }

  function ColourFetches(events: seq<Event>, i: nat): nat {
    if events == [] then 0
    else ColourFetches(events[..|events| - 1], i) + (if FetchesColour(events[|events| - 1], i) then 1 else 0)
  }

  lemma ColourFetchesSince(events: seq<Event>, i: nat, from: nat)
    requires from < |events|
    ensures ColourFetches(events[from..], i) ==
            ColourFetches(events[..|events| - 1][from..], i) + (if FetchesColour(events[|events| - 1], i) then 1 else 0)
  {
    var since := events[from..];
    assert since[..|since| - 1] == events[..|events| - 1][from..];
  }

  lemma ColourStep(idOf: string -> nat, s: State, e: Event, i: nat)
    requires |s.rgb| == 3 && i < 3 && s.rgb[i] < 256
    ensures var rgb := Step(idOf, s, e).rgb;
            |rgb| == 3 &&
            rgb[i] == NextColour(s.rgb[i], e, i)
  {
    if e.BeginBatch? {
      BeginKeeps(idOf, s, e.conf, e.clock);
    }
  }

  /** What one event makes of a colour. */
  function NextColour(c: nat, e: Event, i: nat): nat {
    if StoresColour(e, i) then e.value.lval else (c + (if FetchesColour(e, i) then 1 else 0)) % 256
  }

  function ColourAfter(c: nat, events: seq<Event>, i: nat): nat {
    if events == [] then c else NextColour(ColourAfter(c, events[..|events| - 1], i), events[|events| - 1], i)
  }

  lemma {:induction false} RunColours(idOf: string -> nat, s: State, events: seq<Event>, i: nat)
    requires |s.rgb| == 3 && i < 3 && s.rgb[i] < 256
    ensures var rgb := Run(idOf, s, events).rgb; |rgb| == 3 && rgb[i] == ColourAfter(s.rgb[i], events, i) < 256
  {
    if events == [] {
    } else {
      RunColours(idOf, s, events[..|events| - 1], i);
      ColourStep(idOf, Run(idOf, s, events[..|events| - 1]), events[|events| - 1], i);
    }
  }

  lemma Add256(a: nat, b: nat)
    ensures (a % 256 + b) % 256 == (a + b) % 256
  {
  }

  /** The last accepted store, or else the initial value, plus the fetches since, modulo 256. */
  function ExpectedColour(initial: nat, events: seq<Event>, i: nat): nat {
    var n := LastColourStore(events, i);
    ((if n == 0 then initial else events[n - 1].value.lval) + ColourFetches(events[n..], i)) % 256
  }

  lemma {:induction false} ColourAfterLaw(c: nat, events: seq<Event>, i: nat)
    requires c < 256
    ensures ColourAfter(c, events, i) == ExpectedColour(c, events, i)
  {
    if events == [] {
      assert ColourFetches(events[0..], i) == 0;
    } else {
      var front, n := events[..|events| - 1], LastColourStore(events, i);
      ColourAfterLaw(c, front, i);
      if n == |events| {
        assert ColourFetches(events[n..], i) == 0;
      } else {
        ColourFetchesSince(events, i, n);
        Add256((if n == 0 then c else events[n - 1].value.lval) + ColourFetches(front[n..], i),
               if FetchesColour(events[|events| - 1], i) then 1 else 0);
      }
    }
  }

  /** A colour is its last accepted store, or its initial value, plus the fetches of it since, modulo 256. */
  lemma ColourLaw(idOf: string -> nat, s: State, events: seq<Event>, i: nat)
    requires |s.rgb| == 3 && i < 3 && s.rgb[i] < 256
    ensures var rgb := Run(idOf, s, events).rgb; |rgb| == 3 && rgb[i] == ExpectedColour(s.rgb[i], events, i)
  {
    RunColours(idOf, s, events, i);
    ColourAfterLaw(s.rgb[i], events, i);
  }

  // ----- The counter law -----

  predicate StoresCounter(e: Event) { e.StoreValue? && e.value.InSitu? && e.id.item == 0 }

  function LastCounterStore(events: seq<Event>): (n: nat)
    ensures n <= |events|
    ensures n > 0 ==> StoresCounter(events[n - 1])
    ensures forall k :: n <= k < |events| ==> !StoresCounter(events[k])
  {
    if events == [] then 0
    else if StoresCounter(events[|events| - 1]) then |events|
    else LastCounterStore(events[..|events| - 1])
  }

  function Batches(events: seq<Event>): nat {
    if events == [] then 0
    else Batches(events[..|events| - 1]) + (if events[|events| - 1].BeginBatch? then 1 else 0)
  }

  lemma BatchesSince(events: seq<Event>, from: nat)
    requires from < |events|
    ensures Batches(events[from..]) ==
            Batches(events[..|events| - 1][from..]) + (if events[|events| - 1].BeginBatch? then 1 else 0)
  {
    var since := events[from..];
    assert since[..|since| - 1] == events[..|events| - 1][from..];
  }

  /** What one event makes of the counter. */
  function NextCounter(c: nat, e: Event): nat {
    if StoresCounter(e) then ToUint(e.value.lval) else (c + (if e.BeginBatch? then 1 else 0)) % UINT_MODULUS
  }

  function CounterAfter(c: nat, events: seq<Event>): nat {
    if events == [] then c else NextCounter(CounterAfter(c, events[..|events| - 1]), events[|events| - 1])
  }

  lemma CounterStep(idOf: string -> nat, s: State, e: Event)
    requires s.numfetch < UINT_MODULUS
    ensures Step(idOf, s, e).numfetch == NextCounter(s.numfetch, e) < UINT_MODULUS
  {
    if e.BeginBatch? {
      BeginKeeps(idOf, s, e.conf, e.clock);
    }
  }

  lemma {:induction false} RunCounter(idOf: string -> nat, s: State, events: seq<Event>)
    requires s.numfetch < UINT_MODULUS
    ensures Run(idOf, s, events).numfetch == CounterAfter(s.numfetch, events) < UINT_MODULUS
  {
    if events == [] {
    } else {
      RunCounter(idOf, s, events[..|events| - 1]);
      CounterStep(idOf, Run(idOf, s, events[..|events| - 1]), events[|events| - 1]);
    }
  }

  lemma AddWord(a: int, b: nat)
    ensures (a % 0x1_0000_0000 + b) % 0x1_0000_0000 == (a + b) % 0x1_0000_0000
  {
  }

  /** The last stored value, or else the initial one, plus the batches begun since, modulo 2^32. */
  function ExpectedCounter(initial: nat, events: seq<Event>): nat {
    var n := LastCounterStore(events);
    ((if n == 0 then initial else events[n - 1].value.lval) + Batches(events[n..])) % UINT_MODULUS
  }

  lemma {:induction false} CounterAfterLaw(c: nat, events: seq<Event>)
    requires c < UINT_MODULUS
    ensures CounterAfter(c, events) == ExpectedCounter(c, events)
  {
    if events == [] {
      assert Batches(events[0..]) == 0;
    } else {
      var front, n := events[..|events| - 1], LastCounterStore(events);
      CounterAfterLaw(c, front);
      if n == |events| {
        assert Batches(events[n..]) == 0;
      } else {
        BatchesSince(events, n);
        AddWord((if n == 0 then c else events[n - 1].value.lval) + Batches(front[n..]),
                if events[|events| - 1].BeginBatch? then 1 else 0);
      }
    }
  }

  /** The fetch counter is its last stored value, or its initial one, plus the batches begun since (also those that
      threw), modulo 2^32. */
  lemma CounterLaw(idOf: string -> nat, s: State, events: seq<Event>)
    requires s.numfetch < UINT_MODULUS
    ensures Run(idOf, s, events).numfetch == ExpectedCounter(s.numfetch, events)
  {
    RunCounter(idOf, s, events);
    CounterAfterLaw(s.numfetch, events);
  }

  /** Both laws, from the state that the agent is constructed in. */
  lemma InitialRunLaws(idOf: string -> nat, events: seq<Event>, i: nat)
    requires i < 3
    ensures var s := Run(idOf, INITIAL, events);
            && |s.rgb| == 3 && s.rgb[i] == ExpectedColour(100 * i, events, i)
            && s.numfetch == ExpectedCounter(0, events)
  {
    assert INITIAL.rgb[i] == 100 * i;
    ColourLaw(idOf, INITIAL, events, i);
    CounterLaw(idOf, INITIAL, events);
  }

  // ----- One sample per batch -----

  predicate FetchesTime(e: Event) { e.FetchValue? && e.id.cluster == 1 }

  ghost predicate OnlyFetches(events: seq<Event>) {
    forall k :: 0 <= k < |events| ==> events[k].FetchValue?
  }

  function FirstTimeFetch(events: seq<Event>): (n: nat)
    ensures n <= |events|
    ensures n < |events| ==> FetchesTime(events[n])
    ensures forall k :: 0 <= k < n ==> !FetchesTime(events[k])
  {
    FirstWhere(events, (e: Event) => FetchesTime(e))
  }

  /** The (usr, sys) pair that the fetches of one batch see. */
  function BatchSample(s: State, events: seq<Event>): (real, real) {
    var n := FirstTimeFetch(events);
    if s.oldfetch < s.numfetch && n < |events| then events[n].runTimes else (s.usr, s.sys)
  }

  /** Within a batch without stores at most one sample is taken: at the first time fetch, iff the counter exceeds the
      count at which the last sample was taken. */
  lemma {:induction false} SampleOncePerBatch(idOf: string -> nat, s: State, events: seq<Event>)
    requires OnlyFetches(events)
    ensures var s' := Run(idOf, s, events);
            && s'.numfetch == s.numfetch
            && (s'.usr, s'.sys) == BatchSample(s, events)
            && s'.oldfetch ==
               if FirstTimeFetch(events) < |events| && s.oldfetch < s.numfetch then s.numfetch else s.oldfetch
  {
    if events == [] {
    } else {
      SampleOncePerBatch(idOf, s, events[..|events| - 1]);
    }
  }

  lemma {:induction false} FirstTimeFetchIn(events: seq<Event>, k: nat)
    requires k < |events| && FetchesTime(events[k])
    ensures FirstTimeFetch(events[..k + 1]) == FirstTimeFetch(events)
  {
    var n, m := FirstTimeFetch(events), FirstTimeFetch(events[..k + 1]);
    assert events[..k + 1][k] == events[k];
    assert forall j :: 0 <= j <= k ==> events[..k + 1][j] == events[j];
  }

  /** All time fetches of a batch return components of that one sample, and the two components are crossed: item 3,
      declared "sys", returns the user time, and every other item of the cluster returns the system time. */
  lemma TimeFetchesShareSample(idOf: string -> nat, s: State, events: seq<Event>, k: nat)
    requires OnlyFetches(events) && k < |events| && FetchesTime(events[k])
    ensures var before := Run(idOf, s, events[..k]).(runTimes := events[k].runTimes);
            var sample := BatchSample(s, events);
            Fetch(before, events[k].id).1 ==
            Returned(FetchResult(Real(if events[k].id.item == 3 then sample.0 else sample.1), events[k].id.typ,
                                 FetchStatic))
  {
    var upto := events[..k + 1];
    SampleOncePerBatch(idOf, s, upto);
    FirstTimeFetchIn(events, k);
    assert upto[..k] == events[..k];
    assert FirstTimeFetch(upto) <= k;
  }

  /** So the metric named "user" reports the user time exactly when the sample's two components happen to be equal. */
  lemma UserReportsUserTime(s: State, id: MetricId)
    requires id.cluster == 1 && id.item == 2
    ensures Fetch(s, id).1 == Returned(FetchResult(Real(Sampled(s).usr), id.typ, FetchStatic))
      <==> Sampled(s).usr == Sampled(s).sys
  {
  }

  /** After a sample of one second of user time and none of system time, "user" reports zero. */
  lemma UserReportsSystemTimeExample(s: State, id: MetricId)
    requires s.oldfetch < s.numfetch && s.runTimes == (1.0, 0.0)
    requires id == MetricId(1, 2, PM_INDOM_NULL, 0, 0)
    ensures Fetch(s, id).1 == Returned(FetchResult(Real(0.0), 0, FetchStatic))
  {
  }

  // ----- Agreement between the cache and the now domain -----

  ghost predicate Injective(idOf: string -> nat) {
    forall a, b :: Recognised(a) && Recognised(b) && idOf(a) == idOf(b) ==> a == b
  }

  /** A cache entry's id is a key of the now domain under the same name, and it points to the timeslice of that name. */
  ghost predicate Agrees(idOf: string -> nat, cache: map<nat, Entry>, now: map<nat, string>, id: nat)
    requires id in cache
  {
    var entry := cache[id];
    && Recognised(entry.name) && id == idOf(entry.name) && entry.slice == SliceOf(entry.name)
    && id in now && now[id] == entry.name
  }

  ghost predicate TablesAgree(idOf: string -> nat, cache: map<nat, Entry>, now: map<nat, string>) {
    now.Keys == cache.Keys && forall id :: id in cache ==> Agrees(idOf, cache, now, id)
  }

  ghost predicate CacheAgreement(idOf: string -> nat, s: State) {
    TablesAgree(idOf, s.cache, s.now) && |s.fields| == SLICES
  }

  lemma StoreNameAgrees(idOf: string -> nat, s: State, name: string)
    requires Injective(idOf) && CacheAgreement(idOf, s) && Recognised(name)
    ensures CacheAgreement(idOf, StoreName(idOf, s, name))
  {
    var s' := StoreName(idOf, s, name);
    forall id | id in s'.cache ensures Agrees(idOf, s'.cache, s'.now, id) {
      if id in s.cache {
        assert Agrees(idOf, s.cache, s.now, id);
      }
    }
  }

  lemma {:induction false} LoadFieldsAgrees(idOf: string -> nat, errors: map<string, int>, s: State,
                                            fields: seq<string>)
    requires Injective(idOf) && CacheAgreement(idOf, s)
    ensures CacheAgreement(idOf, LoadFields(idOf, errors, s, fields).0)
  {
    if fields == [] {
    } else {
      var front, field := fields[..|fields| - 1], fields[|fields| - 1];
      LoadFieldsAgrees(idOf, errors, s, front);
      if Recognised(field) {
        StoreNameAgrees(idOf, LoadFields(idOf, errors, s, front).0, field);
      }
    }
  }

  lemma DeactivateAgrees(idOf: string -> nat, cache: map<nat, Entry>, now: map<nat, string>)
    requires TablesAgree(idOf, cache, now)
    ensures TablesAgree(idOf, Deactivate(cache), now)
  {
    var cache' := Deactivate(cache);
    assert cache'.Keys == cache.Keys;
    forall id | id in cache' ensures Agrees(idOf, cache', now, id) {
      assert Agrees(idOf, cache, now, id);
    }
  }

  lemma LoadAgrees(idOf: string -> nat, s: State, conf: Conf)
    requires Injective(idOf) && CacheAgreement(idOf, s)
    ensures CacheAgreement(idOf, Load(idOf, s, conf).0)
  {
    if conf.isOpen && conf.line.Some? {
      LoadFieldsAgrees(idOf, conf.storeErrors, s, Split(conf.line.value, ','));
    }
  }

  lemma ClearAgrees(idOf: string -> nat, s: State, conf: Conf)
    requires CacheAgreement(idOf, s)
    ensures CacheAgreement(idOf, Clear(s, conf).0)
  {
    DeactivateAgrees(idOf, s.cache, s.now);
  }

  lemma CheckAgrees(idOf: string -> nat, s: State, conf: Conf)
    requires Injective(idOf) && CacheAgreement(idOf, s)
    ensures CacheAgreement(idOf, Check(idOf, s, conf).0)
  {
    var cleared := Clear(s, conf).0;
    ClearAgrees(idOf, s, conf);
    LoadAgrees(idOf, cleared, conf);
    var loaded, checked := Load(idOf, cleared, conf).0, Check(idOf, s, conf).0;
    assert checked == s || checked == cleared || checked == loaded.(fileTime := checked.fileTime);
  }

  lemma BeginAgrees(idOf: string -> nat, s: State, conf: Conf, clock: Clock)
    requires Injective(idOf) && CacheAgreement(idOf, s)
    ensures CacheAgreement(idOf, Begin(idOf, s, conf, clock).0)
  {
    var counted := s.(numfetch := (s.numfetch + 1) % UINT_MODULUS);
    CheckAgrees(idOf, counted, conf);
    var checked, begun := Check(idOf, counted, conf).0, Begin(idOf, s, conf, clock).0;
    assert begun == checked.(fields := begun.fields) && |begun.fields| == SLICES;
  }

  lemma FetchKeepsTables(s: State, id: MetricId)
    ensures var s' := Fetch(s, id).0; s'.cache == s.cache && s'.now == s.now && s'.fields == s.fields
  {
  }

  lemma StoreKeepsTables(s: State, id: MetricId, value: Value)
    ensures var s' := Store(s, id, value).0; s'.cache == s.cache && s'.now == s.now && s'.fields == s.fields
  {
  }

  lemma StepAgrees(idOf: string -> nat, s: State, e: Event)
    requires Injective(idOf) && CacheAgreement(idOf, s)
    ensures CacheAgreement(idOf, Step(idOf, s, e))
  {
    match e
    case BeginBatch(conf, clock) => BeginAgrees(idOf, s, conf, clock);
    case FetchValue(id, runTimes) => FetchKeepsTables(s.(runTimes := runTimes), id);
    case StoreValue(id, value) => StoreKeepsTables(s, id, value);
  }

  /** The agreement holds after every run. */
  lemma {:induction false} CacheAlwaysAgrees(idOf: string -> nat, events: seq<Event>)
    requires Injective(idOf)
    ensures CacheAgreement(idOf, Run(idOf, INITIAL, events))
  {
    if events == [] {
    } else {
      CacheAlwaysAgrees(idOf, events[..|events| - 1]);
      StepAgrees(idOf, Run(idOf, INITIAL, events[..|events| - 1]), events[|events| - 1]);
    }
  }

  ghost predicate IsActive(s: State, id: nat) { id in s.cache && s.cache[id].active }

  // ----- Activity over runs -----

  /** The first field that the cache refuses to store, or the number of fields when there is none. */
  function FirstError(errors: map<string, int>, fields: seq<string>): (n: nat)
    ensures n <= |fields|
    ensures n < |fields| ==> Recognised(fields[n]) && fields[n] in errors
    ensures forall k :: 0 <= k < n ==> !(Recognised(fields[k]) && fields[k] in errors)
  {
    FirstWhere(fields, (field: string) => Recognised(field) && field in errors)
  }

  lemma {:induction false} LoadStops(idOf: string -> nat, errors: map<string, int>, s: State, fields: seq<string>)
    ensures LoadFields(idOf, errors, s, fields).1.Some? <==> FirstError(errors, fields) < |fields|
  {
    if fields == [] {
    } else {
      LoadStops(idOf, errors, s, fields[..|fields| - 1]);
    }
  }

  /** A field before the first error is stored under this id. */
  ghost predicate StoredAs(idOf: string -> nat, errors: map<string, int>, fields: seq<string>, id: nat) {
    exists k :: 0 <= k < FirstError(errors, fields) && Recognised(fields[k]) && idOf(fields[k]) == id
  }

  lemma StoredAsStep(idOf: string -> nat, errors: map<string, int>, fields: seq<string>, id: nat)
    requires fields != []
    ensures var n := |fields| - 1; var front, last := fields[..n], fields[n];
            StoredAs(idOf, errors, fields, id) <==>
            || StoredAs(idOf, errors, front, id)
            || (FirstError(errors, front) == n && Recognised(last) && last !in errors && idOf(last) == id)
  {
    var n := |fields| - 1;
    assert forall k :: 0 <= k < n ==> fields[k] == fields[..n][k];
  }

  /** A load activates exactly the recognised names in front of the first store error, besides what was active. */
  lemma {:induction false} LoadActivates(idOf: string -> nat, errors: map<string, int>, s: State, fields: seq<string>,
                                         id: nat)
    ensures IsActive(LoadFields(idOf, errors, s, fields).0, id)
      <==> IsActive(s, id) || StoredAs(idOf, errors, fields, id)
  {
    if fields == [] {
    } else {
      var front := fields[..|fields| - 1];
      LoadActivates(idOf, errors, s, front, id);
      LoadStops(idOf, errors, s, front);
      StoredAsStep(idOf, errors, fields, id);
    }
  }

  /** The file's line holds the name in front of any field whose store fails. */
  predicate Loads(conf: Conf, name: string) {
    && conf.modified.Some? && conf.isOpen && conf.line.Some?
    && name in Split(conf.line.value, ',')[..FirstError(conf.storeErrors, Split(conf.line.value, ','))]
  }

  predicate LoadFails(conf: Conf) {
    && conf.isOpen && conf.line.Some?
    && var fields := Split(conf.line.value, ',');
       FirstError(conf.storeErrors, fields) < |fields| || conf.sizeError.Some?
  }

  /** A batch that clears the cache, when the file last loaded had modification time `t`. */
  predicate Clears(t: (int, int), e: Event) {
    e.BeginBatch? && e.conf.clearError.None? && (e.conf.modified.None? || e.conf.modified.value != t)
  }

  /** The modification time that is remembered after some events: that of the last load that threw nothing. */
  function FileTimeAfter(t: (int, int), events: seq<Event>): (int, int) {
    if events == [] then t
    else
      var before, last := FileTimeAfter(t, events[..|events| - 1]), events[|events| - 1];
      if Clears(before, last) && last.conf.modified.Some? && !LoadFails(last.conf) then last.conf.modified.value
      else before
  }

  /** How many events there are up to and including the last batch that cleared the cache. */
  function LastClear(t: (int, int), events: seq<Event>): (n: nat)
    ensures n <= |events|
    ensures n > 0 ==> Clears(FileTimeAfter(t, events[..n - 1]), events[n - 1])
  {
    if events == [] then 0
    else
      var front := events[..|events| - 1];
      if Clears(FileTimeAfter(t, front), events[|events| - 1]) then |events|
      else
        var n := LastClear(t, front);
        assert n > 0 ==> front[..n - 1] == events[..n - 1];
        n
  }

  lemma StoredAsName(idOf: string -> nat, conf: Conf, name: string)
    requires Recognised(name) && Injective(idOf) && conf.modified.Some? && conf.isOpen && conf.line.Some?
    ensures StoredAs(idOf, conf.storeErrors, Split(conf.line.value, ','), idOf(name)) <==> Loads(conf, name)
  {
    var fields := Split(conf.line.value, ',');
    var n := FirstError(conf.storeErrors, fields);
    if Loads(conf, name) {
      var k :| 0 <= k < n && fields[..n][k] == name;
      assert Recognised(fields[k]) && idOf(fields[k]) == idOf(name);
    }
    if StoredAs(idOf, conf.storeErrors, fields, idOf(name)) {
      var k :| 0 <= k < n && Recognised(fields[k]) && idOf(fields[k]) == idOf(name);
      assert fields[..n][k] == name;
    }
  }

  lemma LoadActivity(idOf: string -> nat, s: State, conf: Conf, name: string)
    requires Recognised(name) && Injective(idOf) && conf.modified.Some? && !IsActive(s, idOf(name))
    ensures IsActive(Load(idOf, s, conf).0, idOf(name)) <==> Loads(conf, name)
    ensures Load(idOf, s, conf).1.Some? <==> LoadFails(conf)
    ensures Load(idOf, s, conf).0.fileTime == s.fileTime
  {
    if conf.isOpen && conf.line.Some? {
      var fields := Split(conf.line.value, ',');
      LoadActivates(idOf, conf.storeErrors, s, fields, idOf(name));
      LoadStops(idOf, conf.storeErrors, s, fields);
      LoadKeeps(idOf, conf.storeErrors, s, fields);
      StoredAsName(idOf, conf, name);
    }
  }

  /** What one batch does to the activity of a name and to the remembered modification time, errors included. */
  lemma ReloadActivatesExactly(idOf: string -> nat, s: State, conf: Conf, clock: Clock, name: string)
    requires Recognised(name) && Injective(idOf)
    ensures var e, s' := BeginBatch(conf, clock), Begin(idOf, s, conf, clock).0;
            && (IsActive(s', idOf(name))
               <==> if Clears(s.fileTime, e) then Loads(conf, name) else IsActive(s, idOf(name)))
            && s'.fileTime ==
               if Clears(s.fileTime, e) && conf.modified.Some? && !LoadFails(conf) then conf.modified.value
               else s.fileTime
  {
    var counted := s.(numfetch := (s.numfetch + 1) % UINT_MODULUS);
    if conf.modified.Some? {
      LoadActivity(idOf, counted.(cache := Deactivate(counted.cache)), conf, name);
    }
  }

  /** A file that goes missing for one batch and comes back unchanged is not loaded again: nothing is active any more,
      whatever its line says. */
  lemma RestoredFileStaysInactive(idOf: string -> nat, s: State, missing: Conf, restored: Conf,
                                  clock: Clock, name: string)
    requires Recognised(name) && Injective(idOf)
    requires missing.modified.None? && missing.clearError.None? && restored.modified == Some(s.fileTime)
    ensures var gone := Begin(idOf, s, missing, clock).0;
            Begin(idOf, gone, restored, clock).1.None? && !IsActive(Begin(idOf, gone, restored, clock).0, idOf(name))
  {
    ReloadActivatesExactly(idOf, s, missing, clock, name);
    ReloadActivatesExactly(idOf, Begin(idOf, s, missing, clock).0, restored, clock, name);
  }

  lemma StepActivity(idOf: string -> nat, s: State, e: Event, name: string)
    requires Recognised(name) && Injective(idOf)
    ensures IsActive(Step(idOf, s, e), idOf(name)) <==>
            if Clears(s.fileTime, e) then Loads(e.conf, name) else IsActive(s, idOf(name))
    ensures Step(idOf, s, e).fileTime ==
            if Clears(s.fileTime, e) && e.conf.modified.Some? && !LoadFails(e.conf) then e.conf.modified.value
            else s.fileTime
  {
    if e.BeginBatch? {
      ReloadActivatesExactly(idOf, s, e.conf, e.clock, name);
    }
  }

  lemma {:induction false} RunFileTime(idOf: string -> nat, events: seq<Event>, name: string)
    requires Recognised(name) && Injective(idOf)
    ensures Run(idOf, INITIAL, events).fileTime == FileTimeAfter((0, 0), events)
  {
    if events == [] {
    } else {
      RunFileTime(idOf, events[..|events| - 1], name);
      StepActivity(idOf, Run(idOf, INITIAL, events[..|events| - 1]), events[|events| - 1], name);
    }
  }

  /** After any run, a name is active exactly if the last batch that cleared the cache went on to load a line that holds
      the name in front of any store error. */
  lemma {:induction false} ActivityLaw(idOf: string -> nat, events: seq<Event>, name: string)
    requires Recognised(name) && Injective(idOf)
    ensures IsActive(Run(idOf, INITIAL, events), idOf(name)) <==>
            var n := LastClear((0, 0), events); n > 0 && Loads(events[n - 1].conf, name)
  {
    if events == [] {
    } else {
      var front, last := events[..|events| - 1], events[|events| - 1];
      ActivityLaw(idOf, front, name);
      RunFileTime(idOf, front, name);
      StepActivity(idOf, Run(idOf, INITIAL, front), last, name);
    }
  }

  /** A fetch of an instance of the now domain returns the field of the timeslice with that instance's name, or throws
      because the entry is inactive; it never finds the entry missing. */
  lemma NowFetchMatches(idOf: string -> nat, s: State, id: MetricId)
    requires CacheAgreement(idOf, s) && id.cluster == 2 && id.instance in s.now
    ensures Recognised(s.now[id.instance])
    ensures Fetch(s, id) == (s,
              if IsActive(s, id.instance)
              then Returned(FetchResult(Int(s.fields[SliceOf(s.now[id.instance])]), id.typ, FetchStatic))
              else Threw(PcpException(CacheInactive)))
  {
    assert Agrees(idOf, s.cache, s.now, id.instance);
  }
}

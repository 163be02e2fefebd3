/** The `simple` agent as the class that it is, refining the state machine of `SimpleAgent`. */
module SimpleClass {
  import opened Pcp
  import opened Text
  import opened FirstWins
  import opened Catalog
  import opened Dispatch
  import opened SimpleAgent

  /** `std::string::npos` */
  const NPOS: nat := 0xFFFF_FFFF_FFFF_FFFF

  datatype Timeslice = Timeslice(tmField: int, instId: int, tmName: string)

  /** The instance cache that PCP keeps for the now domain, by its contract: a name has one id for good. */
  class PmdaCache {
    const idOf: string -> nat
    var entries: map<nat, Entry>

    constructor (idOf: string -> nat)
      ensures this.idOf == idOf && entries == map[]
    {
      this.idOf, entries := idOf, map[];
    }

    method Store(name: string, slice: nat, errors: map<string, int>) returns (r: Result<nat>)
      modifies this
      ensures r == if name in errors then Threw(PcpException(Number(errors[name]))) else Returned(idOf(name))
      ensures entries == if name in errors then old(entries) else old(entries)[idOf(name) := Entry(name, slice, true)]
    {
      if name in errors {
        return Threw(PcpException(Number(errors[name])));
      }
      entries := entries[idOf(name) := Entry(name, slice, true)];
      r := Returned(idOf(name));
    }

    method DeactivateAll(error: Option<int>) returns (thrown: Option<Thrown>)
      modifies this
      ensures thrown == Failed(error)
      ensures entries == if error.Some? then old(entries) else Deactivate(old(entries))
    {
      if error.None? {
        entries := map id | id in entries :: entries[id].(active := false);
      }
      thrown := Failed(error);
    }

    method Lookup(instance: nat) returns (r: Result<nat>)
      ensures r == if instance !in entries then Threw(PcpException(PmErrInst))
                   else if !entries[instance].active then Threw(PcpException(CacheInactive))
                   else Returned(entries[instance].slice)
    {
      if instance !in entries {
        r := Threw(PcpException(PmErrInst));
      } else if !entries[instance].active {
        r := Threw(PcpException(CacheInactive));
      } else {
        r := Returned(entries[instance].slice);
      }
    }
  }

  /** `line.find(',', from)` */
  function FindComma(line: string, from: nat): nat
    requires from <= |line|
  {
    var e := FindFrom(line, ',', from);
    if e == |line| then NPOS else e
  }

  /** `line.substr(start, count)`, which stops at the end of the line. */
  function Substr(line: string, start: nat, count: nat): string
    requires start <= |line|
  {
    if count <= |line| - start then line[start..start + count] else line[start..]
  }

  lemma FindInSuffix(line: string, start: nat)
    requires start <= |line|
    ensures Find(line[start..], ',') == FindFrom(line, ',', start) - start
  {
    var rest, e := line[start..], FindFrom(line, ',', start);
    var f := Find(rest, ',');
    assert f < |rest| ==> line[start + f] == ',';
    assert e < |line| ==> rest[e - start] == ',';
    assert forall k :: start <= k < e ==> rest[k - start] == line[k];
  }

  /** One step of the tokenizer takes one field off the rest of the line. */
  lemma FieldAt(line: string, start: nat)
    requires start <= |line| < NPOS
    ensures var end := FindComma(line, start);
            var name := Substr(line, start, end - start);
            Split(line[start..], ',') == if end == NPOS then [name] else [name] + Split(line[end + 1..], ',')
  {
    var rest, e := line[start..], FindFrom(line, ',', start);
    FindInSuffix(line, start);
    if e < |line| {
      assert rest[..e - start] == line[start..e] && rest[e - start + 1..] == line[e + 1..];
    }
  }

  /** Where the two positions stand, and the fields that are still to come. */
  ghost predicate Tokenizing(line: string, start: nat, end: nat, rest: seq<string>) {
    if start == NPOS then rest == []
    else start <= |line| && end == FindComma(line, start) && rest == Split(line[start..], ',')
  }

  /** The positions after the loop's increment. */
  function NextStart(end: nat): nat { if end == NPOS then end else end + 1 }

  function NextEnd(line: string, end: nat): nat
    requires end != NPOS ==> end < |line|
  {
    if end == NPOS then end else FindComma(line, end + 1)
  }

  lemma TokenStep(line: string, start: nat, end: nat, rest: seq<string>)
    requires |line| < NPOS && start != NPOS && Tokenizing(line, start, end, rest)
    ensures rest != [] && rest[0] == Substr(line, start, end - start)
    ensures end != NPOS ==> start <= end < |line|
    ensures Tokenizing(line, NextStart(end), NextEnd(line, end), rest[1..])
  {
    FieldAt(line, start);
    if end != NPOS {
      var more := Split(line[end + 1..], ',');
      assert rest == [Substr(line, start, end - start)] + more;
      assert rest[1..] == more;
    }
  }

  method ColorDomain() returns (d: InstanceDomain)
    ensures fresh(d) && d.domainId == 0
    ensures d.instances ==
            map[0 := InstanceInfo("red", "", ""), 1 := InstanceInfo("green", "", ""), 2 := InstanceInfo("blue", "", "")]
  {
    d := new InstanceDomain();
    d.Renumber(0);
    d.AddInstance(0, InstanceInfo("red", "", ""));
    d.AddInstance(1, InstanceInfo("green", "", ""));
    d.AddInstance(2, InstanceInfo("blue", "", ""));
  }

  class Simple {
    var numfetch: nat
    const rgb: array<nat>
    var oldfetch: nat
    var usr: real
    var sys: real
    const timeslices: array<Timeslice>
    const colorDomain: InstanceDomain
    const nowDomain: InstanceDomain
    const cache: PmdaCache
    var fileTime: (int, int)

    ghost predicate Valid()
      reads this, timeslices, cache
    {
      && rgb.Length == 3 && colorDomain != nowDomain
      && timeslices.Length == SLICES
      && (forall k :: 0 <= k < SLICES ==> timeslices[k].tmName == SliceName(k))
      && forall id :: id in cache.entries ==> cache.entries[id].slice < SLICES
    }

    ghost function Names(): map<nat, string>
      reads nowDomain
    {
      map id | id in nowDomain.instances :: nowDomain.instances[id].name
    }

    /** The state that the object denotes, given what the operating system would report as run times. */
    ghost function Abstract(runTimes: (real, real)): State
      requires Valid()
      reads this, rgb, timeslices, nowDomain, cache
    {
      State(numfetch, rgb[..], false, oldfetch, usr, sys, runTimes,
            [timeslices[0].tmField, timeslices[1].tmField, timeslices[2].tmField], Names(), cache.entries, fileTime)
    }

    constructor (idOf: string -> nat)
      ensures Valid() && Abstract((0.0, 0.0)) == INITIAL && cache.idOf == idOf
      ensures colorDomain.domainId == 0 && colorDomain.instances.Keys == {0, 1, 2}
      ensures nowDomain.domainId == 1 && fresh({rgb, timeslices, colorDomain, nowDomain, cache})
    {
      numfetch, oldfetch, usr, sys, fileTime := 0, 0, 0.0, 0.0, (0, 0);
      rgb := new nat[3] [0, 100, 200];
      timeslices := new Timeslice[3] [Timeslice(0, 1, SliceName(0)), Timeslice(0, 60, SliceName(1)),
                                      Timeslice(0, 3600, SliceName(2))];
      var color := ColorDomain();
      colorDomain := color;
      nowDomain := new InstanceDomain();
      cache := new PmdaCache(idOf);
      new;
      nowDomain.Renumber(1);
      assert rgb[..] == [0, 100, 200];
    }

    // ----- The now domain -----

    /** The loop over the timeslices table, for one field of the line. */
    method LoadName(name: string, errors: map<string, int>, ghost runTimes: (real, real))
      returns (thrown: Option<Thrown>)
      requires Valid()
      modifies nowDomain, cache
      ensures Valid()
      ensures (Abstract(runTimes), thrown) == LoadField(cache.idOf, errors, (old(Abstract(runTimes)), None), name)
    {
      thrown := None;
      if name != "" {
        var index := 0;
        while index < timeslices.Length && name != timeslices[index].tmName
          invariant 0 <= index <= SLICES
          invariant forall k :: 0 <= k < index ==> name != SliceName(k)
        {
          index := index + 1;
        }
        assert index == SliceOf(name);
        if index < timeslices.Length {
          var stored := cache.Store(name, index, errors);
          if stored.Threw? {
            return Some(stored.thrown);
          }
          nowDomain.AddInstance(stored.value, InstanceInfo(name, "", ""));
          assert Names() == Insert(old(Names()), stored.value, name);
        }
      }
    }

    /** The body of the tokenizer's loop, with its increment. */
    method LoadToken(line: string, start: nat, end: nat, errors: map<string, int>, ghost s0: State,
                     ghost visited: seq<string>, ghost rest: seq<string>, ghost runTimes: (real, real))
      returns (thrown: Option<Thrown>, start': nat, end': nat)
      requires Valid() && |line| < NPOS && start != NPOS && Tokenizing(line, start, end, rest)
      requires (Abstract(runTimes), None) == LoadFields(cache.idOf, errors, s0, visited)
      modifies nowDomain, cache
      ensures Valid() && rest != []
      ensures (Abstract(runTimes), thrown) == LoadFields(cache.idOf, errors, s0, visited + [rest[0]])
      ensures Tokenizing(line, start', end', rest[1..]) && (start' == NPOS || start' > start)
    {
      TokenStep(line, start, end, rest);
      var name := Substr(line, start, end - start);
      LoadFieldsStep(cache.idOf, errors, s0, visited, name);
      thrown := LoadName(name, errors, runTimes);
      start' := NextStart(end);
      end' := NextEnd(line, end);
    }

    /** The tokenizer: two positions that walk over the line, visiting its fields in order. */
    method LoadLine(line: string, errors: map<string, int>, ghost runTimes: (real, real))
      returns (thrown: Option<Thrown>)
      requires Valid() && |line| < NPOS
      modifies nowDomain, cache
      ensures Valid()
      ensures (Abstract(runTimes), thrown) == LoadFields(cache.idOf, errors, old(Abstract(runTimes)), Split(line, ','))
    {
      ghost var s0, visited: seq<string>, rest := Abstract(runTimes), [], Split(line, ',');
      ghost var fields := rest;
      var start: nat, end: nat := 0, FindComma(line, 0);
      assert line[0..] == line;
      while start != NPOS
        invariant Tokenizing(line, start, end, rest) && fields == visited + rest
        invariant Valid() && (Abstract(runTimes), None) == LoadFields(cache.idOf, errors, s0, visited)
        decreases if start == NPOS then 0 else |line| - start + 1
      {
        thrown, start, end := LoadToken(line, start, end, errors, s0, visited, rest, runTimes);
        MoveFirst(visited, rest);
        visited, rest := visited + [rest[0]], rest[1..];
        if thrown.Some? {
          LoadFieldsStop(cache.idOf, errors, s0, visited, fields);
          return;
        }
      }
      assert visited + [] == visited;
      thrown := None;
    }

    method TimenowClear(conf: Conf, ghost runTimes: (real, real)) returns (thrown: Option<Thrown>)
      requires Valid()
      modifies cache
      ensures Valid() && (Abstract(runTimes), thrown) == Clear(old(Abstract(runTimes)), conf)
    {
      thrown := cache.DeactivateAll(conf.clearError);
    }

    method TimenowInit(conf: Conf, ghost runTimes: (real, real)) returns (thrown: Option<Thrown>)
      requires Valid() && (conf.line.Some? ==> |conf.line.value| < NPOS)
      modifies nowDomain, cache
      ensures Valid() && (Abstract(runTimes), thrown) == Load(cache.idOf, old(Abstract(runTimes)), conf)
    {
      if !conf.isOpen || conf.line.None? {
        return None;
      }
      thrown := LoadLine(conf.line.value, conf.storeErrors, runTimes);
      if thrown.None? {
        thrown := Failed(conf.sizeError);
      }
    }

    method TimenowCheck(conf: Conf, ghost runTimes: (real, real)) returns (thrown: Option<Thrown>)
      requires Valid() && (conf.line.Some? ==> |conf.line.value| < NPOS)
      modifies this`fileTime, nowDomain, cache
      ensures Valid() && (Abstract(runTimes), thrown) == Check(cache.idOf, old(Abstract(runTimes)), conf)
    {
      if conf.modified.None? {
        thrown := TimenowClear(conf, runTimes);
        return;
      }
      if conf.modified.value == fileTime {
        return None;
      }
      thrown := TimenowClear(conf, runTimes);
      if thrown.None? {
        thrown := TimenowInit(conf, runTimes);
        if thrown.None? {
          fileTime := conf.modified.value;
        }
      }
    }

    method TimenowRefresh(clock: Clock, ghost runTimes: (real, real))
      requires Valid()
      modifies timeslices
      ensures Valid()
      ensures Abstract(runTimes) == old(Abstract(runTimes)).(fields := [clock.second, clock.minute, clock.hour])
    {
      timeslices[0] := timeslices[0].(tmField := clock.second);
      timeslices[1] := timeslices[1].(tmField := clock.minute);
      timeslices[2] := timeslices[2].(tmField := clock.hour);
    }

    // ----- The virtual functions -----

    method BeginFetchValues(conf: Conf, clock: Clock, ghost runTimes: (real, real))
      returns (thrown: Option<Thrown>)
      requires Valid() && (conf.line.Some? ==> |conf.line.value| < NPOS)
      modifies this`numfetch, this`fileTime, timeslices, nowDomain, cache
      ensures Valid() && (Abstract(runTimes), thrown) == Begin(cache.idOf, old(Abstract(runTimes)), conf, clock)
    {
      numfetch := (numfetch + 1) % UINT_MODULUS;
      thrown := TimenowCheck(conf, runTimes);
      if thrown.None? {
        TimenowRefresh(clock, runTimes);
      }
    }

    /** The array access needs the dispatcher's guarantees: the agent itself does not check the instance. */
    method FetchValue(id: MetricId, runTimes: (real, real)) returns (r: Result<FetchResult>)
      requires Valid()
      requires id.cluster != 1 && id.cluster != 2 && id.item != 0 ==> id.instance < 3
      modifies this`usr, this`sys, this`oldfetch, rgb
      ensures Valid() && (Abstract(runTimes), r) == Fetch(old(Abstract(runTimes)), id)
    {
      if id.cluster == 1 {
        if oldfetch < numfetch {
          usr, sys := runTimes.0, runTimes.1;
          oldfetch := numfetch;
        }
        return Returned(FetchResult(Real(if id.item == 3 then usr else sys), id.typ, FetchStatic));
      }
      if id.cluster == 2 {
        var found := cache.Lookup(id.instance);
        if found.Threw? {
          return Threw(found.thrown);
        }
        return Returned(FetchResult(Int(timeslices[found.value].tmField), id.typ, FetchStatic));
      }
      if id.item == 0 {
        return Returned(FetchResult(Int(numfetch), id.typ, FetchStatic));
      }
      rgb[id.instance] := (rgb[id.instance] + 1) % 256;
      r := Returned(FetchResult(Int(rgb[id.instance]), id.typ, FetchStatic));
    }

    method StoreValue(id: MetricId, value: int, ghost runTimes: (real, real)) returns (thrown: Option<Thrown>)
      requires Valid() && (id.item != 0 ==> id.instance < 3)
      modifies this`numfetch, rgb
      ensures Valid() && (Abstract(runTimes), thrown) == SimpleAgent.Store(old(Abstract(runTimes)), id, InSitu(value))
    {
      if id.item == 0 {
        numfetch := ToUint(value);
        return None;
      }
      if value < 0 {
        return Some(PcpException(PmErrSign));
      }
      if value > 255 {
        return Some(PcpException(PmErrConv));
      }
      rgb[id.instance] := value;
      thrown := None;
    }
  }

  lemma MoveFirst<T>(a: seq<T>, b: seq<T>)
    requires b != []
    ensures a + b == a + [b[0]] + b[1..]
  {
  }

  lemma LoadFieldsStep(idOf: string -> nat, errors: map<string, int>, s: State, visited: seq<string>, field: string)
    ensures LoadFields(idOf, errors, s, visited + [field])
      == LoadField(idOf, errors, LoadFields(idOf, errors, s, visited), field)
  {
    assert (visited + [field])[..|visited|] == visited;
  }

  lemma {:induction false} LoadFieldsStop(idOf: string -> nat, errors: map<string, int>, s: State,
                                          visited: seq<string>, fields: seq<string>)
    requires visited <= fields && LoadFields(idOf, errors, s, visited).1.Some?
    ensures LoadFields(idOf, errors, s, fields) == LoadFields(idOf, errors, s, visited)
  {
    if |fields| > |visited| {
      LoadFieldsStop(idOf, errors, s, visited, fields[..|fields| - 1]);
    } else {
      assert fields == visited;
    }
  }
}

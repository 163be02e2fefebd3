/** The `simple` agent as a state machine: what each of its operations does to its state. */
module SimpleAgent {
  import opened Pcp
  import opened Text
  import opened FirstWins
  import opened Dispatch

  // ----- State -----

  const SLICES: nat := 3

  /** The recognised names, in the order of the `timeslices` table. */
  function SliceName(k: nat): string
    requires k < SLICES
  {
    if k == 0 then "sec" else if k == 1 then "min" else "hour"
  }

  /** The table position of a name, or `SLICES` when it is not recognised. */
  function SliceOf(name: string): (k: nat)
    ensures k <= SLICES
    ensures k < SLICES ==> SliceName(k) == name
    ensures k == SLICES ==> forall j: nat :: j < SLICES ==> SliceName(j) != name
  {
    if name == "sec" then 0 else if name == "min" then 1 else if name == "hour" then 2 else SLICES
  }

  predicate Recognised(name: string) { SliceOf(name) < SLICES }

  /** An entry of PCP's instance cache: its name, the timeslice it points to, and whether it is active. */
  datatype Entry = Entry(name: string, slice: nat, active: bool)

  /** `strayed` records an index outside the colour array, which the agent does not check for. `runTimes` is what the
      operating system would report now; `fileTime` is the modification time of the configuration last loaded. */
  datatype State = State(
    numfetch: nat, rgb: seq<nat>, strayed: bool,
    oldfetch: nat, usr: real, sys: real, runTimes: (real, real),
    fields: seq<int>, now: map<nat, string>, cache: map<nat, Entry>, fileTime: (int, int))

  const INITIAL: State :=
    State(0, [0, 100, 200], false, 0, 0.0, 0.0, (0.0, 0.0), [0, 0, 0], map[], map[], (0, 0))

  // ----- Reloading the now domain -----

  /** What a look at the configuration file finds: its modification time unless it is missing, whether it opens, its
      first line if it has one, and the errors, if any, that the cache operations report. */
  datatype Conf = Conf(modified: Option<(int, int)>, isOpen: bool, line: Option<string>,
                       clearError: Option<int>, storeErrors: map<string, int>, sizeError: Option<int>)

  function Deactivate(cache: map<nat, Entry>): map<nat, Entry> {
    map id | id in cache :: cache[id].(active := false)
  }

  function Failed(error: Option<int>): Option<Thrown> {
    if error.None? then None else Some(PcpException(Number(error.value)))
  }

  /** `timenow_clear` */
  function Clear(s: State, conf: Conf): (State, Option<Thrown>) {
    if conf.clearError.Some? then (s, Failed(conf.clearError)) else (s.(cache := Deactivate(s.cache)), None)
  }

  /** Storing a recognised name: PCP's cache gives a name one id for good, and makes its entry active. */
  function StoreName(idOf: string -> nat, s: State, name: string): State {
    var id := idOf(name);
    s.(cache := s.cache[id := Entry(name, SliceOf(name), true)], now := Insert(s.now, id, name))
  }

  /** One field of the configuration line. */
  function LoadField(idOf: string -> nat, errors: map<string, int>, p: (State, Option<Thrown>), field: string)
    : (State, Option<Thrown>)
  {
    if p.1.Some? || field == "" || !Recognised(field) then p
    else if field in errors then (p.0, Some(PcpException(Number(errors[field]))))
    else (StoreName(idOf, p.0, field), None)
  }

  function LoadFields(idOf: string -> nat, errors: map<string, int>, s: State, fields: seq<string>)
    : (State, Option<Thrown>)
  {
    if fields == [] then (s, None)
    else LoadField(idOf, errors, LoadFields(idOf, errors, s, fields[..|fields| - 1]), fields[|fields| - 1])
  }

  /** `timenow_init` */
  function Load(idOf: string -> nat, s: State, conf: Conf): (State, Option<Thrown>) {
    if !conf.isOpen || conf.line.None? then (s, None)
    else
      var (s', thrown) := LoadFields(idOf, conf.storeErrors, s, Split(conf.line.value, ','));
      (s', if thrown.Some? then thrown else Failed(conf.sizeError))
  }

  /** `timenow_check` */
  function Check(idOf: string -> nat, s: State, conf: Conf): (State, Option<Thrown>) {
    if conf.modified.None? then Clear(s, conf)
    else if conf.modified.value == s.fileTime then (s, None)
    else
      var (cleared, e1) := Clear(s, conf);
      if e1.Some? then (cleared, e1)
      else
        var (loaded, e2) := Load(idOf, cleared, conf);
        if e2.Some? then (loaded, e2) else (loaded.(fileTime := conf.modified.value), None)
  }

  /** The three fields of the local time that are looked at. */
  datatype Clock = Clock(second: int, minute: int, hour: int)

  /** `begin_fetch_values` */
  function Begin(idOf: string -> nat, s: State, conf: Conf, clock: Clock): (State, Option<Thrown>) {
    var (checked, thrown) := Check(idOf, s.(numfetch := (s.numfetch + 1) % UINT_MODULUS), conf);
    if thrown.Some? then (checked, thrown)
    else (checked.(fields := [clock.second, clock.minute, clock.hour]), None)
  }

  // ----- Fetching and storing -----

  function Atom(id: MetricId, n: Dispatch.Number): Result<FetchResult> {
    Returned(FetchResult(n, id.typ, FetchStatic))
  }

  function Sampled(s: State): State {
    if s.oldfetch < s.numfetch then s.(usr := s.runTimes.0, sys := s.runTimes.1, oldfetch := s.numfetch) else s
  }

  /** A cache lookup by instance id that requires an active entry. */
  function LookupSlice(s: State, instance: nat): Result<nat> {
    if instance !in s.cache then Threw(PcpException(PmErrInst))
    else if !s.cache[instance].active then Threw(PcpException(CacheInactive))
    else Returned(s.cache[instance].slice)
  }

  /** `fetch_value` */
  function Fetch(s: State, id: MetricId): (State, Result<FetchResult>) {
    if id.cluster == 1 then
      var s' := Sampled(s);
      (s', Atom(id, Real(if id.item == 3 then s'.usr else s'.sys)))
    else if id.cluster == 2 then
      match LookupSlice(s, id.instance)
      case Threw(t) => (s, Threw(t))
      case Returned(k) => (s, Atom(id, Int(if k < |s.fields| then s.fields[k] else 0)))
    else if id.item == 0 then (s, Atom(id, Int(s.numfetch)))
    else if id.instance < |s.rgb| then
      var colour := (s.rgb[id.instance] + 1) % 256;
      (s.(rgb := s.rgb[id.instance := colour]), Atom(id, Int(colour)))
    else (s.(strayed := true), Atom(id, Int(0)))
  }

  /** `store_value`, both overloads: only the one for values held in place is overridden. */
  function Store(s: State, id: MetricId, value: Value): (State, Option<Thrown>) {
    if value.ExSitu? then (s, Some(PcpException(PmErrPermission)))
    else if id.item == 0 then (s.(numfetch := ToUint(value.lval)), None)
    else if value.lval < 0 then (s, Some(PcpException(PmErrSign)))
    else if value.lval > 255 then (s, Some(PcpException(PmErrConv)))
    else if id.instance < |s.rgb| then (s.(rgb := s.rgb[id.instance := value.lval]), None)
    else (s.(strayed := true), None)
  }

  // ----- Runs -----

  datatype Event =
    | BeginBatch(conf: Conf, clock: Clock)
    | FetchValue(id: MetricId, runTimes: (real, real))
    | StoreValue(id: MetricId, value: Value)

  function Step(idOf: string -> nat, s: State, e: Event): State {
    match e
    case BeginBatch(conf, clock) => Begin(idOf, s, conf, clock).0
    case FetchValue(id, runTimes) => Fetch(s.(runTimes := runTimes), id).0
    case StoreValue(id, value) => Store(s, id, value).0
  }

  function Run(idOf: string -> nat, s: State, events: seq<Event>): State {
    if events == [] then s else Step(idOf, Run(idOf, s, events[..|events| - 1]), events[|events| - 1])
  }

  lemma {:induction false} RunAppend(idOf: string -> nat, s: State, a: seq<Event>, b: seq<Event>)
    ensures Run(idOf, s, a + b) == Run(idOf, Run(idOf, s, a), b)
  {
    if b == [] {
      assert a + b == a;
    } else {
      var n := |b| - 1;
      assert (a + b)[..|a + b| - 1] == a + b[..n];
      RunAppend(idOf, s, a, b[..n]);
    }
  }
}

/** `on_text`: which help texts PCP's requests reach. */
module TextRequests {
  import opened Pcp
  import opened FirstWins
  import opened Sequences
  import opened Catalog
  import opened Registration
  import opened Initialization
  import opened Dispatch

  // ----- The request -----

  /** The flags of a request; a metric's text is preferred when both kinds are asked for. */
  datatype TextKind = TextKind(oneLine: bool, pmid: bool, indom: bool)

  /** The text of the asked length, or the other one when it is empty. */
  function Chosen(oneLine: bool, shortText: string, verboseText: string): (text: string)
    ensures text == "" <==> shortText == "" && verboseText == ""
    ensures oneLine && shortText != "" ==> text == shortText
    ensures !oneLine && verboseText != "" ==> text == verboseText
    ensures text == shortText || text == verboseText
  {
    if oneLine then (if shortText == "" then verboseText else shortText)
    else if verboseText == "" then shortText else verboseText
  }

  function NonEmpty(text: string): Option<string> { if text == "" then None else Some(text) }

  /** The domain object that an identifier selects: the one filed under the identifier's domain field. */
  function SelectedDomain(registry: map<nat, InstanceDomain>, ident: nat): Option<InstanceDomain> {
    if InDomDomain(ident) in registry then Some(registry[InDomDomain(ident)]) else None
  }

  /** `on_text`; `None` is the answer that `pmdaText` gives instead. */
  method OnText(registry: Registry, ident: nat, kind: TextKind) returns (answer: Option<string>)
    ensures kind.pmid ==>
              var found := Lookup(registry.supportedMetrics, PmIdCluster(ident), PmIdItem(ident));
              answer == if found.Threw? then None
                        else NonEmpty(Chosen(kind.oneLine, found.value.shortText, found.value.verboseText))
    ensures !kind.pmid && kind.indom ==>
              var d := SelectedDomain(registry.instanceDomains, ident);
              answer == if d.None? || InDomSerial(ident) !in d.value.instances then None
                        else var info := d.value.instances[InDomSerial(ident)];
                             NonEmpty(Chosen(kind.oneLine, info.shortText, info.verboseText))
    ensures !kind.pmid && !kind.indom ==> answer == None
  {
    if kind.pmid {
      var found := Lookup(registry.supportedMetrics, PmIdCluster(ident), PmIdItem(ident));
      if found.Threw? {
        return None;
      }
      var text := Chosen(kind.oneLine, found.value.shortText, found.value.verboseText);
      if text == "" {
        return None;
      }
      return Some(text);
    } else if kind.indom {
      if InDomDomain(ident) !in registry.instanceDomains {
        return None;
      }
      var domain := registry.instanceDomains[InDomDomain(ident)];
      if InDomSerial(ident) !in domain.instances {
        return None;
      }
      var info := domain.instances[InDomSerial(ident)];
      var text := Chosen(kind.oneLine, info.shortText, info.verboseText);
      if text == "" {
        return None;
      }
      return Some(text);
    }
    return None;
  }

  // ----- What the registry holds after initialization -----

  /** A domain with this user id is filed under the key, as that id or as PCP's. */
  predicate FiledUnder(domainNumber: nat, id: nat, key: nat) { id == key || InDomWithDomain(domainNumber, id) == key }

  /** The first domain filed under the key, or the number of domains when there is none. */
  function FirstFiled(ids: seq<nat>, domainNumber: nat, key: nat): (n: nat)
    ensures n <= |ids|
    ensures n < |ids| ==> FiledUnder(domainNumber, ids[n], key)
    ensures forall j :: 0 <= j < n ==> !FiledUnder(domainNumber, ids[j], key)
  {
    FirstWhere(ids, (id: nat) => FiledUnder(domainNumber, id, key))
  }

  /** The registry that `InitializePmda` leaves behind when it starts from an empty one. */
  function Filed(domains: seq<InstanceDomain>, ids: seq<nat>, domainNumber: nat): map<nat, InstanceDomain>
    requires |domains| == |ids|
  {
    InsertAll(map[], Entries(domains, ids, domainNumber))
  }

  lemma {:induction false} RegistryHolds(domains: seq<InstanceDomain>, ids: seq<nat>, domainNumber: nat, key: nat)
    requires |domains| == |ids|
    ensures var n := FirstFiled(ids, domainNumber, key);
            && (key in Filed(domains, ids, domainNumber) <==> n < |ids|)
            && (n < |ids| ==> Filed(domains, ids, domainNumber)[key] == domains[n])
  {
    if domains == [] {
    } else {
      var n := |domains| - 1;
      RegistryHolds(domains[..n], ids[..n], domainNumber, key);
      InsertTwo(map[], Entries(domains[..n], ids[..n], domainNumber),
                (ids[n], domains[n]), (InDomWithDomain(domainNumber, ids[n]), domains[n]));
    }
  }

  // ----- Which identifiers reach which domain -----

  /** An identifier reaches a domain object exactly if that object is the first to be filed under its domain field. */
  lemma ReachesIff(domains: seq<InstanceDomain>, ids: seq<nat>, domainNumber: nat, ident: nat, j: nat)
    requires |domains| == |ids| && Distinct(domains) && j < |domains|
    ensures SelectedDomain(Filed(domains, ids, domainNumber), ident) == Some(domains[j])
            <==> FirstFiled(ids, domainNumber, InDomDomain(ident)) == j
  {
    RegistryHolds(domains, ids, domainNumber, InDomDomain(ident));
  }

  /** The identifier that PCP gave a domain reaches it exactly if the domain is the first to be filed under the agent's
      own domain number; that number is all that the identifier's domain field holds. */
  lemma PcpIdentReachesIff(domains: seq<InstanceDomain>, ids: seq<nat>, domainNumber: nat, j: nat)
    requires |domains| == |ids| && Distinct(domains) && j < |domains|
    ensures SelectedDomain(Filed(domains, ids, domainNumber), InDomWithDomain(domainNumber, ids[j])) == Some(domains[j])
            <==> FirstFiled(ids, domainNumber, domainNumber % DOMAINS) == j
  {
    CompletedDomainField(domainNumber, ids[j]);
    ReachesIff(domains, ids, domainNumber, InDomWithDomain(domainNumber, ids[j]), j);
  }

  /** So PCP's identifiers reach at most one of an agent's domains. */
  lemma PcpIdentsReachOneDomain(domains: seq<InstanceDomain>, ids: seq<nat>, domainNumber: nat, j: nat, k: nat)
    requires |domains| == |ids| && Distinct(domains) && j < |domains| && k < |domains|
    requires SelectedDomain(Filed(domains, ids, domainNumber), InDomWithDomain(domainNumber, ids[j]))
      == Some(domains[j])
    requires SelectedDomain(Filed(domains, ids, domainNumber), InDomWithDomain(domainNumber, ids[k]))
      == Some(domains[k])
    ensures j == k
  {
    PcpIdentReachesIff(domains, ids, domainNumber, j);
    PcpIdentReachesIff(domains, ids, domainNumber, k);
  }

  /** An identifier that carries the user's domain id and the instance in its two fields. */
  function UserIdent(id: nat, inst: nat): nat { id * SERIALS + inst }

  /** It selects the domain and the instance meant exactly if the domain is the first to be filed under its user id. */
  lemma UserIdentReachesIff(domains: seq<InstanceDomain>, ids: seq<nat>, domainNumber: nat, j: nat, inst: nat)
    requires |domains| == |ids| && Distinct(domains) && j < |domains|
    requires ids[j] < DOMAINS && inst < SERIALS
    ensures InDomSerial(UserIdent(ids[j], inst)) == inst
    ensures SelectedDomain(Filed(domains, ids, domainNumber), UserIdent(ids[j], inst)) == Some(domains[j])
            <==> FirstFiled(ids, domainNumber, ids[j]) == j
  {
    var ident := UserIdent(ids[j], inst);
    assert ident / SERIALS == ids[j] && ident % SERIALS == inst;
    ReachesIff(domains, ids, domainNumber, ident, j);
  }

  /** With distinct user ids and a domain number that is not a multiple of 512, that is every domain. */
  lemma UserIdentsReach(ids: seq<nat>, domainNumber: nat, j: nat)
    requires Distinct(ids) && j < |ids| && ids[j] < DOMAINS && domainNumber % DOMAINS != 0
    ensures FirstFiled(ids, domainNumber, ids[j]) == j
  {
    forall i | 0 <= i < j ensures !FiledUnder(domainNumber, ids[i], ids[j]) {
      CompletedDomainField(domainNumber, ids[i]);
      assert InDomDomain(ids[j]) == 0;
    }
    assert FiledUnder(domainNumber, ids[j], ids[j]);
  }

  /** With the domain number and the user ids of `simple`, PCP's identifiers reach neither domain. */
  lemma SimpleIdentsReachNothing(color: InstanceDomain, now: InstanceDomain)
    ensures FirstFiled([0, 1], 253, 253) == 2
    ensures SelectedDomain(Filed([color, now], [0, 1], 253), InDomWithDomain(253, 0)).None?
    ensures SelectedDomain(Filed([color, now], [0, 1], 253), InDomWithDomain(253, 1)).None?
  {
    CompletedDomainField(253, 0);
    CompletedDomainField(253, 1);
    assert InDomWithDomain(253, 0) != 253 && InDomWithDomain(253, 1) != 253;
    RegistryHolds([color, now], [0, 1], 253, 253);
  }
}

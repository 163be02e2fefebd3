/** What the library takes from PCP itself: error codes, identifier bit fields and the unsigned int width. */
module Pcp {

  datatype Option<+T> = None | Some(value: T)

  const UINT_MODULUS: nat := 0x1_0000_0000
  const PM_INDOM_NULL: nat := 0xFFFF_FFFF

  /** The value a signed int takes when it is assigned to an unsigned one. */
  function ToUint(i: int): (u: nat)
    ensures u < UINT_MODULUS
  {
    i % UINT_MODULUS
  }

  /** Return codes: PCP's named ones, kept symbolic, and any other number. */
  datatype Code =
    | PmErrGeneric | PmErrPmid | PmErrIndom | PmErrInst | PmErrPermission | PmErrSign | PmErrConv | PmErrText
    | CacheInactive | FetchStatic
    | Number(n: int)

  /** What PCP's headers promise of the numbers behind the codes: errors are negative, statuses of an entry or of a
      fetched value are positive, and any other number is itself. */
  ghost predicate ReadsAs(numeric: Code -> int) {
    && numeric(PmErrGeneric) < 0 && numeric(PmErrPmid) < 0 && numeric(PmErrIndom) < 0 && numeric(PmErrInst) < 0
    && numeric(PmErrPermission) < 0 && numeric(PmErrSign) < 0 && numeric(PmErrConv) < 0 && numeric(PmErrText) < 0
    && numeric(CacheInactive) > 0 && numeric(FetchStatic) > 0
    && forall n :: numeric(Number(n)) == n
  }

  /** The exceptions that the callbacks tell apart. */
  datatype Thrown = PcpException(code: Code) | OutOfRange | StdException | Unknown

  /** How a call that may throw ends. */
  datatype Result<+T> = Returned(value: T) | Threw(thrown: Thrown)

  /** The chain of catch clauses shared by the callbacks. */
  function CaughtCode(t: Thrown): Code {
    match t
    case PcpException(code) => code
    case OutOfRange => PmErrPmid
    case StdException => PmErrGeneric
    case Unknown => PmErrGeneric
  }

  // ----- PMID bit fields: item 10 bits, cluster 12, domain 9, flag 1 -----

  const ITEMS: nat := 0x400
  const CLUSTERS: nat := 0x1000
  const DOMAINS: nat := 0x200

  /** `PMDA_PMID`: each id is cut to the width of its field. */
  function PmId(cluster: nat, item: nat): (pmid: nat)
    ensures pmid < CLUSTERS * ITEMS
  {
    cluster % CLUSTERS * ITEMS + item % ITEMS
  }

  function PmIdItem(pmid: nat): nat { pmid % ITEMS }

  function PmIdCluster(pmid: nat): nat { pmid / ITEMS % CLUSTERS }

  function PmIdDomain(pmid: nat): nat { pmid / (CLUSTERS * ITEMS) % DOMAINS }

  predicate InRange(cluster: nat, item: nat) { cluster < CLUSTERS && item < ITEMS }

  /** What `pmdaInit` does to a PMID: it fills in the domain field. */
  function PmIdWithDomain(domain: nat, pmid: nat): nat {
    (pmid / 0x8000_0000 * DOMAINS + domain % DOMAINS) * 0x40_0000 + pmid % 0x40_0000
  }

  lemma LowFields(high: nat, low: nat)
    requires low < 0x40_0000
    ensures (high * 0x40_0000 + low) % 0x400 == low % 0x400
    ensures (high * 0x40_0000 + low) / 0x400 % 0x1000 == low / 0x400
  {
    var pmid := high * 0x40_0000 + low;
    assert pmid == (high * 0x1000 + low / 0x400) * 0x400 + low % 0x400;
    assert pmid / 0x400 == high * 0x1000 + low / 0x400;
  }

  lemma DomainBitsKeepIds(domain: nat, cluster: nat, item: nat)
    ensures var pmid := PmId(cluster, item); var whole := PmIdWithDomain(domain, pmid);
            PmIdItem(whole) == PmIdItem(pmid) == item % ITEMS
              && PmIdCluster(whole) == PmIdCluster(pmid) == cluster % CLUSTERS
  {
    var pmid := PmId(cluster, item);
    assert pmid % 0x40_0000 == pmid;
    LowFields(pmid / 0x8000_0000 * DOMAINS + domain % DOMAINS, pmid);
  }

  /** The domain field of a PMID that PCP completed is the agent's domain number. */
  lemma CompletedPmIdDomain(domain: nat, cluster: nat, item: nat)
    ensures PmIdDomain(PmIdWithDomain(domain, PmId(cluster, item))) == domain % DOMAINS
  {
    var pmid := PmId(cluster, item);
    assert pmid / 0x8000_0000 == 0 && pmid % 0x40_0000 == pmid;
    assert (domain % DOMAINS * 0x40_0000 + pmid) / 0x40_0000 == domain % DOMAINS;
  }

  /** Decoding a PMID, domain bits or not, gives back the ids it was built from exactly when they fit their fields. */
  lemma PmIdDecodes(domain: nat, cluster: nat, item: nat)
    ensures var pmid := PmId(cluster, item);
            PmIdCluster(pmid) == cluster && PmIdItem(pmid) == item <==> InRange(cluster, item)
    ensures var pmid := PmIdWithDomain(domain, PmId(cluster, item));
            PmIdCluster(pmid) == cluster && PmIdItem(pmid) == item <==> InRange(cluster, item)
  {
    DomainBitsKeepIds(domain, cluster, item);
  }

  /** In range, PMIDs are ordered as the pairs they encode. */
  lemma PmIdOrder(c: nat, i: nat, c': nat, i': nat)
    requires InRange(c, i) && InRange(c', i')
    ensures PmId(c, i) < PmId(c', i') <==> c < c' || (c == c' && i < i')
  {
  }

  lemma DomainBitsKeepOrder(domain: nat, x: nat, y: nat)
    requires x < 0x40_0000 && y < 0x40_0000
    ensures PmIdWithDomain(domain, x) < PmIdWithDomain(domain, y) <==> x < y
  {
    assert x / 0x8000_0000 == 0 && y / 0x8000_0000 == 0;
  }

  // ----- Instance domain bit fields: serial 22 bits, domain 9, flag 1 -----

  const SERIALS: nat := 0x40_0000

  /** What `pmdaInit` does to an instance domain identifier: it fills in the domain field. */
  function InDomWithDomain(domain: nat, indom: nat): nat {
    indom / (SERIALS * DOMAINS) * (SERIALS * DOMAINS) + domain % DOMAINS * SERIALS + indom % SERIALS
  }

  /** The domain and serial fields of an instance domain identifier. */
  function InDomDomain(indom: nat): nat { indom / SERIALS % DOMAINS }

  function InDomSerial(indom: nat): nat { indom % SERIALS }

  /** The domain field of an identifier that PCP completed is the agent's own domain number, whatever the identifier. */
  lemma CompletedDomainField(domain: nat, indom: nat)
    ensures InDomDomain(InDomWithDomain(domain, indom)) == domain % DOMAINS
    ensures InDomSerial(InDomWithDomain(domain, indom)) == InDomSerial(indom)
  {
    var high, field, low := indom / (SERIALS * DOMAINS), domain % DOMAINS, indom % SERIALS;
    var whole := InDomWithDomain(domain, indom);
    assert whole == (high * DOMAINS + field) * SERIALS + low;
    assert whole / SERIALS == high * DOMAINS + field && whole % SERIALS == low;
  }
}

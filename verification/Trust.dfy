/** What the resolver may rely on: which keys are trusted and why, what a verified
    record is, and what excuses leaving a name unverified. Everything is measured
    against an environment: the cryptography, the trust anchors, the clock and the
    network, which is a function from the number of steps taken so far to whatever
    comes back; nothing is assumed about it. */
module Trust {
  import opened Octets
  import opened Names
  import opened Messages
  import opened Nsec3
  import opened Denial
  import opened Signing
  import opened Times

  datatype Reply = Answered(msg: Message) | NoReply

  /** The addresses that may be asked, the root servers, and at which step the query was
      given up are part of it too. The steps from since on and before until are the ones
      spoken of: what the network said and what the clock read at any other counts for
      nothing. */
  datatype Env = Env(crypto: Crypto, hs: HashSuite, anchors: seq<DS>, clock: nat -> int,
                     network: (nat, Name, U16) -> Reply, allowed: Bytes -> bool, roots: seq<Bytes>,
                     cancelled: nat -> bool, since: nat, until: nat)

  function Unix(env: Env, tick: nat): int {
    Seconds(env.clock(tick))
  }

  predicate During(env: Env, tick: nat) {
    env.since <= tick < env.until
  }

  /** Everything up to the end of the span. */
  function Past(env: Env): Env {
    env.(since := 0)
  }

  /** The same environment, over a span that takes in the other. */
  ghost predicate Wider(e: Env, f: Env) {
    f == e.(since := f.since, until := f.until) && f.since <= e.since && e.until <= f.until
  }

  /** The network gave this message in answer to this question. */
  ghost predicate Received(env: Env, msg: Message, name: Name, qtype: U16) {
    exists k: nat {:trigger During(env, k)} :: During(env, k) && env.network(k, name, qtype) == Answered(msg)
  }

  ghost predicate ShownBy(env: Env, section: seq<RR>, msg: Message, name: Name, qtype: U16) {
    Received(env, msg, name, qtype) && (section == msg.authorities || section == msg.answers + msg.authorities)
  }

  /** The section is the authority section of a message received, or with its answers
      in front. */
  ghost predicate Shown(env: Env, section: seq<RR>) {
    exists msg, name, qtype :: ShownBy(env, section, msg, name, qtype)
  }

  // ---- picking records out of a section ----

  predicate IsOf(rr: RR, rtype: U16, name: Name) {
    rr.rtype == rtype && rr.rclass == ClassIN && EqualName(rr.name, name)
  }

  function RecordsOfType(section: seq<RR>, rtype: U16, name: Name): seq<RR> {
    if section == [] then []
    else
      var rr := section[|section| - 1];
      RecordsOfType(section[..|section| - 1], rtype, name) + if IsOf(rr, rtype, name) then [rr] else []
  }

  function KeysOf(rrs: seq<RR>): seq<DNSKEY> {
    if rrs == [] then []
    else
      KeysOf(rrs[..|rrs| - 1]) + match AsDNSKEY(rrs[|rrs| - 1]) { case None => [] case Some(k) => [k] }
  }

  function DSOf(rrs: seq<RR>): seq<DS> {
    if rrs == [] then []
    else
      DSOf(rrs[..|rrs| - 1]) + match AsDS(rrs[|rrs| - 1]) { case None => [] case Some(d) => [d] }
  }

  /** All records of one type and class, at one name. */
  predicate OwnedBy(rrs: seq<RR>, rtype: U16, name: Name) {
    rrs != [] && forall i | 0 <= i < |rrs| :: IsOf(rrs[i], rtype, name)
  }

  lemma {:induction false} RecordsOwned(section: seq<RR>, rtype: U16, name: Name)
    ensures RecordsOfType(section, rtype, name) != [] ==> OwnedBy(RecordsOfType(section, rtype, name), rtype, name)
    ensures forall rr | rr in RecordsOfType(section, rtype, name) :: rr in section
    decreases |section|
  {
    if section != [] { RecordsOwned(section[..|section| - 1], rtype, name); }
  }

  lemma {:induction false} RecordsHold(section: seq<RR>, rr: RR)
    requires rr in section && rr.rclass == ClassIN
    ensures rr in RecordsOfType(section, rr.rtype, rr.name)
    decreases |section|
  {
    var n := |section| - 1;
    if rr != section[n] {
      assert section == section[..n] + [section[n]];
      RecordsHold(section[..n], rr);
    }
  }

  function SigsFor(section: seq<RR>, name: Name, rtype: U16): seq<RRSIG> {
    if section == [] then []
    else
      var rr := section[|section| - 1];
      SigsFor(section[..|section| - 1], name, rtype)
      + if rr.rtype != TypeRRSIG || !EqualName(rr.name, name) then []
        else match AsRRSIG(rr) { case None => [] case Some(s) => if s.typeCovered == rtype then [s] else [] }
  }

  // ---- signatures ----

  /** What checking sig over rrset under key comes to, at the clock's reading tick. */
  ghost predicate VerdictAt(env: Env, rrset: seq<RR>, sig: RRSIG, key: DNSKEY, tick: nat, c: Check) {
    forall j {:trigger Opened(Door.Verdicts, j)} | Opened(Door.Verdicts, j) ::
      VerifyRRSet(env.crypto, rrset, sig, key, Unix(env, tick)) == c
  }

  /** sig verifies over rrset under key, at the clock's reading tick. */
  ghost predicate Signs(env: Env, rrset: seq<RR>, sig: RRSIG, key: DNSKEY, tick: nat) {
    During(env, tick) && VerdictAt(env, rrset, sig, key, tick, Check.Valid)
  }

  /** sig is made with an algorithm that cannot be checked. */
  ghost predicate Uncheckable(env: Env, rrset: seq<RR>, sig: RRSIG, key: DNSKEY, tick: nat) {
    During(env, tick) && VerdictAt(env, rrset, sig, key, tick, Check.Unsupported)
  }

  /** The section holds the set, and the signature for it. */
  predicate Carries(section: seq<RR>, rrset: seq<RR>, sig: RRSIG) {
    && rrset != [] && (forall rr | rr in rrset :: rr in section)
    && sig in SigsFor(section, rrset[0].name, rrset[0].rtype)
  }

  /** A signature the section holds for rrset is made with such an algorithm. */
  ghost predicate UncheckedSig(env: Env, rrset: seq<RR>, section: seq<RR>, sig: RRSIG, key: DNSKEY, tick: nat) {
    Carries(section, rrset, sig) && Uncheckable(env, rrset, sig, key, tick)
  }

  ghost predicate SignsWith(env: Env, rrset: seq<RR>, sig: RRSIG, keys: seq<DNSKEY>, i: nat, tick: nat) {
    i < |keys| && Signs(env, rrset, sig, keys[i], tick)
  }

  /** sig, by one of keys, covers rrset. */
  ghost predicate SignedBy(env: Env, rrset: seq<RR>, sig: RRSIG, keys: seq<DNSKEY>) {
    rrset != [] && exists i: nat, tick: nat :: SignsWith(env, rrset, sig, keys, i, tick)
  }

  ghost predicate VerifiedBy(env: Env, section: seq<RR>, rrset: seq<RR>, keys: seq<DNSKEY>, sig: RRSIG) {
    Carries(section, rrset, sig) && SignedBy(env, rrset, sig, keys)
  }

  /** A signature the section holds, by one of keys, covers a set it holds. */
  ghost predicate Verified(env: Env, section: seq<RR>, rrset: seq<RR>, keys: seq<DNSKEY>) {
    exists sig :: VerifiedBy(env, section, rrset, keys, sig)
  }

  ghost predicate MatchesDS(env: Env, zone: Name, key: DNSKEY, ds: DS, c: Check) {
    forall j {:trigger Opened(Door.Verdicts, j)} | Opened(Door.Verdicts, j) :: VerifyDS(env.crypto, zone, key, ds) == c
  }

  // ---- the chain of trust ----

  /** From a trust anchor down: each link a section whose DS set the parent's keys
      signed, and a reply whose DNSKEY set that vouches for. */
  datatype Chain = Anchor(reply: Message) | Link(parent: Chain, zone: Name, section: seq<RR>, reply: Message)
  {
    function Zone(): Name { if Anchor? then [] else zone }
    function Keys(): seq<DNSKEY> { KeysIn(reply.answers, Zone()) }
  }

  function KeysIn(section: seq<RR>, zone: Name): seq<DNSKEY> {
    KeysOf(RecordsOfType(section, TypeDNSKEY, zone))
  }

  function DSIn(section: seq<RR>, zone: Name): seq<DS> {
    DSOf(RecordsOfType(section, TypeDS, zone))
  }

  /** One of the keys matches one of the parent's digests, and signed the set. */
  ghost predicate VouchedBy(env: Env, zone: Name, section: seq<RR>, anchors: seq<DS>, i: nat, a: nat) {
    && i < |KeysIn(section, zone)| && a < |anchors|
    && MatchesDS(env, zone, KeysIn(section, zone)[i], anchors[a], Check.Valid)
    && Verified(env, section, RecordsOfType(section, TypeDNSKEY, zone), [KeysIn(section, zone)[i]])
  }

  ghost predicate Vouched(env: Env, zone: Name, section: seq<RR>, anchors: seq<DS>) {
    exists i: nat, a: nat :: VouchedBy(env, zone, section, anchors, i, a)
  }

  /** So it is with the keys the zone's servers gave. */
  ghost predicate VouchedReply(env: Env, zone: Name, msg: Message, anchors: seq<DS>) {
    Received(env, msg, zone, TypeDNSKEY) && Vouched(env, zone, msg.answers, anchors)
  }

  /** A section received holds the zone's digests, signed by keys. */
  ghost predicate SignedCut(env: Env, zone: Name, section: seq<RR>, keys: seq<DNSKEY>) {
    Shown(env, section) && Verified(env, section, RecordsOfType(section, TypeDS, zone), keys)
  }

  ghost predicate Sound(env: Env, c: Chain) {
    match c
    case Anchor(reply) => VouchedReply(env, [], reply, env.anchors)
    case Link(parent, zone, section, reply) =>
      && Sound(env, parent) && IsProperSubdomain(zone, parent.Zone())
      && SignedCut(env, zone, section, parent.Keys())
      && VouchedReply(env, zone, reply, DSIn(section, zone))
  }

  ghost predicate Reaches(env: Env, c: Chain, zone: Name, keys: seq<DNSKEY>) {
    Sound(env, c) && EqualName(c.Zone(), zone) && c.Keys() == keys
  }

  /** The keys are the zone's own, by a chain from a trust anchor whose every step was
      taken by now. */
  ghost predicate TrustedKeys(env: Env, zone: Name, keys: seq<DNSKEY>) {
    forall j {:trigger Opened(Door.Keys, j)} | Opened(Door.Keys, j) :: exists c :: Reaches(Past(env), c, zone, keys)
  }

  lemma TrustedNotEmpty(env: Env, zone: Name, keys: seq<DNSKEY>)
    requires TrustedKeys(env, zone, keys)
    ensures keys != []
  {
    assert Opened(Door.Keys, 0);
    var c :| Reaches(Past(env), c, zone, keys);
  }

  lemma TrustedUpToCase(env: Env, zone: Name, other: Name, keys: seq<DNSKEY>)
    requires TrustedKeys(env, zone, keys) && EqualName(zone, other)
    ensures TrustedKeys(env, other, keys)
  {
    assert Opened(Door.Keys, 0);
    var c :| Reaches(Past(env), c, zone, keys);
    assert Reaches(Past(env), c, other, keys);
  }

  /** Where a zone's digests came from. */
  datatype Base = RootBase | Below(parent: Chain, section: seq<RR>)

  ghost predicate BaseOk(env: Env, base: Base, zone: Name, anchors: seq<DS>) {
    forall j {:trigger Opened(Door.Bases, j)} | Opened(Door.Bases, j) ::
      match base
      case RootBase => zone == [] && anchors == env.anchors
      case Below(parent, section) =>
        && Sound(Past(env), parent) && IsProperSubdomain(zone, parent.Zone())
        && SignedCut(Past(env), zone, section, parent.Keys()) && anchors == DSIn(section, zone)
  }

  /** The chain the parent's keys come from carries the child's digests. */
  lemma BelowParent(env: Env, zone: Name, pzone: Name, keys: seq<DNSKEY>, section: seq<RR>) returns (base: Base)
    requires TrustedKeys(env, pzone, keys) && IsProperSubdomain(zone, pzone)
    requires SignedCut(Past(env), zone, section, keys)
    ensures BaseOk(env, base, zone, DSIn(section, zone))
  {
    assert Opened(Door.Keys, 0);
    var c :| Reaches(Past(env), c, pzone, keys);
    base := Below(c, section);
  }

  lemma VouchedIsTrusted(env: Env, base: Base, zone: Name, anchors: seq<DS>, reply: Message)
    requires BaseOk(env, base, zone, anchors) && VouchedReply(Past(env), zone, reply, anchors)
    ensures TrustedKeys(env, zone, KeysIn(reply.answers, zone))
  {
    assert Opened(Door.Bases, 0);
    var keys := KeysIn(reply.answers, zone);
    match base
    case RootBase => assert Reaches(Past(env), Anchor(reply), zone, keys);
    case Below(parent, section) => assert Reaches(Past(env), Link(parent, zone, section, reply), zone, keys);
  }

  // ---- denial ----

  datatype Claim =
    | NoDSAt(zone: Name)
    | NoSuchName(qname: Name)
    | NoSuchData(qname: Name, qtype: U16)
    | NothingCloser(qname: Name)

  function VerdictOn(hs: HashSuite, claim: Claim, records: seq<RR>): Verdict {
    match claim
    case NoDSAt(zone) => NoDSVerdict(hs, records, zone)
    case NoSuchName(qname) => NameErrorVerdict(hs, records, qname)
    case NoSuchData(qname, qtype) => NoDataVerdict(hs, records, qname, qtype)
    case NothingCloser(qname) => NoCloserMatchVerdict(hs, records, qname)
  }

  ghost predicate Decides(env: Env, claim: Claim, records: seq<RR>, v: Verdict) {
    forall j {:trigger Opened(Door.Verdicts, j)} | Opened(Door.Verdicts, j) :: VerdictOn(env.hs, claim, records) == v
  }

  lemma NothingDecidesNothing(env: Env, claim: Claim, v: Verdict)
    requires Decides(env, claim, [], v)
    ensures v == NoDenial
  {
    assert Opened(Door.Verdicts, 0);
    assert NsecRecords([]) == [];
  }

  /** rr lies in a set the section holds, with a signature it holds. */
  ghost predicate InVerifiedSet(env: Env, section: seq<RR>, rr: RR, rrset: seq<RR>, sig: RRSIG, keys: seq<DNSKEY>) {
    rr in rrset && Carries(section, rrset, sig) && SignedBy(env, rrset, sig, keys)
  }

  ghost predicate Vetted(env: Env, section: seq<RR>, rr: RR, keys: seq<DNSKEY>) {
    exists rrset, sig :: InVerifiedSet(env, section, rr, rrset, sig, keys)
  }

  ghost predicate AllVetted(env: Env, section: seq<RR>, rrs: seq<RR>, keys: seq<DNSKEY>) {
    forall i | 0 <= i < |rrs| :: Vetted(env, section, rrs[i], keys)
  }

  /** The claim was decided so over records of the section that keys vouch for. */
  ghost predicate DecidedOver(env: Env, section: seq<RR>, claim: Claim, keys: seq<DNSKEY>, v: Verdict,
                              records: seq<RR>) {
    AllVetted(env, section, records, keys) && Decides(env, claim, records, v)
  }

  ghost predicate DecidedIn(env: Env, section: seq<RR>, claim: Claim, keys: seq<DNSKEY>, v: Verdict) {
    forall j {:trigger Opened(Door.Decisions, j)} | Opened(Door.Decisions, j) ::
      exists records :: DecidedOver(env, section, claim, keys, v, records)
  }

  lemma NoKeysNothingVetted(env: Env, section: seq<RR>, rr: RR)
    ensures !Vetted(env, section, rr, [])
  {}

  /** Without keys nothing is vetted, and nothing decided. */
  lemma NoKeysNoDecision(env: Env, section: seq<RR>, claim: Claim, v: Verdict)
    requires DecidedIn(env, section, claim, [], v)
    ensures v == NoDenial
  {
    assert Opened(Door.Decisions, 0);
    var records :| DecidedOver(env, section, claim, [], v, records);
    if records != [] {
      NoKeysNothingVetted(env, section, records[0]);
      assert false;
    }
    NothingDecidesNothing(env, claim, v);
  }

  /** A claim decided over the response to a question about name, by records that a
      zone enclosing name vouches for. */
  ghost predicate SettledBy(env: Env, name: Name, qtype: U16, claim: Claim, v: Verdict, zone: Name,
                            keys: seq<DNSKEY>, msg: Message) {
    && IsSubdomainOrEqual(name, zone) && TrustedKeys(env, zone, keys)
    && Received(env, msg, name, qtype) && DecidedIn(env, msg.authorities, claim, keys, v)
  }

  ghost predicate Settled(env: Env, name: Name, qtype: U16, claim: Claim, v: Verdict) {
    exists zone, keys, msg :: SettledBy(env, name, qtype, claim, v, zone, keys, msg)
  }

  // ---- what a secure answer is ----

  /** rr came in a response to a question about name, in a set with a signature the
      response held too, by trusted keys of a zone enclosing name; if the signature was
      made for a wildcard, the response also proved that the owner has nothing of its
      own. */
  ghost predicate EarnedBy(env: Env, name: Name, qtype: U16, rr: RR, zone: Name, keys: seq<DNSKEY>, msg: Message,
                           rrset: seq<RR>, sig: RRSIG) {
    && IsSubdomainOrEqual(name, zone) && TrustedKeys(env, zone, keys) && Received(env, msg, name, qtype)
    && InVerifiedSet(env, msg.answers, rr, rrset, sig, keys)
    && (IsWildcardExpansion(rr.name, sig) ==> exists owner :: ExpansionProved(env, msg.authorities, rr, owner, keys))
  }

  ghost predicate ExpansionProved(env: Env, section: seq<RR>, rr: RR, owner: Name, keys: seq<DNSKEY>) {
    EqualName(owner, rr.name) && DecidedIn(env, section, NothingCloser(owner), keys, Proven)
  }

  /** So it is with this response. */
  ghost predicate EarnedIn(env: Env, name: Name, qtype: U16, msg: Message, rr: RR) {
    forall j {:trigger Opened(Door.Earnings, j)} | Opened(Door.Earnings, j) ::
      exists zone, keys, rrset, sig :: EarnedBy(env, name, qtype, rr, zone, keys, msg, rrset, sig)
  }

  ghost predicate Earned(env: Env, name: Name, qtype: U16, rr: RR) {
    exists msg :: EarnedIn(env, name, qtype, msg, rr)
  }

  // ---- what excuses an answer that is not secure ----

  /** The parent proved that a cut has no DS, or offered a proof in a form that
      cannot be checked. */
  ghost predicate UnsignedCut(env: Env, cut: Name, parent: Name, keys: seq<DNSKEY>, section: seq<RR>, v: Verdict) {
    && IsProperSubdomain(cut, parent) && TrustedKeys(env, parent, keys) && Shown(env, section)
    && DecidedIn(env, section, NoDSAt(cut), keys, v) && (v == Proven || v == Verdict.Unsupported)
  }

  /** One of the parent's digests could not be checked, or matched a key of the set
      whose signature over it could not be. */
  ghost predicate UncheckedDS(env: Env, zone: Name, section: seq<RR>, anchors: seq<DS>, key: DNSKEY, a: nat) {
    && key in KeysIn(section, zone) && a < |anchors|
    && (MatchesDS(env, zone, key, anchors[a], Check.Unsupported)
        || (MatchesDS(env, zone, key, anchors[a], Check.Valid) && exists sig, tick: nat ::
            UncheckedSig(env, RecordsOfType(section, TypeDNSKEY, zone), section, sig, key, tick)))
  }

  ghost predicate UncheckedIn(env: Env, zone: Name, section: seq<RR>, anchors: seq<DS>) {
    exists key, a: nat :: UncheckedDS(env, zone, section, anchors, key, a)
  }

  /** So it was with the keys the zone's servers gave. */
  ghost predicate UncheckedReply(env: Env, zone: Name, msg: Message, anchors: seq<DS>) {
    Received(env, msg, zone, TypeDNSKEY) && UncheckedIn(env, zone, msg.answers, anchors)
  }

  ghost predicate UncheckedKeys(env: Env, zone: Name, anchors: seq<DS>) {
    exists msg :: UncheckedReply(env, zone, msg, anchors)
  }

  ghost predicate UnsupportedCut(env: Env, cut: Name, parent: Name, keys: seq<DNSKEY>, section: seq<RR>) {
    && IsProperSubdomain(cut, parent) && TrustedKeys(env, parent, keys)
    && SignedCut(env, cut, section, keys) && UncheckedKeys(env, cut, DSIn(section, cut))
  }

  ghost predicate OpenCut(env: Env, cut: Name) {
    forall j {:trigger Opened(Door.Cuts, j)} | Opened(Door.Cuts, j) ::
      || (exists parent, keys, section, v :: UnsignedCut(Past(env), cut, parent, keys, section, v))
      || (exists parent, keys, section :: UnsupportedCut(Past(env), cut, parent, keys, section))
  }

  lemma OpenByDenial(env: Env, cut: Name, parent: Name, keys: seq<DNSKEY>, section: seq<RR>, v: Verdict)
    requires UnsignedCut(Past(env), cut, parent, keys, section, v)
    ensures OpenCut(env, cut)
  {}

  lemma OpenByAlgorithm(env: Env, cut: Name, parent: Name, keys: seq<DNSKEY>, section: seq<RR>)
    requires IsProperSubdomain(cut, parent) && TrustedKeys(Past(env), parent, keys)
    requires SignedCut(Past(env), cut, section, keys) && UncheckedKeys(Past(env), cut, DSIn(section, cut))
    ensures OpenCut(env, cut)
  {
    assert UnsupportedCut(Past(env), cut, parent, keys, section);
  }

  /** A cut at or above name ends the chain of trust. */
  ghost predicate Exempt(env: Env, name: Name) {
    exists cut :: IsSubdomainOrEqual(name, cut) && OpenCut(env, cut)
  }

  /** The response cannot prove what the record's wildcard owes in a form that can be
      checked, or holds a signature of the record's that cannot. */
  ghost predicate DoubtIn(env: Env, name: Name, qtype: U16, msg: Message, rr: RR) {
    forall j {:trigger Opened(Door.Doubts, j)} | Opened(Door.Doubts, j) ::
      || (exists owner, zone, keys :: UncheckedProof(env, name, qtype, rr, owner, zone, keys, msg))
      || (exists zone, keys, rrset, sig, key, tick: nat ::
          UncheckedRecord(env, name, qtype, rr, zone, keys, msg, rrset, sig, key, tick))
  }

  ghost predicate RecordDoubt(env: Env, name: Name, qtype: U16, rr: RR) {
    exists msg :: DoubtIn(env, name, qtype, msg, rr)
  }

  ghost predicate UncheckedProof(env: Env, name: Name, qtype: U16, rr: RR, owner: Name, zone: Name, keys: seq<DNSKEY>,
                                 msg: Message) {
    && EqualName(owner, rr.name)
    && SettledBy(env, name, qtype, NothingCloser(owner), Verdict.Unsupported, zone, keys, msg)
  }

  /** The response holds the record, in a set it holds a signature for
      that cannot be checked. */
  ghost predicate UncheckedRecord(env: Env, name: Name, qtype: U16, rr: RR, zone: Name, keys: seq<DNSKEY>,
                                  msg: Message, rrset: seq<RR>, sig: RRSIG, key: DNSKEY, tick: nat) {
    && IsSubdomainOrEqual(name, zone) && TrustedKeys(env, zone, keys) && Received(env, msg, name, qtype)
    && rr in rrset && key in keys && UncheckedSig(env, rrset, msg.answers, sig, key, tick)
  }

  lemma ExemptBelow(env: Env, name: Name, zone: Name)
    requires Exempt(env, zone) && IsSubdomainOrEqual(name, zone)
    ensures Exempt(env, name)
  {
    var cut :| IsSubdomainOrEqual(zone, cut) && OpenCut(env, cut);
    SuffixTrans(Canon(cut), Canon(zone), Canon(name));
  }

  lemma ExemptAt(env: Env, cut: Name)
    requires OpenCut(env, cut)
    ensures Exempt(env, cut)
  {
    assert IsSubdomainOrEqual(cut, cut);
  }
}

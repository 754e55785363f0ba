/** Where the walk promises less than one would expect, shown on inputs: who can vouch
    for a record, what a forged alias does to a name error, and how little it takes
    for a set of keys to count as unsupported. */
module WalkExamples {
  import opened Octets
  import opened Names
  import opened Messages
  import opened Canonical
  import opened Encode
  import opened Signing
  import opened Trust
  import opened Spans
  import opened Aliases
  import opened Outcomes
  import opened Resolution
  import opened SigningProofs
  import opened SignedLayout
  import Answers
  import R = Resolver

  // ---- signatures as records ----

  function SigRR(owner: Name, s: RRSIG): RR
    requires LabelsOk(s.signerName)
  {
    RR(owner, TypeRRSIG, ClassIN, 0, 0, [], [], [], [], None, SigFields(s) + WireName(s.signerName) + s.signature)
  }

  /** The record of a signature reads back as the signature. */
  lemma SigParses(owner: Name, s: RRSIG)
    requires LabelsOk(s.signerName)
    ensures AsRRSIG(SigRR(owner, s)) == Some(s)
  {
    var rest := WireName(s.signerName) + s.signature;
    assert SigRR(owner, s).raw == SigFields(s) + rest;
    FieldsParse(s, rest);
    WireNameReads(s.signerName, s.signature);
  }

  lemma SigFound(front: seq<RR>, owner: Name, s: RRSIG)
    requires LabelsOk(s.signerName)
    ensures SigsFor(front + [SigRR(owner, s)], owner, s.typeCovered) == SigsFor(front, owner, s.typeCovered) + [s]
  {
    SigParses(owner, s);
    assert (front + [SigRR(owner, s)])[..|front|] == front;
  }

  lemma SigOfOther(front: seq<RR>, rr: RR, owner: Name, rtype: U16)
    requires rr.rtype != TypeRRSIG || !EqualName(rr.name, owner)
    ensures SigsFor(front + [rr], owner, rtype) == SigsFor(front, owner, rtype)
  {
    assert (front + [rr])[..|front|] == front;
  }

  // ---- a zone signing for names outside itself ----

  /** The holder of the key can sign anything with it. */
  ghost predicate CanSign(c: Crypto, k: DNSKEY) {
    && IsZoneKey(k) && k.algorithm in SIGNATURE_ALGORITHMS
    && forall data: Bytes {:trigger HasSignature(c, k, data)} :: HasSignature(c, k, data)
  }

  ghost predicate HasSignature(c: Crypto, k: DNSKEY, data: Bytes) {
    exists signature :: c.verify(k.algorithm, k.publicKey, data, signature)
  }

  /** A record any signer could write down. */
  predicate Signable(rr: RR) {
    LabelsOk(rr.name) && |rr.name| < 0x100 && CanonicalRData(rr).Some?
  }

  function AliasOf(name: Name, target: Name): RR {
    RR(name, TypeCNAME, ClassIN, 0, 0, [], [], [], target, None, [])
  }

  function AddressOf(name: Name, ip: Bytes): RR {
    RR(name, TypeA, ClassIN, 0, 0, ip, [], [], [], None, [])
  }

  /** A signature in the name of signer over records at name, valid now. */
  function Draft(name: Name, rtype: U16, signer: Name, k: DNSKEY, now: int, signature: Bytes): RRSIG
    requires |name| < 0x100
  {
    RRSIG(rtype, k.algorithm, |name|, 0, now % 0x1_0000_0000, now % 0x1_0000_0000, KeyTag(k), signer, signature)
  }

  lemma DraftApplies(rrset: seq<RR>, rtype: U16, signer: Name, k: DNSKEY, now: int, signature: Bytes)
    requires rrset != [] && OneSet(rrset, rtype) && LabelsOk(rrset[0].name) && |rrset[0].name| < 0x100
    requires RDatas(rrset).Some? && LabelsOk(signer) && IsSubdomainOrEqual(rrset[0].name, signer) && IsZoneKey(k)
    ensures var s := Draft(rrset[0].name, rtype, signer, k, now, signature);
            Applicable(rrset, s, k, now) && SignedData(rrset, s).Some?
  {}

  lemma OneRecord(rr: RR)
    requires CanonicalRData(rr).Some?
    ensures RDatas([rr]) == Some([CanonicalRData(rr).value])
  {
    assert [rr][..0] == [] && RDatas([]) == Some([]) && [] + [CanonicalRData(rr).value] == [CanonicalRData(rr).value];
  }

  /** Some signature in the name of any signer above the owner is valid. */
  lemma CanSignSet(c: Crypto, rrset: seq<RR>, rtype: U16, signer: Name, k: DNSKEY, now: int) returns (s: RRSIG)
    requires rrset != [] && OneSet(rrset, rtype) && LabelsOk(rrset[0].name) && |rrset[0].name| < 0x100
    requires RDatas(rrset).Some? && LabelsOk(signer) && IsSubdomainOrEqual(rrset[0].name, signer) && CanSign(c, k)
    ensures s == Draft(rrset[0].name, rtype, signer, k, now, s.signature) && VerifyRRSet(c, rrset, s, k, now) == Valid
  {
    var draft := Draft(rrset[0].name, rtype, signer, k, now, []);
    DraftApplies(rrset, rtype, signer, k, now, []);
    var data := SignedData(rrset, draft).value;
    assert HasSignature(c, k, data);
    var signature :| c.verify(k.algorithm, k.publicKey, data, signature);
    s := draft.(signature := signature);
    DraftApplies(rrset, rtype, signer, k, now, signature);
    SameData(rrset, draft, s);
  }

  /** The signature itself is not among the octets signed. */
  lemma SameData(rrset: seq<RR>, s: RRSIG, t: RRSIG)
    requires rrset != [] && s.(signature := t.signature) == t
    ensures SignedData(rrset, s) == SignedData(rrset, t)
  {}

  /** A key vouches for any record whatever, of any owner, in the name of any signer
      above it, wherever the record comes with the signature: the signer's name is
      checked against the owner, and neither against the zone the key belongs to. */
  lemma VouchesForAny(env: Env, k: DNSKEY, signer: Name, rr: RR, tick: nat)
      returns (section: seq<RR>, sig: RRSIG)
    requires During(env, tick) && CanSign(env.crypto, k) && Signable(rr)
    requires LabelsOk(signer) && IsSubdomainOrEqual(rr.name, signer)
    ensures LabelsOk(sig.signerName) && section == [rr, SigRR(rr.name, sig)] && sig.signerName == signer
    ensures sig in SigsFor(section, rr.name, rr.rtype)
    ensures VerifyRRSet(env.crypto, [rr], sig, k, Unix(env, tick)) == Valid
    ensures InVerifiedSet(env, section, rr, [rr], sig, [k])
  {
    OneRecord(rr);
    sig := CanSignSet(env.crypto, [rr], rr.rtype, signer, k, Unix(env, tick));
    section := [rr, SigRR(rr.name, sig)];
    assert section == [rr] + [SigRR(rr.name, sig)];
    SigFound([rr], rr.name, sig);
    InSet(env, section, rr, sig, k, tick);
  }

  lemma InSet(env: Env, section: seq<RR>, rr: RR, sig: RRSIG, k: DNSKEY, tick: nat)
    requires During(env, tick) && VerifyRRSet(env.crypto, [rr], sig, k, Unix(env, tick)) == Valid
    requires rr in section && sig in SigsFor(section, rr.name, rr.rtype)
    ensures InVerifiedSet(env, section, rr, [rr], sig, [k])
  {
    assert Signs(env, [rr], sig, k, tick);
    assert SignsWith(env, [rr], sig, [k], 0, tick);
  }

  /** In the name of this signer the key vouches for a record of this owner. */
  ghost predicate CanVouch(env: Env, k: DNSKEY, signer: Name, owner: Name) {
    exists section, rr, rrset, sig ::
      InVerifiedSet(env, section, rr, rrset, sig, [k]) && sig.signerName == signer && rr.name == owner
  }

  /** A comparison of the signer's name with the zone is what is missing: in the name of
      a signer the key can vouch for no owner outside the zone exactly if the signer is
      inside it. */
  lemma SignerDecides(env: Env, zone: Name, k: DNSKEY, signer: Name, tick: nat)
    requires During(env, tick) && CanSign(env.crypto, k) && LabelsOk(signer) && |signer| < 0x100
    ensures IsSubdomainOrEqual(signer, zone) <==>
              forall owner | CanVouch(env, k, signer, owner) :: IsSubdomainOrEqual(owner, zone)
  {
    if IsSubdomainOrEqual(signer, zone) {
      forall owner | CanVouch(env, k, signer, owner) ensures IsSubdomainOrEqual(owner, zone) {
        var section, rr, rrset, sig :|
          InVerifiedSet(env, section, rr, rrset, sig, [k]) && sig.signerName == signer && rr.name == owner;
        Answers.SignerInside(env, zone, [k], section, rrset, sig, rr);
      }
    } else {
      var rr := AddressOf(signer, [0, 0, 0, 0]);
      var section, sig := VouchesForAny(env, k, signer, rr, tick);
      assert CanVouch(env, k, signer, signer);
    }
  }

  /** A response with an alias and the address of its target, each with its signature. */
  function Foreign(q: Name, v: Name, ip: Bytes, s: RRSIG, t: RRSIG): seq<RR>
    requires LabelsOk(s.signerName) && LabelsOk(t.signerName)
  {
    [AliasOf(q, v), SigRR(q, s), AddressOf(v, ip), SigRR(v, t)]
  }

  /** The two signatures, by one key, in the name of the root. */
  ghost predicate BothSigned(c: Crypto, k: DNSKEY, q: Name, v: Name, ip: Bytes, s: RRSIG, t: RRSIG, now: int) {
    && s.signerName == [] && t.signerName == [] && s.typeCovered == TypeCNAME && t.typeCovered == TypeA
    && s.labels as int == |q| && t.labels as int == |v|
    && VerifyRRSet(c, [AliasOf(q, v)], s, k, now) == Valid && VerifyRRSet(c, [AddressOf(v, ip)], t, k, now) == Valid
  }

  /** Any zone key can make them. */
  lemma ForeignSignable(c: Crypto, k: DNSKEY, q: Name, v: Name, ip: Bytes, now: int) returns (s: RRSIG, t: RRSIG)
    requires CanSign(c, k) && LabelsOk(q) && |q| < 0x100 && LabelsOk(v) && |v| < 0x100 && |ip| == 4
    ensures BothSigned(c, k, q, v, ip, s, t, now)
  {
    var alias, address := AliasOf(q, v), AddressOf(v, ip);
    OneRecord(alias);
    OneRecord(address);
    s := CanSignSet(c, [alias], TypeCNAME, [], k, now);
    t := CanSignSet(c, [address], TypeA, [], k, now);
  }

  lemma ForeignSigs(q: Name, v: Name, ip: Bytes, s: RRSIG, t: RRSIG)
    requires s.signerName == [] && t.signerName == [] && s.typeCovered == TypeCNAME && t.typeCovered == TypeA
    requires !EqualName(q, v)
    ensures SigsFor(Foreign(q, v, ip, s, t), q, TypeCNAME) == [s] && SigsFor(Foreign(q, v, ip, s, t), v, TypeA) == [t]
  {
    var alias, address := AliasOf(q, v), AddressOf(v, ip);
    var two := [alias] + [SigRR(q, s)];
    var three := two + [address];
    assert Foreign(q, v, ip, s, t) == three + [SigRR(v, t)];
    SigOfOther([], alias, q, TypeCNAME);
    SigOfOther([], alias, v, TypeA);
    assert [] + [alias] == [alias];
    SigFound([alias], q, s);
    SigOfOther([alias], SigRR(q, s), v, TypeA);
    SigOfOther(two, address, q, TypeCNAME);
    SigOfOther(two, address, v, TypeA);
    SigOfOther(three, SigRR(v, t), q, TypeCNAME);
    SigFound(three, v, t);
  }

  lemma ForeignShape(q: Name, v: Name, ip: Bytes)
    ensures var recs := [AliasOf(q, v), AddressOf(v, ip)];
            Follows(q, TypeA, recs) && AllIn(recs) && Links(TypeA, recs) == 1
  {
    var alias, address := AliasOf(q, v), AddressOf(v, ip);
    assert [alias, address][1..] == [address] && AllFinal(v, TypeA, [address]);
    assert Links(TypeA, [address]) == 0;
  }

  lemma PickedLast(front: seq<RR>, rr: RR, rtype: U16, name: Name)
    ensures RecordsOfType(front + [rr], rtype, name) ==
              RecordsOfType(front, rtype, name) + if IsOf(rr, rtype, name) then [rr] else []
    ensures LastAlias(front + [rr], name, rtype) ==
              if IsLink(rr, name) && rr.rtype != rtype then Some(rr) else LastAlias(front, name, rtype)
  {
    assert (front + [rr])[..|front|] == front;
  }

  lemma ForeignPicked(q: Name, v: Name, ip: Bytes, s: RRSIG, t: RRSIG, name: Name)
    requires s.signerName == [] && t.signerName == []
    ensures var section := Foreign(q, v, ip, s, t);
            && RecordsOfType(section, TypeA, name) == (if EqualName(v, name) then [AddressOf(v, ip)] else [])
            && LastAlias(section, name, TypeA) == if EqualName(q, name) then Some(AliasOf(q, v)) else None
  {
    var alias, address := AliasOf(q, v), AddressOf(v, ip);
    var two := [alias] + [SigRR(q, s)];
    var three := two + [address];
    assert Foreign(q, v, ip, s, t) == three + [SigRR(v, t)];
    assert [] + [alias] == [alias];
    PickedLast([], alias, TypeA, name);
    PickedLast([alias], SigRR(q, s), TypeA, name);
    PickedLast(two, address, TypeA, name);
    PickedLast(three, SigRR(v, t), TypeA, name);
  }

  /** It is followed to the address. */
  lemma ForeignFollowed(q: Name, v: Name, ip: Bytes, s: RRSIG, t: RRSIG)
    requires !EqualName(q, v) && s.signerName == [] && t.signerName == []
    ensures Chase(Foreign(q, v, ip, s, t), q, TypeA, 0) == Chased([AliasOf(q, v)], v, [AddressOf(v, ip)])
  {
    var section, alias := Foreign(q, v, ip, s, t), AliasOf(q, v);
    ForeignPicked(q, v, ip, s, t, q);
    ForeignPicked(q, v, ip, s, t, v);
    ChasedOnce(section, q, TypeA, alias, [AddressOf(v, ip)]);
  }

  /** One alias, to a name that has none and the records asked for. */
  lemma ChasedOnce(section: seq<RR>, q: Name, qtype: U16, alias: RR, found: seq<RR>)
    requires RecordsOfType(section, qtype, q) == [] && LastAlias(section, q, qtype) == Some(alias)
    requires RecordsOfType(section, qtype, alias.cname) == found && LastAlias(section, alias.cname, qtype) == None
    ensures Chase(section, q, qtype, 0) == Chased([alias], alias.cname, found)
  {
    assert Chase(section, alias.cname, qtype, 1) == Chased([], alias.cname, found);
    assert Chase(section, q, qtype, 0) == Longer([alias], Chase(section, alias.cname, qtype, 1));
    assert [alias] + [] == [alias];
  }

  lemma PairPicked(q: Name, v: Name, ip: Bytes)
    requires !EqualName(q, v)
    ensures var recs := [AliasOf(q, v), AddressOf(v, ip)];
            && RecordsOfType(recs, TypeCNAME, q) == [AliasOf(q, v)]
            && RecordsOfType(recs, TypeA, v) == [AddressOf(v, ip)]
  {
    var alias, address := AliasOf(q, v), AddressOf(v, ip);
    assert [alias, address] == [alias] + [address] && [] + [alias] == [alias];
    PickedLast([], alias, TypeCNAME, q);
    PickedLast([alias], address, TypeCNAME, q);
    PickedLast([], alias, TypeA, v);
    PickedLast([alias], address, TypeA, v);
  }

  /** Each set of it has one signature, valid and made for its own name. */
  lemma ForeignPlain(c: Crypto, k: DNSKEY, q: Name, v: Name, ip: Bytes, s: RRSIG, t: RRSIG, now: int)
    requires BothSigned(c, k, q, v, ip, s, t, now) && !EqualName(q, v)
    ensures AllPlainlySigned(c, [AliasOf(q, v), AddressOf(v, ip)], Foreign(q, v, ip, s, t), [k], now)
  {
    var alias, address, section := AliasOf(q, v), AddressOf(v, ip), Foreign(q, v, ip, s, t);
    ForeignSigs(q, v, ip, s, t);
    PairPicked(q, v, ip);
    OnePlainly(c, alias, section, k, s, now);
    OnePlainly(c, address, section, k, t, now);
  }

  lemma OnePlainly(c: Crypto, rr: RR, section: seq<RR>, k: DNSKEY, s: RRSIG, now: int)
    requires SigsFor(section, rr.name, rr.rtype) == [s] && s.labels as int == |rr.name|
    requires VerifyRRSet(c, [rr], s, k, now) == Valid
    ensures PlainlySigned(c, [rr], section, [k], now)
  {
    assert SetHasBy(c, [rr], section, [k], now, Valid, s, k);
  }

  lemma ForeignEarned(env: Env, zone: Name, k: DNSKEY, q: Name, v: Name, ip: Bytes, s: RRSIG, t: RRSIG, msg: Message,
                      tick: nat)
    requires TrustedKeys(env, zone, [k]) && IsSubdomainOrEqual(q, zone) && !EqualName(q, v) && During(env, tick)
    requires BothSigned(env.crypto, k, q, v, ip, s, t, Unix(env, tick))
    requires Received(env, msg, q, TypeA) && msg.answers == Foreign(q, v, ip, s, t)
    ensures EarnedBy(env, q, TypeA, AliasOf(q, v), zone, [k], msg, [AliasOf(q, v)], s)
    ensures EarnedBy(env, q, TypeA, AddressOf(v, ip), zone, [k], msg, [AddressOf(v, ip)], t)
  {
    ForeignSigs(q, v, ip, s, t);
    assert msg.answers[0] == AliasOf(q, v) && msg.answers[2] == AddressOf(v, ip);
    InSet(env, msg.answers, AliasOf(q, v), s, k, tick);
    InSet(env, msg.answers, AddressOf(v, ip), t, k, tick);
  }

  lemma Earns(env: Env, name: Name, qtype: U16, rr: RR, zone: Name, ks: seq<DNSKEY>, msg: Message, rrset: seq<RR>,
              sig: RRSIG)
    requires EarnedBy(env, name, qtype, rr, zone, ks, msg, rrset, sig)
    ensures Earned(env, name, qtype, rr)
  {
    assert EarnedIn(env, name, qtype, msg, rr);
  }

  lemma ForeignSecure(env: Env, zone: Name, k: DNSKEY, q: Name, v: Name, ip: Bytes, s: RRSIG, t: RRSIG, msg: Message,
                      tick: nat)
    requires TrustedKeys(env, zone, [k]) && IsSubdomainOrEqual(q, zone) && !EqualName(q, v) && During(env, tick)
    requires BothSigned(env.crypto, k, q, v, ip, s, t, Unix(env, tick))
    requires Received(env, msg, q, TypeA) && msg.answers == Foreign(q, v, ip, s, t)
    ensures SecureMeans(env, q, TypeA, [AliasOf(q, v), AddressOf(v, ip)])
  {
    var recs := [AliasOf(q, v), AddressOf(v, ip)];
    ForeignShape(q, v, ip);
    ForeignEarned(env, zone, k, q, v, ip, s, t, msg, tick);
    Earns(env, q, TypeA, recs[0], zone, [k], msg, [recs[0]], s);
    Earns(env, q, TypeA, recs[1], zone, [k], msg, [recs[1]], t);
    SecureHere(env, q, TypeA, recs);
  }

  /** So the answer for a name of the zone can end, called secure, in an address of a
      name the zone does not enclose: with both signatures in the response and both
      valid, it is a promised outcome. */
  lemma ForeignAnswerSecure(env: Env, zone: Name, k: DNSKEY, q: Name, v: Name, ip: Bytes, s: RRSIG, t: RRSIG,
                            msg: Message, tick: nat)
    requires TrustedKeys(env, zone, [k]) && During(env, tick)
    requires IsSubdomainOrEqual(q, zone) && !IsSubdomainOrEqual(v, zone)
    requires BothSigned(env.crypto, k, q, v, ip, s, t, Unix(env, tick))
    requires Received(env, msg, q, TypeA) && msg.answers == Foreign(q, v, ip, s, t) && msg.header.rcode == 0
    ensures SigsFor(msg.answers, q, TypeCNAME) == [s] && SigsFor(msg.answers, v, TypeA) == [t]
    ensures Chase(msg.answers, q, TypeA, 0) == Chased([AliasOf(q, v)], v, [AddressOf(v, ip)])
    ensures Promised(env, true, q, TypeA, 0, Resolved(Result([AliasOf(q, v), AddressOf(v, ip)], [], true)))
  {
    ForeignSigs(q, v, ip, s, t);
    ForeignFollowed(q, v, ip, s, t);
    ForeignShape(q, v, ip);
    ForeignSecure(env, zone, k, q, v, ip, s, t, msg, tick);
    assert msg.answers[0] == AliasOf(q, v) && msg.answers[2] == AddressOf(v, ip);
    GivenHere(env, q, TypeA, [AliasOf(q, v), AddressOf(v, ip)], msg);
    R.AnswerEnds(env, q, TypeA, 0, msg, Chased([AliasOf(q, v)], v, [AddressOf(v, ip)]));
    assert [AliasOf(q, v)] + [AddressOf(v, ip)] == [AliasOf(q, v), AddressOf(v, ip)];
  }

  /** And not only promised: the check of the answer accepts it. */
  method ForeignAnswerAccepted(r: R.Resolver, zone: Name, k: DNSKEY, q: Name, v: Name, ip: Bytes, s: RRSIG, t: RRSIG,
      msg: Message, ghost now: int) returns (secure: Option<bool>)
    requires r.validate && TrustedKeys(r.Here(0), zone, [k])
    requires IsSubdomainOrEqual(q, zone) && !IsSubdomainOrEqual(v, zone)
    requires BothSigned(r.env.crypto, k, q, v, ip, s, t, now) && forall n: nat :: Unix(r.env, n) == now
    requires Received(r.Here(0), msg, q, TypeA) && msg.answers == Foreign(q, v, ip, s, t)
    modifies r`ticks
    ensures secure == Some(true)
  {
    var recs := [AliasOf(q, v), AddressOf(v, ip)];
    ForeignPlain(r.env.crypto, k, q, v, ip, s, t, now);
    assert msg.answers[0] == recs[0] && msg.answers[2] == recs[1];
    secure := r.ValidateAnswer(SecState(true, [k]), msg, recs, zone, q, TypeA, 0, now);
    assert Steady(r.env, old(r.ticks), r.ticks, now);
  }

  // ---- a forged alias ----

  /** One unsigned alias, from any name to one that is provably missing: following it
      leads there, and the error of its end is a promised outcome for the name asked
      for, whatever that name holds. */
  lemma ForgedAlias(env: Env, qname: Name, n: Name, qtype: U16, soa: Option<RR>, msg: Message, error: Message)
    requires qtype != TypeCNAME && !EqualName(qname, n) && NameErrorMeans(env, n, qtype)
    requires ErrorGiven(env, n, qtype, soa, error)
    requires Received(env, msg, qname, qtype) && msg.answers == [AliasOf(qname, n)]
    ensures SigsFor(msg.answers, qname, TypeCNAME) == []
    ensures Chase(msg.answers, qname, qtype, 0) == Chased(msg.answers, n, [])
    ensures Promised(env, true, qname, qtype, 0, Failed(NXDomain(n, soa)))
  {
    var forged := AliasOf(qname, n);
    assert [forged][..0] == [] && SigsFor([], qname, TypeCNAME) == [];
    assert RecordsOfType([], qtype, qname) == [] && RecordsOfType([], qtype, n) == [];
    assert RecordsOfType([forged], qtype, qname) == [] && RecordsOfType([forged], qtype, n) == [];
    assert LastAlias([], n, qtype) == None && LastAlias([forged], n, qtype) == None;
    ChasedOnce([forged], qname, qtype, forged, []);
    ErrorThere(env, qname, n, qtype, soa, forged, msg, error);
  }

  lemma ErrorThere(env: Env, qname: Name, n: Name, qtype: U16, soa: Option<RR>, alias: RR, msg: Message, error: Message)
    requires qtype != TypeCNAME && alias == AliasOf(qname, n) && NameErrorMeans(env, n, qtype)
    requires ErrorGiven(env, n, qtype, soa, error)
    requires Received(env, msg, qname, qtype) && alias in msg.answers
    ensures LeadsTo(env, qname, qtype, 0, [alias], n)
    ensures Promised(env, true, qname, qtype, 0, Failed(NXDomain(n, soa)))
  {
    AliasLeads(env, qname, n, qtype, alias, msg);
    assert FailsVia(env, true, qname, qtype, 0, NXDomain(n, soa), [alias], n);
  }

  /** Any alias in a response leads to its target. */
  lemma AliasLeads(env: Env, qname: Name, n: Name, qtype: U16, alias: RR, msg: Message)
    requires qtype != TypeCNAME && alias == AliasOf(qname, n)
    requires Received(env, msg, qname, qtype) && alias in msg.answers
    ensures LeadsTo(env, qname, qtype, 0, [alias], n)
  {
    assert [alias][1..] == [] && IsChain(n, [], n) && IsChain(qname, [alias], n);
    GivenHere(env, qname, qtype, [alias], msg);
  }

  // ---- keys that count as unsupported ----

  /** The digest names the key, by tag and algorithm, for a zone that has a wire form. */
  predicate NamesKey(zone: Name, ds: DS, k: DNSKEY) {
    ds.keyTag == KeyTag(k) && ds.algorithm == k.algorithm && LabelsOk(zone)
  }

  /** It is of a kind that is checked, and the key's. */
  predicate DigestFits(c: Crypto, zone: Name, ds: DS, k: DNSKEY) {
    && NamesKey(zone, ds, k) && ds.digestType in DIGEST_TYPES
    && c.digest(ds.digestType, CanonicalName(zone).value + KeyRData(k)) == ds.digest
  }

  predicate DigestUnknown(zone: Name, ds: DS, k: DNSKEY) {
    NamesKey(zone, ds, k) && ds.digestType !in DIGEST_TYPES
  }

  function KeySet(section: seq<RR>, zone: Name): seq<RR> {
    RecordsOfType(section, TypeDNSKEY, zone)
  }

  /** The section holds a signature over the key set that the key could have made now. */
  predicate MadeBy(zone: Name, section: seq<RR>, k: DNSKEY, sig: RRSIG, now: int) {
    var all := KeySet(section, zone);
    && all != [] && sig in SigsFor(section, all[0].name, all[0].rtype)
    && Applicable(all, sig, k, now) && SignedData(all, sig).Some?
  }

  /** One that is made with an algorithm that can be checked, and verifies. */
  ghost predicate SetSigned(c: Crypto, zone: Name, section: seq<RR>, k: DNSKEY, now: int) {
    exists sig :: MadeBy(zone, section, k, sig, now) && k.algorithm in SIGNATURE_ALGORITHMS
        && c.verify(k.algorithm, k.publicKey, SignedData(KeySet(section, zone), sig).value, sig.signature)
  }

  /** One that is made with any other. */
  ghost predicate SetSignedBlindly(zone: Name, section: seq<RR>, k: DNSKEY, now: int) {
    exists sig :: MadeBy(zone, section, k, sig, now) && k.algorithm !in SIGNATURE_ALGORITHMS
  }

  ghost predicate VouchedPair(c: Crypto, zone: Name, section: seq<RR>, k: DNSKEY, ds: DS, now: int) {
    DigestFits(c, zone, ds, k) && SetSigned(c, zone, section, k, now)
  }

  ghost predicate UncheckedPair(c: Crypto, zone: Name, section: seq<RR>, k: DNSKEY, ds: DS, now: int) {
    DigestUnknown(zone, ds, k) || (DigestFits(c, zone, ds, k) && SetSignedBlindly(zone, section, k, now))
  }

  lemma DigestExact(c: Crypto, zone: Name, k: DNSKEY, ds: DS)
    ensures VerifyDS(c, zone, k, ds) == Valid <==> DigestFits(c, zone, ds, k)
    ensures VerifyDS(c, zone, k, ds) == Check.Unsupported <==> DigestUnknown(zone, ds, k)
  {}

  lemma OneExact(c: Crypto, zone: Name, section: seq<RR>, k: DNSKEY, sig: RRSIG, now: int)
    ensures SetHasBy(c, KeySet(section, zone), section, [k], now, Valid, sig, k) <==>
              MadeBy(zone, section, k, sig, now) && k.algorithm in SIGNATURE_ALGORITHMS
              && c.verify(k.algorithm, k.publicKey, SignedData(KeySet(section, zone), sig).value, sig.signature)
    ensures SetHasBy(c, KeySet(section, zone), section, [k], now, Check.Unsupported, sig, k) <==>
              MadeBy(zone, section, k, sig, now) && k.algorithm !in SIGNATURE_ALGORITHMS
  {}

  lemma SetExact(c: Crypto, zone: Name, section: seq<RR>, k: DNSKEY, now: int, v: Check)
    requires v != Invalid
    ensures SetHas(c, KeySet(section, zone), section, [k], now, v) <==>
              if v == Valid then SetSigned(c, zone, section, k, now) else SetSignedBlindly(zone, section, k, now)
  {
    if sig, key :| SetHasBy(c, KeySet(section, zone), section, [k], now, v, sig, key) {
      OneExact(c, zone, section, k, sig, now);
    }
    if v == Valid {
      if SetSigned(c, zone, section, k, now) {
        var sig :| MadeBy(zone, section, k, sig, now) && k.algorithm in SIGNATURE_ALGORITHMS
            && c.verify(k.algorithm, k.publicKey, SignedData(KeySet(section, zone), sig).value, sig.signature);
        OneExact(c, zone, section, k, sig, now);
      }
    } else if SetSignedBlindly(zone, section, k, now) {
      var sig :| MadeBy(zone, section, k, sig, now) && k.algorithm !in SIGNATURE_ALGORITHMS;
      OneExact(c, zone, section, k, sig, now);
    }
  }

  lemma PairExact(c: Crypto, zone: Name, section: seq<RR>, k: DNSKEY, ds: DS, now: int)
    ensures PairGood(c, zone, section, k, ds, now) <==> VouchedPair(c, zone, section, k, ds, now)
    ensures PairBlind(c, zone, section, k, ds, now) <==> UncheckedPair(c, zone, section, k, ds, now)
  {
    DigestExact(c, zone, k, ds);
    SetExact(c, zone, section, k, now, Valid);
    SetExact(c, zone, section, k, now, Check.Unsupported);
  }

  ghost predicate SomeVouched(c: Crypto, zone: Name, section: seq<RR>, anchors: seq<DS>, now: int) {
    exists k, ds | k in KeysIn(section, zone) && ds in anchors :: VouchedPair(c, zone, section, k, ds, now)
  }

  ghost predicate SomeUnchecked(c: Crypto, zone: Name, section: seq<RR>, anchors: seq<DS>, now: int) {
    exists k, ds | k in KeysIn(section, zone) && ds in anchors :: UncheckedPair(c, zone, section, k, ds, now)
  }

  lemma KeysExact(c: Crypto, zone: Name, section: seq<RR>, anchors: seq<DS>, now: int)
    ensures KeysGood(c, zone, section, anchors, now) <==> SomeVouched(c, zone, section, anchors, now)
    ensures KeysBlind(c, zone, section, anchors, now) <==> SomeUnchecked(c, zone, section, anchors, now)
  {
    forall k, ds ensures PairGood(c, zone, section, k, ds, now) <==> VouchedPair(c, zone, section, k, ds, now) {
      PairExact(c, zone, section, k, ds, now);
    }
    forall k, ds ensures PairBlind(c, zone, section, k, ds, now) <==> UncheckedPair(c, zone, section, k, ds, now) {
      PairExact(c, zone, section, k, ds, now);
    }
  }

  /** What comes of a reply with a zone's keys. They are accepted exactly if a digest
      that can be checked fits a key whose signature over the set is there, can be
      checked and verifies. The zone counts as unsigned exactly if there is no such
      pair, but a digest of an unknown kind that names a key, or a digest that fits a
      key whose signature over the set is there and cannot be checked. */
  lemma UncheckedExact(r: R.Resolver, zone: Name, anchors: seq<DS>, msg: Message, now: int, ks: Option<seq<DNSKEY>>)
    requires r.KeysDecided(zone, anchors, Answered(msg), now, ks)
    ensures ks.Some? && ks.value != [] <==> SomeVouched(r.env.crypto, zone, msg.answers, anchors, now)
    ensures ks == Some([]) <==> !SomeVouched(r.env.crypto, zone, msg.answers, anchors, now)
                                && SomeUnchecked(r.env.crypto, zone, msg.answers, anchors, now)
  {
    assert Opened(Door.Fetches, 0);
    KeysExact(r.env.crypto, zone, msg.answers, anchors, now);
  }

  function KeyRR(zone: Name, k: DNSKEY): RR {
    RR(zone, TypeDNSKEY, ClassIN, 0, 0, [], [], [], [], None, KeyRData(k))
  }

  lemma KeySnoc(front: seq<RR>, zone: Name, k: DNSKEY)
    ensures KeySet(front + [KeyRR(zone, k)], zone) == KeySet(front, zone) + [KeyRR(zone, k)]
    ensures KeysIn(front + [KeyRR(zone, k)], zone) == KeysIn(front, zone) + [k]
  {
    KeyParses(k);
    PickedLast(front, KeyRR(zone, k), TypeDNSKEY, zone);
    assert (KeySet(front, zone) + [KeyRR(zone, k)])[..|KeySet(front, zone)|] == KeySet(front, zone);
  }

  /** A zone with one key and two digests of it, one of an unknown kind and one that
      can be checked and does not match: the zone counts as unsigned, not as bogus. */
  lemma OneUnknownDigest(c: Crypto, zone: Name, k: DNSKEY, digest: Bytes, now: int)
      returns (section: seq<RR>, anchors: seq<DS>)
    requires LabelsOk(zone) && c.digest(2, CanonicalName(zone).value + KeyRData(k)) != digest
    ensures anchors == [DS(KeyTag(k), k.algorithm, 1, []), DS(KeyTag(k), k.algorithm, 2, digest)]
    ensures KeysIn(section, zone) == [k] && VerifyDS(c, zone, k, anchors[1]) == Invalid
    ensures !SomeVouched(c, zone, section, anchors, now) && SomeUnchecked(c, zone, section, anchors, now)
  {
    section := [] + [KeyRR(zone, k)];
    KeySnoc([], zone, k);
    anchors := [DS(KeyTag(k), k.algorithm, 1, []), DS(KeyTag(k), k.algorithm, 2, digest)];
    assert anchors[0] in anchors && UncheckedPair(c, zone, section, k, anchors[0], now);
  }

  // ---- a stripped signature ----

  function DigestOf(c: Crypto, zone: Name, k: DNSKEY): DS
    requires LabelsOk(zone)
  {
    DS(KeyTag(k), k.algorithm, 2, c.digest(2, CanonicalName(zone).value + KeyRData(k)))
  }

  function BothKeys(zone: Name, j: DNSKEY, k: DNSKEY): seq<RR> {
    [KeyRR(zone, j), KeyRR(zone, k)]
  }

  lemma BothKeysRead(zone: Name, j: DNSKEY, k: DNSKEY)
    ensures KeySet(BothKeys(zone, j, k), zone) == BothKeys(zone, j, k) && KeysIn(BothKeys(zone, j, k), zone) == [j, k]
  {
    var one := KeyRR(zone, j);
    assert BothKeys(zone, j, k) == [one] + [KeyRR(zone, k)] && [] + [one] == [one];
    KeySnoc([], zone, j);
    KeySnoc([one], zone, k);
  }

  lemma BothKeysUnsigned(zone: Name, j: DNSKEY, k: DNSKEY)
    ensures RDatas(BothKeys(zone, j, k)).Some? && SigsFor(BothKeys(zone, j, k), zone, TypeDNSKEY) == []
  {
    var one, two := KeyRR(zone, j), KeyRR(zone, k);
    assert BothKeys(zone, j, k) == [one] + [two] && [] + [one] == [one];
    SigOfOther([], one, zone, TypeDNSKEY);
    SigOfOther([one], two, zone, TypeDNSKEY);
    OneRecord(one);
    assert BothKeys(zone, j, k)[..1] == [one];
  }

  lemma SigAdded(front: seq<RR>, zone: Name, s: RRSIG)
    requires LabelsOk(s.signerName) && s.typeCovered == TypeDNSKEY
    ensures KeySet(front + [SigRR(zone, s)], zone) == KeySet(front, zone)
    ensures SigsFor(front + [SigRR(zone, s)], zone, TypeDNSKEY) == SigsFor(front, zone, TypeDNSKEY) + [s]
  {
    PickedLast(front, SigRR(zone, s), TypeDNSKEY, zone);
    SigFound(front, zone, s);
  }

  /** A zone with a key that can be checked and one that cannot, a fitting digest of
      each, and a valid signature of each over the set. With both signatures in the
      reply the keys are accepted; with the first one taken out, which anybody on the
      way can do, the zone counts as unsigned. */
  lemma StrippedSignature(c: Crypto, zone: Name, j: DNSKEY, k: DNSKEY, now: int)
      returns (stripped: seq<RR>, taken: RR, anchors: seq<DS>)
    requires LabelsOk(zone) && |zone| < 0x100 && CanSign(c, j) && IsZoneKey(k) && k.algorithm !in SIGNATURE_ALGORITHMS
    ensures anchors == [DigestOf(c, zone, j), DigestOf(c, zone, k)] && AsRRSIG(taken).Some?
    ensures KeysIn(stripped, zone) == KeysIn(stripped + [taken], zone) == [j, k]
    ensures SomeVouched(c, zone, stripped + [taken], anchors, now)
    ensures !SomeVouched(c, zone, stripped, anchors, now) && SomeUnchecked(c, zone, stripped, anchors, now)
  {
    var both := BothKeys(zone, j, k);
    BothKeysRead(zone, j, k);
    BothKeysUnsigned(zone, j, k);
    var s := CanSignSet(c, both, TypeDNSKEY, zone, j, now);
    var t := Draft(zone, TypeDNSKEY, zone, k, now, []);
    DraftApplies(both, TypeDNSKEY, zone, k, now, []);
    anchors := [DigestOf(c, zone, j), DigestOf(c, zone, k)];
    stripped, taken := both + [SigRR(zone, t)], SigRR(zone, s);
    SigAdded(both, zone, t);
    SigAdded(stripped, zone, s);
    SigParses(zone, s);
    assert SigsFor(stripped, zone, TypeDNSKEY) == [t] && s in SigsFor(stripped + [taken], zone, TypeDNSKEY);
    StillVouched(c, zone, stripped + [taken], anchors, j, s, now);
    OnlyBlind(c, zone, stripped, anchors, k, t, now);
  }

  lemma StillVouched(c: Crypto, zone: Name, section: seq<RR>, anchors: seq<DS>, j: DNSKEY, s: RRSIG, now: int)
    requires LabelsOk(zone) && j in KeysIn(section, zone) && DigestOf(c, zone, j) in anchors
    requires var all := KeySet(section, zone);
             && all != [] && all[0].name == zone && all[0].rtype == TypeDNSKEY
             && s in SigsFor(section, zone, TypeDNSKEY) && VerifyRRSet(c, all, s, j, now) == Valid
    ensures SomeVouched(c, zone, section, anchors, now)
  {
    assert MadeBy(zone, section, j, s, now);
    assert VouchedPair(c, zone, section, j, DigestOf(c, zone, j), now);
  }

  lemma OnlyBlind(c: Crypto, zone: Name, section: seq<RR>, anchors: seq<DS>, k: DNSKEY, t: RRSIG, now: int)
    requires LabelsOk(zone) && k in KeysIn(section, zone) && DigestOf(c, zone, k) in anchors
    requires k.algorithm !in SIGNATURE_ALGORITHMS && t.algorithm == k.algorithm
    requires var all := KeySet(section, zone);
             && all != [] && all[0].name == zone && all[0].rtype == TypeDNSKEY
             && SigsFor(section, zone, TypeDNSKEY) == [t] && Applicable(all, t, k, now) && SignedData(all, t).Some?
    ensures !SomeVouched(c, zone, section, anchors, now) && SomeUnchecked(c, zone, section, anchors, now)
  {
    assert MadeBy(zone, section, k, t, now);
    assert UncheckedPair(c, zone, section, k, DigestOf(c, zone, k), now);
    forall j, sig | MadeBy(zone, section, j, sig, now) ensures j.algorithm !in SIGNATURE_ALGORITHMS {}
  }
}

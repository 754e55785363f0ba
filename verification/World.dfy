/** What the resolver's promises mean in a world: the chain of trust, the signatures
    and the denial proofs put together. Nothing is assumed of any zone but where a
    statement says so, and then only of the zone whose keys did the signing: that it
    signs nothing but what it holds. */
module World {
  import opened Octets
  import opened Names
  import opened Messages
  import opened Canonical
  import opened Nsec3
  import opened Denial
  import opened Signing
  import opened Zones
  import opened Gaps
  import opened Trust
  import opened Aliases
  import opened Outcomes
  import DenialProofs
  import N3 = Nsec3Proofs

  /** What a zone holds: its owners and types, which of its names are hashed if it is
      signed with NSEC3, and its data in canonical form. */
  datatype Holdings = Holdings(hz: N3.HashedZone, data: (Name, U16) -> set<Bytes>)
  {
    function Zone(): Zone { hz.zone }
  }

  /** The holdings of every zone, by its lowercased name. */
  datatype World = World(at: Name -> Holdings)
  {
    function At(zone: Name): Holdings { at(Canon(zone)) }
  }

  /** The types and the data of a zone agree, and an alias stands alone (section 3.6.2
      of RFC 1034). Signatures are not data, and hashed names own nothing. */
  ghost predicate Agrees(h: Holdings) {
    forall j {:trigger Opened(Door.Zones, j)} | Opened(Door.Zones, j) ::
      && (forall n, t: U16 {:trigger h.data(n, t)} | t != TypeRRSIG && t != TypeNSEC3 ::
            h.data(n, t) != {} <==> n in h.Zone().types && t in h.Zone().types[n])
      && (forall n {:trigger h.Zone().Owns(n)} | h.Zone().Owns(n) && TypeCNAME in h.Zone().types[n] ::
            h.Zone().types[n] <= {TypeCNAME, TypeRRSIG, TypeNSEC})
  }

  /** The zone has data of this type to sign: at a delegation only the DS and the
      denial record are its own (section 2.2 of RFC 4035). */
  predicate Authoritative(z: Zone, owner: Name, rtype: U16) {
    owner in z.types && rtype in z.types[owner] && (z.IsCut(owner) ==> rtype == TypeDS || rtype == TypeNSEC)
  }

  /** The holdings have this very record, under the name a signature that counts this
      many labels was made for. Hashed names are not among the owners, and are directly
      below the apex. */
  ghost predicate HeldIn(h: Holdings, rr: RR, labels: Octet) {
    var owner, d, z := Canon(SignedOwnerName(rr.name, labels)), CanonicalRData(rr), h.Zone();
    && d.Some? && d.value in h.data(owner, rr.rtype)
    && if rr.rtype == TypeNSEC3 then owner != [] && owner[1..] == z.apex else Authoritative(z, owner, rr.rtype)
  }

  ghost predicate OwnNsec3(hs: HashSuite, hz: N3.HashedZone, owner: Name, n: NSEC3) {
    && hz.Valid() && owner != [] && EqualName(owner[1..], hz.zone.apex)
    && N3.Authentic(hs, hz, Nsec3Record(UpperAll(owner[0]), owner[1..], n))
  }

  /** A record an honest signer would put its signature on: one it holds, and of its
      chain if it is a denial record. */
  ghost predicate Own(hs: HashSuite, h: Holdings, rr: RR, sig: RRSIG) {
    var owner := SignedOwnerName(rr.name, sig.labels);
    && HeldIn(h, rr, sig.labels)
    && (AsNSEC(rr).Some? ==> DenialProofs.Authentic(h.Zone(), NsecRecord(owner, AsNSEC(rr).value)))
    && (AsNSEC3(rr).Some? ==> OwnNsec3(hs, h.hz, owner, AsNSEC3(rr).value))
  }

  ghost predicate AllOwn(hs: HashSuite, h: Holdings, rrset: seq<RR>, sig: RRSIG) {
    forall i | 0 <= i < |rrset| :: Own(hs, h, rrset[i], sig)
  }

  /** Every set that verifies under the zone's trusted keys is one it holds. The zone is
      not itself named by a wildcard. */
  ghost predicate Honest(env: Env, w: World, zone: Name) {
    && w.At(zone).Zone().Tree() && w.At(zone).Zone().apex == Canon(zone) && Agrees(w.At(zone))
    && (zone == [] || zone[0] != [STAR])
    && (forall ks, rrset, sig {:trigger TrustedKeys(env, zone, ks), SignedBy(env, rrset, sig, ks)} |
          TrustedKeys(env, zone, ks) && SignedBy(env, rrset, sig, ks) :: AllOwn(env.hs, w.At(zone), rrset, sig))
  }

  lemma SignedIsOwn(env: Env, w: World, zone: Name, ks: seq<DNSKEY>, section: seq<RR>, rrset: seq<RR>, sig: RRSIG,
                    rr: RR)
    requires Honest(env, w, zone) && TrustedKeys(env, zone, ks) && InVerifiedSet(env, section, rr, rrset, sig, ks)
    ensures Own(env.hs, w.At(zone), rr, sig)
  {
    assert AllOwn(env.hs, w.At(zone), rrset, sig);
    var i :| 0 <= i < |rrset| && rrset[i] == rr;
  }

  /** A record that was verified with an honest zone's keys is held by that zone: this
      type, this data, and an owner inside the zone. */
  lemma VerifiedIsHeld(env: Env, w: World, zone: Name, ks: seq<DNSKEY>, section: seq<RR>, rrset: seq<RR>, sig: RRSIG,
                       rr: RR)
    requires Honest(env, w, zone) && TrustedKeys(env, zone, ks) && InVerifiedSet(env, section, rr, rrset, sig, ks)
    ensures HeldIn(w.At(zone), rr, sig.labels) && IsSubdomainOrEqual(rr.name, zone)
  {
    SignedIsOwn(env, w, zone, ks, section, rrset, sig, rr);
    var owner, z := Canon(SignedOwnerName(rr.name, sig.labels)), w.At(zone).Zone();
    if rr.rtype == TypeNSEC3 {
      assert owner[|owner| - |z.apex|..] == owner[1..];
    } else {
      assert z.Owns(owner);
    }
    OwnerInside(rr.name, sig.labels, zone);
  }

  /** A name below a wildcard's parent is in the zone the wildcard is in. */
  lemma OwnerInside(name: Name, labels: Octet, zone: Name)
    requires IsSuffix(Canon(zone), Canon(SignedOwnerName(name, labels))) && (zone == [] || zone[0] != [STAR])
    ensures IsSubdomainOrEqual(name, zone)
  {
    if (labels as int) < |name| {
      var p := Canon(name)[|name| - labels as int..];
      SignedWildcard(name, labels);
      if zone != [] { StarIsStar(zone[0]); }
      BelowParent(Canon(zone), p);
      SuffixTrans(Canon(zone), p, Canon(name));
    }
  }

  lemma SignedWildcard(name: Name, labels: Octet)
    requires (labels as int) < |name|
    ensures Canon(SignedOwnerName(name, labels)) == Wildcard(Canon(name)[|name| - labels as int..])
  {
    var k := |name| - labels as int;
    CanonWildcard(name[k..]);
    CanonSlice(name, k);
  }

  lemma BelowParent(z: Name, p: Name)
    requires IsSuffix(z, Wildcard(p)) && (z == [] || z[0] != [STAR])
    ensures IsSuffix(z, p)
  {
    var w := Wildcard(p);
    if |z| == |w| {
      WholeName(z, w);
    } else {
      assert w[1..] == p && w[|w| - |z|..] == w[1..][|p| - |z|..];
    }
  }

  lemma WholeName(z: Name, w: Name)
    requires IsSuffix(z, w) && |z| == |w|
    ensures z == w
  {
    assert w[0..] == w;
  }

  lemma StarIsStar(l: Label)
    ensures LowerAll(l) == [STAR] <==> l == [STAR]
  {
    if LowerAll(l) == [STAR] { assert Lower(l[0]) == LowerAll(l)[0] == STAR; }
  }

  // ---- denial records under the names they are shown with ----

  /** A signature of the record was made for the owner it is shown with. */
  ghost predicate ShownAsSigned(env: Env, section: seq<RR>, rr: RR, ks: seq<DNSKEY>) {
    exists rrset, sig ::
      InVerifiedSet(env, section, rr, rrset, sig, ks) && SignedOwnerName(rr.name, sig.labels) == rr.name
  }

  ghost predicate AllShown(env: Env, section: seq<RR>, records: seq<RR>, ks: seq<DNSKEY>) {
    forall i | 0 <= i < |records| :: ShownAsSigned(env, section, records[i], ks)
  }

  lemma ExpandedDiffers(name: Name, labels: Octet)
    ensures EqualName(SignedOwnerName(name, labels), name) <==> SignedOwnerName(name, labels) == name
  {
    if (labels as int) < |name| && EqualName(SignedOwnerName(name, labels), name) {
      var k := |name| - labels as int;
      assert |Canon(Wildcard(name[k..]))| == |Canon(name)|;
      assert k == 1;
      CanonWildcard(name[k..]);
      assert Canon(name)[0] == [STAR];
      StarIsStar(name[0]);
      assert name == [name[0]] + name[1..];
    }
  }

  /** An NSEC an honest zone signed is of its chain, under the name it is shown with,
      exactly if it was signed under that name. The resolver does not look. */
  lemma ShownExact(env: Env, w: World, zone: Name, ks: seq<DNSKEY>, section: seq<RR>, rr: RR)
    requires Honest(env, w, zone) && TrustedKeys(env, zone, ks) && Vetted(env, section, rr, ks) && AsNSEC(rr).Some?
    ensures DenialProofs.Authentic(w.At(zone).Zone(), NsecRecord(rr.name, AsNSEC(rr).value))
            <==> ShownAsSigned(env, section, rr, ks)
  {
    var z, n := w.At(zone).Zone(), AsNSEC(rr).value;
    if ShownAsSigned(env, section, rr, ks) { ShownIsOwn(env, w, zone, ks, section, rr); }
    if DenialProofs.Authentic(z, NsecRecord(rr.name, n)) {
      var rrset, sig :| InVerifiedSet(env, section, rr, rrset, sig, ks);
      SignedIsOwn(env, w, zone, ks, section, rrset, sig, rr);
      var owner := SignedOwnerName(rr.name, sig.labels);
      OneBefore(z, Canon(owner), Canon(rr.name), Canon(n.nextDomain));
      ExpandedDiffers(rr.name, sig.labels);
    }
  }

  lemma ShownIsOwn(env: Env, w: World, zone: Name, ks: seq<DNSKEY>, section: seq<RR>, rr: RR)
    requires Honest(env, w, zone) && TrustedKeys(env, zone, ks) && ShownAsSigned(env, section, rr, ks)
    ensures AsNSEC(rr).Some? ==>
              DenialProofs.Authentic(w.At(zone).Zone(), NsecRecord(rr.name, AsNSEC(rr).value))
    ensures AsNSEC3(rr).Some? ==> OwnNsec3(env.hs, w.At(zone).hz, rr.name, AsNSEC3(rr).value)
  {
    var rrset, sig :|
      InVerifiedSet(env, section, rr, rrset, sig, ks) && SignedOwnerName(rr.name, sig.labels) == rr.name;
    SignedIsOwn(env, w, zone, ks, section, rrset, sig, rr);
  }

  /** An NSEC3 is always shown as it was signed: the text of no hash is a star. */
  lemma HashesNotExpanded(env: Env, w: World, zone: Name, ks: seq<DNSKEY>, section: seq<RR>, rr: RR)
    requires Honest(env, w, zone) && TrustedKeys(env, zone, ks) && Vetted(env, section, rr, ks) && AsNSEC3(rr).Some?
    requires forall h :: env.hs.text(h) != [STAR]
    ensures ShownAsSigned(env, section, rr, ks)
  {
    var rrset, sig :| InVerifiedSet(env, section, rr, rrset, sig, ks);
    SignedIsOwn(env, w, zone, ks, section, rrset, sig, rr);
    var owner := SignedOwnerName(rr.name, sig.labels);
    var h := OwnerIsText(env.hs, w.At(zone).hz, Nsec3Record(UpperAll(owner[0]), owner[1..], AsNSEC3(rr).value));
    assert owner[0] != [STAR] by { assert UpperAll([STAR]) == [STAR]; }
  }

  lemma OwnerIsText(hs: HashSuite, hz: N3.HashedZone, r: Nsec3Record) returns (h: Bytes)
    requires hz.Valid() && N3.Authentic(hs, hz, r)
    ensures r.owner == hs.text(h)
  {
    var o :| hz.Hashes(o) && N3.RecordAt(hs, hz, r, o);
    N3.HashedExists(hz, o);
    h := N3.IteratedHash(hs, WireName(o), hz.salt, hz.iterations);
  }

  lemma {:induction false} ShownNsecs(env: Env, w: World, zone: Name, ks: seq<DNSKEY>, section: seq<RR>,
                   records: seq<RR>)
    requires Honest(env, w, zone) && TrustedKeys(env, zone, ks) && AllShown(env, section, records, ks)
    ensures DenialProofs.AllAuthentic(w.At(zone).Zone(), NsecRecords(records))
    decreases |records|
  {
    if records != [] {
      var front, last := records[..|records| - 1], records[|records| - 1];
      ShownNsecs(env, w, zone, ks, section, front);
      ShownIsOwn(env, w, zone, ks, section, last);
      forall i {:trigger DenialProofs.Index(NsecRecords(records), i)} | DenialProofs.Index(NsecRecords(records), i)
        ensures DenialProofs.Authentic(w.At(zone).Zone(), NsecRecords(records)[i])
      {
        if i < |NsecRecords(front)| { assert DenialProofs.Index(NsecRecords(front), i); }
      }
    }
  }

  /** The hashed records of a section are the zone's own. */
  ghost predicate OwnHashed(hs: HashSuite, hz: N3.HashedZone, n3: seq<Nsec3Record>) {
    && N3.AllAuthentic(hs, hz, n3)
    && (n3 != [] ==> hz.Valid() && |n3[0].zone| == |hz.zone.apex|)
  }

  lemma OwnHashedSnoc(hs: HashSuite, hz: N3.HashedZone, n3: seq<Nsec3Record>, rr: RR)
    requires OwnHashed(hs, hz, n3) && AsNSEC3(rr).Some? && OwnNsec3(hs, hz, rr.name, AsNSEC3(rr).value)
    ensures OwnHashed(hs, hz, n3 + [Nsec3Record(UpperAll(rr.name[0]), rr.name[1..], AsNSEC3(rr).value)])
  {
    var out := n3 + [Nsec3Record(UpperAll(rr.name[0]), rr.name[1..], AsNSEC3(rr).value)];
    forall i {:trigger DenialProofs.Index(out, i)} | DenialProofs.Index(out, i)
      ensures N3.Authentic(hs, hz, out[i])
    {
      if i < |n3| { assert DenialProofs.Index(n3, i); }
    }
    assert |Canon(rr.name[1..])| == |Canon(hz.zone.apex)|;
  }

  lemma {:induction false} ShownNsec3s(env: Env, w: World, zone: Name, ks: seq<DNSKEY>, section: seq<RR>,
                   records: seq<RR>)
    requires Honest(env, w, zone) && TrustedKeys(env, zone, ks) && AllShown(env, section, records, ks)
    requires Nsec3Records(records).Some?
    ensures OwnHashed(env.hs, w.At(zone).hz, Nsec3Records(records).value)
    decreases |records|
  {
    if records != [] {
      var front, last := records[..|records| - 1], records[|records| - 1];
      ShownNsec3s(env, w, zone, ks, section, front);
      if AsNSEC3(last).Some? {
        ShownIsOwn(env, w, zone, ks, section, last);
        OwnHashedSnoc(env.hs, w.At(zone).hz, Nsec3Records(front).value, last);
      }
    }
  }

  // ---- what a settled claim means ----

  /** The claim was decided over these records of a section, vouched for by keys of this
      zone, which encloses the name. */
  ghost predicate SettledOver(env: Env, name: Name, claim: Claim, v: Verdict, zone: Name, ks: seq<DNSKEY>,
                              section: seq<RR>, records: seq<RR>) {
    && IsSubdomainOrEqual(name, zone) && TrustedKeys(env, zone, ks)
    && DecidedOver(env, section, claim, ks, v, records)
  }

  lemma SettledHas(env: Env, name: Name, qtype: U16, claim: Claim, v: Verdict)
      returns (zone: Name, ks: seq<DNSKEY>, msg: Message, records: seq<RR>)
    requires Settled(env, name, qtype, claim, v)
    ensures Received(env, msg, name, qtype) && SettledOver(env, name, claim, v, zone, ks, msg.authorities, records)
  {
    zone, ks, msg :| SettledBy(env, name, qtype, claim, v, zone, ks, msg);
    assert Opened(Door.Decisions, 0);
    records :| DecidedOver(env, msg.authorities, claim, ks, v, records);
  }

  /** The evidence the checker read is the zone's own, and about a name in the zone. */
  ghost predicate Evident(hs: HashSuite, hz: N3.HashedZone, d: Evidence, name: Name) {
    && hz.zone.Tree() && DenialProofs.Inhabits(hz.zone, name)
    && match d
       case Plain(nsecs) => DenialProofs.AllAuthentic(hz.zone, nsecs)
       case HashedProof(n3, zone) => hz.Valid() && N3.AllAuthentic(hs, hz, n3) && |zone| == |hz.zone.apex|
  }

  lemma ProvenIsEvident(env: Env, w: World, name: Name, claim: Claim, zone: Name, ks: seq<DNSKEY>, section: seq<RR>,
                        records: seq<RR>)
    requires SettledOver(env, name, claim, Proven, zone, ks, section, records)
    requires Honest(env, w, zone) && AllShown(env, section, records, ks)
    ensures VerdictOn(env.hs, claim, records) == Proven && Collect(records).Some?
    ensures Evident(env.hs, w.At(zone).hz, Collect(records).value, name)
  {
    assert Opened(Door.Verdicts, 0);
    CollectedIsOwn(env, w, zone, ks, section, records);
  }

  lemma CollectedIsOwn(env: Env, w: World, zone: Name, ks: seq<DNSKEY>, section: seq<RR>, records: seq<RR>)
    requires Honest(env, w, zone) && TrustedKeys(env, zone, ks) && AllShown(env, section, records, ks)
    ensures match Collect(records)
            case None => true
            case Some(Plain(nsecs)) => DenialProofs.AllAuthentic(w.At(zone).Zone(), nsecs)
            case Some(HashedProof(n3, apex)) =>
              w.At(zone).hz.Valid() && N3.AllAuthentic(env.hs, w.At(zone).hz, n3) && |apex| == |w.At(zone).Zone().apex|
  {
    ShownNsecs(env, w, zone, ks, section, records);
    if Nsec3Records(records).Some? { ShownNsec3s(env, w, zone, ks, section, records); }
  }

  /** What the evidence for a name error says of the lookup. */
  ghost predicate NameErrorTruth(hs: HashSuite, hz: N3.HashedZone, d: Evidence, x: Name, qtype: U16)
    requires hz.zone.apex in hz.zone.types && DenialProofs.Inhabits(hz.zone, x)
  {
    var z, c := hz.zone, Canon(x);
    match d
    case Plain(nsecs) =>
      && c !in z.types && Wildcard(z.Encloser(c)) !in z.types && FindCovering(nsecs, x).Some?
      && var gap := FindCovering(nsecs, x).value;
         var wild := Wildcard(ClosestEncloser(gap, x));
         && FindCovering(nsecs, wild).Some?
         && z.Lookup(c, qtype) == DenialProofs.NameErrorMeaning(gap, FindCovering(nsecs, wild).value, x, wild)
    case HashedProof(n3, zone) =>
      N3.Separated(hs, hz, c) ==>
        !hz.Hashes(c) && N3.OnlyUnsigned(hz, c) && N3.NameErrorMeaning3(hs, hz, n3, x, qtype, zone)
  }

  /** A name error the resolver took for proved is one in the zone whose keys settled
      it, or a referral or an empty answer exactly where the evidence says so - for
      every zone, set of keys and set of records it can have been settled with. */
  lemma NameErrorIsTrue(env: Env, w: World, name: Name, qtype: U16, zone: Name, ks: seq<DNSKEY>, section: seq<RR>,
                        records: seq<RR>)
    requires SettledOver(env, name, NoSuchName(name), Proven, zone, ks, section, records)
    requires Honest(env, w, zone) && AllShown(env, section, records, ks)
    ensures Collect(records).Some? && w.At(zone).Zone().Tree() && DenialProofs.Inhabits(w.At(zone).Zone(), name)
    ensures NameErrorTruth(env.hs, w.At(zone).hz, Collect(records).value, name, qtype)
  {
    ProvenIsEvident(env, w, name, NoSuchName(name), zone, ks, section, records);
    NameErrorFrom(env.hs, w.At(zone).hz, Collect(records).value, name, qtype);
  }

  lemma NameErrorFrom(hs: HashSuite, hz: N3.HashedZone, d: Evidence, x: Name, qtype: U16)
    requires Evident(hs, hz, d, x)
    requires match d case Plain(nsecs) => NoName(nsecs, x) == Proven
                     case HashedProof(n3, zone) => NameError3(hs, n3, x, zone) == Proven
    ensures NameErrorTruth(hs, hz, d, x, qtype)
  {
    match d
    case Plain(nsecs) =>
      DenialProofs.NameErrorSound(hz.zone, nsecs, x, qtype);
    case HashedProof(n3, zone) =>
      if N3.Separated(hs, hz, Canon(x)) {
        N3.NameErrorSound(hs, hz, n3, x, zone);
        N3.NameErrorLookup(hs, hz, n3, x, zone, qtype);
      }
  }

  /** What the evidence for an empty answer says of the lookup. */
  ghost predicate NoDataTruth(hs: HashSuite, hz: N3.HashedZone, d: Evidence, x: Name, qtype: U16)
    requires hz.zone.apex in hz.zone.types && DenialProofs.Inhabits(hz.zone, x)
  {
    var z, c := hz.zone, Canon(x);
    var w := Wildcard(z.Encloser(c));
    match d
    case Plain(_) =>
      z.Lookup(c, qtype) ==
        if !z.Exists(c) && c !in z.types && w in z.types && TypeCNAME in z.types[w] then Alias else NoData
    case HashedProof(n3, zone) =>
      N3.Separated(hs, hz, c) ==>
        if hz.Hashes(c) then z.Lookup(c, qtype) == NoData
        else N3.OnlyUnsigned(hz, c) && N3.NoDataMeaning3(hs, hz, n3, x, qtype, zone)
  }

  lemma NoDataFrom(hs: HashSuite, hz: N3.HashedZone, d: Evidence, x: Name, qtype: U16)
    requires Evident(hs, hz, d, x)
    requires match d case Plain(nsecs) => NoDataAt(nsecs, x, qtype) == Proven
                     case HashedProof(n3, zone) => NoData3(hs, n3, x, qtype, zone) == Proven
    ensures NoDataTruth(hs, hz, d, x, qtype)
  {
    match d
    case Plain(nsecs) =>
      DenialProofs.NoDataSound(hz.zone, nsecs, x, qtype);
    case HashedProof(n3, zone) =>
      if N3.Separated(hs, hz, Canon(x)) {
        N3.NoDataSound(hs, hz, n3, x, qtype, zone);
        if !hz.Hashes(Canon(x)) { N3.NoDataLookup(hs, hz, n3, x, qtype, zone); }
      }
  }

  /** An empty answer the resolver took for proved is empty in the zone whose keys
      settled it, or an alias at a wildcard. */
  lemma NoDataIsTrue(env: Env, w: World, name: Name, qtype: U16, zone: Name, ks: seq<DNSKEY>, section: seq<RR>,
                     records: seq<RR>)
    requires SettledOver(env, name, NoSuchData(name, qtype), Proven, zone, ks, section, records)
    requires Honest(env, w, zone) && AllShown(env, section, records, ks)
    ensures Collect(records).Some? && w.At(zone).Zone().Tree() && DenialProofs.Inhabits(w.At(zone).Zone(), name)
    ensures NoDataTruth(env.hs, w.At(zone).hz, Collect(records).value, name, qtype)
  {
    ProvenIsEvident(env, w, name, NoSuchData(name, qtype), zone, ks, section, records);
    NoDataFrom(env.hs, w.At(zone).hz, Collect(records).value, name, qtype);
  }

  /** What the evidence for an unsigned delegation says: the zone holds no DS there;
      whether that was the zone's to say; and whether there is a delegation at all. */
  ghost predicate NoDSTruth(hs: HashSuite, hz: N3.HashedZone, d: Evidence, cut: Name)
    requires hz.zone.apex in hz.zone.types && DenialProofs.Inhabits(hz.zone, cut)
  {
    var z, c := hz.zone, Canon(cut);
    match d
    case Plain(nsecs) =>
      && c != z.apex && (c in z.types ==> TypeDS !in z.types[c])
      && (z.Lookup(c, TypeDS) == Referral <==>
            && FindOwner(nsecs, cut).None? && FindCovering(nsecs, cut).Some?
            && DenialProofs.SkipsCut(FindCovering(nsecs, cut).value, cut))
      && (z.IsCut(c) <==>
            FindOwner(nsecs, cut).Some? && TypeInBitmap(FindOwner(nsecs, cut).value.rr.typeBitmap, TypeNS))
    case HashedProof(n3, zone) =>
      N3.NoCollision(hs, hz, c) ==> N3.NoDSMeaning(hs, hz, n3, cut, zone)
  }

  lemma NoDSFrom(hs: HashSuite, hz: N3.HashedZone, d: Evidence, cut: Name)
    requires Evident(hs, hz, d, cut)
    requires match d case Plain(nsecs) => NoDS(nsecs, cut) == Proven
                     case HashedProof(n3, _) => NoDS3(hs, n3, cut) == Proven
    ensures NoDSTruth(hs, hz, d, cut)
  {
    match d
    case Plain(nsecs) => PlainNoDS(hs, hz, nsecs, cut);
    case HashedProof(n3, zone) => HashedNoDS(hs, hz, n3, zone, cut);
  }

  lemma PlainNoDS(hs: HashSuite, hz: N3.HashedZone, nsecs: seq<NsecRecord>, cut: Name)
    requires Evident(hs, hz, Plain(nsecs), cut) && NoDS(nsecs, cut) == Proven
    ensures NoDSTruth(hs, hz, Plain(nsecs), cut)
  {
    DenialProofs.NoDSSound(hz.zone, nsecs, cut);
  }

  lemma HashedNoDS(hs: HashSuite, hz: N3.HashedZone, n3: seq<Nsec3Record>, zone: Name, cut: Name)
    requires Evident(hs, hz, HashedProof(n3, zone), cut) && NoDS3(hs, n3, cut) == Proven
    ensures NoDSTruth(hs, hz, HashedProof(n3, zone), cut)
  {
    if N3.NoCollision(hs, hz, Canon(cut)) { N3.NoDSSound(hs, hz, n3, cut, zone); }
  }

  /** Where the chain of trust was ended by a proof, the zone that gave it holds no DS
      for the cut. Whether the cut is unsigned is another matter if a delegation of
      that zone lies in between: its lookup is then a referral, and the proof says
      nothing of what the zone referred to holds. */
  lemma UnsignedIsTrue(env: Env, w: World, cut: Name, parent: Name, ks: seq<DNSKEY>, section: seq<RR>,
                       records: seq<RR>)
    requires SettledOver(env, cut, NoDSAt(cut), Proven, parent, ks, section, records)
    requires Honest(env, w, parent) && AllShown(env, section, records, ks)
    ensures Collect(records).Some? && w.At(parent).Zone().Tree() && DenialProofs.Inhabits(w.At(parent).Zone(), cut)
    ensures NoDSTruth(env.hs, w.At(parent).hz, Collect(records).value, cut)
  {
    ProvenIsEvident(env, w, cut, NoDSAt(cut), parent, ks, section, records);
    NoDSFrom(env.hs, w.At(parent).hz, Collect(records).value, cut);
  }

  /** A cut that a proof ended is settled so by its parent's keys, over a section that
      was received. */
  lemma UnsignedHas(env: Env, cut: Name, parent: Name, ks: seq<DNSKEY>, section: seq<RR>) returns (records: seq<RR>)
    requires UnsignedCut(env, cut, parent, ks, section, Proven)
    ensures Shown(env, section) && SettledOver(env, cut, NoDSAt(cut), Proven, parent, ks, section, records)
  {
    assert Opened(Door.Decisions, 0);
    records :| DecidedOver(env, section, NoDSAt(cut), ks, Proven, records);
  }
}

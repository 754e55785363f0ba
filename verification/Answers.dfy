/** What an outcome says of the zones: which lookups answer as it does, if the zone whose
    keys did the signing is honest. No other zone is assumed to be. */
module Answers {
  import opened Octets
  import opened Names
  import opened Messages
  import opened Canonical
  import opened Nsec3
  import opened Denial
  import opened Signing
  import opened Zones
  import opened Trust
  import opened Aliases
  import opened Outcomes
  import opened World
  import DenialProofs
  import N3 = Nsec3Proofs

  // ---- which owner a lookup answers from ----

  /** The owner a lookup that finds something answers from. */
  ghost function AnswerOwner(z: Zone, c: Name): Name
    requires z.apex in z.types && IsSuffix(z.apex, c)
  {
    if c in z.types then c else Wildcard(z.Encloser(c))
  }

  /** The record is what a lookup of this type can give: one of the type, or an alias
      in place of it. */
  predicate Answering(rr: RR, qtype: U16) {
    && rr.rtype != TypeNSEC && rr.rtype != TypeNSEC3
    && (rr.rtype == qtype || (rr.rtype == TypeCNAME && qtype != TypeRRSIG && qtype != TypeNSEC))
  }

  /** The lookup of c finds this record's data, or this alias, at the given owner. */
  ghost predicate ServedFrom(h: Holdings, c: Name, qtype: U16, rr: RR, owner: Name) {
    var z, d := h.Zone(), CanonicalRData(rr);
    && z.apex in z.types && IsSuffix(z.apex, c)
    && z.Lookup(c, qtype) == (if rr.rtype == qtype then Data else Alias)
    && AnswerOwner(z, c) == owner && d.Some? && d.value in h.data(owner, rr.rtype)
  }

  /** What an owner holds is what its own lookup gives. */
  lemma OwnerServes(h: Holdings, owner: Name, rtype: U16, qtype: U16)
    requires h.Zone().Tree() && Agrees(h) && Authoritative(h.Zone(), owner, rtype)
    requires rtype != TypeNSEC && (rtype == qtype || (rtype == TypeCNAME && qtype != TypeRRSIG && qtype != TypeNSEC))
    ensures h.Zone().AtOwner(owner, qtype) == if rtype == qtype then Data else Alias
    ensures h.Zone().IsCut(owner) ==> qtype == TypeDS
  {
    assert Opened(Door.Zones, 0);
    assert h.Zone().Owns(owner);
  }

  /** A record held under its own name is what the lookup of that name gives. */
  lemma PlainServed(h: Holdings, rr: RR, labels: Octet, qtype: U16)
    requires h.Zone().Tree() && Agrees(h) && HeldIn(h, rr, labels) && |rr.name| <= labels as int
    requires Answering(rr, qtype)
    ensures ServedFrom(h, Canon(rr.name), qtype, rr, Canon(rr.name))
  {
    var z, c := h.Zone(), Canon(rr.name);
    assert z.Owns(c) && IsSuffix(c, c);
    OwnerServes(h, c, rr.rtype, qtype);
    N3.OwnedBelow(z, c);
  }

  /** A record held under a wildcard is what the lookup of a name gives, from there,
      exactly if that wildcard is at the name's closest encloser and nothing exists at
      the name. */
  lemma WildServed(h: Holdings, rr: RR, c: Name, w: Name, qtype: U16)
    requires h.Zone().Tree() && Agrees(h) && IsSuffix(h.Zone().apex, c) && Answering(rr, qtype)
    requires CanonicalRData(rr).Some? && CanonicalRData(rr).value in h.data(w, rr.rtype)
    requires Authoritative(h.Zone(), w, rr.rtype) && (c in h.Zone().types ==> w != c)
    ensures ServedFrom(h, c, qtype, rr, w) <==> DenialProofs.Entitled(h.Zone(), c, w)
  {
    var z := h.Zone();
    OwnerServes(h, w, rr.rtype, qtype);
    if DenialProofs.Entitled(z, c, w) {
      DenialProofs.EntitledLookup(z, c, w, qtype);
      if c in z.types { assert z.Owns(c) && IsSuffix(c, c); }
    }
  }

  // ---- a wildcard's record, with the proof it owes ----

  /** The evidence finds the closest encloser as many labels deep as were signed. */
  ghost predicate RightDepth(hz: N3.HashedZone, hs: HashSuite, d: Evidence, x: Name, labels: nat) {
    match d
    case Plain(nsecs) =>
      FindCovering(nsecs, x).Some? && |ClosestEncloser(FindCovering(nsecs, x).value, x)| == labels
    case HashedProof(n3, zone) =>
      |N3.FoundEncloserOf(hs, n3, x, zone)| == labels && !hz.zone.Exists(N3.NextCloserOf(hs, n3, x, zone))
  }

  /** The hash tells the names involved apart, if the evidence hashes any. */
  ghost predicate Legible(hs: HashSuite, hz: N3.HashedZone, d: Evidence, x: Name) {
    d.HashedProof? ==> N3.Separated(hs, hz, Canon(x))
  }

  lemma ExpansionFrom(hs: HashSuite, h: Holdings, d: Evidence, x: Name, rr: RR, labels: Octet, qtype: U16)
    requires Evident(hs, h.hz, d, x) && Legible(hs, h.hz, d, x) && EqualName(x, rr.name) && Agrees(h)
    requires match d case Plain(nsecs) => NoCloser(nsecs, x) == Proven
                     case HashedProof(n3, zone) => NoCloserMatch3(hs, n3, x, zone) == Proven
    requires (labels as int) < |rr.name| && HeldIn(h, rr, labels) && Answering(rr, qtype)
    ensures ServedFrom(h, Canon(rr.name), qtype, rr, Canon(SignedOwnerName(rr.name, labels)))
            <==> RightDepth(h.hz, hs, d, x, labels as nat)
  {
    var c := Canon(x);
    assert |x| == |c| == |rr.name|;
    SignedWildcard(rr.name, labels);
    match d
    case Plain(nsecs) => PlainExpansion(h, nsecs, x, rr, labels, qtype);
    case HashedProof(n3, zone) => HashedExpansion(hs, h, n3, zone, x, rr, labels, qtype);
  }

  lemma PlainExpansion(h: Holdings, nsecs: seq<NsecRecord>, x: Name, rr: RR, labels: Octet, qtype: U16)
    requires h.Zone().Tree() && Agrees(h) && DenialProofs.AllAuthentic(h.Zone(), nsecs)
    requires DenialProofs.Inhabits(h.Zone(), x) && (labels as int) < |x| && NoCloser(nsecs, x) == Proven
    requires var w := Wildcard(Canon(x)[|x| - labels as int..]);
             && CanonicalRData(rr).Some? && CanonicalRData(rr).value in h.data(w, rr.rtype)
             && Authoritative(h.Zone(), w, rr.rtype) && Answering(rr, qtype)
    ensures FindCovering(nsecs, x).Some?
    ensures ServedFrom(h, Canon(x), qtype, rr, Wildcard(Canon(x)[|x| - labels as int..]))
            <==> |ClosestEncloser(FindCovering(nsecs, x).value, x)| == labels as int
  {
    DenialProofs.NoCloserSound(h.Zone(), nsecs, x, labels as nat, qtype);
    WildServed(h, rr, Canon(x), Wildcard(Canon(x)[|x| - labels as int..]), qtype);
  }

  /** A name without a record of its own is no wildcard. */
  lemma NoStarLeftOut(hz: N3.HashedZone, c: Name, n: Name)
    requires hz.Valid() && !hz.Hashes(c)
    ensures c in hz.zone.types ==> c != Wildcard(n)
  {
    if c in hz.zone.types {
      assert hz.zone.Owns(c);
      N3.UnhashedOwner(hz, c);
      assert Wildcard(n)[0] == [STAR];
    }
  }

  lemma EntitledBy(hs: HashSuite, hz: N3.HashedZone, n3: seq<Nsec3Record>, zone: Name, x: Name, labels: nat)
    requires N3.Setting(hs, hz, n3, x, zone) && labels < |x| && NoCloserMatch3(hs, n3, x, zone) == Proven
    ensures hz.Valid() && !hz.Hashes(Canon(x)) && IsSuffix(hz.zone.apex, Canon(x))
    ensures var w := Wildcard(Canon(x)[|x| - labels..]);
            w in hz.zone.types ==>
              (DenialProofs.Entitled(hz.zone, Canon(x), w) <==>
                 |N3.FoundEncloserOf(hs, n3, x, zone)| == labels && !hz.zone.Exists(N3.NextCloserOf(hs, n3, x, zone)))
  {
    N3.NoCloserSound(hs, hz, n3, x, zone, labels);
    EntitledMeans(hs, hz, n3, zone, x, labels);
  }

  lemma EntitledMeans(hs: HashSuite, hz: N3.HashedZone, n3: seq<Nsec3Record>, zone: Name, x: Name, labels: nat)
    requires hz.zone.apex in hz.zone.types && IsSuffix(hz.zone.apex, Canon(x)) && labels < |x|
    requires N3.NoCloserMeaning(hs, hz, n3, x, zone, labels)
    ensures !hz.Hashes(Canon(x))
    ensures var w := Wildcard(Canon(x)[|x| - labels..]);
            w in hz.zone.types ==>
              (DenialProofs.Entitled(hz.zone, Canon(x), w) <==>
                 |N3.FoundEncloserOf(hs, n3, x, zone)| == labels && !hz.zone.Exists(N3.NextCloserOf(hs, n3, x, zone)))
  {}

  lemma HashedExpansion(hs: HashSuite, h: Holdings, n3: seq<Nsec3Record>, zone: Name, x: Name, rr: RR, labels: Octet,
                        qtype: U16)
    requires Agrees(h) && N3.Setting(hs, h.hz, n3, x, zone) && (labels as int) < |x|
    requires NoCloserMatch3(hs, n3, x, zone) == Proven
    requires var w := Wildcard(Canon(x)[|x| - labels as int..]);
             && CanonicalRData(rr).Some? && CanonicalRData(rr).value in h.data(w, rr.rtype)
             && Authoritative(h.Zone(), w, rr.rtype) && Answering(rr, qtype)
    ensures ServedFrom(h, Canon(x), qtype, rr, Wildcard(Canon(x)[|x| - labels as int..]))
            <==> |N3.FoundEncloserOf(hs, n3, x, zone)| == labels as int
                 && !h.Zone().Exists(N3.NextCloserOf(hs, n3, x, zone))
  {
    var c, w := Canon(x), Wildcard(Canon(x)[|x| - labels as int..]);
    EntitledBy(hs, h.hz, n3, zone, x, labels as nat);
    NoStarLeftOut(h.hz, c, c[|x| - labels as int..]);
    WildServed(h, rr, c, w, qtype);
  }

  // ---- a verified record ----

  /** These records of the section decided that x, the record's owner, has nothing of
      its own. */
  ghost predicate ProofOver(env: Env, section: seq<RR>, rr: RR, ks: seq<DNSKEY>, x: Name, records: seq<RR>) {
    EqualName(x, rr.name) && DecidedOver(env, section, NothingCloser(x), ks, Proven, records)
  }

  /** What such a proof is worth for a wildcard's record: the lookup of its name gives
      it exactly if the encloser in evidence has as many labels as were signed. */
  ghost predicate ProofTruth(env: Env, h: Holdings, section: seq<RR>, rr: RR, labels: Octet, qtype: U16,
                             ks: seq<DNSKEY>, x: Name, records: seq<RR>) {
    AllShown(env, section, records, ks) && Collect(records).Some?
    && Legible(env.hs, h.hz, Collect(records).value, x) ==>
      (ServedFrom(h, Canon(rr.name), qtype, rr, Canon(SignedOwnerName(rr.name, labels)))
       <==> RightDepth(h.hz, env.hs, Collect(records).value, x, labels as nat))
  }

  /** A verified record is held, under an owner in the zone. If it was signed under its
      own name the lookup of that name gives it; if for a wildcard, there is a proof, and
      every proof there can be decides whether the lookup does. */
  ghost predicate RecordTruth(env: Env, w: World, rr: RR, qtype: U16, zone: Name, ks: seq<DNSKEY>, msg: Message,
                              sig: RRSIG) {
    var h := w.At(zone);
    && HeldIn(h, rr, sig.labels) && IsSubdomainOrEqual(rr.name, zone)
    && (Answering(rr, qtype) ==>
          if !IsWildcardExpansion(rr.name, sig) then ServedFrom(h, Canon(rr.name), qtype, rr, Canon(rr.name))
          else
            && (exists x, records :: ProofOver(env, msg.authorities, rr, ks, x, records))
            && (forall x, records {:trigger ProofOver(env, msg.authorities, rr, ks, x, records)} |
                  ProofOver(env, msg.authorities, rr, ks, x, records) ::
                  ProofTruth(env, h, msg.authorities, rr, sig.labels, qtype, ks, x, records)))
  }

  /** A wildcard's record taken for a name: what the zone's lookup of that name says,
      whatever records proved that it may be. */
  lemma ExpansionIsTrue(env: Env, w: World, rr: RR, qtype: U16, zone: Name, ks: seq<DNSKEY>, msg: Message,
                        rrset: seq<RR>, sig: RRSIG, x: Name, records: seq<RR>)
    requires TrustedKeys(env, zone, ks) && Honest(env, w, zone)
    requires InVerifiedSet(env, msg.answers, rr, rrset, sig, ks) && IsWildcardExpansion(rr.name, sig)
    requires Answering(rr, qtype) && ProofOver(env, msg.authorities, rr, ks, x, records)
    ensures ProofTruth(env, w.At(zone), msg.authorities, rr, sig.labels, qtype, ks, x, records)
  {
    VerifiedIsHeld(env, w, zone, ks, msg.answers, rrset, sig, rr);
    if AllShown(env, msg.authorities, records, ks) && Collect(records).Some?
       && Legible(env.hs, w.At(zone).hz, Collect(records).value, x) {
      assert IsSubdomainOrEqual(x, zone);
      ProvenIsEvident(env, w, x, NothingCloser(x), zone, ks, msg.authorities, records);
      ExpansionFrom(env.hs, w.At(zone), Collect(records).value, x, rr, sig.labels, qtype);
    }
  }

  lemma ProofThere(env: Env, section: seq<RR>, rr: RR, owner: Name, ks: seq<DNSKEY>)
    requires ExpansionProved(env, section, rr, owner, ks)
    ensures exists x, records :: ProofOver(env, section, rr, ks, x, records)
  {
    assert Opened(Door.Decisions, 0);
    var records :| DecidedOver(env, section, NothingCloser(owner), ks, Proven, records);
    assert ProofOver(env, section, rr, ks, owner, records);
  }

  lemma RecordIsTrue(env: Env, w: World, name: Name, qtype: U16, rr: RR, zone: Name, ks: seq<DNSKEY>, msg: Message,
                     rrset: seq<RR>, sig: RRSIG)
    requires EarnedBy(env, name, qtype, rr, zone, ks, msg, rrset, sig) && Honest(env, w, zone)
    ensures RecordTruth(env, w, rr, qtype, zone, ks, msg, sig)
  {
    VerifiedIsHeld(env, w, zone, ks, msg.answers, rrset, sig, rr);
    if Answering(rr, qtype) {
      if IsWildcardExpansion(rr.name, sig) {
        var owner :| ExpansionProved(env, msg.authorities, rr, owner, ks);
        ProofThere(env, msg.authorities, rr, owner, ks);
        forall x, records {:trigger ProofOver(env, msg.authorities, rr, ks, x, records)} |
          ProofOver(env, msg.authorities, rr, ks, x, records)
          ensures ProofTruth(env, w.At(zone), msg.authorities, rr, sig.labels, qtype, ks, x, records)
        {
          ExpansionIsTrue(env, w, rr, qtype, zone, ks, msg, rrset, sig, x, records);
        }
      } else {
        PlainServed(w.At(zone), rr, sig.labels, qtype);
      }
    }
  }

  // ---- a secure answer ----

  /** Record j was verified on the walk for the i-th name of the answer, with the keys
      of a zone that encloses that name; if that zone is honest, the record is true. */
  ghost predicate TrueBy(env: Env, w: World, qname: Name, qtype: U16, recs: seq<RR>, j: nat, i: nat, zone: Name,
                         ks: seq<DNSKEY>, msg: Message, rrset: seq<RR>, sig: RRSIG)
    requires j < |recs|
  {
    && i <= j && i <= Links(qtype, recs)
    && EarnedBy(env, NameAfter(qname, recs, i), qtype, recs[j], zone, ks, msg, rrset, sig)
    && (Honest(env, w, zone) ==> RecordTruth(env, w, recs[j], qtype, zone, ks, msg, sig))
  }

  ghost predicate TrueAt(env: Env, w: World, qname: Name, qtype: U16, recs: seq<RR>, j: nat)
    requires j < |recs|
  {
    exists i: nat, zone, ks, msg, rrset, sig :: TrueBy(env, w, qname, qtype, recs, j, i, zone, ks, msg, rrset, sig)
  }

  /** An empty end was proved so; if the zone that proved it is honest and showed its
      records under their own names, the lookup there is empty. */
  ghost predicate EmptyBy(env: Env, w: World, name: Name, qtype: U16, zone: Name, ks: seq<DNSKEY>, msg: Message,
                          records: seq<RR>) {
    && Received(env, msg, name, qtype)
    && SettledOver(env, name, NoSuchData(name, qtype), Proven, zone, ks, msg.authorities, records)
    && (Honest(env, w, zone) && AllShown(env, msg.authorities, records, ks) ==>
          && Collect(records).Some? && DenialProofs.Inhabits(w.At(zone).Zone(), name)
          && NoDataTruth(env.hs, w.At(zone).hz, Collect(records).value, name, qtype))
  }

  lemma TrueRecord(env: Env, w: World, qname: Name, qtype: U16, recs: seq<RR>, j: nat)
    requires j < |recs| && EarnedAt(env, qname, qtype, recs, j)
    ensures TrueAt(env, w, qname, qtype, recs, j)
  {
    var i: nat :| EarnedFrom(env, qname, qtype, recs, j, i);
    var name := NameAfter(qname, recs, i);
    assert Opened(Door.Earnings, 0);
    var msg :| EarnedIn(env, name, qtype, msg, recs[j]);
    var zone, ks, rrset, sig :| EarnedBy(env, name, qtype, recs[j], zone, ks, msg, rrset, sig);
    if Honest(env, w, zone) { RecordIsTrue(env, w, name, qtype, recs[j], zone, ks, msg, rrset, sig); }
    assert TrueBy(env, w, qname, qtype, recs, j, i, zone, ks, msg, rrset, sig);
  }

  /** A secure answer is true as far as the zones that signed it are honest: every
      record in it is held, data and all, the lookup of its name gives it, and if the
      answer ends empty there is nothing to find. */
  lemma SecureIsTrue(env: Env, w: World, validating: bool, qname: Name, qtype: U16, depth: nat, res: Result)
    requires Promised(env, validating, qname, qtype, depth, Resolved(res)) && res.secure
    ensures forall j: nat | j < |res.answers| :: TrueAt(env, w, qname, qtype, res.answers, j)
    ensures Links(qtype, res.answers) == |res.answers| ==>
              exists zone, ks, msg, records ::
                EmptyBy(env, w, Target(qname, qtype, res.answers), qtype, zone, ks, msg, records)
  {
    assert Opened(Door.Secured, 0);
    forall j: nat | j < |res.answers| ensures TrueAt(env, w, qname, qtype, res.answers, j) {
      TrueRecord(env, w, qname, qtype, res.answers, j);
    }
    if Links(qtype, res.answers) == |res.answers| {
      var target := Target(qname, qtype, res.answers);
      EmptyEnd(env, w, target, qtype);
    }
  }

  lemma EmptyEnd(env: Env, w: World, target: Name, qtype: U16)
    requires Settled(env, target, qtype, NoSuchData(target, qtype), Proven)
    ensures exists zone, ks, msg, records :: EmptyBy(env, w, target, qtype, zone, ks, msg, records)
  {
    var zone, ks, msg, records := SettledHas(env, target, qtype, NoSuchData(target, qtype), Proven);
    if Honest(env, w, zone) && AllShown(env, msg.authorities, records, ks) {
      NoDataIsTrue(env, w, target, qtype, zone, ks, msg.authorities, records);
    }
    assert EmptyBy(env, w, target, qtype, zone, ks, msg, records);
  }

  // ---- a name error after aliases ----

  lemma {:induction false} LinkAt(name: Name, chain: seq<RR>, last: Name, j: nat)
    requires IsChain(name, chain, last) && j < |chain|
    ensures IsLink(chain[j], NameAfter(name, chain, j))
    decreases j
  {
    if j > 0 {
      LinkAt(chain[0].cname, chain[1..], last, j - 1);
      assert NameAfter(name, chain, j) == NameAfter(chain[0].cname, chain[1..], j - 1);
    }
  }

  /** A CNAME of the name's own; and for every way it can have been verified, with the
      keys of an honest zone, what that zone's lookup of the name gives. */
  ghost predicate LinkTruth(env: Env, w: World, name: Name, qtype: U16, rr: RR) {
    && IsLink(rr, name)
    && forall zone, ks, msg, rrset, sig {:trigger EarnedBy(env, name, qtype, rr, zone, ks, msg, rrset, sig)} |
         EarnedBy(env, name, qtype, rr, zone, ks, msg, rrset, sig) && Honest(env, w, zone) ::
         RecordTruth(env, w, rr, qtype, zone, ks, msg, sig)
  }

  lemma LinkIsTrue(env: Env, w: World, name: Name, qtype: U16, rr: RR)
    requires IsLink(rr, name)
    ensures LinkTruth(env, w, name, qtype, rr)
  {
    forall zone, ks, msg, rrset, sig {:trigger EarnedBy(env, name, qtype, rr, zone, ks, msg, rrset, sig)} |
      EarnedBy(env, name, qtype, rr, zone, ks, msg, rrset, sig) && Honest(env, w, zone)
      ensures RecordTruth(env, w, rr, qtype, zone, ks, msg, sig)
    {
      RecordIsTrue(env, w, name, qtype, rr, zone, ks, msg, rrset, sig);
    }
  }

  /** What the resolver does not ask of a link before it returns the error: that it was
      verified on the walk for its own name, and if it was signed for a wildcard, that
      the proof finds the closest encloser as deep as was signed. */
  ghost predicate LinkChecked(env: Env, w: World, name: Name, qtype: U16, rr: RR, zone: Name) {
    exists ks, msg, rrset, sig :: LinkCheckedBy(env, w, name, qtype, rr, zone, ks, msg, rrset, sig)
  }

  ghost predicate LinkCheckedBy(env: Env, w: World, name: Name, qtype: U16, rr: RR, zone: Name, ks: seq<DNSKEY>,
                                msg: Message, rrset: seq<RR>, sig: RRSIG) {
    && EarnedBy(env, name, qtype, rr, zone, ks, msg, rrset, sig)
    && (IsWildcardExpansion(rr.name, sig) ==>
          exists x, records :: DepthShown(env, w.At(zone), msg.authorities, rr, sig.labels, ks, x, records))
  }

  ghost predicate DepthShown(env: Env, h: Holdings, section: seq<RR>, rr: RR, labels: Octet, ks: seq<DNSKEY>, x: Name,
                             records: seq<RR>) {
    && ProofOver(env, section, rr, ks, x, records) && AllShown(env, section, records, ks) && Collect(records).Some?
    && Legible(env.hs, h.hz, Collect(records).value, x)
    && RightDepth(h.hz, env.hs, Collect(records).value, x, labels as nat)
  }

  /** The zone's lookup of the link's owner gives this very alias. */
  ghost predicate AliasThere(w: World, zone: Name, qtype: U16, rr: RR) {
    exists owner :: ServedFrom(w.At(zone), Canon(rr.name), qtype, rr, owner)
  }

  lemma CheckedIsThere(env: Env, w: World, name: Name, qtype: U16, rr: RR, zone: Name)
    requires LinkChecked(env, w, name, qtype, rr, zone) && Honest(env, w, zone)
    requires LinkTruth(env, w, name, qtype, rr) && Answering(rr, qtype)
    ensures AliasThere(w, zone, qtype, rr)
  {
    var ks, msg, rrset, sig :| LinkCheckedBy(env, w, name, qtype, rr, zone, ks, msg, rrset, sig);
    assert RecordTruth(env, w, rr, qtype, zone, ks, msg, sig);
    if IsWildcardExpansion(rr.name, sig) {
      var x, records :| DepthShown(env, w.At(zone), msg.authorities, rr, sig.labels, ks, x, records);
      assert ProofTruth(env, w.At(zone), msg.authorities, rr, sig.labels, qtype, ks, x, records);
    }
  }

  /** Every link was checked so, with the keys of zones that are honest. */
  ghost predicate ChainChecked(env: Env, w: World, qname: Name, qtype: U16, chain: seq<RR>) {
    forall j | 0 <= j < |chain| :: LinkHonest(env, w, NameAfter(qname, chain, j), qtype, chain[j])
  }

  ghost predicate LinkHonest(env: Env, w: World, name: Name, qtype: U16, rr: RR) {
    exists zone :: Honest(env, w, zone) && LinkChecked(env, w, name, qtype, rr, zone)
  }

  ghost predicate ChainThere(w: World, qtype: U16, chain: seq<RR>) {
    forall j | 0 <= j < |chain| :: LinkThere(w, qtype, chain[j])
  }

  ghost predicate LinkThere(w: World, qtype: U16, rr: RR) {
    exists zone :: AliasThere(w, zone, qtype, rr)
  }

  ghost predicate ChainTruth(env: Env, w: World, qname: Name, qtype: U16, chain: seq<RR>) {
    forall j | 0 <= j < |chain| :: LinkTruth(env, w, NameAfter(qname, chain, j), qtype, chain[j])
  }

  lemma ChainIsTrue(env: Env, w: World, qname: Name, qtype: U16, chain: seq<RR>, n: Name)
    requires IsChain(qname, chain, n)
    ensures ChainTruth(env, w, qname, qtype, chain)
  {
    forall j | 0 <= j < |chain| ensures LinkTruth(env, w, NameAfter(qname, chain, j), qtype, chain[j]) {
      LinkAt(qname, chain, n, j);
      LinkIsTrue(env, w, NameAfter(qname, chain, j), qtype, chain[j]);
    }
  }

  lemma CheckedChain(env: Env, w: World, qname: Name, qtype: U16, chain: seq<RR>)
    requires ChainTruth(env, w, qname, qtype, chain) && ChainChecked(env, w, qname, qtype, chain)
    requires qtype != TypeRRSIG && qtype != TypeNSEC
    ensures ChainThere(w, qtype, chain)
  {
    forall j | 0 <= j < |chain| ensures LinkThere(w, qtype, chain[j]) {
      var name := NameAfter(qname, chain, j);
      assert LinkTruth(env, w, name, qtype, chain[j]) && LinkHonest(env, w, name, qtype, chain[j]);
      var zone :| Honest(env, w, zone) && LinkChecked(env, w, name, qtype, chain[j], zone);
      CheckedIsThere(env, w, name, qtype, chain[j], zone);
    }
  }

  lemma FailedChain(env: Env, qname: Name, qtype: U16, depth: nat, n: Name, soa: Option<RR>) returns (chain: seq<RR>)
    requires Promised(env, true, qname, qtype, depth, Failed(NXDomain(n, soa)))
    ensures LeadsTo(env, qname, qtype, depth, chain, n) && NameErrorMeans(env, n, qtype)
  {
    assert Opened(Door.Failures, 0);
    var via, last :| FailsVia(env, true, qname, qtype, depth, NXDomain(n, soa), via, last);
    chain := via;
  }

  /** A name error speaks of the end of a chain of aliases. It speaks of the name asked
      for if there are none, or if every link was checked: each is then what the lookup
      of its name gives, in the zone that signed it. For any one link, and any way it
      can have been verified, its truth says exactly when that is so. */
  lemma ErrorIsTrue(env: Env, w: World, qname: Name, qtype: U16, depth: nat, n: Name, soa: Option<RR>)
      returns (chain: seq<RR>)
    requires Promised(env, true, qname, qtype, depth, Failed(NXDomain(n, soa)))
    ensures LeadsTo(env, qname, qtype, depth, chain, n) && NameErrorMeans(env, n, qtype)
    ensures (chain == [] ==> n == qname) && ChainTruth(env, w, qname, qtype, chain)
    ensures qtype != TypeRRSIG && qtype != TypeNSEC && ChainChecked(env, w, qname, qtype, chain) ==>
              ChainThere(w, qtype, chain)
  {
    chain := FailedChain(env, qname, qtype, depth, n, soa);
    ChainIsTrue(env, w, qname, qtype, chain, n);
    if qtype != TypeRRSIG && qtype != TypeNSEC && ChainChecked(env, w, qname, qtype, chain) {
      CheckedChain(env, w, qname, qtype, chain);
    }
  }

  // ---- an alias that was not signed ----

  /** An owner whose records can be taken for the name's: itself, or a wildcard above. */
  ghost predicate CanCover(owner: Name, c: Name) {
    owner == c || exists k: nat | k <= |c| :: owner == Wildcard(c[k..])
  }

  /** Trusted keys of the zone signed the record, up to canonical form, at such an owner. */
  ghost predicate SignedCopy(env: Env, zone: Name, rr: RR, ks: seq<DNSKEY>, rrset: seq<RR>, sig: RRSIG, other: RR) {
    && TrustedKeys(env, zone, ks) && SignedBy(env, rrset, sig, ks) && other in rrset
    && other.rtype == rr.rtype && CanonicalRData(other) == CanonicalRData(rr)
    && CanCover(Canon(SignedOwnerName(other.name, sig.labels)), Canon(rr.name))
  }

  ghost predicate SignedFor(env: Env, zone: Name, rr: RR) {
    exists ks, rrset, sig, other :: SignedCopy(env, zone, rr, ks, rrset, sig, other)
  }

  /** The set without d: with another target if it held nothing else. */
  function Other(s: set<Bytes>, d: Bytes): set<Bytes> {
    if s == {d} then {if d == [0] then [1, 120, 0] else [0]} else s - {d}
  }

  lemma OtherIsOther(s: set<Bytes>, d: Bytes)
    ensures d !in Other(s, d) && (Other(s, d) != {} <==> s != {})
    ensures forall x | x in s && x != d :: x in Other(s, d)
  {
    if s != {} {
      if forall x | x in s :: x == d {
        assert s == {d};
      } else {
        var x :| x in s && x != d;
        assert x in s - {d};
      }
    }
  }

  /** The holdings with the alias turned elsewhere. */
  ghost function Turned(h: Holdings, rr: RR, d: Bytes): Holdings {
    Holdings(h.hz, (n, t) => if t == TypeCNAME && CanCover(n, Canon(rr.name)) then Other(h.data(n, t), d)
                             else h.data(n, t))
  }

  ghost function WorldTurned(w: World, zone: Name, rr: RR, d: Bytes): World {
    World(z => if z == Canon(zone) then Turned(w.at(z), rr, d) else w.at(z))
  }

  lemma TurnedAgrees(h: Holdings, rr: RR, d: Bytes)
    requires Agrees(h)
    ensures Agrees(Turned(h, rr, d))
  {
    assert Opened(Door.Zones, 0);
    var v := Turned(h, rr, d);
    assert v.Zone() == h.Zone();
    forall n, t: U16 {:trigger v.data(n, t)} ensures v.data(n, t) != {} <==> h.data(n, t) != {} {
      OtherIsOther(h.data(n, t), d);
    }
  }

  lemma CopyIsSigned(env: Env, zone: Name, rr: RR, ks: seq<DNSKEY>, rrset: seq<RR>, sig: RRSIG, other: RR)
    requires SignedCopy(env, zone, rr, ks, rrset, sig, other)
    ensures SignedFor(env, zone, rr)
  {}

  lemma TurnedOwn(env: Env, w: World, rr: RR, zone: Name, ks: seq<DNSKEY>, rrset: seq<RR>, sig: RRSIG, i: nat)
    requires Honest(env, w, zone) && !SignedFor(env, zone, rr) && CanonicalRData(rr).Some? && rr.rtype == TypeCNAME
    requires TrustedKeys(env, zone, ks) && SignedBy(env, rrset, sig, ks) && i < |rrset|
    ensures Own(env.hs, Turned(w.At(zone), rr, CanonicalRData(rr).value), rrset[i], sig)
  {
    var h, other := w.At(zone), rrset[i];
    assert AllOwn(env.hs, h, rrset, sig);
    var owner := Canon(SignedOwnerName(other.name, sig.labels));
    var d := CanonicalRData(rr).value;
    OtherIsOther(h.data(owner, other.rtype), d);
    if other.rtype == TypeCNAME && CanCover(owner, Canon(rr.name)) && CanonicalRData(other) == CanonicalRData(rr) {
      CopyIsSigned(env, zone, rr, ks, rrset, sig, other);
      assert false;
    }
  }

  lemma TurnedHonest(env: Env, w: World, rr: RR, zone: Name, other: Name)
    requires !SignedFor(env, zone, rr) && CanonicalRData(rr).Some? && rr.rtype == TypeCNAME
    requires Honest(env, w, other)
    ensures Honest(env, WorldTurned(w, zone, rr, CanonicalRData(rr).value), other)
  {
    var d := CanonicalRData(rr).value;
    var v := WorldTurned(w, zone, rr, d);
    if EqualName(other, zone) {
      TurnedAgrees(w.At(other), rr, d);
      if SignedFor(env, other, rr) { SignedForUpToCase(env, zone, other, rr); }
      forall ks, rrset, sig {:trigger TrustedKeys(env, other, ks), SignedBy(env, rrset, sig, ks)} |
        TrustedKeys(env, other, ks) && SignedBy(env, rrset, sig, ks)
        ensures AllOwn(env.hs, v.At(other), rrset, sig)
      {
        forall i | 0 <= i < |rrset| ensures Own(env.hs, v.At(other), rrset[i], sig) {
          TurnedOwn(env, w, rr, other, ks, rrset, sig, i);
        }
      }
    } else {
      assert v.At(other) == w.At(other);
    }
  }

  lemma SignedForUpToCase(env: Env, zone: Name, other: Name, rr: RR)
    requires EqualName(zone, other) && SignedFor(env, other, rr)
    ensures SignedFor(env, zone, rr)
  {
    var ks, rrset, sig, copy :| SignedCopy(env, other, rr, ks, rrset, sig, copy);
    TrustedUpToCase(env, other, zone, ks);
    assert SignedCopy(env, zone, rr, ks, rrset, sig, copy);
  }

  /** If no trusted key of a zone signed an alias, at its owner or at a wildcard above
      it, nothing says that the zone has it: every zone that is honest in this world is
      also honest in one where the zone's lookups do not give it. */
  lemma UnsignedAlias(env: Env, w: World, zone: Name, rr: RR) returns (v: World)
    requires rr.rtype == TypeCNAME && CanonicalRData(rr).Some? && !SignedFor(env, zone, rr)
    ensures forall other {:trigger Honest(env, v, other)} | Honest(env, w, other) :: Honest(env, v, other)
    ensures forall qtype: U16 :: !AliasThere(v, zone, qtype, rr)
  {
    var d := CanonicalRData(rr).value;
    v := WorldTurned(w, zone, rr, d);
    forall other {:trigger Honest(env, v, other)} | Honest(env, w, other) ensures Honest(env, v, other) {
      TurnedHonest(env, w, rr, zone, other);
    }
    forall qtype: U16 ensures !AliasThere(v, zone, qtype, rr) {
      forall owner ensures !ServedFrom(v.At(zone), Canon(rr.name), qtype, rr, owner) {
        TurnedAway(w.At(zone), rr, d, qtype, owner);
      }
    }
  }

  lemma TurnedAway(h: Holdings, rr: RR, d: Bytes, qtype: U16, owner: Name)
    requires rr.rtype == TypeCNAME && CanonicalRData(rr) == Some(d)
    ensures !ServedFrom(Turned(h, rr, d), Canon(rr.name), qtype, rr, owner)
  {
    var z, c := h.Zone(), Canon(rr.name);
    if z.apex in z.types && IsSuffix(z.apex, c) && AnswerOwner(z, c) == owner {
      if c !in z.types {
        var k := |c| - |z.Encloser(c)|;
        assert owner == Wildcard(c[k..]);
      }
      assert CanCover(owner, c);
      OtherIsOther(h.data(owner, rr.rtype), d);
    }
  }

  // ---- which zone vouches for which owner ----

  /** Each record of an answer is owned by the name the records before it lead to. */
  lemma {:induction false} OwnersFollow(name: Name, qtype: U16, recs: seq<RR>, j: nat)
    requires Follows(name, qtype, recs) && j < |recs|
    ensures EqualName(recs[j].name, NameAfter(name, recs, Min(j, Links(qtype, recs))))
    decreases |recs|
  {
    if AllFinal(name, qtype, recs) {
      assert IsOf(recs[0], qtype, name) && IsOf(recs[j], qtype, name);
    } else if j > 0 {
      OwnersFollow(recs[0].cname, qtype, recs[1..], j - 1);
      var i := Min(j, Links(qtype, recs));
      assert recs[1..][j - 1] == recs[j];
      assert NameAfter(name, recs, i) == NameAfter(recs[0].cname, recs[1..], i - 1);
    }
  }

  function Min(a: nat, b: nat): nat {
    if a <= b then a else b
  }

  /** A record that came on the walk for its own owner is vouched for by a zone that
      encloses it; without aliases that is every record. */
  lemma OwnerEnclosed(env: Env, qname: Name, qtype: U16, recs: seq<RR>, j: nat, i: nat, zone: Name, ks: seq<DNSKEY>,
                      msg: Message, rrset: seq<RR>, sig: RRSIG)
    requires Follows(qname, qtype, recs) && j < |recs| && i <= j && i <= Links(qtype, recs)
    requires EarnedBy(env, NameAfter(qname, recs, i), qtype, recs[j], zone, ks, msg, rrset, sig)
    ensures i == Min(j, Links(qtype, recs)) ==> IsSubdomainOrEqual(recs[j].name, zone)
    ensures Links(qtype, recs) == 0 ==> IsSubdomainOrEqual(recs[j].name, zone)
  {
    OwnersFollow(qname, qtype, recs, j);
  }

  /** With the guard the code lacks, a signer's name in the zone whose keys are used,
      every record vouched for has its owner in that zone, aliases or not. */
  lemma SignerInside(env: Env, zone: Name, ks: seq<DNSKEY>, section: seq<RR>, rrset: seq<RR>, sig: RRSIG, rr: RR)
    requires InVerifiedSet(env, section, rr, rrset, sig, ks) && IsSubdomainOrEqual(sig.signerName, zone)
    ensures IsSubdomainOrEqual(rr.name, zone)
  {
    var i: nat, tick: nat :| SignsWith(env, rrset, sig, ks, i, tick);
    assert Opened(Door.Verdicts, 0);
    var j :| 0 <= j < |rrset| && rrset[j] == rr;
    assert VerifyRRSet(env.crypto, rrset, sig, ks[i], Unix(env, tick)) == Check.Valid;
    assert EqualName(rr.name, rrset[0].name);
    SuffixTrans(Canon(zone), Canon(sig.signerName), Canon(rr.name));
  }
}

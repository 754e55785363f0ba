/** Where honesty comes from: if nobody can sign with a zone's keys but their holder,
    and the holder signs only sets the zone holds, the zone is honest. */
module Holders {
  import opened Octets
  import opened Names
  import opened Messages
  import opened Canonical
  import opened Nsec3
  import opened Denial
  import opened Signing
  import opened SigningProofs
  import opened Trust
  import opened World
  import DenialProofs
  import N3 = Nsec3Proofs

  // ---- short octets are over short records ----

  lemma {:induction false} EmitLonger(head: Bytes, xs: seq<Bytes>, x: Bytes)
    requires x in xs
    ensures |x| <= |Emit(head, xs)|
  {
    if x != xs[0] { EmitLonger(head, xs[1..], x); }
  }

  lemma ShortData(rrset: seq<RR>, s: RRSIG)
    requires rrset != [] && SignedData(rrset, s).Some? && |SignedData(rrset, s).value| < 0x1_0000
    ensures ShortRecords(rrset)
  {
    var ds := RDatas(rrset).value;
    var head := RecordHead(SignedOwner(rrset[0].name, s.labels).value, s);
    forall i | 0 <= i < |ds| ensures |ds[i]| < 0x1_0000 {
      ListingElements(ds, ds[i]);
      EmitLonger(head, Listing(ds), ds[i]);
    }
  }

  // ---- copies of a record ----

  /** The same record as signed: up to what canonical form and the owner as signed forget. */
  predicate SameAsSigned(a: RR, s: RRSIG, b: RR, t: RRSIG) {
    && a.rtype == b.rtype && CanonicalRData(a).Some? && CanonicalRData(a) == CanonicalRData(b)
    && EqualName(SignedOwnerName(a.name, s.labels), SignedOwnerName(b.name, t.labels))
  }

  lemma UpperOfLower(a: Bytes, b: Bytes)
    requires LowerAll(a) == LowerAll(b)
    ensures UpperAll(a) == UpperAll(b)
  {
    assert |LowerAll(a)| == |a| && |LowerAll(b)| == |b|;
    forall i | 0 <= i < |a| ensures Upper(a[i]) == Upper(b[i]) {
      assert Lower(a[i]) == LowerAll(a)[i] && Lower(b[i]) == LowerAll(b)[i];
    }
  }

  /** Where a hashed record was found does not matter to its chain. */
  lemma AuthenticElsewhere(hs: HashSuite, hz: N3.HashedZone, r: Nsec3Record, zone: Name)
    requires N3.Authentic(hs, hz, r)
    ensures N3.Authentic(hs, hz, r.(zone := zone))
  {
    var q := r.(zone := zone);
    var o :| hz.Hashes(o) && N3.RecordAt(hs, hz, r, o);
    assert N3.RecordAt(hs, hz, q, o);
    forall n | hz.zone.Owns(n) && !r.rr.OptOut() && !hz.Hashes(n) && LabelsOk(n)
      ensures !Covers3(hs, q, hz.HashOf(hs, n))
    {
      assert !Covers3(hs, r, hz.HashOf(hs, n));
    }
  }

  lemma SameHashedOwner(hs: HashSuite, hz: N3.HashedZone, o: Name, p: Name, n: NSEC3)
    requires EqualName(o, p) && OwnNsec3(hs, hz, p, n)
    ensures OwnNsec3(hs, hz, o, n)
  {
    assert |Canon(o)| == |o| && |Canon(p)| == |p|;
    assert LowerAll(o[0]) == Canon(o)[0] && LowerAll(p[0]) == Canon(p)[0];
    UpperOfLower(o[0], p[0]);
    CanonSlice(o, 1);
    CanonSlice(p, 1);
    AuthenticElsewhere(hs, hz, Nsec3Record(UpperAll(p[0]), p[1..], n), o[1..]);
  }

  /** What is the zone's own under one spelling is so under every other. */
  lemma CopyIsOwn(hs: HashSuite, h: Holdings, a: RR, s: RRSIG, b: RR, t: RRSIG)
    requires SameAsSigned(a, s, b, t) && Own(hs, h, b, t)
    ensures Own(hs, h, a, s)
  {
    var o, p := SignedOwnerName(a.name, s.labels), SignedOwnerName(b.name, t.labels);
    if AsNSEC3(a).Some? { SameHashedOwner(hs, h.hz, o, p, AsNSEC3(b).value); }
  }

  // ---- an honest holder ----

  ghost predicate OwnSet(hs: HashSuite, h: Holdings, data: Bytes, rrset: seq<RR>, sig: RRSIG) {
    && rrset != [] && OneSet(rrset, sig.typeCovered) && AllOwn(hs, h, rrset, sig)
    && SignedData(rrset, sig) == Some(data)
  }

  /** The octets are over a set of the zone's own, and fit a message. */
  ghost predicate OwnData(hs: HashSuite, h: Holdings, data: Bytes) {
    |data| < 0x1_0000 && exists rrset, sig :: OwnSet(hs, h, data, rrset, sig)
  }

  /** Nothing verifies under the key but what its holder signed, and that is only the
      zone's own. */
  ghost predicate HeldHonestly(env: Env, h: Holdings, k: DNSKEY) {
    forall data, signature {:trigger env.crypto.verify(k.algorithm, k.publicKey, data, signature)} |
      env.crypto.verify(k.algorithm, k.publicKey, data, signature) :: OwnData(env.hs, h, data)
  }

  lemma SetIsOwn(hs: HashSuite, h: Holdings, a: seq<RR>, s: RRSIG, data: Bytes)
    requires a != [] && OneSet(a, s.typeCovered) && SignedData(a, s) == Some(data) && OwnData(hs, h, data)
    ensures AllOwn(hs, h, a, s)
  {
    var b, t :| OwnSet(hs, h, data, b, t);
    ShortData(a, s);
    ShortData(b, t);
    SignedDataBinds(a, b, s, t);
    forall i | 0 <= i < |a| ensures Own(hs, h, a[i], s) {
      var j := SameInSet(a, s, b, t, i);
      CopyIsOwn(hs, h, a[i], s, b[j], t);
    }
  }

  lemma SameInSet(a: seq<RR>, s: RRSIG, b: seq<RR>, t: RRSIG, i: nat) returns (j: nat)
    requires a != [] && b != [] && ShortRecords(a) && ShortRecords(b) && SameRecords(a, b) && SameSigned(s, t)
    requires OneSet(a, s.typeCovered) && OneSet(b, t.typeCovered) && i < |a|
    requires EqualName(SignedOwnerName(a[0].name, s.labels), SignedOwnerName(b[0].name, t.labels))
    ensures j < |b| && SameAsSigned(a[i], s, b[j], t)
  {
    var x := RDataAt(a, i);
    FieldsOfBytes(s, t);
    RDatasElements(a, x);
    assert In(x, RDatas(a).value);
    RDatasElements(b, x);
    j :| 0 <= j < |b| && CanonicalRData(b[j]) == Some(x);
    assert OneSet(a, s.typeCovered) && OneSet(b, s.typeCovered);
    SignedOwnerNameEqual(a[i].name, a[0].name, s.labels);
    SignedOwnerNameEqual(b[j].name, b[0].name, t.labels);
  }

  lemma {:induction false} RDataAt(rrset: seq<RR>, i: nat) returns (x: Bytes)
    requires RDatas(rrset).Some? && i < |rrset|
    ensures CanonicalRData(rrset[i]) == Some(x)
    decreases |rrset|
  {
    if i < |rrset| - 1 {
      x := RDataAt(rrset[..|rrset| - 1], i);
    } else {
      x := CanonicalRData(rrset[i]).value;
    }
  }

  /** A zone whose trusted keys are all held so is honest. */
  lemma HonestHolder(env: Env, w: World, zone: Name)
    requires w.At(zone).Zone().Tree() && w.At(zone).Zone().apex == Canon(zone) && Agrees(w.At(zone))
    requires zone == [] || zone[0] != [STAR]
    requires forall ks, k {:trigger TrustedKeys(env, zone, ks), k in ks} |
               TrustedKeys(env, zone, ks) && k in ks :: HeldHonestly(env, w.At(zone), k)
    ensures Honest(env, w, zone)
  {
    forall ks, rrset, sig {:trigger TrustedKeys(env, zone, ks), SignedBy(env, rrset, sig, ks)} |
      TrustedKeys(env, zone, ks) && SignedBy(env, rrset, sig, ks)
      ensures AllOwn(env.hs, w.At(zone), rrset, sig)
    {
      var i: nat, tick: nat :| SignsWith(env, rrset, sig, ks, i, tick);
      assert ks[i] in ks;
      SignedIsHeld(env, w.At(zone), rrset, sig, ks[i], tick);
    }
  }

  lemma SignedIsHeld(env: Env, h: Holdings, rrset: seq<RR>, sig: RRSIG, k: DNSKEY, tick: nat)
    requires HeldHonestly(env, h, k) && Signs(env, rrset, sig, k, tick)
    ensures AllOwn(env.hs, h, rrset, sig)
  {
    assert Opened(Door.Verdicts, 0);
    assert VerifyRRSet(env.crypto, rrset, sig, k, Unix(env, tick)) == Check.Valid;
    var data := SignedData(rrset, sig).value;
    assert env.crypto.verify(k.algorithm, k.publicKey, data, sig.signature);
    SetIsOwn(env.hs, h, rrset, sig, data);
  }
}

/** A root zone that signs only what it holds, its keys reached from the trust anchor,
    and a query for a name of it that ends in a validated name error although the name
    has an address: the alias the zone signed for its wildcard, shown under that name. */
module Replay {
  import opened Octets
  import opened Names
  import opened Messages
  import opened Canonical
  import opened Nsec3
  import opened Denial
  import opened Signing
  import opened SigningProofs
  import opened Zones
  import opened Gaps
  import opened Trust
  import opened Aliases
  import opened Outcomes
  import opened DenialExamples
  import opened WalkExamples
  import opened World
  import opened Answers
  import opened Holders
  import DenialProofs
  import N3 = Nsec3Proofs

  const A_NSEC: Bytes := [0, 6, 0x40, 0, 0, 0, 0, 0x01]
  const KEY: DNSKEY := DNSKEY(0x100, 3, 8, [])
  const MISSING: Name := [Y, X]

  // ---- what the root holds ----

  /** The owners ".", "*" with an alias to "y.x", and "x" with an address. */
  function Root(): Zone {
    Zone([], map[[] := {TypeNS, TypeSOA, TypeDNSKEY}, [[STAR]] := {TypeCNAME}, [X] := {TypeA, TypeNSEC}])
  }

  function Keys(): RR {
    KeyRR([], KEY)
  }

  /** The alias as the zone has it, and as it is shown. */
  function Pointer(name: Name): RR {
    AliasOf(name, MISSING)
  }

  /** The denial record of "x", the last of the zone. */
  function Gap(): RR {
    RR([X], TypeNSEC, ClassIN, 0, 0, [], [], [], [], None, [0] + A_NSEC)
  }

  function Content(n: Name, t: U16): set<Bytes> {
    if n !in Root().types || t !in Root().types[n] then {}
    else if t == TypeDNSKEY then {KeyRData(KEY)}
    else if t == TypeCNAME then {[1, 121, 1, 120, 0]}
    else if t == TypeNSEC then {[0] + A_NSEC}
    else {[1, 1, 1, 1]}
  }

  function Holds(): Holdings {
    Holdings(N3.HashedZone(Root(), {}, [], 0), Content)
  }

  function Here(): World {
    World(z => Holds())
  }

  // ---- what it signed, and what is received ----

  function Sig(rtype: U16, labels: Octet): RRSIG {
    RRSIG(rtype, 8, labels, 0, 0, 0, KeyTag(KEY), [], [])
  }

  /** The octets of the three sets it signed. */
  predicate Made(data: Bytes) {
    || SignedData([Keys()], Sig(TypeDNSKEY, 0)) == Some(data)
    || SignedData([Pointer([[STAR]])], Sig(TypeCNAME, 0)) == Some(data)
    || SignedData([Gap()], Sig(TypeNSEC, 1)) == Some(data)
  }

  function Reply(rcode: Octet, answers: seq<RR>, authorities: seq<RR>): Message {
    var header := Header(0, true, 0, true, false, false, false, false, false, rcode, 1, 0, 0, 0);
    Message(header, [], answers, authorities, [])
  }

  function KeyReply(): Message {
    Reply(RCodeSuccess, [Keys(), SigRR([], Sig(TypeDNSKEY, 0))], [])
  }

  function AliasReply(): Message {
    Reply(RCodeSuccess, [Pointer([X]), SigRR([X], Sig(TypeCNAME, 0))], [])
  }

  function DenialReply(): Message {
    Reply(RCodeNameError, [], [Gap(), SigRR([X], Sig(TypeNSEC, 1))])
  }

  function Given(name: Name, qtype: U16): Message {
    if qtype == TypeDNSKEY then KeyReply() else if name == [X] then AliasReply() else DenialReply()
  }

  /** A run of one step, in the first second there is. */
  function Run(): Env {
    Env(Crypto((algorithm, key, data, signature) => Made(data), (kind, data) => []),
        HashSuite(b => b, b => b), [DS(KeyTag(KEY), 8, 2, [])], n => 0,
        (n: nat, name: Name, qtype: U16) => Answered(Given(name, qtype)),
        ip => true, [[192, 0, 2, 1]], n => false, 0, 1)
  }

  // ---- the zone ----

  lemma RootOwners(n: Name)
    ensures Root().Owns(n) <==> n == [] || n == [[STAR]] || n == [X]
    ensures !Root().IsCut(n)
  {}

  lemma RootTree()
    ensures Root().Tree() && Root().Lookup([X], TypeA) == Data
  {
    var z := Root();
    assert X != [STAR];
    forall n ensures z.Owns(n) <==> n == [] || n == [[STAR]] || n == [X] { RootOwners(n); }
    forall c ensures !z.IsCut(c) { RootOwners(c); }
    assert IsSuffix([], [X]);
  }

  lemma HoldsAgrees()
    ensures Agrees(Holds())
  {
    forall n, t: U16 ensures Holds().data(n, t) == Content(n, t) {}
    forall n | Root().Owns(n) && TypeCNAME in Root().types[n] ensures n == [[STAR]] { RootOwners(n); }
  }

  lemma GapBitmap()
    ensures DenialProofs.BitmapOf(A_NSEC, {TypeA, TypeNSEC})
  {
    forall t: U16 ensures TypeInBitmap(A_NSEC, t) <==> t in {TypeA, TypeNSEC} {
      assert A_NSEC[2..8] == [0x40, 0, 0, 0, 0, 0x01];
      assert A_NSEC[8..] == [];
      assert !TypeInBitmap([], t);
    }
  }

  lemma GapReads()
    ensures AsNSEC(Gap()) == Some(NSEC([], A_NSEC))
  {
    assert ([0] + A_NSEC)[1..] == A_NSEC;
  }

  lemma GapAuthentic()
    ensures DenialProofs.Authentic(Root(), NsecRecord([X], NSEC([], A_NSEC)))
  {
    var z := Root();
    GapBitmap();
    Lowercase();
    Orders();
    RootFirst([X]);
    OrderZero([X], [X]);
    OrderFlip([[STAR]], [X]);
    assert Canon([]) == [];
    forall w | z.Owns(w) ensures Order([X], w) >= 0 { RootOwners(w); }
    assert z.Owns([]) && z.Owns([X]);
    assert IsNext(z, [X], []);
  }

  // ---- its signatures ----

  lemma SmallRecord(rr: RR, s: RRSIG)
    requires s.signerName == [] && LabelsOk(rr.name) && |rr.name| <= 1 && (s.labels as int) <= |rr.name|
    requires CanonicalRData(rr).Some? && |CanonicalRData(rr).value| < 0x100
    ensures SignedData([rr], s).Some? && |SignedData([rr], s).value| < 0x1_0000
  {
    var d := CanonicalRData(rr).value;
    var owner := SignedOwnerName(rr.name, s.labels);
    OneRecord(rr);
    var none: seq<Bytes> := [];
    assert [d][1..] == none && SortBytes([d]) == [d];
    assert Canon([]) == [] && LabelsOk(owner) && |owner| <= 1;
    LabelsOkCanon(owner);
    var head := RecordHead(WireName(Canon(owner)), s);
    assert Emit(head, [d]) == Record(head, d) + Emit(head, [d][1..]);
    ShortWire(Canon(owner));
  }

  lemma ShortWire(n: Name)
    requires LabelsOk(n) && |n| <= 1
    ensures |WireName(n)| <= 65
  {
    if n != [] { assert n[1..] == []; }
  }

  /** The octets of one record the zone holds. */
  ghost predicate OwnOctets(rr: RR, s: RRSIG, data: Bytes) {
    OwnSet(Run().hs, Holds(), data, [rr], s) && |data| < 0x1_0000
  }

  lemma KeysOwn() returns (data: Bytes)
    ensures OwnOctets(Keys(), Sig(TypeDNSKEY, 0), data)
  {
    SmallRecord(Keys(), Sig(TypeDNSKEY, 0));
    data := SignedData([Keys()], Sig(TypeDNSKEY, 0)).value;
    assert Canon([]) == [];
    assert KeyRData(KEY) in Holds().data([], TypeDNSKEY);
  }

  lemma AliasWire(name: Name)
    ensures CanonicalRData(Pointer(name)) == Some([1, 121, 1, 120, 0])
  {
    Wire();
    Lowercase();
  }

  lemma Wire()
    ensures LabelsOk(MISSING) && WireName(MISSING) == [1, 121, 1, 120, 0] && LabelsOk([[STAR]]) && LabelsOk([X])
  {
    assert MISSING[1..] == [X] && [X][1..] == [];
    assert WireName([]) == [0] && WireName([X]) == [1, 120, 0];
  }

  lemma StarOwner()
    ensures SignedOwnerName([[STAR]], 0) == [[STAR]] && SignedOwnerName([X], 0) == [[STAR]]
    ensures SignedOwnerName([X], 1) == [X]
  {
    assert [[STAR]][1..] == [] && [X][1..] == [];
  }

  lemma AliasOwn() returns (data: Bytes)
    ensures OwnOctets(Pointer([[STAR]]), Sig(TypeCNAME, 0), data)
  {
    Wire();
    AliasWire([[STAR]]);
    StarOwner();
    Lowercase();
    SmallRecord(Pointer([[STAR]]), Sig(TypeCNAME, 0));
    data := SignedData([Pointer([[STAR]])], Sig(TypeCNAME, 0)).value;
    RootOwners([[STAR]]);
    assert [1, 121, 1, 120, 0] in Holds().data([[STAR]], TypeCNAME);
  }

  lemma GapOwn() returns (data: Bytes)
    ensures OwnOctets(Gap(), Sig(TypeNSEC, 1), data)
  {
    Wire();
    StarOwner();
    Lowercase();
    SmallRecord(Gap(), Sig(TypeNSEC, 1));
    data := SignedData([Gap()], Sig(TypeNSEC, 1)).value;
    GapReads();
    GapAuthentic();
    assert [0] + A_NSEC in Holds().data([X], TypeNSEC);
  }

  lemma MadeIsOwn(data: Bytes)
    requires Made(data)
    ensures OwnData(Run().hs, Holds(), data)
  {
    var a := KeysOwn();
    var b := AliasOwn();
    var c := GapOwn();
  }

  lemma RootHolds(k: DNSKEY)
    ensures HeldHonestly(Run(), Holds(), k)
  {
    forall data, signature | Run().crypto.verify(k.algorithm, k.publicKey, data, signature)
      ensures OwnData(Run().hs, Holds(), data)
    {
      MadeIsOwn(data);
    }
  }

  /** Nothing verifies but what the zone holds. */
  lemma RootHonest()
    ensures Honest(Run(), Here(), [])
  {
    RootTree();
    HoldsAgrees();
    assert Canon([]) == [];
    forall k: DNSKEY ensures HeldHonestly(Run(), Holds(), k) { RootHolds(k); }
    HonestHolder(Run(), Here(), []);
  }

  // ---- the run ----

  lemma SetVerifies(rr: RR, s: RRSIG, data: Bytes)
    requires s.signerName == [] && s.typeCovered == rr.rtype && s == Sig(rr.rtype, s.labels)
    requires SignedData([rr], s) == Some(data) && Made(data)
    ensures VerifyRRSet(Run().crypto, [rr], s, KEY, 0) == Valid
  {
    assert Run().crypto.verify(8, [], data, []);
    assert IsZoneKey(KEY);
  }

  lemma SetHeld(rr: RR, s: RRSIG, data: Bytes)
    requires s.signerName == [] && s.typeCovered == rr.rtype && s == Sig(rr.rtype, s.labels)
    requires SignedData([rr], s) == Some(data) && Made(data)
    ensures InVerifiedSet(Run(), [rr, SigRR(rr.name, s)], rr, [rr], s, [KEY])
  {
    var section := [rr, SigRR(rr.name, s)];
    SetVerifies(rr, s, data);
    assert section == [rr] + [SigRR(rr.name, s)];
    SigFound([rr], rr.name, s);
    assert Unix(Run(), 0) == 0;
    InSet(Run(), section, rr, s, KEY, 0);
  }

  lemma WasReceived(name: Name, qtype: U16)
    ensures Received(Run(), Given(name, qtype), name, qtype)
  {
    assert During(Run(), 0) && Run().network(0, name, qtype) == Answered(Given(name, qtype));
  }

  /** The root's key is trusted by the anchor. */
  lemma RootTrusted()
    ensures TrustedKeys(Run(), [], [KEY])
  {
    var section, s := KeyReply().answers, Sig(TypeDNSKEY, 0);
    var data := KeysOwn();
    SetHeld(Keys(), s, data);
    assert section == [Keys()] + [SigRR([], s)] && [] + [Keys()] == [Keys()];
    KeySnoc([], [], KEY);
    SigAdded([Keys()], [], s);
    assert KeySet(section, []) == [Keys()] && KeysIn(section, []) == [KEY];
    assert Canon([]) == [];
    WasReceived([], TypeDNSKEY);
    assert VerifiedBy(Run(), section, [Keys()], [KEY], s);
    assert VouchedBy(Run(), [], section, Run().anchors, 0, 0);
    VouchedIsTrusted(Run(), RootBase, [], Run().anchors, KeyReply());
  }

  lemma GapProves()
    ensures NoName([NsecRecord([X], NSEC([], A_NSEC))], MISSING) == Proven
  {
    var gap := NsecRecord([X], NSEC([], A_NSEC));
    var like := NsecRecord([X], NSEC([], NS_DS));
    LastGap(like, MISSING);
    StarBelowX(like);
    assert Covers(gap, MISSING) && Covers(gap, [[STAR], X]) && ClosestEncloser(gap, MISSING) == [X];
    assert Wildcard([X]) == [[STAR], X];
  }

  lemma GapDecides()
    ensures Decides(Run(), NoSuchName(MISSING), [Gap()], Proven)
  {
    GapReads();
    GapProves();
    assert [Gap()][..0] == [] && NsecRecords([]) == [] && NsecRecords([Gap()]) == [NsecRecord([X], NSEC([], A_NSEC))];
  }

  /** That "y.x" does not exist is settled. */
  lemma ErrorSettled()
    ensures NameErrorMeans(Run(), MISSING, TypeA)
  {
    var s, msg := Sig(TypeNSEC, 1), DenialReply();
    var data := GapOwn();
    SetHeld(Gap(), s, data);
    WasReceived(MISSING, TypeA);
    RootTrusted();
    GapDecides();
    assert Vetted(Run(), msg.authorities, Gap(), [KEY]);
    assert DecidedOver(Run(), msg.authorities, NoSuchName(MISSING), [KEY], Proven, [Gap()]);
    assert SettledBy(Run(), MISSING, TypeA, NoSuchName(MISSING), Proven, [], [KEY], msg);
  }

  lemma AliasShown()
    ensures InVerifiedSet(Run(), AliasReply().answers, Pointer([X]), [Pointer([X])], Sig(TypeCNAME, 0), [KEY])
  {
    var s := Sig(TypeCNAME, 0);
    var data := AliasOwn();
    AliasWire([X]);
    AliasWire([[STAR]]);
    StarOwner();
    OneRecord(Pointer([X]));
    OneRecord(Pointer([[STAR]]));
    assert SignedData([Pointer([X])], s) == SignedData([Pointer([[STAR]])], s);
    SetHeld(Pointer([X]), s, data);
  }

  lemma ErrorPromised()
    ensures LeadsTo(Run(), [X], TypeA, 0, [Pointer([X])], MISSING)
    ensures Promised(Run(), true, [X], TypeA, 0, Failed(NXDomain(MISSING, None)))
  {
    ErrorSettled();
    WasReceived([X], TypeA);
    WasReceived(MISSING, TypeA);
    assert ErrorGiven(Run(), MISSING, TypeA, None, DenialReply());
    ErrorThere(Run(), [X], MISSING, TypeA, None, Pointer([X]), AliasReply(), DenialReply());
  }

  lemma NoAliasThere()
    ensures !AliasThere(Here(), [], TypeA, Pointer([X]))
  {
    RootTree();
    Lowercase();
    forall owner ensures !ServedFrom(Holds(), Canon([X]), TypeA, Pointer([X]), owner) {}
  }

  lemma NotChecked()
    ensures !LinkChecked(Run(), Here(), [X], TypeA, Pointer([X]), [])
  {
    if LinkChecked(Run(), Here(), [X], TypeA, Pointer([X]), []) {
      RootHonest();
      LinkIsTrue(Run(), Here(), [X], TypeA, Pointer([X]));
      CheckedIsThere(Run(), Here(), [X], TypeA, Pointer([X]), []);
      NoAliasThere();
      assert false;
    }
  }

  /** The response to the query for "x" holds the wildcard's alias under that name, with
      its signature, valid, by trusted keys of an honest zone that encloses "x". The
      name error of its target is a promised outcome of the query, while the zone's
      lookup of "x" finds an address; and so this link cannot have been checked. */
  lemma ReplayedWildcard()
    ensures Honest(Run(), Here(), []) && TrustedKeys(Run(), [], [KEY])
    ensures Received(Run(), AliasReply(), [X], TypeA)
    ensures InVerifiedSet(Run(), AliasReply().answers, Pointer([X]), [Pointer([X])], Sig(TypeCNAME, 0), [KEY])
    ensures LeadsTo(Run(), [X], TypeA, 0, [Pointer([X])], MISSING)
    ensures Promised(Run(), true, [X], TypeA, 0, Failed(NXDomain(MISSING, None)))
    ensures Root().Tree() && IsSuffix(Root().apex, [X]) && Root().Lookup([X], TypeA) == Data
    ensures !LinkChecked(Run(), Here(), [X], TypeA, Pointer([X]), [])
  {
    RootHonest();
    RootTrusted();
    RootTree();
    WasReceived([X], TypeA);
    AliasShown();
    ErrorPromised();
    NotChecked();
  }
}

/** Small signed zones on which the NSEC checker accepts more than its names suggest. */
module DenialExamples {
  import opened Octets
  import opened Names
  import opened Messages
  import opened Nsec3
  import opened Denial
  import opened Zones
  import opened Gaps
  import opened Signing
  import DenialProofs

  const X: Label := [120]
  const Y: Label := [121]
  const SOA_NS: Bytes := [0, 1, 0x22]   // NS and SOA
  const ONLY_A: Bytes := [0, 1, 0x40]
  const ONLY_CNAME: Bytes := [0, 1, 0x04]
  const NS_DS: Bytes := [0, 6, 0x20, 0, 0, 0, 0, 0x10]
  const ONLY_MX: Bytes := [0, 2, 0, 1]

  /** A zone with two owners, the root and one other. */
  function TwoNames(other: Name, types: set<U16>): Zone {
    Zone([], map[[] := {TypeNS, TypeSOA}, other := types])
  }

  function Chain(other: Name, bitmap: Bytes): seq<NsecRecord> {
    [NsecRecord([], NSEC(other, SOA_NS)), NsecRecord(other, NSEC([], bitmap))]
  }

  lemma BitmapsRight()
    ensures DenialProofs.BitmapOf(SOA_NS, {TypeNS, TypeSOA})
    ensures DenialProofs.BitmapOf(ONLY_A, {TypeA}) && DenialProofs.BitmapOf(ONLY_CNAME, {TypeCNAME})
  {
    forall t: U16 ensures TypeInBitmap(SOA_NS, t) <==> t in {TypeNS, TypeSOA} { OneOctet(0x22, t); }
    forall t: U16 ensures TypeInBitmap(ONLY_A, t) <==> t in {TypeA} { OneOctet(0x40, t); }
    forall t: U16 ensures TypeInBitmap(ONLY_CNAME, t) <==> t in {TypeCNAME} { OneOctet(0x04, t); }
  }

  lemma OneOctet(b: Octet, t: U16)
    ensures TypeInBitmap([0, 1, b], t) <==> t < 8 && Bit(b, t)
  {
    var buf := [0, 1, b];
    assert buf[2..3] == [b];
    assert buf[3..] == [];
    assert !TypeInBitmap([], t);
  }

  lemma RootFirst(n: Name)
    requires n != []
    ensures Order([], n) == -1 && Order(n, []) == 1
  {}

  lemma TwoNamesTree(other: Name, types: set<U16>)
    requires other != [] && TypeSOA !in types
    ensures TwoNames(other, types).Tree()
  {
    var z := TwoNames(other, types);
    forall n | z.Owns(n) ensures n == [] || n == other {}
  }

  lemma ChainAuthentic(other: Name, types: set<U16>, bitmap: Bytes)
    requires other != [] && Canon(other) == other && DenialProofs.BitmapOf(bitmap, types)
    ensures DenialProofs.AllAuthentic(TwoNames(other, types), Chain(other, bitmap))
  {
    var z := TwoNames(other, types);
    BitmapsRight();
    RootFirst(other);
    OrderZero(other, other);
    assert Canon([]) == [];
    assert z.Owns([]) && z.Owns(other);
    forall n | z.Owns(n) ensures n == [] || n == other {}
    assert IsNext(z, [], other);
    OrderZero([], []);
    assert IsNext(z, other, []);
  }

  lemma Lowercase()
    ensures Canon([X]) == [X] && Canon([Y, X]) == [Y, X] && Canon([[STAR]]) == [[STAR]]
        && Canon([[STAR], X]) == [[STAR], X]
  {
    assert LowerAll(X) == X && LowerAll(Y) == Y && LowerAll([STAR]) == [STAR];
  }

  lemma Orders()
    ensures Order([X], [Y, X]) == -1 && Order([[STAR], X], [Y, X]) == -1 && Order([X], [[STAR]]) == 1
  {
    assert Last([X]) == X && Last([Y, X]) == X && Front([X]) == [] && Front([Y, X]) == [Y];
    CompareZero(X, X);
    assert Last([[STAR], X]) == X && Front([[STAR], X]) == [[STAR]];
    assert Last([Y]) == Y && Last([[STAR]]) == [STAR];
    assert Compare([STAR], Y) == -1;
    assert Compare(X, [STAR]) == 1;
  }

  lemma EncloserOfX(gap: NsecRecord)
    requires gap == NsecRecord([], NSEC([Y, X], SOA_NS))
    ensures ClosestEncloser(gap, [X]) == [X]
  {
    Lowercase();
    assert Last([X]) == X && Last([Y, X]) == X && Front([X]) == [];
    assert Shared([X], [Y, X]) == 1;
    assert [X][0..] == [X];
    assert Canon([]) == [] && Shared([X], []) == 0;
  }

  lemma FirstGapCovers(gap: NsecRecord)
    requires gap == NsecRecord([], NSEC([Y, X], SOA_NS))
    ensures Covers(gap, [X]) && Covers(gap, [[STAR], X])
  {
    Lowercase();
    Orders();
    RootFirst([X]);
    RootFirst([Y, X]);
    RootFirst([[STAR], X]);
    assert Canon([]) == [];
  }

  lemma NameErrorAccepted()
    ensures NoName(Chain([Y, X], ONLY_A), [X]) == Proven
  {
    var gap := NsecRecord([], NSEC([Y, X], SOA_NS));
    FirstGapCovers(gap);
    EncloserOfX(gap);
    assert Wildcard([X]) == [[STAR], X];
  }

  lemma EmptyNonTerminalLookup()
    ensures var z := TwoNames([Y, X], {TypeA});
            z.Exists([X]) && IsSuffix(z.apex, [X]) && z.Lookup([X], TypeA) == NoData
  {
    var z := TwoNames([Y, X], {TypeA});
    assert z.Owns([Y, X]) && IsSuffix([X], [Y, X]);
    forall c | z.Owns(c) ensures !z.IsCut(c) {}
    assert [X] !in z.types;
  }

  /** With owners "." and "y.x", the name error proof for "x" goes through on the
      zone's own records, although "x" exists as an empty non-terminal and the
      lookup is an empty answer. */
  lemma EmptyNonTerminalDenied() returns (z: Zone, nsecs: seq<NsecRecord>)
    ensures z.Tree() && DenialProofs.AllAuthentic(z, nsecs)
    ensures NoName(nsecs, [X]) == Proven
    ensures z.Exists([X]) && IsSuffix(z.apex, [X]) && z.Lookup([X], TypeA) == NoData
  {
    z, nsecs := TwoNames([Y, X], {TypeA}), Chain([Y, X], ONLY_A);
    BitmapsRight();
    Lowercase();
    TwoNamesTree([Y, X], {TypeA});
    ChainAuthentic([Y, X], {TypeA}, ONLY_A);
    NameErrorAccepted();
    EmptyNonTerminalLookup();
  }

  lemma RootEncloser(gap: NsecRecord)
    requires gap == NsecRecord([[STAR]], NSEC([], ONLY_CNAME))
    ensures ClosestEncloser(gap, [X]) == []
  {
    Lowercase();
    assert Last([X]) == X && Last([[STAR]]) == [STAR];
    assert Canon([]) == [] && Shared([X], []) == 0 && Shared([X], [[STAR]]) == 0;
    assert [X][1..] == [];
  }

  lemma LastGapCovers(first: NsecRecord, last: NsecRecord)
    requires first == NsecRecord([], NSEC([[STAR]], SOA_NS)) && last == NsecRecord([[STAR]], NSEC([], ONLY_CNAME))
    ensures !Covers(first, [X]) && Covers(last, [X])
    ensures !EqualName(first.owner, [X]) && !EqualName(last.owner, [X]) && EqualName(last.owner, Wildcard([]))
    ensures !IsProperSubdomain([], [X])
  {
    Lowercase();
    Orders();
    RootFirst([X]);
    RootFirst([[STAR]]);
    assert Canon([]) == [];
    assert X != [STAR];
    assert Wildcard([]) == [[STAR]];
  }

  lemma NoDataAccepted()
    ensures NoDataAt(Chain([[STAR]], ONLY_CNAME), [X], TypeA) == Proven
  {
    var nsecs := Chain([[STAR]], ONLY_CNAME);
    var first, last := nsecs[0], nsecs[1];
    LastGapCovers(first, last);
    assert nsecs[1..] == [last] && [last][1..] == [];
    assert FindOwner([], [X]) == None;
    assert FindOwner([last], [X]) == None;
    assert FindOwner(nsecs, [X]) == None;
    assert FindCovering([last], [X]) == Some(last);
    assert FindCovering(nsecs, [X]) == Some(last);
    RootEncloser(last);
    BitmapsRight();
    assert !TypeInBitmap(last.rr.typeBitmap, TypeA);
    assert nsecs[1] == last;
    assert WildcardLacks(nsecs, Wildcard([]), TypeA);
  }

  lemma WildcardAliasLookup()
    ensures var z := TwoNames([[STAR]], {TypeCNAME});
            IsSuffix(z.apex, [X]) && z.Lookup([X], TypeA) == Alias
  {
    var z := TwoNames([[STAR]], {TypeCNAME});
    assert X != [STAR];
    forall c | z.Owns(c) ensures !z.IsCut(c) && !IsSuffix([X], c) {}
    assert [X] !in z.types && !z.Exists([X]);
    assert [X][1..] == [] && z.Owns([]) && z.Exists([]);
    assert z.Encloser([X]) == z.Encloser([]) == [];
    assert Wildcard([]) == [[STAR]] && [[STAR]] in z.types;
  }

  /** With owners "." and "*", the wildcard an alias, the no-data proof for an
      address of "x" goes through, although the lookup finds the alias. */
  lemma WildcardAliasDenied() returns (z: Zone, nsecs: seq<NsecRecord>)
    ensures z.Tree() && DenialProofs.AllAuthentic(z, nsecs)
    ensures NoDataAt(nsecs, [X], TypeA) == Proven
    ensures IsSuffix(z.apex, [X]) && z.Lookup([X], TypeA) == Alias
  {
    z, nsecs := TwoNames([[STAR]], {TypeCNAME}), Chain([[STAR]], ONLY_CNAME);
    BitmapsRight();
    Lowercase();
    TwoNamesTree([[STAR]], {TypeCNAME});
    ChainAuthentic([[STAR]], {TypeCNAME}, ONLY_CNAME);
    NoDataAccepted();
    WildcardAliasLookup();
  }

  // ---- a name below a delegation ----

  lemma DelegationBitmap()
    ensures DenialProofs.BitmapOf(NS_DS, {TypeNS, TypeDS})
  {
    forall t: U16 ensures TypeInBitmap(NS_DS, t) <==> t in {TypeNS, TypeDS} {
      assert NS_DS[2..8] == [0x20, 0, 0, 0, 0, 0x10];
      assert NS_DS[8..] == [];
      assert !TypeInBitmap([], t);
    }
  }

  lemma LastGap(gap: NsecRecord, child: Name)
    requires gap == NsecRecord([X], NSEC([], NS_DS)) && child == [Y, X]
    ensures !EqualName(gap.owner, child) && Covers(gap, child)
  {
    Lowercase();
    Orders();
    OrderFlip([Y, X], [X]);
    RootFirst([X]);
    RootFirst([Y, X]);
    assert Canon([]) == [];
  }

  lemma SecondAuthentic(other: Name, types: set<U16>, bitmap: Bytes)
    requires other != [] && Canon(other) == other && DenialProofs.BitmapOf(bitmap, types)
    ensures DenialProofs.AllAuthentic(TwoNames(other, types), [NsecRecord(other, NSEC([], bitmap))])
  {
    var nsecs := [NsecRecord(other, NSEC([], bitmap))];
    ChainAuthentic(other, types, bitmap);
    assert DenialProofs.Index(Chain(other, bitmap), 1);
    forall i {:trigger DenialProofs.Index(nsecs, i)} | DenialProofs.Index(nsecs, i)
      ensures DenialProofs.Authentic(TwoNames(other, types), nsecs[i])
    {
      assert nsecs[i] == Chain(other, bitmap)[1];
    }
  }

  lemma BelowSignedCut()
    ensures var z := TwoNames([X], {TypeNS, TypeDS});
            z.IsCut([X]) && IsSuffix(z.apex, [Y, X]) && forall t :: z.Lookup([Y, X], t) == Referral
  {
    var z := TwoNames([X], {TypeNS, TypeDS});
    assert z.Owns([X]) && IsSuffix([X], [Y, X]);
  }

  /** With owners "." and a signed delegation "x", the root's own record of "x" proves
      that "y.x" has no DS, although whether it has is for "x" to say: the lookup is a
      referral. */
  lemma SignedChildDenied() returns (z: Zone, nsecs: seq<NsecRecord>)
    ensures z.Tree() && DenialProofs.AllAuthentic(z, nsecs)
    ensures z.IsCut([X]) && TypeDS in z.types[[X]] && NoDS(nsecs, [Y, X]) == Proven
    ensures IsSuffix(z.apex, [Y, X]) && z.Lookup([Y, X], TypeDS) == Referral
  {
    z, nsecs := TwoNames([X], {TypeNS, TypeDS}), [NsecRecord([X], NSEC([], NS_DS))];
    Lowercase();
    DelegationBitmap();
    TwoNamesTree([X], {TypeNS, TypeDS});
    SecondAuthentic([X], {TypeNS, TypeDS}, NS_DS);
    LastGap(nsecs[0], [Y, X]);
    assert nsecs[1..] == [];
    assert FindOwner(nsecs, [Y, X]) == FindOwner([], [Y, X]) == None;
    BelowSignedCut();
  }

  lemma StarBelowX(gap: NsecRecord)
    requires gap == NsecRecord([X], NSEC([], NS_DS))
    ensures Covers(gap, [[STAR], X]) && ClosestEncloser(gap, [Y, X]) == [X]
  {
    Lowercase();
    assert Last([[STAR], X]) == X && Last([Y, X]) == X && Last([X]) == X && Front([X]) == [];
    assert Front([[STAR], X]) == [[STAR]] && Front([Y, X]) == [Y];
    CompareZero(X, X);
    RootFirst([X]);
    RootFirst([[STAR], X]);
    assert Canon([]) == [] && Shared([Y, X], [X]) == 1 && Shared([Y, X], []) == 0;
    assert [Y, X][1..] == [X];
  }

  /** The same record also proves a name error for "y.x", which is for "x" to answer. */
  lemma BelowDelegationDenied() returns (z: Zone, nsecs: seq<NsecRecord>)
    ensures z.Tree() && DenialProofs.AllAuthentic(z, nsecs)
    ensures z.IsCut([X]) && NoName(nsecs, [Y, X]) == Proven
    ensures IsSuffix(z.apex, [Y, X]) && z.Lookup([Y, X], TypeA) == Referral
  {
    z, nsecs := TwoNames([X], {TypeNS, TypeDS}), [NsecRecord([X], NSEC([], NS_DS))];
    Lowercase();
    DelegationBitmap();
    TwoNamesTree([X], {TypeNS, TypeDS});
    SecondAuthentic([X], {TypeNS, TypeDS}, NS_DS);
    LastGap(nsecs[0], [Y, X]);
    StarBelowX(nsecs[0]);
    BelowSignedCut();
    assert Wildcard([X]) == [[STAR], X];
  }

  // ---- no delegation at all ----

  lemma XOwnsA()
    ensures var z := TwoNames([X], {TypeA});
            !z.IsCut([X]) && IsSuffix(z.apex, [X]) && z.Lookup([X], TypeA) == Data
  {
    var z := TwoNames([X], {TypeA});
    forall c | z.Owns(c) ensures !z.IsCut(c) {}
  }

  /** With owners "." and "x", the latter with an address, the record of "x" proves that
      "x" has no DS: an ordinary name passes for an unsigned delegation. */
  lemma NoDelegationNeeded() returns (z: Zone, nsecs: seq<NsecRecord>)
    ensures z.Tree() && DenialProofs.AllAuthentic(z, nsecs)
    ensures NoDS(nsecs, [X]) == Proven && !z.IsCut([X])
    ensures IsSuffix(z.apex, [X]) && z.Lookup([X], TypeA) == Data
  {
    z, nsecs := TwoNames([X], {TypeA}), [NsecRecord([X], NSEC([], ONLY_A))];
    Lowercase();
    BitmapsRight();
    TwoNamesTree([X], {TypeA});
    SecondAuthentic([X], {TypeA}, ONLY_A);
    XOwnsA();
    assert FindOwner(nsecs, [X]) == Some(nsecs[0]);
  }

  // ---- a wildcard's record under another name ----

  /** The owners ".", "*" with a mail exchanger, and "x" with an address. */
  function WildAndX(): Zone {
    Zone([], map[[] := {TypeNS, TypeSOA}, [[STAR]] := {TypeMX}, [X] := {TypeA}])
  }

  lemma MailBitmap()
    ensures DenialProofs.BitmapOf(ONLY_MX, {TypeMX})
  {
    forall t: U16 ensures TypeInBitmap(ONLY_MX, t) <==> t in {TypeMX} {
      assert ONLY_MX[2..4] == [0, 1];
      assert ONLY_MX[4..] == [];
      assert !TypeInBitmap([], t);
    }
  }

  lemma WildAndXTree()
    ensures WildAndX().Tree() && WildAndX().Lookup([X], TypeA) == Data
  {
    var z := WildAndX();
    assert X != [STAR];
    forall n | z.Owns(n) ensures n == [] || n == [[STAR]] || n == [X] {}
    forall c | z.Owns(c) ensures !z.IsCut(c) {}
    assert IsSuffix([], [X]);
  }

  lemma WildAuthentic()
    ensures DenialProofs.Authentic(WildAndX(), NsecRecord([[STAR]], NSEC([X], ONLY_MX)))
  {
    var z := WildAndX();
    MailBitmap();
    Lowercase();
    Orders();
    OrderFlip([[STAR]], [X]);
    OrderZero([X], [X]);
    OrderZero([[STAR]], [[STAR]]);
    RootFirst([[STAR]]);
    assert z.Owns([X]);
    forall w | z.Owns(w) && Order([[STAR]], w) < 0 ensures w == [X] {}
    assert IsNext(z, [[STAR]], [X]);
  }

  lemma ShownUnderX() returns (rr: RR)
    ensures rr.name == [X] && AsNSEC(rr) == Some(NSEC([X], ONLY_MX))
  {
    var raw: Bytes := [1, 120, 0] + ONLY_MX;
    assert raw[1..2] == X && raw[2..] == [0] + ONLY_MX && ([0] + ONLY_MX)[1..] == ONLY_MX;
    assert UncompressedName([0] + ONLY_MX) == Some(([], ONLY_MX));
    assert [X] + [] == [X];
    rr := RR([X], TypeNSEC, ClassIN, 0, 0, [], [], [], [], None, raw);
  }

  /** The record the zone signed for "*", shown under "x" with a signature that counts
      no labels: it is authentic under the name that was signed and not under the one
      shown, and the checker takes it as proof that "x" has no address, which it has. */
  lemma WildcardRecordElsewhere() returns (z: Zone, rr: RR, n: NSEC)
    ensures z.Tree() && rr.name == [X] && AsNSEC(rr) == Some(n)
    ensures DenialProofs.Authentic(z, NsecRecord(SignedOwnerName(rr.name, 0), n))
    ensures forall hs :: NoDataVerdict(hs, [rr], [X], TypeA) == Proven
    ensures IsSuffix(z.apex, [X]) && z.Lookup([X], TypeA) == Data
  {
    z, n := WildAndX(), NSEC([X], ONLY_MX);
    rr := ShownUnderX();
    WildAndXTree();
    WildAuthentic();
    MailBitmap();
    assert SignedOwnerName([X], 0) == [[STAR]] by { assert [X][1..] == []; }
    assert [rr][..0] == [];
    assert NsecRecords([]) == [];
    assert NsecRecords([rr]) == [NsecRecord([X], n)];
    assert FindOwner([NsecRecord([X], n)], [X]) == Some(NsecRecord([X], n));
    assert EmptyAtOwner(ONLY_MX, TypeA);
  }

  // ---- a wildcard that is not at the closest encloser ----

  const Z: Label := [122]

  /** The owners ".", "*" and "y.x", each of the last two with an address. */
  function WildAndYX(): Zone {
    Zone([], map[[] := {TypeNS, TypeSOA}, [[STAR]] := {TypeA}, [Y, X] := {TypeA}])
  }

  lemma WildAndYXTree()
    ensures WildAndYX().Tree()
  {
    var z := WildAndYX();
    forall n | z.Owns(n) ensures n == [] || n == [[STAR]] || n == [Y, X] {}
    forall c | z.Owns(c) ensures !z.IsCut(c) {}
  }

  lemma OrdersYX()
    ensures Canon([Z, X]) == [Z, X] && Order([Z, X], [Y, X]) == 1 && Order([[STAR]], [Y, X]) == -1
    ensures Shared([Z, X], [Y, X]) == 1
  {
    assert LowerAll(Z) == Z && LowerAll(X) == X;
    assert Last([Z, X]) == X && Last([Y, X]) == X && Front([Z, X]) == [Z] && Front([Y, X]) == [Y];
    CompareZero(X, X);
    assert Last([Y]) == Y && Last([Z]) == Z && Compare(Z, Y) == 1 && Front([Y]) == [] && Front([Z]) == [];
    assert Last([[STAR]]) == [STAR] && Compare([STAR], X) == -1;
    assert Shared([Z], [Y]) == 0;
  }

  lemma LastOfYX(gap: NsecRecord)
    requires gap == NsecRecord([Y, X], NSEC([], ONLY_A))
    ensures DenialProofs.Authentic(WildAndYX(), gap) && Covers(gap, [Z, X]) && ClosestEncloser(gap, [Z, X]) == [X]
  {
    var z := WildAndYX();
    BitmapsRight();
    Lowercase();
    OrdersYX();
    OrderFlip([[STAR]], [Y, X]);
    OrderZero([Y, X], [Y, X]);
    RootFirst([Y, X]);
    RootFirst([Z, X]);
    assert Canon([]) == [];
    forall w | z.Owns(w) ensures Order([Y, X], w) >= 0 {}
    assert IsNext(z, [Y, X], []);
    assert [Z, X][1..] == [X] && Shared([Z, X], []) == 0;
  }

  lemma YXExist(n: Name)
    ensures WildAndYX().Exists(n) <==> IsSuffix(n, [[STAR]]) || IsSuffix(n, [Y, X])
  {
    var z := WildAndYX();
    forall o | z.Owns(o) ensures o == [] || o == [[STAR]] || o == [Y, X] {}
    assert z.Owns([[STAR]]) && z.Owns([Y, X]) && z.Owns([]);
    assert IsSuffix(n, []) ==> n == [] && IsSuffix(n, [Y, X]);
  }

  lemma ZXSuffixes()
    ensures IsSuffix([X], [Y, X]) && !IsSuffix([Z, X], [[STAR]]) && !IsSuffix([Z, X], [Y, X])
    ensures !IsSuffix([[STAR], X], [[STAR]]) && !IsSuffix([[STAR], X], [Y, X])
  {
    assert [Y, X][1..] == [X] && [Y, X][0..] == [Y, X];
    assert [Z, X][0] != [Y, X][0] && [[STAR], X][0] != [Y, X][0];
  }

  lemma ParentEncloser(z: Zone, n: Name, p: Name)
    requires z.apex in z.types && z.apex == [] && n != [] && n[1..] == p && !z.Exists(n) && z.Exists(p)
    ensures IsSuffix(z.apex, n) && z.Encloser(n) == p
  {
    assert IsSuffix([], n) && IsSuffix([], p);
  }

  lemma ZXNames()
    ensures var z := WildAndYX(); !z.Exists([Z, X]) && z.Exists([X]) && !z.Exists([[STAR], X])
  {
    ZXSuffixes();
    YXExist([Z, X]);
    YXExist([X]);
    YXExist([[STAR], X]);
  }

  lemma ZXEncloser()
    ensures var z := WildAndYX();
            IsSuffix(z.apex, [Z, X]) && !z.Exists([Z, X]) && z.Encloser([Z, X]) == [X] && !z.Exists(Wildcard([X]))
  {
    ZXNames();
    assert [Z, X][1..] == [X] && Wildcard([X]) == [[STAR], X];
    ParentEncloser(WildAndYX(), [Z, X], [X]);
  }

  lemma ZXLookup()
    ensures var z := WildAndYX(); IsSuffix(z.apex, [Z, X]) && z.Lookup([Z, X], TypeA) == NameError
  {
    var z := WildAndYX();
    ZXEncloser();
    forall c | z.Owns(c) ensures !z.IsCut(c) {}
    NotThere(z, [Z, X]);
    NotThere(z, Wildcard([X]));
  }

  lemma NotThere(z: Zone, n: Name)
    requires !z.Exists(n)
    ensures n !in z.types
  {
    if z.Owns(n) { assert IsSuffix(n, n); }
  }

  /** With owners ".", "*" and "y.x", an answer made from "*" is proven to be entitled
      to "z.x", although the wildcard does not reach below "x": the lookup is a name
      error. */
  lemma WildcardTooHigh() returns (z: Zone, nsecs: seq<NsecRecord>)
    ensures z.Tree() && DenialProofs.AllAuthentic(z, nsecs) && Wildcard([]) in z.types
    ensures NoCloser(nsecs, [Z, X]) == Proven && |ClosestEncloser(FindCovering(nsecs, [Z, X]).value, [Z, X])| == 1
    ensures IsSuffix(z.apex, [Z, X]) && z.Lookup([Z, X], TypeA) == NameError
  {
    z := WildAndYX();
    var gap := NsecRecord([Y, X], NSEC([], ONLY_A));
    nsecs := [gap];
    WildAndYXTree();
    LastOfYX(gap);
    ZXLookup();
    assert Wildcard([]) == [[STAR]];
  }
}

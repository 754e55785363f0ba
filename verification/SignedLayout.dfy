/** The octets a signature and a DS record are made over, read back field by field
    with the readers of the wire format (sections 3.1.8.1, 5.1.4 and 6 of RFC 4034). */
module SignedLayout {
  import opened Octets
  import opened Names
  import opened Messages
  import opened Canonical
  import opened Encode
  import opened Signing
  import opened SigningProofs

  // ---- the readers undo the writers, and nothing else ----

  lemma {:induction false} WireNameReads(n: Name, rest: Bytes)
    requires LabelsOk(n)
    ensures UncompressedName(WireName(n) + rest) == Some((n, rest))
  {
    var buf := WireName(n) + rest;
    if n == [] {
      assert buf[1..] == rest;
    } else {
      FrontLabel(n, rest);
      WireNameReads(n[1..], rest);
      assert [n[0]] + n[1..] == n;
    }
  }

  lemma ConsName(first: Label, n: Name, rest: Bytes)
    requires LabelsOk(n) && 1 <= |first| <= 63
    ensures LabelsOk([first] + n) && WireName([first] + n) + rest == [|first|] + first + (WireName(n) + rest)
  {
    var whole := [first] + n;
    assert whole[1..] == n && whole[0] == first;
    assert [|first|] + first + WireName(n) + rest == [|first|] + first + (WireName(n) + rest);
  }

  lemma ReadStep(buf: Bytes, n: Name, rest: Bytes)
    requires buf != [] && 0 < buf[0] < 0x40 && 1 + buf[0] as int <= |buf| && LabelsOk(n)
    requires buf[1 + buf[0] as int..] == WireName(n) + rest
    ensures var first := buf[1..1 + buf[0] as int];
            LabelsOk([first] + n) && buf == WireName([first] + n) + rest
  {
    var stop := 1 + buf[0] as int;
    ConsName(buf[1..stop], n, rest);
    assert buf == [buf[0]] + buf[1..stop] + buf[stop..];
  }

  /** What reads as a name is the wire form of that name. */
  lemma {:induction false} ReadIsWireName(buf: Bytes)
    requires UncompressedName(buf).Some?
    ensures LabelsOk(UncompressedName(buf).value.0)
    ensures buf == WireName(UncompressedName(buf).value.0) + UncompressedName(buf).value.1
    decreases |buf|
  {
    if buf[0] == 0 {
      assert buf == [0] + buf[1..];
    } else {
      var stop := 1 + buf[0] as int;
      ReadIsWireName(buf[stop..]);
      match UncompressedName(buf[stop..])
      case Some((n, rest)) => ReadStep(buf, n, rest);
    }
  }

  lemma NameReadIff(buf: Bytes, n: Name, rest: Bytes)
    ensures UncompressedName(buf) == Some((n, rest)) <==> LabelsOk(n) && buf == WireName(n) + rest
  {
    if UncompressedName(buf).Some? { ReadIsWireName(buf); }
    if LabelsOk(n) { WireNameReads(n, rest); }
  }

  lemma GetAt(a: Bytes, rest: Bytes, i: nat)
    requires i + 2 <= |a|
    ensures GetU16(a + rest, i) == GetU16(a[i..i + 2], 0)
  {}

  lemma PutGet16(b: Bytes)
    requires |b| == 2
    ensures PutU16(GetU16(b, 0)) == b
  {}

  lemma PutGet32(b: Bytes)
    requires |b| == 4
    ensures PutU32(GetU32(b, 0)) == b
  {
    var hi, lo := GetU16(b, 0), GetU16(b, 2);
    assert hi == GetU16(b[..2], 0) && lo == GetU16(b[2..], 0);
    Halves(hi, lo);
    PutGet16(b[..2]);
    PutGet16(b[2..]);
    assert b == b[..2] + b[2..];
  }

  lemma Halves(hi: U16, lo: U16)
    ensures var v: U32 := hi * 0x1_0000 + lo; v / 0x1_0000 == hi && v % 0x1_0000 == lo
  {}

  lemma FieldsParse(s: RRSIG, rest: Bytes)
    ensures var raw := SigFields(s) + rest;
            && GetU16(raw, 0) == s.typeCovered && raw[2] == s.algorithm && raw[3] == s.labels
            && GetU32(raw, 4) == s.originalTTL && GetU32(raw, 8) == s.expiration && GetU32(raw, 12) == s.inception
            && GetU16(raw, 16) == s.keyTag && raw[18..] == rest
  {
    var a := SigFields(s);
    assert a[..2] == PutU16(s.typeCovered) && a[4..8] == PutU32(s.originalTTL) && a[8..12] == PutU32(s.expiration);
    assert a[12..16] == PutU32(s.inception) && a[16..18] == PutU16(s.keyTag);
    GetAt(a, rest, 0);
    GetAt(a, rest, 4);
    GetAt(a, rest, 6);
    GetAt(a, rest, 8);
    GetAt(a, rest, 10);
    GetAt(a, rest, 12);
    GetAt(a, rest, 14);
    GetAt(a, rest, 16);
  }

  // ---- canonical RDATA ----

  /** The sixteen octets of an IPv4 address mapped into IPv6. */
  function Mapped(x: Bytes): Bytes {
    [0, 0, 0, 0, 0, 0, 0, 0, 0, 0, 0xFF, 0xFF] + x
  }

  /** Octets that are a name, lowercased, and no more. */
  predicate ReadsAs(x: Bytes, n: Name) {
    UncompressedName(x) == Some((Canon(n), []))
  }

  predicate ReadsNumbers(x: Bytes, s: SOA) {
    && |x| == 20 && GetU32(x, 0) == s.serial && GetU32(x, 4) == s.refresh && GetU32(x, 8) == s.retry
    && GetU32(x, 12) == s.expire && GetU32(x, 16) == s.minimum
  }

  predicate ReadsSOA(x: Bytes, s: SOA) {
    match UncompressedName(x)
    case None => false
    case Some((mname, rest)) =>
      match UncompressedName(rest)
      case None => false
      case Some((rname, numbers)) =>
        mname == Canon(s.mname) && rname == Canon(s.rname) && ReadsNumbers(numbers, s)
  }

  predicate ReadsName(x: Bytes, raw: Bytes) {
    UncompressedName(raw).Some? && ReadsAs(x, UncompressedName(raw).value.0)
  }

  /** x is the record's RDATA in canonical form: every name in it whole and lowercased,
      everything else as it is. The types are A, NS, CNAME, SOA, PTR, MX and AAAA. */
  predicate HasRData(rr: RR, x: Bytes) {
    match rr.rtype
    case 1 => |x| == 4 && (rr.a == x || rr.a == Mapped(x))
    case 2 => ReadsAs(x, rr.ns)
    case 5 => ReadsAs(x, rr.cname)
    case 6 => rr.soa.Some? && ReadsSOA(x, rr.soa.value)
    case 12 => ReadsName(x, rr.raw)
    case 15 => |rr.raw| >= 2 && |x| >= 2 && x[..2] == rr.raw[..2] && ReadsName(x[2..], rr.raw[2..])
    case 28 => |x| == 16 && (rr.aaaa == x || (|rr.aaaa| == 4 && x == Mapped(rr.aaaa)))
    case _ => x == rr.raw
  }

  lemma NameExact(n: Name, x: Bytes)
    ensures CanonicalName(n) == Some(x) <==> ReadsAs(x, n)
  {
    LabelsOkCanon(n);
    NameReadIff(x, Canon(n), []);
    if LabelsOk(n) { assert WireName(Canon(n)) + [] == WireName(Canon(n)); }
  }

  lemma LowerExact(raw: Bytes, x: Bytes)
    ensures LowerWire(raw) == Some(x) <==> ReadsName(x, raw)
  {
    LowerWireIsName(raw);
    if UncompressedName(raw).Some? { NameExact(UncompressedName(raw).value.0, x); }
  }

  lemma NumbersExact(x: Bytes, s: SOA)
    ensures x == SOANumbers(s) <==> ReadsNumbers(x, s)
  {
    var n := SOANumbers(s);
    assert n[..4] == PutU32(s.serial) && n[4..8] == PutU32(s.refresh) && n[8..12] == PutU32(s.retry);
    assert n[12..16] == PutU32(s.expire) && n[16..20] == PutU32(s.minimum);
    if |x| == 20 {
      Slice32(x, 0);
      Slice32(x, 4);
      Slice32(x, 8);
      Slice32(x, 12);
      Slice32(x, 16);
      assert x == x[0..4] + x[4..8] + x[8..12] + x[12..16] + x[16..20];
    }
  }

  /** The four octets at i are those of the number read there. */
  lemma Slice32(x: Bytes, i: nat)
    requires i + 4 <= |x|
    ensures x[i..i + 4] == PutU32(GetU32(x, i))
  {
    assert GetU32(x[i..i + 4], 0) == GetU32(x, i);
    PutGet32(x[i..i + 4]);
  }

  lemma Slice16(x: Bytes, i: nat)
    requires i + 2 <= |x|
    ensures x[i..i + 2] == PutU16(GetU16(x, i))
  {
    assert GetU16(x[i..i + 2], 0) == GetU16(x, i);
    PutGet16(x[i..i + 2]);
  }

  lemma SOAReads(s: SOA, x: Bytes)
    requires CanonicalSOA(s) == Some(x)
    ensures ReadsSOA(x, s)
  {
    LabelsOkCanon(s.mname);
    LabelsOkCanon(s.rname);
    var m, r := WireName(Canon(s.mname)), WireName(Canon(s.rname));
    assert x == m + (r + SOANumbers(s));
    WireNameReads(Canon(s.mname), r + SOANumbers(s));
    WireNameReads(Canon(s.rname), SOANumbers(s));
    NumbersExact(SOANumbers(s), s);
  }

  lemma SOAWritten(s: SOA, x: Bytes)
    requires ReadsSOA(x, s)
    ensures CanonicalSOA(s) == Some(x)
  {
    LabelsOkCanon(s.mname);
    LabelsOkCanon(s.rname);
    match UncompressedName(x)
    case Some((mname, rest)) =>
      NameReadIff(x, mname, rest);
      match UncompressedName(rest)
      case Some((rname, numbers)) =>
        NameReadIff(rest, rname, numbers);
        NumbersExact(numbers, s);
        Regroup(WireName(mname), WireName(rname), numbers);
  }

  lemma Regroup(a: Bytes, b: Bytes, c: Bytes)
    ensures a + (b + c) == a + b + c
  {}

  lemma AddressExact(ip: Bytes, x: Bytes)
    ensures To4(ip) == Some(x) <==> |x| == 4 && (ip == x || ip == Mapped(x))
    ensures To16(ip) == Some(x) <==> |x| == 16 && (ip == x || (|ip| == 4 && x == Mapped(ip)))
  {
    if |ip| == 16 { assert ip == ip[..12] + ip[12..]; }
    if ip == Mapped(x) { assert ip[..12] == Mapped([]) && ip[12..] == x; }
  }

  lemma MXExact(rr: RR, x: Bytes)
    requires rr.rtype == TypeMX
    ensures CanonicalRData(rr) == Some(x) <==> HasRData(rr, x)
  {
    if |rr.raw| >= 2 {
      if |x| >= 2 {
        LowerExact(rr.raw[2..], x[2..]);
        assert x == x[..2] + x[2..];
      }
      match LowerWire(rr.raw[2..])
      case None =>
      case Some(n) => assert (rr.raw[..2] + n)[..2] == rr.raw[..2] && (rr.raw[..2] + n)[2..] == n;
    }
  }

  /** The RDATA a record is signed with is the one its canonical form reads as. */
  lemma RDataExact(rr: RR, x: Bytes)
    ensures CanonicalRData(rr) == Some(x) <==> HasRData(rr, x)
  {
    if rr.rtype == TypeMX {
      MXExact(rr, x);
    } else if rr.rtype == TypeSOA {
      if rr.soa.Some? && ReadsSOA(x, rr.soa.value) { SOAWritten(rr.soa.value, x); }
      if rr.soa.Some? && CanonicalSOA(rr.soa.value) == Some(x) { SOAReads(rr.soa.value, x); }
    } else {
      AddressExact(rr.a, x);
      AddressExact(rr.aaaa, x);
      NameExact(rr.ns, x);
      NameExact(rr.cname, x);
      LowerExact(rr.raw, x);
    }
  }

  // ---- one record after another ----

  /** After the owner come type, class IN, the signer's TTL, the length and the RDATA. */
  predicate ReadsFields(rest: Bytes, s: RRSIG, rdata: Bytes) {
    && |rest| >= 10 + |rdata|
    && GetU16(rest, 0) == s.typeCovered && GetU16(rest, 2) == 1 && GetU32(rest, 4) == s.originalTTL
    && GetU16(rest, 8) == |rdata| % 0x1_0000 && rest[10..10 + |rdata|] == rdata
  }

  /** buf reads as one record for each of the RDATAs, in that order, and no more. */
  predicate ReadsRecords(buf: Bytes, owner: Name, s: RRSIG, rdatas: seq<Bytes>)
    decreases |rdatas|
  {
    if rdatas == [] then buf == []
    else
      match UncompressedName(buf)
      case None => false
      case Some((n, rest)) =>
        && n == owner && ReadsFields(rest, s, rdatas[0])
        && ReadsRecords(rest[10 + |rdatas[0]|..], owner, s, rdatas[1..])
  }

  function Fields(s: RRSIG, rdata: Bytes): (r: Bytes)
    ensures |r| == 10
  {
    PutU16(s.typeCovered) + PutU16(1) + PutU32(s.originalTTL) + PutU16(|rdata| % 0x1_0000)
  }

  lemma FieldsExact(rest: Bytes, s: RRSIG, rdata: Bytes)
    ensures ReadsFields(rest, s, rdata) <==>
            |rest| >= 10 + |rdata| && rest[..10 + |rdata|] == Fields(s, rdata) + rdata
  {
    var f := Fields(s, rdata);
    JoinedParts(PutU16(s.typeCovered), PutU16(1), PutU32(s.originalTTL), PutU16(|rdata| % 0x1_0000));
    if |rest| >= 10 + |rdata| {
      Slice16(rest, 0);
      Slice16(rest, 2);
      Slice32(rest, 4);
      Slice16(rest, 8);
      FieldsSplit(rest, f, rdata);
    }
  }

  lemma JoinedParts(a: Bytes, b: Bytes, c: Bytes, d: Bytes)
    requires |a| == 2 && |b| == 2 && |c| == 4 && |d| == 2
    ensures var f := a + b + c + d; f[..2] == a && f[2..4] == b && f[4..8] == c && f[8..10] == d
  {}

  lemma FieldsSplit(rest: Bytes, f: Bytes, rdata: Bytes)
    requires |f| == 10 && |rest| >= 10 + |rdata|
    ensures rest[..10 + |rdata|] == f + rdata <==>
            rest[0..2] == f[..2] && rest[2..4] == f[2..4] && rest[4..8] == f[4..8] && rest[8..10] == f[8..10]
            && rest[10..10 + |rdata|] == rdata
  {
    assert f == f[..2] + f[2..4] + f[4..8] + f[8..10];
    assert rest[..10 + |rdata|] ==
           rest[0..2] + rest[2..4] + rest[4..8] + rest[8..10] + rest[10..10 + |rdata|];
    if rest[..10 + |rdata|] == f + rdata {
      var w := f + rdata;
      assert w[0..2] == f[..2] && w[2..4] == f[2..4] && w[4..8] == f[4..8] && w[8..10] == f[8..10] && w[10..] == rdata;
    }
  }

  lemma RecordParts(owner: Name, s: RRSIG, rdata: Bytes, more: Bytes)
    requires LabelsOk(owner)
    ensures Record(RecordHead(WireName(owner), s), rdata) + more == WireName(owner) + (Fields(s, rdata) + rdata + more)
  {}

  lemma {:induction false} RecordsRead(owner: Name, s: RRSIG, rdatas: seq<Bytes>)
    requires LabelsOk(owner)
    ensures ReadsRecords(Emit(RecordHead(WireName(owner), s), rdatas), owner, s, rdatas)
    decreases |rdatas|
  {
    if rdatas != [] {
      var more := Emit(RecordHead(WireName(owner), s), rdatas[1..]);
      var after := Fields(s, rdatas[0]) + rdatas[0] + more;
      RecordParts(owner, s, rdatas[0], more);
      WireNameReads(owner, after);
      FieldsExact(after, s, rdatas[0]);
      assert after[..10 + |rdatas[0]|] == Fields(s, rdatas[0]) + rdatas[0] && after[10 + |rdatas[0]|..] == more;
      RecordsRead(owner, s, rdatas[1..]);
    }
  }

  lemma {:induction false} RecordsWritten(buf: Bytes, owner: Name, s: RRSIG, rdatas: seq<Bytes>)
    requires ReadsRecords(buf, owner, s, rdatas) && LabelsOk(owner)
    ensures buf == Emit(RecordHead(WireName(owner), s), rdatas)
    decreases |rdatas|
  {
    if rdatas != [] {
      ReadIsWireName(buf);
      var rest := UncompressedName(buf).value.1;
      var n := 10 + |rdatas[0]|;
      FieldsExact(rest, s, rdatas[0]);
      RecordsWritten(rest[n..], owner, s, rdatas[1..]);
      RecordParts(owner, s, rdatas[0], rest[n..]);
      assert rest == rest[..n] + rest[n..];
    }
  }

  // ---- the whole ----

  /** The owner name as it was signed: lowercased, and if the signature counts fewer
      labels than it has, a star in front of the last so many of them. */
  predicate OwnerAsSigned(owner: Name, labels: Octet, n: Name) {
    if labels as int == |owner| then n == Canon(owner)
    else |n| == labels as int + 1 <= |owner| && n[0] == [42] && IsSuffix(n[1..], Canon(owner))
  }

  predicate SomeRecord(rrset: seq<RR>, x: Bytes) {
    exists i | 0 <= i < |rrset| :: HasRData(rrset[i], x)
  }

  ghost predicate HasForm(rr: RR) {
    exists x :: HasRData(rr, x)
  }

  /** The canonical RDATA of the records in ascending order, each once. */
  ghost predicate ListsRecords(rrset: seq<RR>, rdatas: seq<Bytes>) {
    && Strict(rdatas)
    && (forall i | 0 <= i < |rrset| :: HasForm(rrset[i]))
    && forall x {:trigger In(x, rdatas)} {:trigger SomeRecord(rrset, x)} :: In(x, rdatas) <==> SomeRecord(rrset, x)
  }

  ghost predicate RecordsFor(buf: Bytes, rrset: seq<RR>, s: RRSIG, owner: Name, rdatas: seq<Bytes>)
    requires rrset != []
  {
    && OwnerAsSigned(rrset[0].name, s.labels, owner) && ListsRecords(rrset, rdatas)
    && ReadsRecords(buf, owner, s, rdatas)
  }

  /** The octets read as the RRSIG's own fields with the signer lowercased, followed by
      the records of the set in order. */
  ghost predicate SignedOver(data: Bytes, rrset: seq<RR>, s: RRSIG)
    requires rrset != []
  {
    match ParseRRSIG(data)
    case None => false
    case Some(got) =>
      && got == s.(signerName := Canon(s.signerName), signature := got.signature)
      && exists owner, rdatas :: RecordsFor(got.signature, rrset, s, owner, rdatas)
  }

  lemma OwnerExact(owner: Name, labels: Octet, n: Name)
    ensures OwnerAsSigned(owner, labels, n) <==> labels as int <= |owner| && n == Canon(SignedOwnerName(owner, labels))
  {
    if (labels as int) < |owner| {
      var k := |owner| - labels as int;
      CanonSlice(owner, k);
      CanonWildcard(owner[k..]);
      if |n| == labels as int + 1 { assert n == [n[0]] + n[1..]; }
    }
  }

  lemma {:induction false} RDatasExist(rrset: seq<RR>)
    ensures RDatas(rrset).Some? <==> forall i | 0 <= i < |rrset| :: CanonicalRData(rrset[i]).Some?
    decreases |rrset|
  {
    if rrset != [] {
      var front := rrset[..|rrset| - 1];
      RDatasExist(front);
      assert forall i | 0 <= i < |front| :: front[i] == rrset[i];
    }
  }

  lemma ListedIff(rrset: seq<RR>, x: Bytes)
    requires RDatas(rrset).Some?
    ensures SomeRecord(rrset, x) <==> x in Listing(RDatas(rrset).value)
  {
    RDatasElements(rrset, x);
    ListingElements(RDatas(rrset).value, x);
    forall i | 0 <= i < |rrset| ensures CanonicalRData(rrset[i]) == Some(x) <==> HasRData(rrset[i], x) {
      RDataExact(rrset[i], x);
    }
  }

  lemma FormsExact(rrset: seq<RR>)
    ensures RDatas(rrset).Some? <==> forall i | 0 <= i < |rrset| :: HasForm(rrset[i])
  {
    RDatasExist(rrset);
    forall i | 0 <= i < |rrset| ensures CanonicalRData(rrset[i]).Some? <==> HasForm(rrset[i]) {
      if CanonicalRData(rrset[i]).Some? { RDataExact(rrset[i], CanonicalRData(rrset[i]).value); }
      if HasForm(rrset[i]) {
        var x :| HasRData(rrset[i], x);
        RDataExact(rrset[i], x);
      }
    }
  }

  /** There is one listing, and it is what sorting and dropping repetitions gives. */
  lemma ListingIff(rrset: seq<RR>, rdatas: seq<Bytes>)
    ensures ListsRecords(rrset, rdatas) <==> RDatas(rrset).Some? && rdatas == Listing(RDatas(rrset).value)
  {
    FormsExact(rrset);
    if RDatas(rrset).Some? {
      var listing := Listing(RDatas(rrset).value);
      ListingStrict(RDatas(rrset).value);
      forall x ensures In(x, listing) <==> SomeRecord(rrset, x) { ListedIff(rrset, x); }
      if ListsRecords(rrset, rdatas) {
        forall x ensures In(x, rdatas) <==> In(x, listing) { assert In(x, rdatas) <==> SomeRecord(rrset, x); }
        OneListing(rdatas, listing);
      }
    }
  }

  /** An RRSIG's octets are its fields, its signer and its signature, in that order. */
  lemma SigExact(data: Bytes, s: RRSIG)
    ensures ParseRRSIG(data) == Some(s) <==>
            LabelsOk(s.signerName) && data == SigFields(s) + WireName(s.signerName) + s.signature
  {
    if LabelsOk(s.signerName) && data == SigFields(s) + WireName(s.signerName) + s.signature {
      var rest := WireName(s.signerName) + s.signature;
      assert data == SigFields(s) + rest;
      FieldsParse(s, rest);
      WireNameReads(s.signerName, s.signature);
    }
    if ParseRRSIG(data) == Some(s) {
      ReadIsWireName(data[18..]);
      FieldsWritten(data, s);
      assert data == data[..18] + data[18..];
    }
  }

  lemma FieldsWritten(data: Bytes, s: RRSIG)
    requires ParseRRSIG(data) == Some(s)
    ensures data[..18] == SigFields(s)
  {
    Slice16(data, 0);
    Slice32(data, 4);
    Slice32(data, 8);
    Slice32(data, 12);
    Slice16(data, 16);
    assert data[..18] == data[0..2] + [data[2], data[3]] + data[4..8] + data[8..12] + data[12..16] + data[16..18];
  }

  lemma SignedReads(data: Bytes, rrset: seq<RR>, s: RRSIG)
    requires rrset != [] && SignedData(rrset, s) == Some(data)
    ensures SignedOver(data, rrset, s)
  {
    var owner := SignedOwnerName(rrset[0].name, s.labels);
    var listing := Listing(RDatas(rrset).value);
    LabelsOkCanon(s.signerName);
    LabelsOkCanon(owner);
    var records := Emit(RecordHead(WireName(Canon(owner)), s), listing);
    SigExact(data, s.(signerName := Canon(s.signerName), signature := records));
    RecordsRead(Canon(owner), s, listing);
    OwnerExact(rrset[0].name, s.labels, Canon(owner));
    ListingIff(rrset, listing);
    assert RecordsFor(records, rrset, s, Canon(owner), listing);
  }

  lemma RecordsOwner(buf: Bytes, rrset: seq<RR>, s: RRSIG, owner: Name, rdatas: seq<Bytes>)
    requires rrset != [] && RecordsFor(buf, rrset, s, owner, rdatas)
    ensures LabelsOk(owner)
  {
    ListingIff(rrset, rdatas);
    RDatasLength(rrset);
    ListingStrict(RDatas(rrset).value);
    ReadIsWireName(buf);
  }

  lemma SignedWritten(data: Bytes, rrset: seq<RR>, s: RRSIG)
    requires rrset != [] && SignedOver(data, rrset, s)
    ensures SignedData(rrset, s) == Some(data)
  {
    var got := ParseRRSIG(data).value;
    var owner, rdatas :| RecordsFor(got.signature, rrset, s, owner, rdatas);
    SigExact(data, got);
    RecordsOwner(got.signature, rrset, s, owner, rdatas);
    RecordsWritten(got.signature, owner, s, rdatas);
    OwnerExact(rrset[0].name, s.labels, owner);
    ListingIff(rrset, rdatas);
    LabelsOkCanon(s.signerName);
    LabelsOkCanon(SignedOwnerName(rrset[0].name, s.labels));
    assert SigFields(got) == SigFields(s);
  }

  /** What a signature is made over, exactly: the octets that read as the RRSIG's fields,
      the lowercased signer, and the set's canonical records one after another. */
  lemma SignedDataExact(data: Bytes, rrset: seq<RR>, s: RRSIG)
    requires rrset != []
    ensures SignedData(rrset, s) == Some(data) <==> SignedOver(data, rrset, s)
  {
    if SignedData(rrset, s) == Some(data) { SignedReads(data, rrset, s); }
    if SignedOver(data, rrset, s) { SignedWritten(data, rrset, s); }
  }

  // ---- verdicts ----

  /** One set of records of the type the signature covers. */
  predicate CoveredSet(rrset: seq<RR>, s: RRSIG) {
    && rrset != []
    && forall i | 0 <= i < |rrset| :: rrset[i].rtype == s.typeCovered && Canon(rrset[i].name) == Canon(rrset[0].name)
  }

  /** A zone key of the signature's algorithm and tag, a signer at or above the owner,
      and a time not before the inception and not after the expiration. */
  predicate Fits(rrset: seq<RR>, s: RRSIG, k: DNSKEY, now: int)
    requires rrset != []
  {
    && k.algorithm == s.algorithm && KeyTag(k) == s.keyTag && k.flags / 0x100 % 2 == 1
    && IsSuffix(Canon(s.signerName), Canon(rrset[0].name))
    && !SerialBefore(now % 0x1_0000_0000, s.inception) && !SerialBefore(s.expiration, now % 0x1_0000_0000)
  }

  ghost predicate VerifiesOver(c: Crypto, rrset: seq<RR>, s: RRSIG, k: DNSKEY, data: Bytes)
    requires rrset != []
  {
    SignedOver(data, rrset, s) && c.verify(s.algorithm, k.publicKey, data, s.signature)
  }

  lemma ApplicableExact(rrset: seq<RR>, s: RRSIG, k: DNSKEY, now: int)
    ensures Applicable(rrset, s, k, now) <==> CoveredSet(rrset, s) && Fits(rrset, s, k, now)
  {}

  lemma OneData(rrset: seq<RR>, s: RRSIG)
    requires rrset != []
    ensures SignedData(rrset, s).Some? ==> SignedOver(SignedData(rrset, s).value, rrset, s)
    ensures forall data | SignedOver(data, rrset, s) :: SignedData(rrset, s) == Some(data)
  {
    if SignedData(rrset, s).Some? { SignedReads(SignedData(rrset, s).value, rrset, s); }
    forall data | SignedOver(data, rrset, s) ensures SignedData(rrset, s) == Some(data) {
      SignedWritten(data, rrset, s);
    }
  }

  lemma SomeData(rrset: seq<RR>, s: RRSIG)
    requires rrset != []
    ensures SignedData(rrset, s).Some? <==> exists data :: SignedOver(data, rrset, s)
  {
    OneData(rrset, s);
  }

  lemma SomeSigned(c: Crypto, rrset: seq<RR>, s: RRSIG, k: DNSKEY)
    requires rrset != []
    ensures SignedData(rrset, s).Some? && c.verify(s.algorithm, k.publicKey, SignedData(rrset, s).value, s.signature)
            <==> exists data :: VerifiesOver(c, rrset, s, k, data)
  {
    OneData(rrset, s);
    if SignedData(rrset, s).Some? && c.verify(s.algorithm, k.publicKey, SignedData(rrset, s).value, s.signature) {
      assert VerifiesOver(c, rrset, s, k, SignedData(rrset, s).value);
    }
  }

  lemma VerdictOver(c: Crypto, rrset: seq<RR>, s: RRSIG, k: DNSKEY, now: int)
    requires Applicable(rrset, s, k, now)
    ensures VerifyRRSet(c, rrset, s, k, now) == Valid <==>
            SignedData(rrset, s).Some? && s.algorithm in {8, 10, 13, 14, 15}
            && c.verify(s.algorithm, k.publicKey, SignedData(rrset, s).value, s.signature)
    ensures VerifyRRSet(c, rrset, s, k, now) == Unsupported <==>
            SignedData(rrset, s).Some? && s.algorithm !in {8, 10, 13, 14, 15}
  {}

  /** A signature is valid exactly if it fits, its algorithm is one of RSA/SHA-256,
      RSA/SHA-512, the two ECDSA curves and Ed25519, and it verifies over the octets that
      read as the set. */
  lemma ValidExact(c: Crypto, rrset: seq<RR>, s: RRSIG, k: DNSKEY, now: int)
    ensures VerifyRRSet(c, rrset, s, k, now) == Valid <==>
            && CoveredSet(rrset, s) && Fits(rrset, s, k, now) && s.algorithm in {8, 10, 13, 14, 15}
            && exists data :: VerifiesOver(c, rrset, s, k, data)
    ensures VerifyRRSet(c, rrset, s, k, now) == Unsupported <==>
            && CoveredSet(rrset, s) && Fits(rrset, s, k, now) && s.algorithm !in {8, 10, 13, 14, 15}
            && exists data :: SignedOver(data, rrset, s)
  {
    ApplicableExact(rrset, s, k, now);
    if Applicable(rrset, s, k, now) {
      SomeData(rrset, s);
      SomeSigned(c, rrset, s, k);
      VerdictOver(c, rrset, s, k, now);
    }
  }

  /** The owner's name, lowercased, and the key's flags, protocol, algorithm and public key. */
  predicate DigestOver(data: Bytes, owner: Name, k: DNSKEY) {
    match UncompressedName(data)
    case None => false
    case Some((n, rest)) => n == Canon(owner) && ParseDNSKEY(rest) == Some(k)
  }

  ghost predicate DigestsTo(c: Crypto, owner: Name, k: DNSKEY, ds: DS, data: Bytes) {
    DigestOver(data, owner, k) && c.digest(ds.digestType, data) == ds.digest
  }

  lemma KeyExact(raw: Bytes, k: DNSKEY)
    ensures ParseDNSKEY(raw) == Some(k) <==> raw == KeyRData(k)
  {
    KeyParses(k);
    if ParseDNSKEY(raw) == Some(k) {
      Slice16(raw, 0);
      assert raw == raw[0..2] + [raw[2], raw[3]] + raw[4..];
    }
  }

  lemma DigestOverExact(data: Bytes, owner: Name, k: DNSKEY)
    ensures DigestOver(data, owner, k) <==>
            CanonicalName(owner).Some? && data == CanonicalName(owner).value + KeyRData(k)
  {
    LabelsOkCanon(owner);
    NameReadIff(data, Canon(owner), KeyRData(k));
    match UncompressedName(data)
    case None =>
    case Some((n, rest)) => KeyExact(rest, k);
    KeyExact(KeyRData(k), k);
  }

  /** A DS record vouches for a key exactly if tag and algorithm agree and its digest,
      SHA-256 or SHA-384, is that of the owner's name and the key. */
  lemma DSExact(c: Crypto, owner: Name, k: DNSKEY, ds: DS)
    ensures VerifyDS(c, owner, k, ds) == Valid <==>
            && ds.keyTag == KeyTag(k) && ds.algorithm == k.algorithm && ds.digestType in {2, 4}
            && exists data :: DigestsTo(c, owner, k, ds, data)
    ensures VerifyDS(c, owner, k, ds) == Unsupported <==>
            ds.keyTag == KeyTag(k) && ds.algorithm == k.algorithm && ds.digestType !in {2, 4} && LabelsOk(owner)
  {
    if CanonicalName(owner).Some? {
      var data := CanonicalName(owner).value + KeyRData(k);
      DigestOverExact(data, owner, k);
      assert VerifyDS(c, owner, k, ds) == Valid ==> DigestsTo(c, owner, k, ds, data);
    }
    forall data | DigestOver(data, owner, k)
      ensures CanonicalName(owner).Some? && data == CanonicalName(owner).value + KeyRData(k)
    {
      DigestOverExact(data, owner, k);
    }
  }

  // ---- the records carried in RDATA ----

  /** A key's record, a digest's, a signature's, and those of both denials (types 48, 43,
      46, 47 and 50) are read from their RDATA exactly as sections 2.1, 5.1, 3.1 and 4.1
      of RFC 4034 and section 3.2 of RFC 5155 lay it out. */
  lemma CarriedExact(rr: RR, key: DNSKEY, ds: DS, sig: RRSIG, nsec: NSEC, n3: NSEC3)
    ensures AsDNSKEY(rr) == Some(key) <==>
              rr.rtype == 48 && rr.raw == PutU16(key.flags) + [key.protocol, key.algorithm] + key.publicKey
    ensures AsDS(rr) == Some(ds) <==>
              rr.rtype == 43 && rr.raw == PutU16(ds.keyTag) + [ds.algorithm, ds.digestType] + ds.digest
    ensures AsRRSIG(rr) == Some(sig) <==>
              rr.rtype == 46 && LabelsOk(sig.signerName)
              && rr.raw == PutU16(sig.typeCovered) + [sig.algorithm, sig.labels] + PutU32(sig.originalTTL)
                           + PutU32(sig.expiration) + PutU32(sig.inception) + PutU16(sig.keyTag)
                           + WireName(sig.signerName) + sig.signature
    ensures AsNSEC(rr) == Some(nsec) <==>
              rr.rtype == 47 && LabelsOk(nsec.nextDomain) && rr.raw == WireName(nsec.nextDomain) + nsec.typeBitmap
    ensures AsNSEC3(rr) == Some(n3) <==> rr.rtype == 50 && IsNSEC3(rr.raw, n3)
  {
    KeyExact(rr.raw, key);
    DigestExact(rr.raw, ds);
    SigExact(rr.raw, sig);
    NameReadIff(rr.raw, nsec.nextDomain, nsec.typeBitmap);
    HashedExact(rr.raw, n3);
  }

  lemma DigestExact(raw: Bytes, ds: DS)
    ensures ParseDS(raw) == Some(ds) <==> raw == PutU16(ds.keyTag) + [ds.algorithm, ds.digestType] + ds.digest
  {
    var w := PutU16(ds.keyTag) + [ds.algorithm, ds.digestType] + ds.digest;
    assert w[..2] == PutU16(ds.keyTag) && w[4..] == ds.digest;
    assert GetU16(w, 0) == GetU16(w[..2], 0);
    if ParseDS(raw) == Some(ds) {
      Slice16(raw, 0);
      assert raw == raw[0..2] + [raw[2], raw[3]] + raw[4..];
    }
  }

  /** Algorithm, flags, iterations, the salt and the next hash with their lengths in
      front, and the types. */
  predicate IsNSEC3(raw: Bytes, n: NSEC3) {
    && |n.salt| < 0x100 && |n.nextHashed| < 0x100
    && raw == [n.algorithm, n.flags] + PutU16(n.iterations) + [|n.salt|] + n.salt + [|n.nextHashed|] + n.nextHashed
              + n.typeBitmap
  }

  lemma HashedExact(raw: Bytes, n: NSEC3)
    ensures ParseNSEC3(raw) == Some(n) <==> IsNSEC3(raw, n)
  {
    if IsNSEC3(raw, n) { HashedReads(raw, n); }
    if ParseNSEC3(raw) == Some(n) { HashedWritten(raw, n); }
  }

  lemma HashedReads(raw: Bytes, n: NSEC3)
    requires IsNSEC3(raw, n)
    ensures ParseNSEC3(raw) == Some(n)
  {
    var head, tail := [n.algorithm, n.flags] + PutU16(n.iterations) + [|n.salt|], [|n.nextHashed|] + n.nextHashed;
    assert raw == head + n.salt + (tail + n.typeBitmap);
    JoinedSalt(head, n.salt, tail + n.typeBitmap);
    HeadReads(raw, head, n);
    LengthFirst(n.nextHashed, n.typeBitmap);
  }

  lemma HeadReads(raw: Bytes, head: Bytes, n: NSEC3)
    requires |raw| >= 5 && raw[..5] == head && |n.salt| < 0x100
    requires head == [n.algorithm, n.flags] + PutU16(n.iterations) + [|n.salt|]
    ensures raw[0] == n.algorithm && raw[1] == n.flags && GetU16(raw, 2) == n.iterations && raw[4] == |n.salt|
  {
    assert raw[0] == head[0] && raw[1] == head[1] && raw[4] == head[4];
    assert raw[2] == head[2] == PutU16(n.iterations)[0] && raw[3] == head[3] == PutU16(n.iterations)[1];
  }

  lemma LengthFirst(h: Bytes, rest: Bytes)
    requires |h| < 0x100
    ensures var w := [|h|] + h + rest; w[0] as int == |h| && w[1..1 + |h|] == h && w[1 + |h|..] == rest
  {}

  lemma HashedWritten(raw: Bytes, n: NSEC3)
    requires ParseNSEC3(raw) == Some(n)
    ensures IsNSEC3(raw, n)
  {
    var s := |n.salt|;
    Slice16(raw, 2);
    FiveFirst(raw, s);
    LengthSplit(raw[5 + s..], |n.nextHashed|);
    Flatten([n.algorithm, n.flags] + PutU16(n.iterations) + [s] + n.salt, [|n.nextHashed|], n.nextHashed, n.typeBitmap);
  }

  lemma Flatten(a: Bytes, b: Bytes, c: Bytes, d: Bytes)
    ensures a + (b + c + d) == a + b + c + d
  {}

  lemma FiveFirst(raw: Bytes, s: nat)
    requires 5 + s <= |raw|
    ensures raw == [raw[0], raw[1]] + raw[2..4] + [raw[4]] + raw[5..5 + s] + raw[5 + s..]
  {}

  lemma LengthSplit(rest: Bytes, h: nat)
    requires 1 + h <= |rest|
    ensures rest == [rest[0]] + rest[1..1 + h] + rest[1 + h..]
  {}

  lemma JoinedSalt(head: Bytes, salt: Bytes, rest: Bytes)
    requires |head| == 5
    ensures var raw := head + salt + rest;
            raw[..5] == head && raw[5..5 + |salt|] == salt && raw[5 + |salt|..] == rest
  {}
}

/** What signed bytes say: they depend on the set of records and nothing else, and
    they say which set it was. */
module SigningProofs {
  import opened Octets
  import opened Names
  import opened Messages
  import opened Canonical
  import opened Encode
  import opened Codec
  import opened Signing

  // ---- canonical forms forget case and compression ----

  lemma CanonicalNameEqual(a: Name, b: Name)
    requires EqualName(a, b)
    ensures CanonicalName(a) == CanonicalName(b)
  {
    LabelsOkCanon(a);
    LabelsOkCanon(b);
  }

  /** Lowercasing wire octets is lowercasing the name they spell; the reader of
      uncompressed names fails on exactly the same octets. */
  lemma {:induction false} LowerWireIsName(buf: Bytes)
    ensures LowerWire(buf).Some? <==> UncompressedName(buf).Some?
    ensures UncompressedName(buf).Some? ==>
              LabelsOk(UncompressedName(buf).value.0) && LowerWire(buf) == CanonicalName(UncompressedName(buf).value.0)
    decreases |buf|
  {
    if buf != [] && 0 < buf[0] < 0x40 && 1 + buf[0] as int <= |buf| {
      var stop := 1 + buf[0] as int;
      LowerWireIsName(buf[stop..]);
      match UncompressedName(buf[stop..])
      case None =>
      case Some((n, rest)) =>
        var whole := [buf[1..stop]] + n;
        assert UncompressedName(buf) == Some((whole, rest));
        assert Canon(whole)[0] == LowerAll(buf[1..stop]) && Canon(whole)[1..] == Canon(n);
    }
  }

  lemma SOAEqual(s: SOA, t: SOA)
    requires SameSOA(s, t)
    ensures CanonicalSOA(s) == CanonicalSOA(t)
  {
    CanonicalNameEqual(s.mname, t.mname);
    CanonicalNameEqual(s.rname, t.rname);
  }

  /** A record that came through the wire, names recompressed and recased, is
      signed over the same octets. */
  lemma WireKeepsCanonical(rr: RR, got: RR)
    requires SameRR(rr, got)
    ensures CanonicalRData(rr) == CanonicalRData(got)
  {
    if rr.rtype == TypeNS { CanonicalNameEqual(rr.ns, got.ns); }
    else if rr.rtype == TypeCNAME { CanonicalNameEqual(rr.cname, got.cname); }
    else if rr.rtype == TypeSOA { SOAEqual(got.soa.value, rr.soa.value); }
  }

  // ---- sorting ----

  predicate Ascending(xs: seq<Bytes>) {
    forall i | 0 <= i < |xs| - 1 :: Compare(xs[i], xs[i + 1]) <= 0
  }

  predicate Strict(xs: seq<Bytes>) {
    forall i | 0 <= i < |xs| - 1 :: Compare(xs[i], xs[i + 1]) < 0
  }

  /** Membership, stated so that proofs choose the elements they speak of. */
  predicate In(x: Bytes, xs: seq<Bytes>) {
    x in xs
  }

  ghost predicate SameElements(xs: seq<Bytes>, ys: seq<Bytes>) {
    forall x {:trigger In(x, xs)} {:trigger In(x, ys)} :: In(x, xs) <==> In(x, ys)
  }

  lemma {:induction false} InsertAscending(x: Bytes, xs: seq<Bytes>)
    requires Ascending(xs)
    ensures Ascending(Insert(x, xs))
    ensures Insert(x, xs)[0] == x || (xs != [] && Insert(x, xs)[0] == xs[0])
  {
    if xs != [] && Compare(x, xs[0]) > 0 {
      assert Ascending(xs[1..]) by {
        forall i | 0 <= i < |xs[1..]| - 1 ensures Compare(xs[1..][i], xs[1..][i + 1]) <= 0 {
          assert xs[1..][i] == xs[i + 1] && xs[1..][i + 1] == xs[i + 2];
        }
      }
      InsertAscending(x, xs[1..]);
      CompareFlip(x, xs[0]);
      var r := Insert(x, xs);
      assert r[1] == x || (|xs| > 1 && r[1] == xs[1]);
      forall i | 0 <= i < |r| - 1 ensures Compare(r[i], r[i + 1]) <= 0 {
        if i > 0 { assert r[i] == Insert(x, xs[1..])[i - 1] && r[i + 1] == Insert(x, xs[1..])[i]; }
      }
    }
  }

  lemma {:induction false} InsertElements(x: Bytes, xs: seq<Bytes>, y: Bytes)
    ensures y in Insert(x, xs) <==> y == x || y in xs
  {
    if xs != [] && Compare(x, xs[0]) > 0 {
      InsertElements(x, xs[1..], y);
      assert xs == [xs[0]] + xs[1..];
    }
  }

  lemma {:induction false} SortIsAscending(xs: seq<Bytes>)
    ensures Ascending(SortBytes(xs))
  {
    if xs != [] {
      SortIsAscending(xs[1..]);
      InsertAscending(xs[0], SortBytes(xs[1..]));
    }
  }

  lemma {:induction false} SortElements(xs: seq<Bytes>, y: Bytes)
    ensures y in SortBytes(xs) <==> y in xs
  {
    if xs != [] {
      SortElements(xs[1..], y);
      InsertElements(xs[0], SortBytes(xs[1..]), y);
      assert xs == [xs[0]] + xs[1..];
    }
  }

  lemma {:induction false} DedupStrict(xs: seq<Bytes>)
    requires Ascending(xs)
    ensures Strict(Dedup(xs))
    ensures xs != [] ==> Dedup(xs) != [] && Dedup(xs)[|Dedup(xs)| - 1] == xs[|xs| - 1]
  {
    if |xs| > 1 {
      var front := xs[..|xs| - 1];
      assert Ascending(front) by {
        forall i | 0 <= i < |front| - 1 ensures Compare(front[i], front[i + 1]) <= 0 {
          assert front[i] == xs[i] && front[i + 1] == xs[i + 1];
        }
      }
      DedupStrict(front);
      CompareZero(xs[|xs| - 2], xs[|xs| - 1]);
    }
  }

  lemma {:induction false} DedupElements(xs: seq<Bytes>, y: Bytes)
    ensures y in Dedup(xs) <==> y in xs
  {
    if |xs| > 1 {
      DedupElements(xs[..|xs| - 1], y);
      assert xs == xs[..|xs| - 1] + [xs[|xs| - 1]];
      assert xs[|xs| - 2] == xs[..|xs| - 1][|xs| - 2];
    }
  }

  lemma {:induction false} StrictFirst(xs: seq<Bytes>, i: nat)
    requires Strict(xs) && 0 < i < |xs|
    ensures Compare(xs[0], xs[i]) < 0
  {
    if i > 1 {
      StrictFirst(xs, i - 1);
      CompareTrans(xs[0], xs[i - 1], xs[i]);
    }
  }

  lemma StrictTail(xs: seq<Bytes>)
    requires Strict(xs) && xs != []
    ensures Strict(xs[1..]) && xs[0] !in xs[1..]
  {
    forall i | 0 <= i < |xs[1..]| - 1 ensures Compare(xs[1..][i], xs[1..][i + 1]) < 0 {
      assert xs[1..][i] == xs[i + 1] && xs[1..][i + 1] == xs[i + 2];
    }
    if xs[0] in xs[1..] {
      var i :| 0 <= i < |xs[1..]| && xs[1..][i] == xs[0];
      StrictFirst(xs, i + 1);
      CompareZero(xs[0], xs[0]);
    }
  }

  lemma SameFirst(xs: seq<Bytes>, ys: seq<Bytes>)
    requires Strict(xs) && Strict(ys) && xs != [] && ys != [] && xs[0] in ys && ys[0] in xs
    ensures xs[0] == ys[0]
  {
    var i :| 0 <= i < |ys| && ys[i] == xs[0];
    var j :| 0 <= j < |xs| && xs[j] == ys[0];
    if i > 0 && j > 0 {
      StrictFirst(ys, i);
      StrictFirst(xs, j);
      CompareFlip(xs[0], ys[0]);
    }
  }

  /** A set of octet strings has one strictly ascending listing. */
  lemma {:induction false} OneListing(xs: seq<Bytes>, ys: seq<Bytes>)
    requires Strict(xs) && Strict(ys) && SameElements(xs, ys)
    ensures xs == ys
  {
    if xs == [] || ys == [] {
      if xs != [] { assert In(xs[0], xs); }
      if ys != [] { assert In(ys[0], ys); }
    } else {
      assert In(xs[0], xs) && In(ys[0], ys);
      SameFirst(xs, ys);
      StrictTail(xs);
      StrictTail(ys);
      forall x ensures In(x, xs[1..]) <==> In(x, ys[1..]) {
        assert In(x, xs) <==> In(x, ys);
        assert xs == [xs[0]] + xs[1..] && ys == [ys[0]] + ys[1..];
      }
      OneListing(xs[1..], ys[1..]);
      assert xs == [xs[0]] + xs[1..] && ys == [ys[0]] + ys[1..];
    }
  }

  /** The records as they are hashed: in order, each once. */
  function Listing(ds: seq<Bytes>): seq<Bytes> {
    Dedup(SortBytes(ds))
  }

  lemma ListingStrict(ds: seq<Bytes>)
    ensures Strict(Listing(ds)) && (ds != [] ==> Listing(ds) != [])
  {
    SortIsAscending(ds);
    DedupStrict(SortBytes(ds));
  }

  lemma ListingElements(ds: seq<Bytes>, x: Bytes)
    ensures x in Listing(ds) <==> x in ds
  {
    SortElements(ds, x);
    DedupElements(SortBytes(ds), x);
  }

  lemma ListingExact(ds: seq<Bytes>, es: seq<Bytes>)
    ensures SameElements(ds, es) <==> Listing(ds) == Listing(es)
  {
    forall x ensures (In(x, ds) <==> In(x, Listing(ds))) && (In(x, es) <==> In(x, Listing(es))) {
      ListingElements(ds, x);
      ListingElements(es, x);
    }
    if SameElements(ds, es) {
      assert SameElements(Listing(ds), Listing(es)) by {
        forall x ensures In(x, Listing(ds)) <==> In(x, Listing(es)) {
          assert In(x, ds) <==> In(x, es);
        }
      }
      ListingStrict(ds);
      ListingStrict(es);
      OneListing(Listing(ds), Listing(es));
    }
  }

  // ---- the set and nothing else ----

  /** Two sets of records hold the same canonical RDATA. */
  ghost predicate SameRecords(a: seq<RR>, b: seq<RR>) {
    && RDatas(a).Some? && RDatas(b).Some?
    && SameElements(RDatas(a).value, RDatas(b).value)
  }

  predicate SameSigned(s: RRSIG, t: RRSIG) {
    SigFields(s) == SigFields(t) && EqualName(s.signerName, t.signerName)
  }

  lemma FieldsOfBytes(s: RRSIG, t: RRSIG)
    requires SigFields(s) == SigFields(t)
    ensures s.typeCovered == t.typeCovered && s.labels == t.labels && s.originalTTL == t.originalTTL
    ensures s.algorithm == t.algorithm && s.keyTag == t.keyTag
    ensures s.expiration == t.expiration && s.inception == t.inception
  {
    var a, b := SigFields(s), SigFields(t);
    assert a[..2] == PutU16(s.typeCovered) && b[..2] == PutU16(t.typeCovered);
    assert a[2] == s.algorithm && b[2] == t.algorithm && a[3] == s.labels && b[3] == t.labels;
    assert a[4..8] == PutU32(s.originalTTL) && b[4..8] == PutU32(t.originalTTL);
    assert a[8..12] == PutU32(s.expiration) && b[8..12] == PutU32(t.expiration);
    assert a[12..16] == PutU32(s.inception) && b[12..16] == PutU32(t.inception);
    assert a[16..18] == PutU16(s.keyTag) && b[16..18] == PutU16(t.keyTag);
  }

  lemma WildcardsEqual(a: Name, b: Name, k: nat)
    requires EqualName(a, b) && k <= |a| && k <= |b|
    ensures EqualName(Wildcard(a[k..]), Wildcard(b[k..]))
  {
    CanonSlice(a, k);
    CanonSlice(b, k);
    CanonWildcard(a[k..]);
    CanonWildcard(b[k..]);
  }

  lemma SignedOwnerNameEqual(a: Name, b: Name, labels: Octet)
    requires EqualName(a, b)
    ensures EqualName(SignedOwnerName(a, labels), SignedOwnerName(b, labels)) && |a| == |b|
  {
    assert |a| == |Canon(a)| == |Canon(b)| == |b|;
    if (labels as int) < |a| { WildcardsEqual(a, b, |a| - labels as int); }
  }

  lemma SignedOwnerEqual(a: Name, b: Name, labels: Octet)
    requires EqualName(a, b)
    ensures SignedOwner(a, labels) == SignedOwner(b, labels)
  {
    SignedOwnerNameEqual(a, b, labels);
    CanonicalNameEqual(SignedOwnerName(a, labels), SignedOwnerName(b, labels));
  }

  /** Reordering or duplicating records, changing the case of any name, or
      changing TTLs leaves the signed bytes as they are. */
  lemma SignedDataCanonical(a: seq<RR>, b: seq<RR>, s: RRSIG, t: RRSIG)
    requires a != [] && b != [] && EqualName(a[0].name, b[0].name)
    requires SameRecords(a, b) && SameSigned(s, t)
    ensures SignedData(a, s) == SignedData(b, t)
  {
    FieldsOfBytes(s, t);
    SignedOwnerEqual(a[0].name, b[0].name, s.labels);
    CanonicalNameEqual(s.signerName, t.signerName);
    ListingExact(RDatas(a).value, RDatas(b).value);
  }

  lemma {:induction false} RDatasElements(rrset: seq<RR>, x: Bytes)
    requires RDatas(rrset).Some?
    ensures x in RDatas(rrset).value <==> exists i | 0 <= i < |rrset| :: CanonicalRData(rrset[i]) == Some(x)
    decreases |rrset|
  {
    if rrset != [] {
      var front, last := rrset[..|rrset| - 1], rrset[|rrset| - 1];
      RDatasElements(front, x);
      if x in RDatas(front).value {
        var i :| 0 <= i < |front| && CanonicalRData(front[i]) == Some(x);
        assert rrset[i] == front[i];
      }
      if i :| 0 <= i < |rrset| && CanonicalRData(rrset[i]) == Some(x) {
        if i < |front| { assert front[i] == rrset[i]; }
      }
    }
  }

  predicate HasEqual(rr: RR, b: seq<RR>) {
    exists j | 0 <= j < |b| :: CanonicalRData(b[j]) == CanonicalRData(rr)
  }

  /** Each record of a is, up to what canonical form forgets, a record of b. */
  predicate Within(a: seq<RR>, b: seq<RR>) {
    forall i | 0 <= i < |a| :: HasEqual(a[i], b)
  }

  lemma WithinElement(a: seq<RR>, b: seq<RR>, x: Bytes)
    requires RDatas(a).Some? && RDatas(b).Some? && Within(a, b) && x in RDatas(a).value
    ensures x in RDatas(b).value
  {
    RDatasElements(a, x);
    RDatasElements(b, x);
    var i :| 0 <= i < |a| && CanonicalRData(a[i]) == Some(x);
    assert HasEqual(a[i], b);
  }

  /** A record set shuffled, with records repeated, is the same set. */
  lemma ShuffledSame(a: seq<RR>, b: seq<RR>)
    requires RDatas(a).Some? && RDatas(b).Some? && Within(a, b) && Within(b, a)
    ensures SameRecords(a, b)
  {
    forall x ensures In(x, RDatas(a).value) <==> In(x, RDatas(b).value) {
      if In(x, RDatas(a).value) { WithinElement(a, b, x); }
      if In(x, RDatas(b).value) { WithinElement(b, a, x); }
    }
  }

  // ---- the bytes say which set ----

  /** No wire name is the beginning of another. */
  lemma {:induction false} WireNamePrefixFree(a: Name, b: Name, x: Bytes, y: Bytes)
    requires LabelsOk(a) && LabelsOk(b) && WireName(a) + x == WireName(b) + y
    ensures a == b && x == y
    decreases |a|
  {
    var s := WireName(a) + x;
    assert s[0] == WireName(a)[0] && s[0] == WireName(b)[0];
    if a == [] || b == [] {
      assert a == [] && b == [];
      assert s[1..] == x && s[1..] == y;
    } else {
      var n := 1 + |a[0]|;
      FrontLabel(a, x);
      FrontLabel(b, y);
      WireNamePrefixFree(a[1..], b[1..], x, y);
      assert a == [a[0]] + a[1..] && b == [b[0]] + b[1..];
    }
  }

  lemma FrontLabel(a: Name, x: Bytes)
    requires LabelsOk(a) && a != []
    ensures var s := WireName(a) + x;
            var n := 1 + |a[0]|;
            s[0] as int == |a[0]| && n <= |s| && s[1..n] == a[0] && s[n..] == WireName(a[1..]) + x
  {
    FrontSlices(|a[0]|, a[0], WireName(a[1..]), x);
  }

  lemma FrontSlices(h: Octet, w: Bytes, r: Bytes, x: Bytes)
    ensures var s := [h] + w + r + x;
            s[0] == h && s[1..1 + |w|] == w && s[1 + |w|..] == r + x
  {
    var s := [h] + w + r + x;
    assert s == [h] + w + (r + x);
    assert s[..1 + |w|] == [h] + w;
    assert s[1..1 + |w|] == s[..1 + |w|][1..];
  }

  lemma SplitEqual(a: Bytes, b: Bytes, x: Bytes, y: Bytes)
    requires |a| == |b| && a + x == b + y
    ensures a == b && x == y
  {
    assert a == (a + x)[..|a|] && b == (b + y)[..|b|];
    assert x == (a + x)[|a|..] && y == (b + y)[|b|..];
  }

  predicate AllShort(ds: seq<Bytes>) {
    forall i | 0 <= i < |ds| :: |ds[i]| < 0x1_0000
  }

  lemma RecordEqual(head: Bytes, d: Bytes, e: Bytes, x: Bytes, y: Bytes)
    requires |d| < 0x1_0000 && |e| < 0x1_0000 && Record(head, d) + x == Record(head, e) + y
    ensures d == e && x == y
  {
    var p, q := head + PutU16(|d|), head + PutU16(|e|);
    assert Record(head, d) + x == p + (d + x) && Record(head, e) + y == q + (e + y);
    SplitEqual(p, q, d + x, e + y);
    SplitEqual(head, head, PutU16(|d|), PutU16(|e|));
    assert GetU16(PutU16(|d|), 0) == |d| && GetU16(PutU16(|e|), 0) == |e|;
    SplitEqual(d, e, x, y);
  }

  lemma {:induction false} EmitBinds(head: Bytes, xs: seq<Bytes>, ys: seq<Bytes>)
    requires AllShort(xs) && AllShort(ys) && Emit(head, xs) == Emit(head, ys)
    ensures xs == ys
    decreases |xs|
  {
    if xs != [] && ys != [] {
      RecordEqual(head, xs[0], ys[0], Emit(head, xs[1..]), Emit(head, ys[1..]));
      EmitBinds(head, xs[1..], ys[1..]);
      assert xs == [xs[0]] + xs[1..] && ys == [ys[0]] + ys[1..];
    }
  }

  lemma AllShortListing(ds: seq<Bytes>)
    requires AllShort(ds)
    ensures AllShort(Listing(ds))
  {
    forall i | 0 <= i < |Listing(ds)| ensures |Listing(ds)[i]| < 0x1_0000 {
      ListingElements(ds, Listing(ds)[i]);
    }
  }

  /** What follows the first owner name in the records. */
  lemma EmitOwner(owner: Bytes, s: RRSIG, xs: seq<Bytes>) returns (rest: Bytes)
    requires xs != []
    ensures Emit(RecordHead(owner, s), xs) == owner + rest
  {
    var head, e := RecordHead(owner, s), Emit(RecordHead(owner, s), xs);
    assert e[..|owner|] == owner;
    rest := e[|owner|..];
  }

  lemma HeadsEqual(a: Name, b: Name, s: RRSIG, xs: seq<Bytes>, ys: seq<Bytes>)
    requires LabelsOk(a) && LabelsOk(b) && xs != [] && ys != []
    requires Emit(RecordHead(WireName(a), s), xs) == Emit(RecordHead(WireName(b), s), ys)
    ensures a == b
  {
    var x := EmitOwner(WireName(a), s, xs);
    var y := EmitOwner(WireName(b), s, ys);
    WireNamePrefixFree(a, b, x, y);
  }

  ghost predicate ShortRecords(a: seq<RR>) {
    RDatas(a).Some? && AllShort(RDatas(a).value)
  }

  lemma PartsEqual(f: Bytes, g: Bytes, m: Name, n: Name, x: Bytes, y: Bytes)
    requires |f| == |g| && LabelsOk(m) && LabelsOk(n) && f + WireName(m) + x == g + WireName(n) + y
    ensures f == g && m == n && x == y
  {
    assert f + WireName(m) + x == f + (WireName(m) + x) && g + WireName(n) + y == g + (WireName(n) + y);
    SplitEqual(f, g, WireName(m) + x, WireName(n) + y);
    WireNamePrefixFree(m, n, x, y);
  }

  lemma {:induction false} RDatasLength(rrset: seq<RR>)
    requires RDatas(rrset).Some?
    ensures |RDatas(rrset).value| == |rrset|
    decreases |rrset|
  {
    if rrset != [] { RDatasLength(rrset[..|rrset| - 1]); }
  }

  /** Equal signed bytes were made from the same RRSIG fields, signer, owner as
      signed, and set of canonical RDATA: no signature fits two record sets. */
  lemma SignedDataBinds(a: seq<RR>, b: seq<RR>, s: RRSIG, t: RRSIG)
    requires a != [] && b != [] && ShortRecords(a) && ShortRecords(b)
    requires SignedData(a, s).Some? && SignedData(a, s) == SignedData(b, t)
    ensures SameSigned(s, t) && SameRecords(a, b)
    ensures EqualName(SignedOwnerName(a[0].name, s.labels), SignedOwnerName(b[0].name, t.labels))
  {
    var m, n := s.signerName, t.signerName;
    var p, q := SignedOwnerName(a[0].name, s.labels), SignedOwnerName(b[0].name, t.labels);
    var xs, ys := Listing(RDatas(a).value), Listing(RDatas(b).value);
    LabelsOkCanon(m);
    LabelsOkCanon(n);
    LabelsOkCanon(p);
    LabelsOkCanon(q);
    PartsEqual(SigFields(s), SigFields(t), Canon(m), Canon(n),
               Emit(RecordHead(WireName(Canon(p)), s), xs), Emit(RecordHead(WireName(Canon(q)), t), ys));
    FieldsOfBytes(s, t);
    RDatasLength(a);
    RDatasLength(b);
    ListingStrict(RDatas(a).value);
    ListingStrict(RDatas(b).value);
    HeadsEqual(Canon(p), Canon(q), s, xs, ys);
    AllShortListing(RDatas(a).value);
    AllShortListing(RDatas(b).value);
    EmitBinds(RecordHead(WireName(Canon(p)), s), xs, ys);
    ListingExact(RDatas(a).value, RDatas(b).value);
  }

  /** The verdict on a signature is a verdict on the set: order, repetition, case
      and TTLs of the records do not change it. */
  lemma VerdictCanonical(c: Crypto, a: seq<RR>, b: seq<RR>, s: RRSIG, k: DNSKEY, now: int)
    requires a != [] && b != [] && EqualName(a[0].name, b[0].name) && SameRecords(a, b)
    requires OneSet(a, s.typeCovered) && OneSet(b, s.typeCovered)
    ensures VerifyRRSet(c, a, s, k, now) == VerifyRRSet(c, b, s, k, now)
  {
    SignedDataCanonical(a, b, s, s);
  }

  // ---- keys ----

  /** A key's RDATA reads back as the key. */
  lemma KeyParses(k: DNSKEY)
    ensures ParseDNSKEY(KeyRData(k)) == Some(k)
  {
    var raw := KeyRData(k);
    assert GetU16(raw, 0) == GetU16(PutU16(k.flags), 0);
    assert raw[4..] == k.publicKey;
  }

  /** The sum of the octets read as 16-bit words, an odd last octet being the high half
      of its word. */
  function WordSum(rdata: Bytes): nat {
    if rdata == [] then 0
    else
      var i, b := |rdata| - 1, rdata[|rdata| - 1] as int;
      WordSum(rdata[..i]) + if i % 2 == 0 then b * 0x100 else b
  }

  lemma {:induction false} WordSumBound(rdata: Bytes)
    ensures WordSum(rdata) <= |rdata| / 2 * 0xFFFF + |rdata| % 2 * 0xFF00
    decreases |rdata|
  {
    if rdata != [] { WordSumBound(rdata[..|rdata| - 1]); }
  }

  /** The 32-bit accumulator never wraps on RDATA a record can hold. */
  lemma {:induction false} KeySumExact(rdata: Bytes)
    requires |rdata| < 0x1_0000
    ensures KeySum(rdata) == WordSum(rdata)
    decreases |rdata|
  {
    if rdata != [] {
      KeySumExact(rdata[..|rdata| - 1]);
      WordSumBound(rdata);
    }
  }

  /** The tag of a key is the sum of its words with the carries folded in once
      (appendix B of RFC 4034). */
  lemma KeyTagExact(k: DNSKEY)
    requires |KeyRData(k)| < 0x1_0000
    ensures var sum := WordSum(KeyRData(k)); KeyTag(k) == (sum + sum / 0x1_0000) % 0x1_0000
  {
    KeySumExact(KeyRData(k));
  }

  lemma {:induction false} WordSumConcat(a: Bytes, b: Bytes)
    requires |a| % 2 == 0
    ensures WordSum(a + b) == WordSum(a) + WordSum(b)
    decreases |b|
  {
    if b == [] {
      assert a + b == a;
    } else {
      var n := |b| - 1;
      assert (a + b)[..|a + b| - 1] == a + b[..n];
      WordSumConcat(a, b[..n]);
    }
  }

  lemma WordSumParts(a: Bytes, b: Bytes, c: Bytes, d: Bytes)
    requires |a| % 2 == 0 && |b| % 2 == 0 && |c| % 2 == 0
    ensures WordSum(a + b + c + d) == WordSum(a) + WordSum(b) + WordSum(c) + WordSum(d)
  {
    WordSumConcat(a, b);
    WordSumConcat(a + b, c);
    WordSumConcat(a + b + c, d);
  }

  /** Two keys whose RDATA holds the same 16-bit words in another order share a tag. */
  lemma TagsCollide(j: DNSKEY, k: DNSKEY, a: Bytes, b: Bytes, c: Bytes, d: Bytes)
    requires |a| % 2 == 0 && |b| % 2 == 0 && |c| % 2 == 0 && |KeyRData(j)| < 0x1_0000
    requires KeyRData(j) == a + b + c + d && KeyRData(k) == a + c + b + d
    ensures KeyTag(j) == KeyTag(k)
  {
    KeySumExact(KeyRData(j));
    KeySumExact(KeyRData(k));
    WordSumParts(a, b, c, d);
    WordSumParts(a, c, b, d);
  }

  // ---- validity ----

  /** On times less than half the circle apart, the 32-bit comparison is the
      comparison of the times themselves. */
  lemma SerialIsTime(x: int, y: int)
    requires -0x8000_0000 < x - y < 0x8000_0000
    ensures SerialBefore(x % 0x1_0000_0000, y % 0x1_0000_0000) <==> x < y
  {
    var m := 0x1_0000_0000;
    var d := (y % m - x % m) % m;
    assert (y - x) % m == d by {
      assert y - x == (y % m - x % m) + m * (y / m - x / m);
      ModShift(y % m - x % m, y / m - x / m);
    }
    if 0 <= y - x { assert (y - x) % m == y - x; } else { assert (y - x) % m == y - x + m; }
  }

  lemma ModShift(a: int, k: int)
    ensures (a + 0x1_0000_0000 * k) % 0x1_0000_0000 == a % 0x1_0000_0000
  {}

  /** A signature made for a period is accepted exactly within it, whatever the
      year, as long as its ends are within 2^31 seconds of the present. */
  lemma PeriodIsExact(s: RRSIG, inception: int, expiration: int, now: int)
    requires s.inception == inception % 0x1_0000_0000 && s.expiration == expiration % 0x1_0000_0000
    requires -0x8000_0000 < now - inception < 0x8000_0000 && -0x8000_0000 < expiration - now < 0x8000_0000
    ensures InPeriod(s, now) <==> inception <= now <= expiration
  {
    SerialIsTime(now, inception);
    SerialIsTime(expiration, now);
  }

  // ---- what a valid signature means ----

  /** The data a key's holder signed, under a scheme nobody else can sign with. */
  ghost predicate Unforgeable(c: Crypto, algorithm: Octet, key: Bytes, signed: set<Bytes>) {
    forall data, signature :: c.verify(algorithm, key, data, signature) ==> data in signed
  }

  /** If the holder of a key signed only the sets of one list, any set that
      verifies under it has an owner, type and contents the holder signed. */
  lemma VerifiedWasSigned(c: Crypto, rrset: seq<RR>, s: RRSIG, k: DNSKEY, now: int,
                          sets: set<(seq<RR>, RRSIG)>, signed: set<Bytes>) returns (z: (seq<RR>, RRSIG))
    requires VerifyRRSet(c, rrset, s, k, now) == Valid && ShortRecords(rrset)
    requires Unforgeable(c, k.algorithm, k.publicKey, signed)
    requires forall z | z in sets :: z.0 != [] && ShortRecords(z.0)
    requires forall d | d in signed :: exists z | z in sets :: SignedData(z.0, z.1) == Some(d)
    ensures z in sets && SameSigned(s, z.1) && SameRecords(rrset, z.0)
    ensures EqualName(SignedOwnerName(rrset[0].name, s.labels), SignedOwnerName(z.0[0].name, z.1.labels))
  {
    var data := SignedData(rrset, s).value;
    assert data in signed;
    z :| z in sets && SignedData(z.0, z.1) == Some(data);
    SignedDataBinds(rrset, z.0, s, z.1);
  }
}

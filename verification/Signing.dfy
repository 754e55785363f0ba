/** What a signature is made over (sections 3.1.8.1 and 6.3 of RFC 4034), and the
    checks around verifying one. The cryptography itself is a parameter. */
module Signing {
  import opened Octets
  import opened Names
  import opened Messages
  import opened Canonical
  import opened Encode

  // ---- canonical RDATA ----

  /** An uncompressed wire-form name with its labels lowercased; octets after it
      are dropped. */
  function LowerWire(buf: Bytes): Option<Bytes> {
    if buf == [] then None
    else if buf[0] == 0 then Some([0])
    else if buf[0] >= 0x40 || 1 + buf[0] as int > |buf| then None
    else
      var stop := 1 + buf[0] as int;
      match LowerWire(buf[stop..])
      case None => None
      case Some(rest) => Some([buf[0]] + LowerAll(buf[1..stop]) + rest)
  }

  function CanonicalSOA(s: SOA): Option<Bytes> {
    match CanonicalName(s.mname)
    case None => None
    case Some(mname) =>
      match CanonicalName(s.rname)
      case None => None
      case Some(rname) => Some(mname + rname + SOANumbers(s))
  }

  /** RDATA uncompressed, with the names inside it lowercased. */
  function CanonicalRData(rr: RR): Option<Bytes> {
    if rr.rtype == TypeA then To4(rr.a)
    else if rr.rtype == TypeAAAA then To16(rr.aaaa)
    else if rr.rtype == TypeNS then CanonicalName(rr.ns)
    else if rr.rtype == TypeCNAME then CanonicalName(rr.cname)
    else if rr.rtype == TypeSOA then (match rr.soa case None => None case Some(s) => CanonicalSOA(s))
    else if rr.rtype == TypeMX then
      if |rr.raw| < 2 then None
      else (match LowerWire(rr.raw[2..]) case None => None case Some(n) => Some(rr.raw[..2] + n))
    else if rr.rtype == TypePTR then LowerWire(rr.raw)
    else Some(rr.raw)
  }

  // ---- the signed bytes ----

  /** The RRSIG's own fields, without signer and signature. */
  function SigFields(s: RRSIG): (r: Bytes)
    ensures |r| == 18
  {
    PutU16(s.typeCovered) + [s.algorithm, s.labels] + PutU32(s.originalTTL)
    + PutU32(s.expiration) + PutU32(s.inception) + PutU16(s.keyTag)
  }

  /** The owner name as the signer wrote it: a signature that counts fewer labels
      than the name has was made for a wildcard. */
  function SignedOwnerName(owner: Name, labels: Octet): Name {
    if (labels as int) < |owner| then Wildcard(owner[|owner| - labels as int..]) else owner
  }

  function SignedOwner(owner: Name, labels: Octet): Option<Bytes> {
    if labels as int > |owner| then None else CanonicalName(SignedOwnerName(owner, labels))
  }

  function RDatas(rrset: seq<RR>): Option<seq<Bytes>> {
    if rrset == [] then Some([])
    else
      match RDatas(rrset[..|rrset| - 1])
      case None => None
      case Some(rest) =>
        match CanonicalRData(rrset[|rrset| - 1])
        case None => None
        case Some(d) => Some(rest + [d])
  }

  /** What every record of the set starts with: owner, type, class and the
      signer's TTL. */
  function RecordHead(owner: Bytes, s: RRSIG): Bytes {
    owner + PutU16(s.typeCovered) + PutU16(ClassIN) + PutU32(s.originalTTL)
  }

  function Record(head: Bytes, rdata: Bytes): Bytes {
    head + PutU16(|rdata| % 0x1_0000) + rdata
  }

  function Emit(head: Bytes, rdatas: seq<Bytes>): Bytes {
    if rdatas == [] then [] else Record(head, rdatas[0]) + Emit(head, rdatas[1..])
  }

  /** A list without the entries that repeat the one before them. */
  function Dedup(xs: seq<Bytes>): (r: seq<Bytes>)
    ensures |r| <= |xs|
  {
    if |xs| <= 1 then xs
    else
      var front, last := xs[..|xs| - 1], xs[|xs| - 1];
      if xs[|xs| - 2] == last then Dedup(front) else Dedup(front) + [last]
  }

  function Insert(x: Bytes, xs: seq<Bytes>): (r: seq<Bytes>)
    ensures |r| == |xs| + 1
  {
    if xs == [] || Compare(x, xs[0]) <= 0 then [x] + xs else [xs[0]] + Insert(x, xs[1..])
  }

  /** The library sort, by bytes. */
  function SortBytes(xs: seq<Bytes>): (r: seq<Bytes>)
    ensures |r| == |xs|
  {
    if xs == [] then [] else Insert(xs[0], SortBytes(xs[1..]))
  }

  function SignedData(rrset: seq<RR>, s: RRSIG): Option<Bytes>
    requires rrset != []
  {
    match CanonicalName(s.signerName)
    case None => None
    case Some(signer) =>
      match SignedOwner(rrset[0].name, s.labels)
      case None => None
      case Some(owner) =>
        match RDatas(rrset)
        case None => None
        case Some(ds) => Some(SigFields(s) + signer + Emit(RecordHead(owner, s), Dedup(SortBytes(ds))))
  }

  // ---- the loops ----

  function After(done: Bytes, rest: Option<Bytes>): Option<Bytes> {
    match rest case None => None case Some(r) => Some(done + r)
  }

  method LowerSpan(out: array<Octet>, from: nat, to: nat)
    requires from <= to <= out.Length
    modifies out
    ensures out[..] == old(out[..from]) + LowerAll(old(out[from..to])) + old(out[to..])
  {
    for i := from to to
      invariant forall k | 0 <= k < out.Length :: out[k] == if from <= k < i then Lower(old(out[k])) else old(out[k])
    {
      out[i] := Lower(out[i]);
    }
  }

  /** The octets before off are done, and what is left of buf is as it was. */
  ghost predicate Lowering(buf: Bytes, out: Bytes, off: nat) {
    && off <= |buf| == |out| && out[off..] == buf[off..]
    && forall k {:trigger Opened(Door.Read, k)} | Opened(Door.Read, k) ::
         LowerWire(buf) == After(out[..off], LowerWire(buf[off..]))
  }

  lemma NothingLowered(buf: Bytes)
    ensures Lowering(buf, buf, 0)
  {
    assert buf[0..] == buf;
    AfterNothing(LowerWire(buf));
  }

  /** The end of the octets, a zero octet, or one that starts no label that fits. */
  lemma LoweringEnds(buf: Bytes, out: Bytes, off: nat)
    requires Lowering(buf, out, off)
    ensures off < |buf| ==> out[off] == buf[off]
    ensures off == |buf| ==> LowerWire(buf) == None
    ensures off < |buf| && buf[off] == 0 ==> LowerWire(buf) == Some(out[..off + 1])
    ensures off < |buf| && (buf[off] >= 0x40 || off + 1 + buf[off] as int > |buf|) ==> LowerWire(buf) == None
  {
    assert Opened(Door.Read, 0);
    if off < |buf| {
      assert out[off] == out[off..][0] == buf[off..][0];
      assert out[..off + 1] == out[..off] + [out[off]];
    }
  }

  /** The labels of a copy lowercased in place, one after another. */
  method LowercaseWireName(buf: Bytes) returns (r: Option<Bytes>)
    ensures r == LowerWire(buf)
  {
    var out := new Octet[|buf|](i requires 0 <= i < |buf| => buf[i]);
    assert out[..] == buf;
    var off := 0;
    NothingLowered(buf);
    while off < |buf|
      invariant off <= |buf| == out.Length && Lowering(buf, out[..], off)
    {
      LoweringEnds(buf, out[..], off);
      var length := out[off] as int;
      if length == 0 {
        assert out[..][..off + 1] == out[..off + 1];
        return Some(out[..off + 1]);
      }
      if length >= 0x40 || off + 1 + length > |buf| {
        return None;
      }
      ghost var before := out[..];
      LowerSpan(out, off + 1, off + 1 + length);
      LowerStep(buf, off, before, out[..]);
      off := off + 1 + length;
    }
    LoweringEnds(buf, out[..], off);
    return None;
  }

  lemma AfterNothing(rest: Option<Bytes>)
    ensures After([], rest) == rest
  {
    if rest.Some? { assert [] + rest.value == rest.value; }
  }

  lemma SliceOfRest(s: Bytes, off: nat, a: nat, b: nat)
    requires a <= b && off + b <= |s|
    ensures s[off..][a..b] == s[off + a..off + b]
  {}

  lemma LowerStep(buf: Bytes, off: nat, before: Bytes, after: Bytes)
    requires Lowering(buf, before, off) && off < |buf| && 0 < buf[off] < 0x40 && off + 1 + buf[off] as int <= |buf|
    requires var stop := off + 1 + buf[off] as int;
             after == before[..off + 1] + LowerAll(before[off + 1..stop]) + before[stop..]
    ensures Lowering(buf, after, off + 1 + buf[off] as int)
  {
    assert Opened(Door.Read, 0);
    var n := 1 + buf[off] as int;
    var w := [buf[off]] + LowerAll(buf[off + 1..off + n]);
    LowerLabel(buf, off);
    LowerCopied(buf, off, before, after, n);
    AfterStep(before[..off], w, LowerWire(buf[off + n..]));
  }

  lemma LowerLabel(buf: Bytes, off: nat)
    requires off < |buf| && 0 < buf[off] < 0x40 && off + 1 + buf[off] as int <= |buf|
    ensures var n := 1 + buf[off] as int;
            LowerWire(buf[off..]) == After([buf[off]] + LowerAll(buf[off + 1..off + n]), LowerWire(buf[off + n..]))
  {
    var n := 1 + buf[off] as int;
    SliceOfRest(buf, off, 1, n);
    assert buf[off..][n..] == buf[off + n..];
  }

  lemma LowerCopied(buf: Bytes, off: nat, before: Bytes, after: Bytes, n: nat)
    requires |before| == |buf| && off < |buf| && before[off..] == buf[off..] && 1 <= n && off + n <= |buf|
    requires after == before[..off + 1] + LowerAll(before[off + 1..off + n]) + before[off + n..]
    ensures |after| == |buf| && after[off + n..] == buf[off + n..]
    ensures after[..off + n] == before[..off] + ([buf[off]] + LowerAll(buf[off + 1..off + n]))
  {
    SameRest(before, buf, off, n);
    assert before[..off + 1] == before[..off] + [buf[off]] by { assert before[off] == before[off..][0]; }
  }

  lemma SameRest(a: Bytes, b: Bytes, off: nat, n: nat)
    requires 1 <= n && off + n <= |a| == |b| && a[off..] == b[off..]
    ensures a[off + 1..off + n] == b[off + 1..off + n] && a[off + n..] == b[off + n..]
  {
    SliceOfRest(a, off, 1, n);
    SliceOfRest(b, off, 1, n);
    assert a[off + n..] == a[off..][n..];
    assert b[off + n..] == b[off..][n..];
  }

  lemma AfterStep(done: Bytes, w: Bytes, rest: Option<Bytes>)
    ensures After(done, After(w, rest)) == After(done + w, rest)
  {
    if rest.Some? { assert done + (w + rest.value) == done + w + rest.value; }
  }

  method CanonicalSOAData(s: SOA) returns (r: Option<Bytes>)
    ensures r == CanonicalSOA(s)
  {
    var mname := BuildCanonicalName(s.mname);
    if mname.None? { return None; }
    var rname := BuildCanonicalName(s.rname);
    if rname.None? { return None; }
    return Some(mname.value + rname.value + SOANumbers(s));
  }

  method BuildCanonicalRData(rr: RR) returns (r: Option<Bytes>)
    ensures r == CanonicalRData(rr)
  {
    if rr.rtype == TypeA {
      return To4(rr.a);
    } else if rr.rtype == TypeAAAA {
      return To16(rr.aaaa);
    } else if rr.rtype == TypeNS {
      r := BuildCanonicalName(rr.ns);
    } else if rr.rtype == TypeCNAME {
      r := BuildCanonicalName(rr.cname);
    } else if rr.rtype == TypeSOA {
      if rr.soa.None? { return None; }
      r := CanonicalSOAData(rr.soa.value);
    } else if rr.rtype == TypeMX {
      if |rr.raw| < 2 { return None; }
      var name := LowercaseWireName(rr.raw[2..]);
      if name.None? { return None; }
      return Some(rr.raw[..2] + name.value);
    } else if rr.rtype == TypePTR {
      r := LowercaseWireName(rr.raw);
    } else {
      return Some(rr.raw);
    }
  }

  lemma {:induction false} RDatasStuck(rrset: seq<RR>, k: nat)
    requires k <= |rrset| && RDatas(rrset[..k]).None?
    ensures RDatas(rrset).None?
    decreases |rrset|
  {
    if k < |rrset| {
      assert rrset[..|rrset| - 1][..k] == rrset[..k];
      RDatasStuck(rrset[..|rrset| - 1], k);
    } else {
      assert rrset[..k] == rrset;
    }
  }

  method CollectRData(rrset: seq<RR>) returns (r: Option<seq<Bytes>>)
    ensures r == RDatas(rrset)
  {
    var records: seq<Bytes> := [];
    for k := 0 to |rrset|
      invariant RDatas(rrset[..k]) == Some(records)
    {
      assert rrset[..k + 1][..k] == rrset[..k];
      var rdata := BuildCanonicalRData(rrset[k]);
      if rdata.None? {
        RDatasStuck(rrset, k + 1);
        return None;
      }
      records := records + [rdata.value];
    }
    assert rrset[..|rrset|] == rrset;
    return Some(records);
  }

  lemma {:induction false} EmitSnoc(head: Bytes, xs: seq<Bytes>, x: Bytes)
    ensures Emit(head, xs + [x]) == Emit(head, xs) + Record(head, x)
  {
    if xs == [] {
      assert [] + [x] == [x];
    } else {
      assert (xs + [x])[1..] == xs[1..] + [x];
      EmitSnoc(head, xs[1..], x);
    }
  }

  method BuildSignedOwner(owner: Name, labels: Octet) returns (r: Option<Bytes>)
    ensures r == SignedOwner(owner, labels)
  {
    if labels as int > |owner| { return None; }
    var name := owner;
    if (labels as int) < |owner| { name := [[STAR]] + owner[|owner| - labels as int..]; }
    r := BuildCanonicalName(name);
  }

  lemma DedupStep(records: seq<Bytes>, i: nat)
    requires i < |records|
    ensures Dedup(records[..i + 1]) ==
              if i > 0 && records[i] == records[i - 1] then Dedup(records[..i])
              else Dedup(records[..i]) + [records[i]]
  {
    assert records[..i + 1][..i] == records[..i];
    if i == 0 { assert records[..0] == [] && records[..1] == [] + [records[0]]; }
  }

  lemma EmitStep(start: Bytes, head: Bytes, records: seq<Bytes>, i: nat)
    requires i < |records|
    ensures start + Emit(head, Dedup(records[..i + 1])) ==
              if i > 0 && records[i] == records[i - 1] then start + Emit(head, Dedup(records[..i]))
              else start + Emit(head, Dedup(records[..i])) + Record(head, records[i])
  {
    DedupStep(records, i);
    EmitSnoc(head, Dedup(records[..i]), records[i]);
    var done, more := Emit(head, Dedup(records[..i])), Record(head, records[i]);
    assert start + (done + more) == start + done + more;
  }

  /** The records in order, each once. */
  method EmitRecords(start: Bytes, head: Bytes, records: seq<Bytes>) returns (buf: Bytes)
    ensures buf == start + Emit(head, Dedup(records))
  {
    buf := start;
    for i := 0 to |records|
      invariant buf == start + Emit(head, Dedup(records[..i]))
    {
      EmitStep(start, head, records, i);
      if i > 0 && records[i] == records[i - 1] { continue; }
      buf := buf + Record(head, records[i]);
    }
    assert records[..|records|] == records;
  }

  method BuildSignedData(rrset: seq<RR>, s: RRSIG) returns (r: Option<Bytes>)
    requires rrset != []
    ensures r == SignedData(rrset, s)
  {
    var signer := BuildCanonicalName(s.signerName);
    if signer.None? { return None; }
    var owner := BuildSignedOwner(rrset[0].name, s.labels);
    if owner.None? { return None; }
    var records := CollectRData(rrset);
    if records.None? { return None; }
    var buf := EmitRecords(SigFields(s) + signer.value, RecordHead(owner.value, s), SortBytes(records.value));
    return Some(buf);
  }

  // ---- checking a signature ----

  /** The cryptography: whether a signature over data verifies under a public key,
      and the digests DS records are made with. */
  datatype Crypto = Crypto(verify: (Octet, Bytes, Bytes, Bytes) -> bool, digest: (Octet, Bytes) -> Bytes)

  datatype Check = Valid | Invalid | Unsupported

  const SIGNATURE_ALGORITHMS: set<Octet> := {8, 10, 13, 14, 15}
  const DIGEST_TYPES: set<Octet> := {2, 4}
  const HALF: int := 0x8000_0000

  /** The order of serial numbers on a circle of 2^32 (RFC 1982). */
  predicate SerialBefore(a: U32, b: U32) {
    a != b && (b - a) % 0x1_0000_0000 < HALF
  }

  /** now is in seconds since the epoch, and is cut to 32 bits. */
  predicate InPeriod(s: RRSIG, now: int) {
    var t := now % 0x1_0000_0000;
    !SerialBefore(t, s.inception) && !SerialBefore(s.expiration, t)
  }

  function KeyRData(k: DNSKEY): Bytes {
    PutU16(k.flags) + [k.protocol, k.algorithm] + k.publicKey
  }

  function KeySum(rdata: Bytes): (r: U32) {
    if rdata == [] then 0
    else
      var i, b := |rdata| - 1, rdata[|rdata| - 1] as int;
      (KeySum(rdata[..i]) + if i % 2 == 0 then b * 0x100 else b) % 0x1_0000_0000
  }

  function KeyTag(k: DNSKEY): U16 {
    var sum := KeySum(KeyRData(k));
    (sum + sum / 0x1_0000) % 0x1_0000
  }

  method ComputeKeyTag(k: DNSKEY) returns (tag: U16)
    ensures tag == KeyTag(k)
  {
    var rdata := KeyRData(k);
    var sum: U32 := 0;
    for i := 0 to |rdata|
      invariant sum == KeySum(rdata[..i])
    {
      assert rdata[..i + 1][..i] == rdata[..i];
      var b := rdata[i] as int;
      sum := (sum + if i % 2 == 0 then b * 0x100 else b) % 0x1_0000_0000;
    }
    assert rdata[..|rdata|] == rdata;
    return (sum + sum / 0x1_0000) % 0x1_0000;
  }

  /** bit 7 of the flags, 0x0100 */
  predicate IsZoneKey(k: DNSKEY) {
    k.flags / 0x100 % 2 == 1
  }

  predicate OneSet(rrset: seq<RR>, rtype: U16) {
    forall i | 0 <= i < |rrset| :: rrset[i].rtype == rtype && EqualName(rrset[i].name, rrset[0].name)
  }

  function VerifySignature(c: Crypto, algorithm: Octet, key: Bytes, data: Bytes, signature: Bytes): Check {
    if algorithm !in SIGNATURE_ALGORITHMS then Unsupported
    else if c.verify(algorithm, key, data, signature) then Valid else Invalid
  }

  /** Whether the signature may be checked against the data at all: one set, this
      key, a signer entitled to the owner name, and in its period. */
  predicate Applicable(rrset: seq<RR>, s: RRSIG, k: DNSKEY, now: int) {
    && rrset != [] && OneSet(rrset, s.typeCovered)
    && s.algorithm == k.algorithm && s.keyTag == KeyTag(k) && IsZoneKey(k)
    && IsSubdomainOrEqual(rrset[0].name, s.signerName)
    && InPeriod(s, now)
  }

  function VerifyRRSet(c: Crypto, rrset: seq<RR>, s: RRSIG, k: DNSKEY, now: int): Check {
    if !Applicable(rrset, s, k, now) then Invalid
    else
      match SignedData(rrset, s)
      case None => Invalid
      case Some(data) => VerifySignature(c, s.algorithm, k.publicKey, data, s.signature)
  }

  method CheckRRSet(c: Crypto, rrset: seq<RR>, s: RRSIG, k: DNSKEY, now: int) returns (r: Check)
    ensures r == VerifyRRSet(c, rrset, s, k, now)
  {
    if |rrset| == 0 { return Invalid; }
    for i := 0 to |rrset|
      invariant forall j | 0 <= j < i :: rrset[j].rtype == s.typeCovered && EqualName(rrset[j].name, rrset[0].name)
    {
      if rrset[i].rtype != s.typeCovered || !EqualName(rrset[i].name, rrset[0].name) { return Invalid; }
    }
    if s.algorithm != k.algorithm { return Invalid; }
    var tag := ComputeKeyTag(k);
    if s.keyTag != tag { return Invalid; }
    if !IsZoneKey(k) { return Invalid; }
    if !IsSubdomainOrEqual(rrset[0].name, s.signerName) { return Invalid; }
    if !InPeriod(s, now) { return Invalid; }
    var signed := BuildSignedData(rrset, s);
    if signed.None? { return Invalid; }
    return VerifySignature(c, s.algorithm, k.publicKey, signed.value, s.signature);
  }

  /** Whether ds is the parent's record of a zone's key. */
  function VerifyDS(c: Crypto, owner: Name, k: DNSKEY, ds: DS): Check {
    if ds.keyTag != KeyTag(k) || ds.algorithm != k.algorithm then Invalid
    else
      match CanonicalName(owner)
      case None => Invalid
      case Some(name) =>
        if ds.digestType !in DIGEST_TYPES then Unsupported
        else if c.digest(ds.digestType, name + KeyRData(k)) == ds.digest then Valid else Invalid
  }

  /** A signature count short of the owner's labels is a wildcard showing through. */
  predicate IsWildcardExpansion(owner: Name, s: RRSIG) {
    (s.labels as int) < |owner|
  }
}

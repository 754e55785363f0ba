/** Writing DNS messages with name compression (section 4.1.4 of RFC 1035): what
    is in the buffer after a write, and class Encoder, which appends to it. */
module Encode {
  import opened Octets
  import opened Names
  import opened Messages
  import opened Canonical
  import opened Decode

  const MAX_OFFSET := 0x3FFF
  const HEADER_LEN := 12

  predicate SliceIs(buf: Bytes, off: nat, s: Bytes) {
    off + |s| <= |buf| && buf[off..off + |s|] == s
  }

  /** The two octets of a length field still to be filled in leave [off, off + len)
      alone. */
  predicate Clear(off: nat, len: nat, hole: nat) {
    off + len <= hole || hole + 2 <= off
  }

  /** A pointer-free spelling of a name, equal up to case to the suffix it stands
      for, at an offset a pointer can hold. */
  predicate Target(buf: Bytes, hole: nat, suffix: Name, off: nat, n: Name) {
    && HEADER_LEN <= off <= MAX_OFFSET
    && LabelsOk(n) && Canon(n) == suffix
    && SliceIs(buf, off, WireName(n))
    && Clear(off, |WireName(n)|, hole)
  }

  ghost predicate EntryOk(buf: Bytes, hole: nat, suffix: Name, off: nat) {
    forall k {:trigger Opened(Door.Names, k)} | Opened(Door.Names, k) :: exists n :: Target(buf, hole, suffix, off, n)
  }

  /** The compression table: every suffix in it is spelled out, without pointers,
      at the offset recorded for it. */
  ghost predicate TableOk(buf: Bytes, names: map<Name, nat>, hole: nat) {
    forall s | s in names :: EntryOk(buf, hole, s, names[s])
  }

  /** How a name was written: the first i labels spelled out, then the end of the
      name or a pointer to a spelling m of the rest. */
  predicate WrittenAs(buf: Bytes, hole: nat, off: nat, name: Name, end: nat, i: nat, ptr: nat, m: Name) {
    && i <= |name| && LabelsOk(name)
    && SliceIs(buf, off, WireLabels(name[..i]))
    && var p := off + |WireLabels(name[..i])|;
    if i == |name| then end == p + 1 && SliceIs(buf, p, [0])
    else
      && end == p + 2 && ptr <= MAX_OFFSET && SliceIs(buf, p, Pointer(ptr))
      && Target(buf, hole, Canon(name[i..]), ptr, m)
  }

  function Pointer(ptr: nat): Bytes
    requires ptr <= MAX_OFFSET
  {
    [0xC0 + ptr / 0x100, ptr % 0x100]
  }

  ghost predicate NameWritten(buf: Bytes, hole: nat, off: nat, name: Name, end: nat) {
    forall k {:trigger Opened(Door.Names, k)} | Opened(Door.Names, k) ::
      exists i: nat, ptr: nat, m :: WrittenAs(buf, hole, off, name, end, i, ptr, m)
  }

  /** The names the writer takes. */
  predicate Writable(name: Name) {
    DottedLen(name) <= MAX_NAME && LabelsOk(name)
  }

  /** net.IP.To4: four octets, or sixteen that map an IPv4 address. */
  function To4(ip: Bytes): Option<Bytes> {
    if |ip| == 4 then Some(ip)
    else if |ip| == 16 && ip[..12] == MAPPED then Some(ip[12..])
    else None
  }

  /** net.IP.To16 */
  function To16(ip: Bytes): Option<Bytes> {
    if |ip| == 4 then Some(MAPPED + ip) else if |ip| == 16 then Some(ip) else None
  }

  const MAPPED: Bytes := [0, 0, 0, 0, 0, 0, 0, 0, 0, 0, 0xFF, 0xFF]

  function SOANumbers(s: SOA): Bytes {
    PutU32(s.serial) + PutU32(s.refresh) + PutU32(s.retry) + PutU32(s.expire) + PutU32(s.minimum)
  }

  predicate WritableRData(rr: RR) {
    if rr.rtype == TypeA then To4(rr.a).Some?
    else if rr.rtype == TypeAAAA then To16(rr.aaaa).Some?
    else if rr.rtype == TypeNS then Writable(rr.ns)
    else if rr.rtype == TypeCNAME then Writable(rr.cname)
    else if rr.rtype == TypeSOA then rr.soa.Some? && Writable(rr.soa.value.mname) && Writable(rr.soa.value.rname)
    else true
  }

  predicate WritableRR(rr: RR) {
    Writable(rr.name) && WritableRData(rr)
  }

  ghost predicate SOAWritten(buf: Bytes, hole: nat, off: nat, s: SOA, p: nat, q: nat, end: nat) {
    && NameWritten(buf, hole, off, s.mname, p) && NameWritten(buf, hole, p, s.rname, q)
    && SliceIs(buf, q, SOANumbers(s)) && end == q + 20
    && off <= p <= q
  }

  ghost predicate RDataWritten(buf: Bytes, hole: nat, off: nat, rr: RR, end: nat) {
    if rr.rtype == TypeA then To4(rr.a).Some? && SliceIs(buf, off, To4(rr.a).value) && end == off + 4
    else if rr.rtype == TypeAAAA then To16(rr.aaaa).Some? && SliceIs(buf, off, To16(rr.aaaa).value) && end == off + 16
    else if rr.rtype == TypeNS then NameWritten(buf, hole, off, rr.ns, end)
    else if rr.rtype == TypeCNAME then NameWritten(buf, hole, off, rr.cname, end)
    else if rr.rtype == TypeSOA then
      rr.soa.Some? && exists p: nat, q: nat :: SOAWritten(buf, hole, off, rr.soa.value, p, q, end)
    else SliceIs(buf, off, rr.raw) && end == off + |rr.raw|
  }

  /** A record's type, class and TTL. */
  function RRFixed(rr: RR): (r: Bytes)
    ensures |r| == 8
  {
    PutU16(rr.rtype) + PutU16(rr.rclass) + PutU32(rr.ttl)
  }

  /** A record in the buffer: its owner name up to p, the fixed fields, RDLENGTH,
      and the RDATA that long. */
  ghost predicate RRWrittenAs(buf: Bytes, off: nat, rr: RR, p: nat, end: nat) {
    && NameWritten(buf, 0, off, rr.name, p)
    && p + 10 <= end
    && SliceIs(buf, p, RRFixed(rr))
    && SliceIs(buf, p + 8, PutU16((end - (p + 10)) % 0x1_0000))
    && RDataWritten(buf, 0, p + 10, rr, end)
  }

  ghost predicate RRWritten(buf: Bytes, off: nat, rr: RR, end: nat) {
    forall k {:trigger Opened(Door.Records, k)} | Opened(Door.Records, k) ::
      exists p: nat :: RRWrittenAs(buf, off, rr, p, end)
  }

  ghost predicate QuestionWrittenAs(buf: Bytes, off: nat, q: Question, p: nat, end: nat) {
    && NameWritten(buf, 0, off, q.name, p)
    && SliceIs(buf, p, PutU16(q.qtype) + PutU16(q.qclass)) && end == p + 4
  }

  ghost predicate QuestionWritten(buf: Bytes, off: nat, q: Question, end: nat) {
    forall k {:trigger Opened(Door.Records, k)} | Opened(Door.Records, k) ::
      exists p: nat :: QuestionWrittenAs(buf, off, q, p, end)
  }

  // ---- appends and patches disturb nothing ----

  lemma SliceKept(buf: Bytes, buf': Bytes, off: nat, s: Bytes)
    requires SliceIs(buf, off, s) && buf <= buf'
    ensures SliceIs(buf', off, s)
  {
    assert buf'[off..off + |s|] == buf[off..off + |s|];
  }

  lemma TargetKept(buf: Bytes, buf': Bytes, hole: nat, suffix: Name, off: nat, n: Name)
    requires Target(buf, hole, suffix, off, n) && buf <= buf'
    ensures Target(buf', hole, suffix, off, n)
  {
    SliceKept(buf, buf', off, WireName(n));
  }

  lemma TableKept(buf: Bytes, buf': Bytes, names: map<Name, nat>, hole: nat)
    requires TableOk(buf, names, hole) && buf <= buf'
    ensures TableOk(buf', names, hole)
  {
    forall s | s in names ensures EntryOk(buf', hole, s, names[s]) {
      assert Opened(Door.Names, 0);
      var n :| Target(buf, hole, s, names[s], n);
      TargetKept(buf, buf', hole, s, names[s], n);
    }
  }

  lemma NameKept(buf: Bytes, buf': Bytes, hole: nat, off: nat, name: Name, end: nat)
    requires NameWritten(buf, hole, off, name, end) && buf <= buf'
    ensures NameWritten(buf', hole, off, name, end)
  {
    assert Opened(Door.Names, 0);
    var i: nat, ptr: nat, m :| WrittenAs(buf, hole, off, name, end, i, ptr, m);
    WrittenKept(buf, buf', hole, off, name, end, i, ptr, m);
  }

  lemma WrittenKept(buf: Bytes, buf': Bytes, hole: nat, off: nat, name: Name, end: nat, i: nat, ptr: nat, m: Name)
    requires WrittenAs(buf, hole, off, name, end, i, ptr, m) && buf <= buf'
    ensures WrittenAs(buf', hole, off, name, end, i, ptr, m)
  {
    var w := WireLabels(name[..i]);
    SliceKept(buf, buf', off, w);
    if i == |name| {
      SliceKept(buf, buf', off + |w|, [0]);
    } else {
      SliceKept(buf, buf', off + |w|, Pointer(ptr));
      TargetKept(buf, buf', hole, Canon(name[i..]), ptr, m);
    }
  }

  /** A length field about to be written at the end of the buffer is no part of
      anything in the table. */
  lemma TableOpens(buf: Bytes, names: map<Name, nat>)
    requires TableOk(buf, names, 0)
    ensures TableOk(buf, names, |buf|)
  {
    forall s | s in names ensures EntryOk(buf, |buf|, s, names[s]) {
      assert Opened(Door.Names, 0);
      var n :| Target(buf, 0, s, names[s], n);
      assert Target(buf, |buf|, s, names[s], n);
    }
  }

  function Patch(buf: Bytes, hole: nat, two: Bytes): (r: Bytes)
    requires hole + 2 <= |buf| && |two| == 2
    ensures |r| == |buf|
  {
    buf[..hole] + two + buf[hole + 2..]
  }

  lemma SlicePatched(buf: Bytes, hole: nat, two: Bytes, off: nat, s: Bytes)
    requires hole + 2 <= |buf| && |two| == 2
    requires SliceIs(buf, off, s) && Clear(off, |s|, hole)
    ensures SliceIs(Patch(buf, hole, two), off, s)
  {
    var buf' := Patch(buf, hole, two);
    assert forall k | off <= k < off + |s| :: buf'[k] == buf[k];
    assert buf'[off..off + |s|] == buf[off..off + |s|];
  }

  lemma TargetPatched(buf: Bytes, hole: nat, two: Bytes, suffix: Name, off: nat, n: Name)
    requires hole + 2 <= |buf| && |two| == 2
    requires Target(buf, hole, suffix, off, n)
    ensures Target(Patch(buf, hole, two), 0, suffix, off, n)
  {
    SlicePatched(buf, hole, two, off, WireName(n));
  }

  lemma TablePatched(buf: Bytes, names: map<Name, nat>, hole: nat, two: Bytes)
    requires hole + 2 <= |buf| && |two| == 2
    requires TableOk(buf, names, hole)
    ensures TableOk(Patch(buf, hole, two), names, 0)
  {
    forall s | s in names ensures EntryOk(Patch(buf, hole, two), 0, s, names[s]) {
      assert Opened(Door.Names, 0);
      var n :| Target(buf, hole, s, names[s], n);
      TargetPatched(buf, hole, two, s, names[s], n);
    }
  }

  /** A name written after the length field survives its patch. */
  lemma NamePatched(buf: Bytes, hole: nat, two: Bytes, off: nat, name: Name, end: nat)
    requires hole + 2 <= off && hole + 2 <= |buf| && |two| == 2
    requires NameWritten(buf, hole, off, name, end)
    ensures NameWritten(Patch(buf, hole, two), 0, off, name, end)
  {
    assert Opened(Door.Names, 0);
    var i: nat, ptr: nat, m :| WrittenAs(buf, hole, off, name, end, i, ptr, m);
    WrittenPatched(buf, hole, two, off, name, end, i, ptr, m);
  }

  lemma WrittenPatched(buf: Bytes, hole: nat, two: Bytes, off: nat, name: Name, end: nat, i: nat, ptr: nat, m: Name)
    requires hole + 2 <= off && hole + 2 <= |buf| && |two| == 2
    requires WrittenAs(buf, hole, off, name, end, i, ptr, m)
    ensures WrittenAs(Patch(buf, hole, two), 0, off, name, end, i, ptr, m)
  {
    var w := WireLabels(name[..i]);
    SlicePatched(buf, hole, two, off, w);
    if i == |name| {
      SlicePatched(buf, hole, two, off + |w|, [0]);
    } else {
      SlicePatched(buf, hole, two, off + |w|, Pointer(ptr));
      TargetPatched(buf, hole, two, Canon(name[i..]), ptr, m);
    }
  }

  lemma SliceAppended(buf: Bytes, s: Bytes)
    ensures SliceIs(buf + s, |buf|, s)
  {}

  lemma SlicesAppended(buf: Bytes, s: Bytes, t: Bytes)
    ensures SliceIs(buf + s + t, |buf|, s) && SliceIs(buf + s + t, |buf| + |s|, t)
  {}

  lemma RDataKept(buf: Bytes, buf': Bytes, hole: nat, off: nat, rr: RR, end: nat)
    requires RDataWritten(buf, hole, off, rr, end) && buf <= buf'
    ensures RDataWritten(buf', hole, off, rr, end)
  {
    if rr.rtype == TypeA { SliceKept(buf, buf', off, To4(rr.a).value); }
    else if rr.rtype == TypeAAAA { SliceKept(buf, buf', off, To16(rr.aaaa).value); }
    else if rr.rtype == TypeNS { NameKept(buf, buf', hole, off, rr.ns, end); }
    else if rr.rtype == TypeCNAME { NameKept(buf, buf', hole, off, rr.cname, end); }
    else if rr.rtype == TypeSOA {
      var p: nat, q: nat :| SOAWritten(buf, hole, off, rr.soa.value, p, q, end);
      NameKept(buf, buf', hole, off, rr.soa.value.mname, p);
      NameKept(buf, buf', hole, p, rr.soa.value.rname, q);
      SliceKept(buf, buf', q, SOANumbers(rr.soa.value));
      assert SOAWritten(buf', hole, off, rr.soa.value, p, q, end);
    } else { SliceKept(buf, buf', off, rr.raw); }
  }

  lemma RDataPatched(buf: Bytes, hole: nat, two: Bytes, off: nat, rr: RR, end: nat)
    requires hole + 2 <= off && hole + 2 <= |buf| && |two| == 2
    requires RDataWritten(buf, hole, off, rr, end)
    ensures RDataWritten(Patch(buf, hole, two), 0, off, rr, end)
  {
    if rr.rtype == TypeA { SlicePatched(buf, hole, two, off, To4(rr.a).value); }
    else if rr.rtype == TypeAAAA { SlicePatched(buf, hole, two, off, To16(rr.aaaa).value); }
    else if rr.rtype == TypeNS { NamePatched(buf, hole, two, off, rr.ns, end); }
    else if rr.rtype == TypeCNAME { NamePatched(buf, hole, two, off, rr.cname, end); }
    else if rr.rtype == TypeSOA {
      var p: nat, q: nat :| SOAWritten(buf, hole, off, rr.soa.value, p, q, end);
      NamePatched(buf, hole, two, off, rr.soa.value.mname, p);
      NamePatched(buf, hole, two, p, rr.soa.value.rname, q);
      SlicePatched(buf, hole, two, q, SOANumbers(rr.soa.value));
      assert SOAWritten(Patch(buf, hole, two), 0, off, rr.soa.value, p, q, end);
    } else { SlicePatched(buf, hole, two, off, rr.raw); }
  }

  lemma RRKept(buf: Bytes, buf': Bytes, off: nat, rr: RR, end: nat)
    requires RRWritten(buf, off, rr, end) && buf <= buf'
    ensures RRWritten(buf', off, rr, end)
  {
    assert Opened(Door.Records, 0);
    var p: nat :| RRWrittenAs(buf, off, rr, p, end);
    RRWrittenAsKept(buf, buf', off, rr, p, end);
  }

  lemma RRWrittenAsKept(buf: Bytes, buf': Bytes, off: nat, rr: RR, p: nat, end: nat)
    requires RRWrittenAs(buf, off, rr, p, end) && buf <= buf'
    ensures RRWrittenAs(buf', off, rr, p, end)
  {
    NameKept(buf, buf', 0, off, rr.name, p);
    RRNumbersKept(buf, buf', rr, p, end);
    RDataKept(buf, buf', 0, p + 10, rr, end);
  }

  lemma RRNumbersKept(buf: Bytes, buf': Bytes, rr: RR, p: nat, end: nat)
    requires buf <= buf' && p + 10 <= end && SliceIs(buf, p, RRFixed(rr))
    requires SliceIs(buf, p + 8, PutU16((end - (p + 10)) % 0x1_0000))
    ensures SliceIs(buf', p, RRFixed(rr)) && SliceIs(buf', p + 8, PutU16((end - (p + 10)) % 0x1_0000))
  {
    SliceKept(buf, buf', p, RRFixed(rr));
    SliceKept(buf, buf', p + 8, PutU16((end - (p + 10)) % 0x1_0000));
  }

  lemma QuestionKept(buf: Bytes, buf': Bytes, off: nat, q: Question, end: nat)
    requires QuestionWritten(buf, off, q, end) && buf <= buf'
    ensures QuestionWritten(buf', off, q, end)
  {
    assert Opened(Door.Records, 0);
    var p: nat :| QuestionWrittenAs(buf, off, q, p, end);
    NameKept(buf, buf', 0, off, q.name, p);
    SliceKept(buf, buf', p, PutU16(q.qtype) + PutU16(q.qclass));
    assert QuestionWrittenAs(buf', off, q, p, end);
  }

  /** Filling in RDLENGTH completes the record: named is the buffer up to the end
      of the owner name, and nothing before the length field has changed since. */
  lemma RRCompleted(named: Bytes, buf: Bytes, off: nat, rr: RR)
    requires NameWritten(named, 0, off, rr.name, |named|)
    requires |named| + 10 <= |buf| && named + RRFixed(rr) <= buf
    requires RDataWritten(buf, |named| + 8, |named| + 10, rr, |buf|)
    ensures var two := PutU16((|buf| - (|named| + 10)) % 0x1_0000);
            RRWritten(Patch(buf, |named| + 8, two), off, rr, |buf|)
  {
    var hole := |named| + 8;
    var two := PutU16((|buf| - (|named| + 10)) % 0x1_0000);
    var buf' := Patch(buf, hole, two);
    assert buf'[..hole] == buf[..hole] == named + RRFixed(rr);
    NameKept(named, buf', 0, off, rr.name, |named|);
    SliceAppended(named, RRFixed(rr));
    SliceKept(named + RRFixed(rr), buf', |named|, RRFixed(rr));
    RDataPatched(buf, hole, two, |named| + 10, rr, |buf|);
    assert RRWrittenAs(buf', off, rr, |named|, |buf|);
  }

  // ---- the writer ----

  lemma CanonLabels(a: Name, b: Name)
    requires Canon(a) == Canon(b) && LabelsOk(a)
    ensures LabelsOk(b)
  {
    forall i | 0 <= i < |b| ensures 1 <= |b[i]| <= 63 {
      assert |Canon(a)[i]| == |a[i]| && |Canon(b)[i]| == |b[i]|;
    }
  }

  lemma LabelsSplit(name: Name, i: nat)
    requires i <= |name|
    ensures LabelsOk(name) <==> LabelsOk(name[..i]) && LabelsOk(name[i..])
  {
    if LabelsOk(name[..i]) && LabelsOk(name[i..]) {
      forall k | 0 <= k < |name| ensures 1 <= |name[k]| <= 63 {
        assert k < i ==> name[k] == name[..i][k];
        assert k >= i ==> name[k] == name[i..][k - i];
      }
    }
  }

  class Encoder {
    var buf: Bytes
    var names: map<Name, nat>

    /** An encoder whose header is still to be filled in. */
    constructor ()
      ensures buf == seq(HEADER_LEN, _ => 0) && names == map[]
    {
      buf := seq(HEADER_LEN, _ => 0);
      names := map[];
    }

    ghost predicate Valid(hole: nat)
      reads this
    {
      |buf| >= HEADER_LEN && TableOk(buf, names, hole)
    }

    /** Labels one after another; fails at the first that does not fit. */
    method WriteLabels(parts: Name) returns (ok: bool)
      modifies this`buf
      ensures ok <==> LabelsOk(parts)
      ensures ok ==> buf == old(buf) + WireLabels(parts)
    {
      assert [] == parts[..0];
      for k := 0 to |parts|
        invariant LabelsOk(parts[..k]) && buf == old(buf) + WireLabels(parts[..k])
      {
        var part := parts[k];
        assert parts[..k + 1] == parts[..k] + [part];
        if |part| == 0 || |part| > 63 {
          assert parts[..k + 1][k] == part;
          return false;
        }
        WireLabelsSnoc(parts[..k], part);
        buf := buf + [|part|];
        buf := buf + part;
      }
      assert parts[..|parts|] == parts;
      return true;
    }

    /** Remembers where suffix k of a name starts, if it is new and near enough
        to be pointed at. */
    method RecordSuffix(name: Name, k: nat, ghost start: Bytes, ghost known: map<Name, nat>)
      requires k < |name| && LabelsOk(name[..k]) && |buf| == |start| + |WireLabels(name[..k])|
      requires Grown(known, names, name, k, |start|)
      modifies this`names
      ensures Grown(known, names, name, k + 1, |start|)
      ensures Recorded(known, old(names), name, k, |start|) ==> Recorded(known, names, name, k + 1, |start|)
    {
      var suffix := Canon(name[k..]);
      GrownStep(known, names, name, k, |start|);
      RecordedStep(known, names, name, k, |start|);
      if suffix !in names && |buf| <= MAX_OFFSET {
        names := names[suffix := |buf|];
      }
    }

    /** The name in full, recording each suffix that is new and near enough to be
        pointed at. */
    method WriteFull(name: Name, ghost hole: nat) returns (ok: bool)
      requires Valid(hole) && hole + 2 <= |buf|
      modifies this
      ensures ok <==> LabelsOk(name)
      ensures ok ==> old(buf) <= buf && Valid(hole)
      ensures ok ==> WrittenAs(buf, hole, |old(buf)|, name, |buf|, |name|, 0, [])
      ensures ok ==> buf == old(buf) + WireName(name) && Recorded(old(names), names, name, |name|, |old(buf)|)
    {
      ghost var start := buf;
      ghost var known := names;
      for k := 0 to |name|
        invariant LabelsOk(name[..k]) && buf == start + WireLabels(name[..k])
        invariant Grown(known, names, name, k, |start|) && Recorded(known, names, name, k, |start|)
      {
        var part := name[k];
        assert name[..k + 1] == name[..k] + [part];
        if |part| == 0 || |part| > 63 {
          assert name[..k + 1][k] == part;
          return false;
        }
        RecordSuffix(name, k, start, known);
        WireLabelsSnoc(name[..k], part);
        buf := buf + [|part|];
        buf := buf + part;
      }
      assert name[..|name|] == name;
      buf := buf + [0];
      WireNameLabels(name);
      TableGrown(start, known, names, name, hole);
      FullWritten(start, name, hole);
      return true;
    }

    /** The name, its longest suffix already in the table replaced by a pointer. */
    method WriteName(name: Name, ghost hole: nat) returns (ok: bool)
      requires Valid(hole) && hole + 2 <= |buf|
      modifies this
      ensures ok <==> Writable(name)
      ensures ok ==> old(buf) <= buf && Valid(hole)
      ensures ok ==> NameWritten(buf, hole, |old(buf)|, name, |buf|)
      ensures ok ==> NameAppended(old(buf), old(names), name, buf, names)
    {
      if DottedLen(name) > MAX_NAME { return false; }
      for i := 0 to |name|
        invariant buf == old(buf) && names == old(names) && forall j | 0 <= j < i :: Canon(name[j..]) !in names
      {
        var suffix := Canon(name[i..]);
        if suffix in names {
          var offset := names[suffix];
          assert Opened(Door.Names, 0);
          ghost var m :| Target(buf, hole, suffix, offset, m);
          CanonLabels(m, name[i..]);
          LabelsSplit(name, i);
          ok := WriteLabels(name[..i]);
          if !ok { return false; }
          buf := buf + Pointer(offset);
          PointerWritten(old(buf), buf, name, hole, i, offset, m);
          assert Shortened(old(buf), names, name, buf, i);
          TableKept(old(buf), buf, names, hole);
          return true;
        }
      }
      ok := WriteFull(name, hole);
    }

    method WriteUint16(v: U16)
      modifies this`buf
      ensures buf == old(buf) + PutU16(v)
    {
      buf := buf + PutU16(v);
    }

    method WriteUint32(v: U32)
      modifies this`buf
      ensures buf == old(buf) + PutU32(v)
    {
      buf := buf + PutU32(v);
    }

    method WriteSOA(s: SOA, ghost hole: nat) returns (ok: bool)
      requires Valid(hole) && hole + 2 <= |buf|
      modifies this
      ensures ok <==> Writable(s.mname) && Writable(s.rname)
      ensures ok ==> old(buf) <= buf && Valid(hole)
      ensures ok ==> exists p: nat, q: nat :: SOAWritten(buf, hole, |old(buf)|, s, p, q, |buf|)
    {
      ok := WriteName(s.mname, hole);
      if !ok { return; }
      ghost var one := buf;
      ok := WriteName(s.rname, hole);
      if !ok { return; }
      ghost var two := buf;
      WriteUint32(s.serial);
      WriteUint32(s.refresh);
      WriteUint32(s.retry);
      WriteUint32(s.expire);
      WriteUint32(s.minimum);
      assert buf == two + SOANumbers(s);
      SliceAppended(two, SOANumbers(s));
      TableKept(two, buf, names, hole);
      NameKept(one, buf, hole, |old(buf)|, s.mname, |one|);
      NameKept(two, buf, hole, |one|, s.rname, |two|);
      assert SOAWritten(buf, hole, |old(buf)|, s, |one|, |two|, |buf|);
    }

    method WriteBytes(b: Bytes, ghost hole: nat)
      requires Valid(hole)
      modifies this`buf
      ensures buf == old(buf) + b && Valid(hole) && SliceIs(buf, |old(buf)|, b)
    {
      TableKept(buf, buf + b, names, hole);
      SliceAppended(buf, b);
      buf := buf + b;
    }

    method WriteRData(rr: RR, ghost hole: nat) returns (ok: bool)
      requires Valid(hole) && hole + 2 <= |buf|
      modifies this
      ensures ok <==> WritableRData(rr)
      ensures ok ==> old(buf) <= buf && Valid(hole)
      ensures ok ==> RDataWritten(buf, hole, |old(buf)|, rr, |buf|)
    {
      ok := true;
      if rr.rtype == TypeA {
        var ip := To4(rr.a);
        if ip.None? { return false; }
        WriteBytes(ip.value, hole);
      } else if rr.rtype == TypeAAAA {
        var ip := To16(rr.aaaa);
        if ip.None? { return false; }
        WriteBytes(ip.value, hole);
      } else if rr.rtype == TypeNS {
        ok := WriteName(rr.ns, hole);
      } else if rr.rtype == TypeCNAME {
        ok := WriteName(rr.cname, hole);
      } else if rr.rtype == TypeSOA {
        if rr.soa.None? { return false; }
        ok := WriteSOA(rr.soa.value, hole);
      } else {
        WriteBytes(rr.raw, hole);
      }
    }

    /** A record, its RDLENGTH filled in once the RDATA is known. */
    method WriteRR(rr: RR) returns (ok: bool)
      requires Valid(0)
      modifies this
      ensures ok <==> WritableRR(rr)
      ensures ok ==> old(buf) <= buf && Valid(0)
      ensures ok ==> RRWritten(buf, |old(buf)|, rr, |buf|)
    {
      ok := WriteName(rr.name, 0);
      if !ok { return; }
      ghost var named := buf;
      WriteUint16(rr.rtype);
      WriteUint16(rr.rclass);
      WriteUint32(rr.ttl);
      assert buf == named + RRFixed(rr);
      var rdlenOffset := |buf|;
      TableKept(named, buf, names, 0);
      TableOpens(buf, names);
      ghost var fixedPart := buf;
      WriteUint16(0);
      TableKept(fixedPart, buf, names, rdlenOffset);
      var rdataStart := |buf|;
      ok := WriteRData(rr, rdlenOffset);
      if !ok { return; }
      var rdlen := |buf| - rdataStart;
      RRCompleted(named, buf, |old(buf)|, rr);
      TablePatched(buf, names, rdlenOffset, PutU16(rdlen % 0x1_0000));
      ghost var full := buf;
      buf := Patch(buf, rdlenOffset, PutU16(rdlen % 0x1_0000));
      assert buf[..rdlenOffset] == full[..rdlenOffset] == fixedPart;
    }

    method WriteQuestion(q: Question) returns (ok: bool)
      requires Valid(0)
      modifies this
      ensures ok <==> Writable(q.name)
      ensures ok ==> old(buf) <= buf && Valid(0)
      ensures ok ==> QuestionWritten(buf, |old(buf)|, q, |buf|)
    {
      ok := WriteName(q.name, 0);
      if !ok { return; }
      ghost var named := buf;
      WriteUint16(q.qtype);
      WriteUint16(q.qclass);
      assert buf == named + (PutU16(q.qtype) + PutU16(q.qclass));
      SliceAppended(named, PutU16(q.qtype) + PutU16(q.qclass));
      TableKept(named, buf, names, 0);
      NameKept(named, buf, 0, |old(buf)|, q.name, |named|);
      assert QuestionWrittenAs(buf, |old(buf)|, q, |named|, |buf|);
    }
  }

  /** An entry made while writing name: suffix j, at the place its labels start. */
  predicate SuffixAt(name: Name, k: nat, start: nat, s: Name, off: nat, j: nat) {
    && j < k <= |name| && s == Canon(name[j..]) && off <= MAX_OFFSET
    && LabelsOk(name[..j]) && off == start + |WireLabels(name[..j])|
  }

  ghost predicate Fresh(name: Name, k: nat, start: nat, s: Name, off: nat) {
    exists j: nat :: SuffixAt(name, k, start, s, off, j)
  }

  /** The table after the first k labels of name: what was known, and suffixes of
      the name. */
  ghost predicate Grown(known: map<Name, nat>, names: map<Name, nat>, name: Name, k: nat, start: nat) {
    forall s | s in names :: (s in known && names[s] == known[s]) || Fresh(name, k, start, s, names[s])
  }

  /** What was known is, and so is each of the first k suffixes of the name: where it was,
      or else where it is spelled, if a pointer can reach that far. */
  ghost predicate Recorded(known: map<Name, nat>, names: map<Name, nat>, name: Name, k: nat, start: nat) {
    && (forall s | s in known :: s in names && names[s] == known[s])
    && forall j | 0 <= j < k <= |name| :: RecordedAt(known, names, name, j, start)
  }

  ghost predicate RecordedAt(known: map<Name, nat>, names: map<Name, nat>, name: Name, j: nat, start: nat)
    requires j < |name|
  {
    var s := Canon(name[j..]);
    s in known || (LabelsOk(name[..j]) && var off := start + |WireLabels(name[..j])|;
                   if off <= 0x3FFF then s in names && names[s] == off else s !in names)
  }

  /** Suffixes of different length are different. */
  lemma OtherSuffix(known: map<Name, nat>, names: map<Name, nat>, name: Name, k: nat, start: nat)
    requires Grown(known, names, name, k, start) && k < |name|
    ensures Canon(name[k..]) in names ==> Canon(name[k..]) in known
    ensures forall j | 0 <= j < k :: Canon(name[j..]) != Canon(name[k..])
  {
    var s := Canon(name[k..]);
    assert |s| == |name| - k;
    forall j | 0 <= j < k ensures Canon(name[j..]) != s { assert |Canon(name[j..])| == |name| - j; }
  }

  lemma RecordedStep(known: map<Name, nat>, names: map<Name, nat>, name: Name, k: nat, start: nat)
    requires Grown(known, names, name, k, start) && k < |name| && LabelsOk(name[..k])
    ensures var s, off := Canon(name[k..]), start + |WireLabels(name[..k])|;
            Recorded(known, names, name, k, start) ==>
              if s in names || off > 0x3FFF then Recorded(known, names, name, k + 1, start)
              else Recorded(known, names[s := off], name, k + 1, start)
  {
    OtherSuffix(known, names, name, k, start);
    var s, off := Canon(name[k..]), start + |WireLabels(name[..k])|;
    if Recorded(known, names, name, k, start) {
      var after := if s in names || off > 0x3FFF then names else names[s := off];
      forall j | 0 <= j < k + 1 ensures RecordedAt(known, after, name, j, start) {
        if j < k { assert RecordedAt(known, names, name, j, start); }
      }
    }
  }

  /** The longest suffix of the name in the table, replaced by a pointer to it. */
  ghost predicate Shortened(before: Bytes, known: map<Name, nat>, name: Name, after: Bytes, i: nat) {
    && i < |name| && LabelsOk(name[..i]) && Canon(name[i..]) in known && known[Canon(name[i..])] <= MAX_OFFSET
    && (forall j | 0 <= j < i :: Canon(name[j..]) !in known)
    && after == before + WireLabels(name[..i]) + Pointer(known[Canon(name[i..])])
  }

  /** What writing a name appends: the longest suffix known is replaced by a pointer, and
      if none is, the name is spelled out and all its suffixes are known from then on. */
  ghost predicate NameAppended(before: Bytes, known: map<Name, nat>, name: Name, after: Bytes, names: map<Name, nat>) {
    forall k {:trigger Opened(Door.Compression, k)} | Opened(Door.Compression, k) ::
      || (names == known && exists i: nat :: Shortened(before, known, name, after, i))
      || ((forall j | 0 <= j < |name| :: Canon(name[j..]) !in known) && LabelsOk(name)
          && after == before + WireName(name) && Recorded(known, names, name, |name|, |before|))
  }

  lemma GrownStep(known: map<Name, nat>, names: map<Name, nat>, name: Name, k: nat, start: nat)
    requires Grown(known, names, name, k, start) && k < |name| && LabelsOk(name[..k])
    ensures Grown(known, names, name, k + 1, start)
    ensures var off := start + |WireLabels(name[..k])|;
            off <= MAX_OFFSET ==> Grown(known, names[Canon(name[k..]) := off], name, k + 1, start)
  {
    forall s | s in names && Fresh(name, k, start, s, names[s]) ensures Fresh(name, k + 1, start, s, names[s]) {
      var j: nat :| SuffixAt(name, k, start, s, names[s], j);
      assert SuffixAt(name, k + 1, start, s, names[s], j);
    }
    var off := start + |WireLabels(name[..k])|;
    if off <= MAX_OFFSET { assert SuffixAt(name, k + 1, start, Canon(name[k..]), off, k); }
  }

  lemma FreshEntryOk(start: Bytes, name: Name, s: Name, off: nat, hole: nat)
    requires LabelsOk(name) && |start| >= HEADER_LEN && hole + 2 <= |start|
    requires Fresh(name, |name|, |start|, s, off)
    ensures EntryOk(start + WireLabels(name) + [0], hole, s, off)
  {
    var j: nat :| SuffixAt(name, |name|, |start|, s, off, j);
    SuffixSpelled(start, name, hole, s, off, j);
    TargetIsEntry(start + WireLabels(name) + [0], hole, s, off, name[j..]);
  }

  lemma TargetIsEntry(buf: Bytes, hole: nat, s: Name, off: nat, n: Name)
    requires Target(buf, hole, s, off, n)
    ensures EntryOk(buf, hole, s, off)
  {}

  lemma TableGrown(start: Bytes, known: map<Name, nat>, names: map<Name, nat>, name: Name, hole: nat)
    requires LabelsOk(name) && |start| >= HEADER_LEN && hole + 2 <= |start|
    requires TableOk(start, known, hole) && Grown(known, names, name, |name|, |start|)
    ensures TableOk(start + WireLabels(name) + [0], names, hole)
  {
    var buf := start + WireLabels(name) + [0];
    TableKept(start, buf, known, hole);
    forall s | s in names ensures EntryOk(buf, hole, s, names[s]) {
      if !(s in known && names[s] == known[s]) { FreshEntryOk(start, name, s, names[s], hole); }
    }
  }

  lemma SuffixSpelled(start: Bytes, name: Name, hole: nat, s: Name, off: nat, j: nat)
    requires LabelsOk(name) && |start| >= HEADER_LEN && hole + 2 <= |start|
    requires SuffixAt(name, |name|, |start|, s, off, j)
    ensures Target(start + WireLabels(name) + [0], hole, s, off, name[j..])
  {
    SuffixSlice(start, name, j);
    TargetBehind(start + WireLabels(name) + [0], |start|, off, hole, name[j..]);
  }

  lemma TargetBehind(buf: Bytes, start: nat, off: nat, hole: nat, n: Name)
    requires hole + 2 <= start <= off && HEADER_LEN <= off <= MAX_OFFSET
    requires LabelsOk(n) && SliceIs(buf, off, WireName(n))
    ensures Target(buf, hole, Canon(n), off, n)
  {}

  lemma SuffixSlice(start: Bytes, name: Name, j: nat)
    requires LabelsOk(name) && j < |name|
    ensures LabelsOk(name[..j]) && LabelsOk(name[j..])
    ensures SliceIs(start + WireLabels(name) + [0], |start| + |WireLabels(name[..j])|, WireName(name[j..]))
  {
    LabelsSplit(name, j);
    assert name == name[..j] + name[j..];
    WireLabelsConcat(name[..j], name[j..]);
    WireNameLabels(name[j..]);
    Regroup(start, WireLabels(name[..j]), WireLabels(name[j..]));
    SliceAppended(start + WireLabels(name[..j]), WireName(name[j..]));
  }

  lemma Regroup(start: Bytes, w: Bytes, v: Bytes)
    ensures start + (w + v) + [0] == start + w + (v + [0])
  {}

  lemma FullWritten(start: Bytes, name: Name, hole: nat)
    requires LabelsOk(name)
    ensures var buf := start + WireLabels(name) + [0];
            WrittenAs(buf, hole, |start|, name, |buf|, |name|, 0, [])
  {
    assert name[..|name|] == name;
    SlicesAppended(start, WireLabels(name), [0]);
  }

  lemma PointerWritten(start: Bytes, buf: Bytes, name: Name, hole: nat, i: nat, ptr: nat, m: Name)
    requires LabelsOk(name) && i < |name| && LabelsOk(name[..i]) && ptr <= MAX_OFFSET
    requires buf == start + WireLabels(name[..i]) + Pointer(ptr)
    requires Target(start, hole, Canon(name[i..]), ptr, m)
    ensures WrittenAs(buf, hole, |start|, name, |buf|, i, ptr, m)
  {
    SlicesAppended(start, WireLabels(name[..i]), Pointer(ptr));
    TargetKept(start, buf, hole, Canon(name[i..]), ptr, m);
  }
}

/** Packing and unpacking whole messages: what is packed is what is unpacked, and
    what was unpacked can be packed again. */
module Codec {
  import opened Octets
  import opened Names
  import opened Messages
  import opened Canonical
  import opened Decode
  import opened Encode

  // ---- names ----

  predicate DotFree(n: Name) {
    forall i | 0 <= i < |n| :: DOT !in n[i]
  }

  /** A name both sides of the codec take. */
  predicate NameFits(n: Name) {
    LabelsOk(n) && DotFree(n) && DottedLen(n) <= 254
  }

  function Prefixed(p: Name, r: Parsed<Name>): Parsed<Name> {
    match r
    case Bad => Bad
    case Ok(n, end) => Ok(p + n, end)
  }

  lemma {:induction false} WireLength(n: Name)
    requires LabelsOk(n)
    ensures |WireLabels(n)| == if n == [] then 0 else DottedLen(n) + 1
  {
    if |n| > 1 { WireLength(n[1..]); }
  }

  /** Always true, and to NameIs what Opened is to other predicates: the solver
      looks inside only at the offsets a proof names. */
  predicate Reached(pos: nat, k: int) {
    true
  }

  /** Reading a name from pos, after len octets of it, gives r. */
  ghost predicate NameIs(buf: Bytes, pos: nat, jumps: nat, len: nat, r: Parsed<Name>) {
    forall k {:trigger Reached(pos, k)} | Reached(pos, k) :: jumps <= MAX_JUMPS && NameFrom(buf, pos, jumps, len) == r
  }

  /** One label, read off the front of a name. */
  lemma LabelDecodes(buf: Bytes, off: nat, part: Label, jumps: nat, len: nat, r: Parsed<Name>)
    requires 1 <= |part| <= 63 && DOT !in part && jumps <= MAX_JUMPS
    requires off + 1 + |part| <= |buf| && buf[off] as int == |part| && buf[off + 1..off + 1 + |part|] == part
    requires len + |part| + 1 <= MAX_NAME && NameIs(buf, off + 1 + |part|, jumps, len + |part| + 1, r)
    ensures NameIs(buf, off, jumps, len, Prefixed([part], r))
  {
    assert Reached(off + 1 + |part|, 0);
  }

  lemma LabelTooLong(buf: Bytes, off: nat, part: Label, jumps: nat, len: nat)
    requires 1 <= |part| <= 63 && jumps <= MAX_JUMPS
    requires off + 1 + |part| <= |buf| && buf[off] as int == |part|
    requires len + |part| + 1 > MAX_NAME
    ensures NameIs(buf, off, jumps, len, Bad)
  {}

  lemma PrefixedTwice(part: Label, p: Name, r: Parsed<Name>)
    ensures Prefixed([part], Prefixed(p, r)) == Prefixed([part] + p, r)
  {
    if r.Ok? { assert [part] + (p + r.value) == [part] + p + r.value; }
  }

  lemma PrefixedNone(r: Parsed<Name>)
    ensures Prefixed([], r) == r
  {
    if r.Ok? { assert [] + r.value == r.value; }
  }

  /** Labels spelled out are read one after another. */
  lemma {:induction false} PrefixDecodes(buf: Bytes, off: nat, p: Name, jumps: nat, len: nat, r: Parsed<Name>)
    requires jumps <= MAX_JUMPS && LabelsOk(p) && DotFree(p) && SliceIs(buf, off, WireLabels(p))
    requires len + |WireLabels(p)| <= MAX_NAME
    requires NameIs(buf, off + |WireLabels(p)|, jumps, len + |WireLabels(p)|, r)
    ensures NameIs(buf, off, jumps, len, Prefixed(p, r))
    decreases |p|
  {
    if p == [] {
      PrefixedNone(r);
    } else {
      var part, rest := p[0], p[1..];
      LabelSlice(buf, off, p);
      PrefixDecodes(buf, off + 1 + |part|, rest, jumps, len + |part| + 1, r);
      LabelDecodes(buf, off, part, jumps, len, Prefixed(rest, r));
      PrefixedTwice(part, rest, r);
      assert p == [part] + rest;
    }
  }

  /** Labels that make the name too long are refused. */
  lemma {:induction false} PrefixTooLong(buf: Bytes, off: nat, p: Name, jumps: nat, len: nat)
    requires jumps <= MAX_JUMPS && LabelsOk(p) && DotFree(p) && SliceIs(buf, off, WireLabels(p))
    requires len <= MAX_NAME < len + |WireLabels(p)|
    ensures NameIs(buf, off, jumps, len, Bad)
    decreases |p|
  {
    LabelSlice(buf, off, p);
    if len + |p[0]| + 1 <= MAX_NAME {
      PrefixTooLong(buf, off + 1 + |p[0]|, p[1..], jumps, len + |p[0]| + 1);
      LabelDecodes(buf, off, p[0], jumps, len, Bad);
    } else {
      LabelTooLong(buf, off, p[0], jumps, len);
    }
  }

  lemma LabelSlice(buf: Bytes, off: nat, p: Name)
    requires LabelsOk(p) && p != [] && SliceIs(buf, off, WireLabels(p))
    ensures var stop := off + 1 + |p[0]|;
            && buf[off] as int == |p[0]| && stop <= |buf| && buf[off + 1..stop] == p[0]
            && SliceIs(buf, stop, WireLabels(p[1..])) && LabelsOk(p[1..])
            && |WireLabels(p)| == 1 + |p[0]| + |WireLabels(p[1..])|
  {
    SliceSplit(buf, off, [|p[0]|] + p[0], WireLabels(p[1..]));
    SliceSplit(buf, off, [|p[0]|], p[0]);
  }

  lemma DotFreeCanon(a: Name, b: Name)
    requires Canon(a) == Canon(b) && DotFree(a)
    ensures DotFree(b)
  {
    forall i | 0 <= i < |b| ensures DOT !in b[i] {
      assert LowerAll(a[i]) == Canon(a)[i] == Canon(b)[i] == LowerAll(b[i]);
      forall k | 0 <= k < |b[i]| ensures b[i][k] != DOT {
        assert Lower(b[i][k]) == LowerAll(b[i])[k] == LowerAll(a[i])[k] == Lower(a[i][k]);
        assert a[i][k] in a[i];
      }
    }
  }

  /** A pointer-free spelling reads back as itself, unless it is too long. */
  lemma SpellingDecodes(buf: Bytes, off: nat, n: Name, jumps: nat, len: nat)
    requires jumps <= MAX_JUMPS && len <= MAX_NAME && LabelsOk(n) && DotFree(n)
    requires SliceIs(buf, off, WireName(n))
    ensures NameIs(buf, off, jumps, len,
                   if len + |WireLabels(n)| > MAX_NAME then Bad else Ok(n, off + |WireName(n)|))
  {
    WireNameLabels(n);
    SliceSplit(buf, off, WireLabels(n), [0]);
    LabelsThenEnd(buf, off, n, jumps, len);
  }

  lemma LabelsThenEnd(buf: Bytes, off: nat, n: Name, jumps: nat, len: nat)
    requires jumps <= MAX_JUMPS && len <= MAX_NAME && LabelsOk(n) && DotFree(n)
    requires SliceIs(buf, off, WireLabels(n)) && SliceIs(buf, off + |WireLabels(n)|, [0])
    ensures NameIs(buf, off, jumps, len,
                   if len + |WireLabels(n)| > MAX_NAME then Bad else Ok(n, off + |WireLabels(n)| + 1))
  {
    var p := off + |WireLabels(n)|;
    if len + |WireLabels(n)| > MAX_NAME {
      PrefixTooLong(buf, off, n, jumps, len);
    } else {
      EndDecodes(buf, p, jumps, len + |WireLabels(n)|);
      PrefixDecodes(buf, off, n, jumps, len, Ok([], p + 1));
      assert n + [] == n;
    }
  }

  lemma EndDecodes(buf: Bytes, p: nat, jumps: nat, len: nat)
    requires jumps <= MAX_JUMPS && SliceIs(buf, p, [0])
    ensures NameIs(buf, p, jumps, len, Ok([], p + 1))
  {
    SliceBytes(buf, p, [0]);
    assert buf[p + 0] == 0;
  }

  lemma SliceSplit(buf: Bytes, off: nat, a: Bytes, b: Bytes)
    requires SliceIs(buf, off, a + b)
    ensures SliceIs(buf, off, a) && SliceIs(buf, off + |a|, b)
    ensures forall k | 0 <= k < |b| :: buf[off + |a| + k] == b[k]
  {
    var s := buf[off..off + |a + b|];
    assert s[..|a|] == a && s[|a|..] == b;
    assert buf[off..off + |a|] == s[..|a|];
    assert buf[off + |a|..off + |a| + |b|] == s[|a|..];
    forall k | 0 <= k < |b| ensures buf[off + |a| + k] == b[k] {
      assert s[|a| + k] == (a + b)[|a| + k];
    }
  }

  lemma SliceBytes(buf: Bytes, off: nat, s: Bytes)
    requires SliceIs(buf, off, s)
    ensures forall k | 0 <= k < |s| :: buf[off + k] == s[k]
  {
    forall k | 0 <= k < |s| ensures buf[off + k] == s[k] {
      assert buf[off..off + |s|][k] == s[k];
    }
  }

  /** A pointer leads to what is spelled at its target; the name ends after it. */
  lemma PointerDecodes(buf: Bytes, p: nat, ptr: nat, len: nat, r: Parsed<Name>)
    requires ptr <= MAX_OFFSET && SliceIs(buf, p, Pointer(ptr))
    requires NameIs(buf, ptr, 1, len, r)
    ensures NameIs(buf, p, 0, len, if r.Bad? then Bad else Ok(r.value, p + 2))
  {
    SliceBytes(buf, p, Pointer(ptr));
    assert buf[p + 0] == 0xC0 + ptr / 0x100 && buf[p + 1] == ptr % 0x100;
    assert GetU16(buf, p) == 0xC000 + ptr;
    assert Reached(ptr, 0);
  }

  /** What a name written as WrittenAs describes reads back as. */
  function ReadBack(name: Name, i: nat, m: Name): Name
    requires i <= |name|
  {
    if i == |name| then name else name[..i] + m
  }

  /** A name the writer wrote reads back, with at most one jump, and the reader
      stops where the writer did - exactly if its dotted form is at most 254
      octets; the one length more that the writer takes is refused. */
  lemma WrittenDecodes(buf: Bytes, off: nat, name: Name, end: nat, i: nat, ptr: nat, m: Name)
    requires WrittenAs(buf, 0, off, name, end, i, ptr, m) && DotFree(name)
    ensures NameIs(buf, off, 0, 0, if |WireLabels(name)| <= MAX_NAME then Ok(ReadBack(name, i, m), end) else Bad)
  {
    if i == |name| {
      assert name[..i] == name;
      LabelsThenEnd(buf, off, name, 0, 0);
    } else {
      LabelsSplit(name, i);
      assert name == name[..i] + name[i..];
      WireLabelsConcat(name[..i], name[i..]);
      DotFreeCanon(name[i..], m);
      SameWireLength(m, name[i..]);
      LabelsThenPointer(buf, off, name[..i], ptr, m);
    }
  }

  lemma LabelsThenPointer(buf: Bytes, off: nat, pre: Name, ptr: nat, m: Name)
    requires LabelsOk(pre) && DotFree(pre) && SliceIs(buf, off, WireLabels(pre))
    requires LabelsOk(m) && DotFree(m) && ptr <= MAX_OFFSET && SliceIs(buf, ptr, WireName(m))
    requires SliceIs(buf, off + |WireLabels(pre)|, Pointer(ptr))
    ensures NameIs(buf, off, 0, 0, if |WireLabels(pre)| + |WireLabels(m)| <= MAX_NAME
                                   then Ok(pre + m, off + |WireLabels(pre)| + 2) else Bad)
  {
    var w := |WireLabels(pre)|;
    if w > MAX_NAME {
      PrefixTooLong(buf, off, pre, 0, 0);
    } else {
      SpellingDecodes(buf, ptr, m, 1, w);
      PrefixThenPointer(buf, off, pre, ptr, if w + |WireLabels(m)| > MAX_NAME then Bad else Ok(m, ptr + |WireName(m)|));
    }
  }

  lemma PrefixThenPointer(buf: Bytes, off: nat, pre: Name, ptr: nat, r: Parsed<Name>)
    requires LabelsOk(pre) && DotFree(pre) && SliceIs(buf, off, WireLabels(pre)) && |WireLabels(pre)| <= MAX_NAME
    requires ptr <= MAX_OFFSET && SliceIs(buf, off + |WireLabels(pre)|, Pointer(ptr))
    requires NameIs(buf, ptr, 1, |WireLabels(pre)|, r)
    ensures NameIs(buf, off, 0, 0, if r.Bad? then Bad else Ok(pre + r.value, off + |WireLabels(pre)| + 2))
  {
    var w := |WireLabels(pre)|;
    PointerDecodes(buf, off + w, ptr, w, r);
    PrefixDecodes(buf, off, pre, 0, 0, if r.Bad? then Bad else Ok(r.value, off + w + 2));
  }

  lemma {:induction false} SameWireLength(a: Name, b: Name)
    requires Canon(a) == Canon(b) && LabelsOk(a) && LabelsOk(b)
    ensures |WireLabels(a)| == |WireLabels(b)|
  {
    if a != [] {
      assert |a[0]| == |Canon(a)[0]| == |Canon(b)[0]| == |b[0]|;
      assert Canon(a[1..]) == Canon(a)[1..] && Canon(b[1..]) == Canon(b)[1..];
      SameWireLength(a[1..], b[1..]);
    }
  }

  /** The name at off ends at end and is name up to case. */
  ghost predicate ReadsName(buf: Bytes, off: nat, name: Name, end: nat) {
    exists n :: EqualName(n, name) && NameIs(buf, off, 0, 0, Ok(n, end))
  }

  /** Any name the writer took can be read back exactly if its dotted form is at
      most 254 octets long. */
  lemma NameDecodes(buf: Bytes, off: nat, name: Name, end: nat)
    requires NameWritten(buf, 0, off, name, end) && DotFree(name)
    ensures DottedLen(name) <= 254 ==> ReadsName(buf, off, name, end) && off < end <= off + 257
    ensures DottedLen(name) > 254 ==> NameIs(buf, off, 0, 0, Bad)
  {
    assert Opened(Door.Names, 0);
    var i: nat, ptr: nat, m :| WrittenAs(buf, 0, off, name, end, i, ptr, m);
    WrittenDecodes(buf, off, name, end, i, ptr, m);
    WireLength(name);
    WrittenSize(buf, off, name, end, i, ptr, m);
    ReadBackEqual(name, i, m);
  }

  const LONG_LABEL: Label := seq(63, _ => 120)

  /** A name of four full labels, 255 octets with its dots: the writer takes it, and
      no reader takes it back. */
  lemma LongestNameNotRead(buf: Bytes, off: nat, end: nat)
    requires NameWritten(buf, 0, off, [LONG_LABEL, LONG_LABEL, LONG_LABEL, LONG_LABEL], end)
    ensures Writable([LONG_LABEL, LONG_LABEL, LONG_LABEL, LONG_LABEL])
    ensures NameIs(buf, off, 0, 0, Bad)
  {
    var l := LONG_LABEL;
    assert [l, l, l, l][1..] == [l, l, l] && [l, l, l][1..] == [l, l] && [l, l][1..] == [l];
    assert DottedLen([l]) == 63 && DottedLen([l, l]) == 127 && DottedLen([l, l, l]) == 191;
    assert DottedLen([l, l, l, l]) == 255;
    NameDecodes(buf, off, [l, l, l, l], end);
  }

  lemma WrittenSize(buf: Bytes, off: nat, name: Name, end: nat, i: nat, ptr: nat, m: Name)
    requires WrittenAs(buf, 0, off, name, end, i, ptr, m)
    ensures off < end <= off + |WireLabels(name)| + 2
  {
    LabelsSplit(name, i);
    assert name == name[..i] + name[i..];
    WireLabelsConcat(name[..i], name[i..]);
  }

  lemma ReadBackEqual(name: Name, i: nat, m: Name)
    requires i <= |name| && (i < |name| ==> Canon(m) == Canon(name[i..]))
    ensures EqualName(ReadBack(name, i, m), name)
  {
    if i < |name| {
      CanonSlice(name, i);
      assert Canon(name[..i] + m) == Canon(name[..i]) + Canon(m);
      assert Canon(name) == Canon(name)[..i] + Canon(name)[i..];
    }
  }

  // ---- numbers ----

  lemma U16Slice(buf: Bytes, p: nat, v: U16)
    requires SliceIs(buf, p, PutU16(v))
    ensures U16At(buf, p) == Ok(v, p + 2)
  {
    SliceBytes(buf, p, PutU16(v));
  }

  lemma U32Slice(buf: Bytes, p: nat, v: U32)
    requires SliceIs(buf, p, PutU32(v))
    ensures U32At(buf, p) == Ok(v, p + 4)
  {
    SliceSplit(buf, p, PutU16(v / 0x1_0000), PutU16(v % 0x1_0000));
    U16Slice(buf, p, v / 0x1_0000);
    U16Slice(buf, p + 2, v % 0x1_0000);
  }

  lemma FixedSlices(buf: Bytes, p: nat, rr: RR)
    requires SliceIs(buf, p, RRFixed(rr))
    ensures U16At(buf, p) == Ok(rr.rtype, p + 2) && U16At(buf, p + 2) == Ok(rr.rclass, p + 4)
    ensures U32At(buf, p + 4) == Ok(rr.ttl, p + 8)
  {
    SliceSplit(buf, p, PutU16(rr.rtype) + PutU16(rr.rclass), PutU32(rr.ttl));
    SliceSplit(buf, p, PutU16(rr.rtype), PutU16(rr.rclass));
    U16Slice(buf, p, rr.rtype);
    U16Slice(buf, p + 2, rr.rclass);
    U32Slice(buf, p + 4, rr.ttl);
  }

  lemma SOASlices(buf: Bytes, q: nat, s: SOA)
    requires SliceIs(buf, q, SOANumbers(s))
    ensures U32At(buf, q) == Ok(s.serial, q + 4) && U32At(buf, q + 4) == Ok(s.refresh, q + 8)
    ensures U32At(buf, q + 8) == Ok(s.retry, q + 12) && U32At(buf, q + 12) == Ok(s.expire, q + 16)
    ensures U32At(buf, q + 16) == Ok(s.minimum, q + 20)
  {
    var a, b, c, d, e := PutU32(s.serial), PutU32(s.refresh), PutU32(s.retry), PutU32(s.expire), PutU32(s.minimum);
    SliceSplit(buf, q, a + b + c + d, e);
    SliceSplit(buf, q, a + b + c, d);
    SliceSplit(buf, q, a + b, c);
    SliceSplit(buf, q, a, b);
    U32Slice(buf, q, s.serial);
    U32Slice(buf, q + 4, s.refresh);
    U32Slice(buf, q + 8, s.retry);
    U32Slice(buf, q + 12, s.expire);
    U32Slice(buf, q + 16, s.minimum);
  }

  // ---- records ----

  predicate HasWire(raw: Bytes, n: Name) {
    NameFits(n) && raw == WireName(n)
  }

  /** RDATA that is one uncompressed name. */
  ghost predicate IsWire(raw: Bytes) {
    forall k {:trigger Opened(Door.Names, k)} | Opened(Door.Names, k) :: exists n :: HasWire(raw, n)
  }

  /** Record data that survives the trip. */
  ghost predicate RDataFits(rr: RR) {
    if rr.rtype == TypeA then To4(rr.a).Some?
    else if rr.rtype == TypeAAAA then To16(rr.aaaa).Some?
    else if rr.rtype == TypeNS then NameFits(rr.ns)
    else if rr.rtype == TypeCNAME then NameFits(rr.cname)
    else if rr.rtype == TypeSOA then rr.soa.Some? && NameFits(rr.soa.value.mname) && NameFits(rr.soa.value.rname)
    else if rr.rtype == TypePTR then IsWire(rr.raw)
    else if rr.rtype == TypeMX then |rr.raw| >= 2 && IsWire(rr.raw[2..])
    else |rr.raw| < 0x1_0000
  }

  ghost predicate RRFits(rr: RR) {
    NameFits(rr.name) && RDataFits(rr)
  }

  predicate SameSOA(s: SOA, t: SOA) {
    && EqualName(s.mname, t.mname) && EqualName(s.rname, t.rname)
    && t == SOA(t.mname, t.rname, s.serial, s.refresh, s.retry, s.expire, s.minimum)
  }

  /** The field a record's type uses is the same, names up to case and addresses
      in the form the type calls for. */
  predicate SameRData(rr: RR, got: RR) {
    if rr.rtype == TypeA then To4(rr.a) == Some(got.a)
    else if rr.rtype == TypeAAAA then To16(rr.aaaa) == Some(got.aaaa)
    else if rr.rtype == TypeNS then EqualName(got.ns, rr.ns)
    else if rr.rtype == TypeCNAME then EqualName(got.cname, rr.cname)
    else if rr.rtype == TypeSOA then rr.soa.Some? && got.soa.Some? && SameSOA(got.soa.value, rr.soa.value)
    else got.raw == rr.raw
  }

  predicate SameRR(rr: RR, got: RR) {
    && EqualName(got.name, rr.name)
    && got.rtype == rr.rtype && got.rclass == rr.rclass && got.ttl == rr.ttl
    && SameRData(rr, got)
  }

  lemma WireRoundTrip(buf: Bytes, off: nat, raw: Bytes, n: Name)
    requires SliceIs(buf, off, raw) && HasWire(raw, n)
    ensures NameIs(buf, off, 0, 0, Ok(n, off + |raw|)) && EncodeName(n) == Some(raw) && |raw| <= 256
  {
    SpellingDecodes(buf, off, n, 0, 0);
    WireLength(n);
    WireNameLabels(n);
  }

  /** The expanded name in PTR or MX RDATA is raw, and ends at end. */
  ghost predicate ReadsExpanded(buf: Bytes, off: nat, rtype: U16, raw: Bytes, end: nat) {
    forall k {:trigger Opened(Door.Records, k)} | Opened(Door.Records, k) :: ExpandedAt(buf, off, rtype) == Ok(raw, end)
  }

  lemma PTRDecodes(buf: Bytes, off: nat, raw: Bytes)
    requires SliceIs(buf, off, raw) && IsWire(raw)
    ensures ReadsExpanded(buf, off, TypePTR, raw, off + |raw|) && |raw| <= 256
  {
    assert Opened(Door.Names, 0) && Reached(off, 0);
    var n :| HasWire(raw, n);
    WireRoundTrip(buf, off, raw, n);
  }

  lemma MXDecodes(buf: Bytes, off: nat, raw: Bytes)
    requires SliceIs(buf, off, raw) && |raw| >= 2 && IsWire(raw[2..])
    ensures ReadsExpanded(buf, off, TypeMX, raw, off + |raw|) && |raw| <= 258
  {
    assert Opened(Door.Names, 0) && Reached(off + 2, 0);
    var n :| HasWire(raw[2..], n);
    assert raw == raw[..2] + raw[2..];
    SliceSplit(buf, off, raw[..2], raw[2..]);
    SliceBytes(buf, off, raw[..2]);
    assert buf[off + 0] == raw[0] && buf[off + 1] == raw[1];
    assert PutU16(GetU16(buf, off)) == raw[..2];
    WireRoundTrip(buf, off + 2, raw[2..], n);
  }

  ghost predicate ReadsSOA(buf: Bytes, off: nat, s: SOA, end: nat) {
    forall k {:trigger Opened(Door.Records, k)} | Opened(Door.Records, k) ::
      SOAAt(buf, off).Ok? && SOAAt(buf, off).next == end && SameSOA(SOAAt(buf, off).value, s)
  }

  lemma SOADecodes(buf: Bytes, off: nat, s: SOA, end: nat)
    requires exists p: nat, q: nat :: SOAWritten(buf, 0, off, s, p, q, end)
    requires NameFits(s.mname) && NameFits(s.rname)
    ensures ReadsSOA(buf, off, s, end) && off <= end <= off + 600
  {
    var p: nat, q: nat :| SOAWritten(buf, 0, off, s, p, q, end);
    NameDecodes(buf, off, s.mname, p);
    NameDecodes(buf, p, s.rname, q);
    SOASlices(buf, q, s);
    var m :| EqualName(m, s.mname) && NameIs(buf, off, 0, 0, Ok(m, p));
    var r :| EqualName(r, s.rname) && NameIs(buf, p, 0, 0, Ok(r, q));
    assert Reached(off, 0) && Reached(p, 0);
  }

  /** The RDATA at off, read for the record whose header is bare, is rr's. */
  ghost predicate ReadsRData(buf: Bytes, off: nat, bare: RR, rr: RR, end: nat) {
    forall k {:trigger Opened(Door.Lists, k)} | Opened(Door.Lists, k) ::
      var r := RDataAt(buf, off, bare);
      r.Ok? && r.next == end && SameRData(rr, r.value) && KeepsHeader(bare, r.value)
  }

  predicate KeepsHeader(bare: RR, got: RR) {
    && got.name == bare.name && got.rtype == bare.rtype && got.rclass == bare.rclass
    && got.ttl == bare.ttl && got.rdlength == bare.rdlength
  }

  lemma NSDecodes(buf: Bytes, off: nat, rr: RR, end: nat, bare: RR)
    requires rr.rtype == TypeNS || rr.rtype == TypeCNAME
    requires bare.rtype == rr.rtype
    requires ReadsName(buf, off, if rr.rtype == TypeNS then rr.ns else rr.cname, end)
    ensures ReadsRData(buf, off, bare, rr, end)
  {
    var n :| EqualName(n, if rr.rtype == TypeNS then rr.ns else rr.cname) && NameIs(buf, off, 0, 0, Ok(n, end));
    assert Reached(off, 0);
  }

  lemma ExpandedDecodes(buf: Bytes, off: nat, rr: RR, end: nat, bare: RR)
    requires rr.rtype == TypePTR || rr.rtype == TypeMX
    requires bare.rtype == rr.rtype && ReadsExpanded(buf, off, rr.rtype, rr.raw, end)
    ensures ReadsRData(buf, off, bare, rr, end)
  {
    assert Opened(Door.Records, 0);
  }

  lemma SOARecordDecodes(buf: Bytes, off: nat, rr: RR, end: nat, bare: RR)
    requires rr.rtype == TypeSOA && rr.soa.Some?
    requires bare.rtype == rr.rtype && ReadsSOA(buf, off, rr.soa.value, end)
    ensures ReadsRData(buf, off, bare, rr, end)
  {
    assert Opened(Door.Records, 0);
  }

  lemma RDataDecodes(buf: Bytes, off: nat, rr: RR, end: nat, bare: RR)
    requires RDataWritten(buf, 0, off, rr, end) && RDataFits(rr) && off <= end
    requires bare.rtype == rr.rtype && bare.rdlength == (end - off) % 0x1_0000
    ensures end - off < 0x1_0000
    ensures ReadsRData(buf, off, bare, rr, end)
  {
    if rr.rtype == TypeNS {
      NameDecodes(buf, off, rr.ns, end);
      NSDecodes(buf, off, rr, end, bare);
    } else if rr.rtype == TypeCNAME {
      NameDecodes(buf, off, rr.cname, end);
      NSDecodes(buf, off, rr, end, bare);
    } else if rr.rtype == TypeSOA {
      SOADecodes(buf, off, rr.soa.value, end);
      SOARecordDecodes(buf, off, rr, end, bare);
    } else if rr.rtype == TypePTR {
      PTRDecodes(buf, off, rr.raw);
      ExpandedDecodes(buf, off, rr, end, bare);
    } else if rr.rtype == TypeMX {
      MXDecodes(buf, off, rr.raw);
      ExpandedDecodes(buf, off, rr, end, bare);
    }
  }

  /** What item reads at off ends at end and is the same as x. */
  ghost predicate ReadsItem<T(!new)>(item: nat -> Parsed<T>, same: (T, T) -> bool, off: nat, x: T, end: nat) {
    forall k {:trigger Opened(Door.Items, k)} | Opened(Door.Items, k) ::
      item(off).Ok? && item(off).next == end && same(x, item(off).value)
  }

  /** The record at off ends at end and is rr. */
  ghost predicate ReadsRR(buf: Bytes, off: nat, rr: RR, end: nat) {
    ReadsItem(RRReader(buf), SameRR, off, rr, end)
  }

  ghost predicate ReadsBare(buf: Bytes, off: nat, bare: RR, end: nat) {
    forall k {:trigger Opened(Door.Records, k)} | Opened(Door.Records, k) :: BareRRAt(buf, off) == Ok(bare, end)
  }

  lemma BareDecodes(buf: Bytes, off: nat, rr: RR, p: nat, rdlength: U16) returns (bare: RR)
    requires ReadsName(buf, off, rr.name, p) && SliceIs(buf, p, RRFixed(rr)) && SliceIs(buf, p + 8, PutU16(rdlength))
    ensures ReadsBare(buf, off, bare, p + 10)
    ensures bare == BareRR(bare.name, rr.rtype, rr.rclass, rr.ttl, rdlength) && EqualName(bare.name, rr.name)
  {
    var n :| EqualName(n, rr.name) && NameIs(buf, off, 0, 0, Ok(n, p));
    bare := BareRR(n, rr.rtype, rr.rclass, rr.ttl, rdlength);
    FixedSlices(buf, p, rr);
    U16Slice(buf, p + 8, rdlength);
    assert Reached(off, 0);
  }

  lemma RRAssembled(buf: Bytes, off: nat, rr: RR, bare: RR, p: nat, end: nat)
    requires ReadsBare(buf, off, bare, p) && ReadsRData(buf, p, bare, rr, end)
    requires bare == BareRR(bare.name, rr.rtype, rr.rclass, rr.ttl, bare.rdlength) && EqualName(bare.name, rr.name)
    requires end == p + bare.rdlength
    ensures ReadsRR(buf, off, rr, end)
  {
    assert Opened(Door.Records, 0) && Opened(Door.Lists, 0);
  }

  lemma RRWrittenDecodes(buf: Bytes, off: nat, rr: RR, p: nat, end: nat)
    requires RRWrittenAs(buf, off, rr, p, end) && RRFits(rr)
    ensures ReadsRR(buf, off, rr, end)
  {
    NameDecodes(buf, off, rr.name, p);
    var rdlength := (end - (p + 10)) % 0x1_0000;
    var bare := BareDecodes(buf, off, rr, p, rdlength);
    RestDecodes(buf, off, rr, p + 10, end, bare);
  }

  lemma RestDecodes(buf: Bytes, off: nat, rr: RR, p: nat, end: nat, bare: RR)
    requires ReadsBare(buf, off, bare, p) && RDataWritten(buf, 0, p, rr, end) && RDataFits(rr) && p <= end
    requires bare == BareRR(bare.name, rr.rtype, rr.rclass, rr.ttl, bare.rdlength) && EqualName(bare.name, rr.name)
    requires bare.rdlength == (end - p) % 0x1_0000
    ensures ReadsRR(buf, off, rr, end)
  {
    RDataDecodes(buf, p, rr, end, bare);
    RRAssembled(buf, off, rr, bare, p, end);
  }

  /** A record the writer wrote reads back the same. */
  lemma RRDecodes(buf: Bytes, off: nat, rr: RR, end: nat)
    requires RRWritten(buf, off, rr, end) && RRFits(rr)
    ensures ReadsRR(buf, off, rr, end)
  {
    assert Opened(Door.Records, 0);
    var p: nat :| RRWrittenAs(buf, off, rr, p, end);
    RRWrittenDecodes(buf, off, rr, p, end);
  }

  ghost predicate ReadsQuestion(buf: Bytes, off: nat, q: Question, end: nat) {
    ReadsItem(QuestionReader(buf), SameQuestion, off, q, end)
  }

  lemma QuestionDecodes(buf: Bytes, off: nat, q: Question, end: nat)
    requires QuestionWritten(buf, off, q, end) && NameFits(q.name)
    ensures ReadsQuestion(buf, off, q, end)
  {
    assert Opened(Door.Records, 0);
    var p: nat :| QuestionWrittenAs(buf, off, q, p, end);
    NameDecodes(buf, off, q.name, p);
    SliceSplit(buf, p, PutU16(q.qtype), PutU16(q.qclass));
    U16Slice(buf, p, q.qtype);
    U16Slice(buf, p + 2, q.qclass);
    var n :| EqualName(n, q.name) && NameIs(buf, off, 0, 0, Ok(n, p));
    assert Reached(off, 0);
  }

  predicate SameQuestion(q: Question, got: Question) {
    EqualName(got.name, q.name) && got.qtype == q.qtype && got.qclass == q.qclass
  }

  // ---- sections ----

  ghost predicate RRsWritten(buf: Bytes, off: nat, rrs: seq<RR>, end: nat)
    decreases rrs, 1
  {
    if rrs == [] then off == end
    else
      forall k {:trigger Opened(Door.Lists, k)} | Opened(Door.Lists, k) ::
        exists mid: nat :: RRsWrittenTo(buf, off, rrs, mid, end)
  }

  ghost predicate RRsWrittenTo(buf: Bytes, off: nat, rrs: seq<RR>, mid: nat, end: nat)
    requires rrs != []
    decreases rrs, 0
  {
    RRsWritten(buf, off, rrs[..|rrs| - 1], mid) && RRWritten(buf, mid, rrs[|rrs| - 1], end)
  }

  ghost predicate QuestionsWritten(buf: Bytes, off: nat, qs: seq<Question>, end: nat)
    decreases qs, 1
  {
    if qs == [] then off == end
    else
      forall k {:trigger Opened(Door.Lists, k)} | Opened(Door.Lists, k) ::
        exists mid: nat :: QuestionsWrittenTo(buf, off, qs, mid, end)
  }

  ghost predicate QuestionsWrittenTo(buf: Bytes, off: nat, qs: seq<Question>, mid: nat, end: nat)
    requires qs != []
    decreases qs, 0
  {
    QuestionsWritten(buf, off, qs[..|qs| - 1], mid) && QuestionWritten(buf, mid, qs[|qs| - 1], end)
  }

  lemma {:induction false} RRsKept(buf: Bytes, buf': Bytes, off: nat, rrs: seq<RR>, end: nat)
    requires RRsWritten(buf, off, rrs, end) && buf <= buf'
    ensures RRsWritten(buf', off, rrs, end)
    decreases |rrs|
  {
    if rrs != [] {
      var front, last := rrs[..|rrs| - 1], rrs[|rrs| - 1];
      assert Opened(Door.Lists, 0);
      var mid: nat :| RRsWrittenTo(buf, off, rrs, mid, end);
      RRsKept(buf, buf', off, front, mid);
      RRKept(buf, buf', mid, last, end);
      assert RRsWrittenTo(buf', off, rrs, mid, end);
    }
  }

  lemma {:induction false} QuestionsKept(buf: Bytes, buf': Bytes, off: nat, qs: seq<Question>, end: nat)
    requires QuestionsWritten(buf, off, qs, end) && buf <= buf'
    ensures QuestionsWritten(buf', off, qs, end)
    decreases |qs|
  {
    if qs != [] {
      var front, last := qs[..|qs| - 1], qs[|qs| - 1];
      assert Opened(Door.Lists, 0);
      var mid: nat :| QuestionsWrittenTo(buf, off, qs, mid, end);
      QuestionsKept(buf, buf', off, front, mid);
      QuestionKept(buf, buf', mid, last, end);
      assert QuestionsWrittenTo(buf', off, qs, mid, end);
    }
  }

  predicate SameList<T>(same: (T, T) -> bool, xs: seq<T>, got: seq<T>) {
    |got| == |xs| && forall i | 0 <= i < |xs| :: same(xs[i], got[i])
  }

  ghost predicate AllFit(rrs: seq<RR>) {
    forall i | 0 <= i < |rrs| :: RRFits(rrs[i])
  }

  /** The list item reads at off ends at end and is the same as xs. */
  ghost predicate ReadsList<T(!new)>(item: nat -> Parsed<T>, same: (T, T) -> bool, off: nat, xs: seq<T>, end: nat) {
    forall k {:trigger Opened(Door.Read, k)} | Opened(Door.Read, k) ::
      var r := ListAt(item, off, |xs|);
      r.Ok? && r.next == end && SameList(same, xs, r.value)
  }

  ghost predicate ReadsRRs(buf: Bytes, off: nat, rrs: seq<RR>, end: nat) {
    ReadsList(RRReader(buf), SameRR, off, rrs, end)
  }

  ghost predicate ReadsQuestions(buf: Bytes, off: nat, qs: seq<Question>, end: nat) {
    ReadsList(QuestionReader(buf), SameQuestion, off, qs, end)
  }

  lemma ListExtends<T(!new)>(item: nat -> Parsed<T>, same: (T, T) -> bool, off: nat, xs: seq<T>, mid: nat, end: nat)
    requires xs != [] && ReadsList(item, same, off, xs[..|xs| - 1], mid)
    requires ReadsItem(item, same, mid, xs[|xs| - 1], end)
    ensures ReadsList(item, same, off, xs, end)
  {
    assert Opened(Door.Items, 0) && Opened(Door.Read, 0);
    ListNext(item, off, |xs| - 1, ListAt(item, off, |xs| - 1).value, mid);
  }

  lemma ListEmpty<T(!new)>(item: nat -> Parsed<T>, same: (T, T) -> bool, off: nat)
    ensures ReadsList(item, same, off, [], off)
  {}

  lemma ListRead<T(!new)>(item: nat -> Parsed<T>, same: (T, T) -> bool, off: nat, xs: seq<T>, end: nat)
      returns (got: seq<T>)
    requires ReadsList(item, same, off, xs, end)
    ensures ListAt(item, off, |xs|) == Ok(got, end) && SameList(same, xs, got)
  {
    assert Opened(Door.Read, 0);
    got := ListAt(item, off, |xs|).value;
  }

  lemma {:induction false} RRsDecode(buf: Bytes, off: nat, rrs: seq<RR>, end: nat)
    requires RRsWritten(buf, off, rrs, end) && AllFit(rrs)
    ensures ReadsRRs(buf, off, rrs, end)
    decreases |rrs|
  {
    if rrs != [] {
      assert Opened(Door.Lists, 0);
      var mid: nat :| RRsWrittenTo(buf, off, rrs, mid, end);
      RRsDecode(buf, off, rrs[..|rrs| - 1], mid);
      RRDecodes(buf, mid, rrs[|rrs| - 1], end);
      ListExtends(RRReader(buf), SameRR, off, rrs, mid, end);
    } else {
      ListEmpty(RRReader(buf), SameRR, off);
    }
  }

  lemma {:induction false} QuestionsDecode(buf: Bytes, off: nat, qs: seq<Question>, end: nat)
    requires QuestionsWritten(buf, off, qs, end) && forall i | 0 <= i < |qs| :: NameFits(qs[i].name)
    ensures ReadsQuestions(buf, off, qs, end)
    decreases |qs|
  {
    if qs != [] {
      assert Opened(Door.Lists, 0);
      var mid: nat :| QuestionsWrittenTo(buf, off, qs, mid, end);
      QuestionsDecode(buf, off, qs[..|qs| - 1], mid);
      QuestionDecodes(buf, mid, qs[|qs| - 1], end);
      ListExtends(QuestionReader(buf), SameQuestion, off, qs, mid, end);
    } else {
      ListEmpty(QuestionReader(buf), SameQuestion, off);
    }
  }

  // ---- the header ----

  function FlagBit(b: bool): Octet {
    if b then 1 else 0
  }

  function Flags1(h: Header): Octet {
    FlagBit(h.qr) * 0x80 + h.opcode % 16 * 8 + FlagBit(h.aa) * 4 + FlagBit(h.tc) * 2 + FlagBit(h.rd)
  }

  function Flags2(h: Header): Octet {
    FlagBit(h.ra) * 0x80 + FlagBit(h.ad) * 0x20 + FlagBit(h.cd) * 0x10 + h.rcode % 16
  }

  function HeaderBytes(msg: Message): (r: Bytes)
    ensures |r| == HEADER_LEN
  {
    PutU16(msg.header.id) + [Flags1(msg.header), Flags2(msg.header)]
    + PutU16(|msg.questions| % 0x1_0000) + PutU16(|msg.answers| % 0x1_0000)
    + PutU16(|msg.authorities| % 0x1_0000) + PutU16(|msg.additionals| % 0x1_0000)
  }

  /** The header as it comes back: four-bit fields cut to four bits, the counts
      those of the sections. */
  function SentHeader(msg: Message): Header {
    msg.header.(opcode := msg.header.opcode % 16, rcode := msg.header.rcode % 16,
                qdcount := |msg.questions| % 0x1_0000, ancount := |msg.answers| % 0x1_0000,
                nscount := |msg.authorities| % 0x1_0000, arcount := |msg.additionals| % 0x1_0000)
  }

  lemma Flags1RoundTrip(q: int, op: int, a: int, t: int, r: int)
    requires 0 <= q <= 1 && 0 <= op < 16 && 0 <= a <= 1 && 0 <= t <= 1 && 0 <= r <= 1
    ensures var f := q * 0x80 + op * 8 + a * 4 + t * 2 + r;
            && (f >= 0x80 <==> q == 1) && f / 8 % 16 == op && f / 4 % 2 == a && f / 2 % 2 == t && f % 2 == r
  {
    var f := q * 0x80 + op * 8 + a * 4 + t * 2 + r;
    assert f / 8 == q * 16 + op;
    assert f / 4 == q * 32 + op * 2 + a;
    assert f / 2 == q * 64 + op * 4 + a * 2 + t;
  }

  lemma Flags2RoundTrip(ra: int, ad: int, cd: int, rc: int)
    requires 0 <= ra <= 1 && 0 <= ad <= 1 && 0 <= cd <= 1 && 0 <= rc < 16
    ensures var f := ra * 0x80 + ad * 0x20 + cd * 0x10 + rc;
            && (f >= 0x80 <==> ra == 1) && f / 32 % 2 == ad && f / 16 % 2 == cd && f % 16 == rc
  {
    var f := ra * 0x80 + ad * 0x20 + cd * 0x10 + rc;
    assert f / 32 == ra * 4 + ad;
    assert f / 16 == ra * 8 + ad * 2 + cd;
  }

  lemma Flags1Bits(h: Header)
    ensures var f := Flags1(h);
            && (f >= 0x80 <==> h.qr) && f / 8 % 16 == h.opcode % 16
            && (f / 4 % 2 == 1 <==> h.aa) && (f / 2 % 2 == 1 <==> h.tc) && (f % 2 == 1 <==> h.rd)
  {
    Flags1RoundTrip(FlagBit(h.qr), h.opcode % 16, FlagBit(h.aa), FlagBit(h.tc), FlagBit(h.rd));
  }

  lemma Flags2Bits(h: Header)
    ensures var f := Flags2(h);
            && (f >= 0x80 <==> h.ra) && (f / 32 % 2 == 1 <==> h.ad)
            && (f / 16 % 2 == 1 <==> h.cd) && f % 16 == h.rcode % 16
  {
    Flags2RoundTrip(FlagBit(h.ra), FlagBit(h.ad), FlagBit(h.cd), h.rcode % 16);
  }

  lemma FlagsRoundTrip(h: Header, qd: U16, an: U16, ns: U16, ar: U16)
    ensures FlagsToHeader(h.id, Flags1(h), Flags2(h), qd, an, ns, ar) ==
              h.(opcode := h.opcode % 16, rcode := h.rcode % 16,
                 qdcount := qd, ancount := an, nscount := ns, arcount := ar)
  {
    Flags1Bits(h);
    Flags2Bits(h);
  }

  lemma HeaderDecodes(buf: Bytes, msg: Message)
    requires SliceIs(buf, 0, HeaderBytes(msg))
    ensures HeaderAt(buf, 0) == Ok(SentHeader(msg), HEADER_LEN)
  {
    var h := msg.header;
    SliceBytes(buf, 0, HeaderBytes(msg));
    FlagsRoundTrip(h, |msg.questions| % 0x1_0000, |msg.answers| % 0x1_0000, |msg.authorities| % 0x1_0000,
        |msg.additionals| % 0x1_0000);
    CountDecodes(buf, 0, msg.header.id);
    CountDecodes(buf, 4, |msg.questions| % 0x1_0000);
    CountDecodes(buf, 6, |msg.answers| % 0x1_0000);
    CountDecodes(buf, 8, |msg.authorities| % 0x1_0000);
    CountDecodes(buf, 10, |msg.additionals| % 0x1_0000);
  }

  lemma CountDecodes(buf: Bytes, p: nat, v: U16)
    requires p + 2 <= |buf| && buf[p] == PutU16(v)[0] && buf[p + 1] == PutU16(v)[1]
    ensures U16At(buf, p) == Ok(v, p + 2)
  {}

  // ---- messages ----

  ghost predicate MessageWritten(buf: Bytes, msg: Message) {
    && SliceIs(buf, 0, HeaderBytes(msg))
    && forall k {:trigger Opened(Door.Whole, k)} | Opened(Door.Whole, k) :: exists a: nat, b: nat, c: nat ::
        SectionsWritten(buf, msg, a, b, c)
  }

  ghost predicate SectionsWritten(buf: Bytes, msg: Message, a: nat, b: nat, c: nat) {
    && QuestionsWritten(buf, HEADER_LEN, msg.questions, a) && RRsWritten(buf, a, msg.answers, b)
    && RRsWritten(buf, b, msg.authorities, c) && RRsWritten(buf, c, msg.additionals, |buf|)
  }

  /** Messages that survive the trip. */
  ghost predicate MessageFits(msg: Message) {
    && |msg.questions| < 0x1_0000 && |msg.answers| < 0x1_0000
    && |msg.authorities| < 0x1_0000 && |msg.additionals| < 0x1_0000
    && (forall i | 0 <= i < |msg.questions| :: NameFits(msg.questions[i].name))
    && AllFit(msg.answers) && AllFit(msg.authorities) && AllFit(msg.additionals)
  }

  predicate SameSections(msg: Message, got: Message) {
    && SameList(SameQuestion, msg.questions, got.questions)
    && SameList(SameRR, msg.answers, got.answers) && SameList(SameRR, msg.authorities, got.authorities)
    && SameList(SameRR, msg.additionals, got.additionals)
  }

  predicate SameMessage(msg: Message, got: Message) {
    got.header == SentHeader(msg) && SameSections(msg, got)
  }

  lemma SectionsDecode(buf: Bytes, msg: Message, a: nat, b: nat, c: nat)
    requires SectionsWritten(buf, msg, a, b, c) && MessageFits(msg)
    ensures ReadsQuestions(buf, HEADER_LEN, msg.questions, a) && ReadsRRs(buf, a, msg.answers, b)
    ensures ReadsRRs(buf, b, msg.authorities, c) && ReadsRRs(buf, c, msg.additionals, |buf|)
  {
    QuestionsDecode(buf, HEADER_LEN, msg.questions, a);
    RRsDecode(buf, a, msg.answers, b);
    RRsDecode(buf, b, msg.authorities, c);
    RRsDecode(buf, c, msg.additionals, |buf|);
  }

  lemma BodyDecodes(buf: Bytes, msg: Message, h: Header) returns (got: Message)
    requires MessageWritten(buf, msg) && MessageFits(msg) && h == SentHeader(msg)
    ensures SectionsAt(buf, HEADER_LEN, h) == Ok(got, |buf|) && got.header == h && SameSections(msg, got)
  {
    assert Opened(Door.Whole, 0);
    var a: nat, b: nat, c: nat :| SectionsWritten(buf, msg, a, b, c);
    SectionsDecode(buf, msg, a, b, c);
    got := MessageAssembled(buf, msg, h, a, b, c, |buf|);
  }

  lemma MessageDecodes(buf: Bytes, msg: Message)
    requires MessageWritten(buf, msg) && MessageFits(msg)
    ensures MessageIn(buf).Ok? && MessageIn(buf).next == |buf| && SameMessage(msg, MessageIn(buf).value)
  {
    var h := SentHeader(msg);
    HeaderDecodes(buf, msg);
    var got := BodyDecodes(buf, msg, h);
    HeaderThenSections(buf, h, Ok(got, |buf|));
  }

  lemma MessageAssembled(buf: Bytes, msg: Message, h: Header, a: nat, b: nat, c: nat, end: nat) returns (got: Message)
    requires h.qdcount == |msg.questions| && h.ancount == |msg.answers|
    requires h.nscount == |msg.authorities| && h.arcount == |msg.additionals|
    requires ReadsQuestions(buf, HEADER_LEN, msg.questions, a) && ReadsRRs(buf, a, msg.answers, b)
    requires ReadsRRs(buf, b, msg.authorities, c) && ReadsRRs(buf, c, msg.additionals, end)
    ensures SectionsAt(buf, HEADER_LEN, h) == Ok(got, end)
    ensures got.header == h && SameSections(msg, got)
  {
    var qs := ListRead(QuestionReader(buf), SameQuestion, HEADER_LEN, msg.questions, a);
    var ans := ListRead(RRReader(buf), SameRR, a, msg.answers, b);
    var auth := ListRead(RRReader(buf), SameRR, b, msg.authorities, c);
    var add := ListRead(RRReader(buf), SameRR, c, msg.additionals, end);
    got := Message(h, qs, ans, auth, add);
  }

  lemma HeaderThenSections(buf: Bytes, h: Header, r: Parsed<Message>)
    requires HeaderAt(buf, 0) == Ok(h, HEADER_LEN) && SectionsAt(buf, HEADER_LEN, h) == r
    ensures MessageIn(buf) == r
  {}

  predicate RRsWritable(rrs: seq<RR>) {
    forall i | 0 <= i < |rrs| :: WritableRR(rrs[i])
  }

  predicate MessageWritable(msg: Message) {
    && (forall i | 0 <= i < |msg.questions| :: Writable(msg.questions[i].name))
    && RRsWritable(msg.answers) && RRsWritable(msg.authorities) && RRsWritable(msg.additionals)
  }

  method PackFlags(h: Header) returns (flags1: Octet, flags2: Octet)
    ensures flags1 == Flags1(h) && flags2 == Flags2(h)
  {
    var opcode, rcode := h.opcode % 16, h.rcode % 16;
    var f1: int := 0;
    if h.qr { f1 := f1 + 0x80; }
    f1 := f1 + opcode * 8;
    if h.aa { f1 := f1 + 0x04; }
    if h.tc { f1 := f1 + 0x02; }
    if h.rd { f1 := f1 + 0x01; }
    assert f1 == Flags1(h);
    var f2: int := 0;
    if h.ra { f2 := f2 + 0x80; }
    if h.ad { f2 := f2 + 0x20; }
    if h.cd { f2 := f2 + 0x10; }
    f2 := f2 + rcode;
    return f1, f2;
  }

  method PackHeader(msg: Message) returns (buf: Bytes)
    ensures buf == HeaderBytes(msg)
  {
    var flags1, flags2 := PackFlags(msg.header);
    buf := PutU16(msg.header.id) + [flags1, flags2]
           + PutU16(|msg.questions| % 0x1_0000) + PutU16(|msg.answers| % 0x1_0000)
           + PutU16(|msg.authorities| % 0x1_0000) + PutU16(|msg.additionals| % 0x1_0000);
  }

  method PackQuestions(e: Encoder, qs: seq<Question>) returns (ok: bool)
    requires e.Valid(0)
    modifies e
    ensures ok <==> forall i | 0 <= i < |qs| :: Writable(qs[i].name)
    ensures ok ==> old(e.buf) <= e.buf && e.Valid(0) && QuestionsWritten(e.buf, |old(e.buf)|, qs, |e.buf|)
  {
    for k := 0 to |qs|
      invariant old(e.buf) <= e.buf && e.Valid(0)
      invariant forall i | 0 <= i < k :: Writable(qs[i].name)
      invariant QuestionsWritten(e.buf, |old(e.buf)|, qs[..k], |e.buf|)
    {
      ghost var before := e.buf;
      ok := e.WriteQuestion(qs[k]);
      if !ok { return; }
      QuestionsKept(before, e.buf, |old(e.buf)|, qs[..k], |before|);
      assert qs[..k + 1][..k] == qs[..k] && qs[..k + 1][k] == qs[k];
      assert QuestionsWrittenTo(e.buf, |old(e.buf)|, qs[..k + 1], |before|, |e.buf|);
    }
    assert qs[..|qs|] == qs;
    ok := true;
  }

  method PackRRs(e: Encoder, rrs: seq<RR>) returns (ok: bool)
    requires e.Valid(0)
    modifies e
    ensures ok <==> RRsWritable(rrs)
    ensures ok ==> old(e.buf) <= e.buf && e.Valid(0) && RRsWritten(e.buf, |old(e.buf)|, rrs, |e.buf|)
  {
    for k := 0 to |rrs|
      invariant old(e.buf) <= e.buf && e.Valid(0)
      invariant RRsWritable(rrs[..k])
      invariant RRsWritten(e.buf, |old(e.buf)|, rrs[..k], |e.buf|)
    {
      ghost var before := e.buf;
      ok := e.WriteRR(rrs[k]);
      if !ok { return; }
      RRsKept(before, e.buf, |old(e.buf)|, rrs[..k], |before|);
      assert rrs[..k + 1][..k] == rrs[..k] && rrs[..k + 1][k] == rrs[k];
      assert RRsWrittenTo(e.buf, |old(e.buf)|, rrs[..k + 1], |before|, |e.buf|);
    }
    assert rrs[..|rrs|] == rrs;
    ok := true;
  }

  /** Pack succeeds exactly on messages whose names, addresses and SOA data can be
      written, and what it writes unpacks to the same message. */
  method Pack(msg: Message) returns (r: Option<Bytes>)
    ensures r.Some? <==> MessageWritable(msg)
    ensures r.Some? && MessageFits(msg) ==>
              MessageIn(r.value).Ok? && MessageIn(r.value).next == |r.value|
              && SameMessage(msg, MessageIn(r.value).value)
  {
    var e := new Encoder();
    var header := PackHeader(msg);
    e.buf := header;
    var ok := PackQuestions(e, msg.questions);
    if !ok { return None; }
    ghost var a := e.buf;
    ok := PackRRs(e, msg.answers);
    if !ok { return None; }
    ghost var b := e.buf;
    ok := PackRRs(e, msg.authorities);
    if !ok { return None; }
    ghost var c := e.buf;
    ok := PackRRs(e, msg.additionals);
    if !ok { return None; }
    PackedSections(header, a, b, c, e.buf, msg);
    if MessageFits(msg) { MessageDecodes(e.buf, msg); }
    return Some(e.buf);
  }

  lemma PackedSections(header: Bytes, a: Bytes, b: Bytes, c: Bytes, buf: Bytes, msg: Message)
    requires header == HeaderBytes(msg) && header <= a <= b <= c <= buf
    requires QuestionsWritten(a, HEADER_LEN, msg.questions, |a|) && RRsWritten(b, |a|, msg.answers, |b|)
    requires RRsWritten(c, |b|, msg.authorities, |c|) && RRsWritten(buf, |c|, msg.additionals, |buf|)
    ensures MessageWritten(buf, msg)
  {
    QuestionsKept(a, buf, HEADER_LEN, msg.questions, |a|);
    RRsKept(b, buf, |a|, msg.answers, |b|);
    RRsKept(c, buf, |b|, msg.authorities, |c|);
    HeaderKept(header, buf);
    SectionsDone(buf, msg, |a|, |b|, |c|);
  }

  lemma HeaderKept(header: Bytes, buf: Bytes)
    requires header <= buf
    ensures SliceIs(buf, 0, header)
  {}

  lemma SectionsDone(buf: Bytes, msg: Message, a: nat, b: nat, c: nat)
    requires SliceIs(buf, 0, HeaderBytes(msg)) && SectionsWritten(buf, msg, a, b, c)
    ensures MessageWritten(buf, msg)
  {}
}

/** Whatever Unpack accepts, Pack takes back: every name it read fits, every RDATA
    it expanded can be written, and the message comes back the same. */
module Reencode {
  import opened Octets
  import opened Names
  import opened Messages
  import opened Canonical
  import opened Decode
  import opened Encode
  import opened Codec

  /** A name the reader returns has labels of 1 to 63 octets, no dots inside them,
      and stays within the length the reader was still allowed. */
  lemma {:induction false} NameFromFits(buf: Bytes, pos: nat, jumps: nat, len: nat)
    requires jumps <= MAX_JUMPS && len <= MAX_NAME && NameFrom(buf, pos, jumps, len).Ok?
    ensures var n := NameFrom(buf, pos, jumps, len).value;
            LabelsOk(n) && DotFree(n) && len + |WireLabels(n)| <= MAX_NAME
    decreases MAX_JUMPS - jumps, |buf| - pos
  {
    var length := buf[pos] as int;
    if length >= 0xC0 {
      NameFromFits(buf, GetU16(buf, pos) % 0x4000, jumps + 1, len);
    } else if length > 0 {
      NameFromFits(buf, pos + 1 + length, jumps, len + length + 1);
    }
  }

  lemma NameAtFits(buf: Bytes, off: nat)
    requires NameAt(buf, off).Ok?
    ensures NameFits(NameAt(buf, off).value)
  {
    NameFromFits(buf, off, 0, 0);
    WireLength(NameAt(buf, off).value);
  }

  lemma FitsIsWritable(n: Name)
    requires NameFits(n)
    ensures Writable(n) && EncodeName(n) == Some(WireName(n)) && IsWire(WireName(n))
  {
    assert HasWire(WireName(n), n);
  }

  lemma ExpandedFits(buf: Bytes, off: nat, rtype: U16)
    requires ExpandedAt(buf, off, rtype).Ok?
    ensures var raw := ExpandedAt(buf, off, rtype).value;
            if rtype == TypeMX then |raw| >= 2 && IsWire(raw[2..]) else IsWire(raw)
  {
    if rtype == TypeMX {
      NameAtFits(buf, off + 2);
      var n := NameAt(buf, off + 2).value;
      FitsIsWritable(n);
      var raw := ExpandedAt(buf, off, rtype).value;
      assert raw[2..] == WireName(n);
    } else {
      NameAtFits(buf, off);
      FitsIsWritable(NameAt(buf, off).value);
    }
  }

  lemma SOAFits(buf: Bytes, off: nat)
    requires SOAAt(buf, off).Ok?
    ensures NameFits(SOAAt(buf, off).value.mname) && NameFits(SOAAt(buf, off).value.rname)
  {
    NameAtFits(buf, off);
    NameAtFits(buf, NameAt(buf, off).next);
  }

  /** RDATA the reader accepts for a record header can be written for it. */
  lemma RDataAtFits(buf: Bytes, off: nat, bare: RR)
    requires RDataAt(buf, off, bare).Ok?
    ensures var rr := RDataAt(buf, off, bare).value; KeepsHeader(bare, rr) && RDataFits(rr)
  {
    if bare.rtype == TypeNS || bare.rtype == TypeCNAME {
      NameAtFits(buf, off);
    } else if bare.rtype == TypeSOA {
      SOAFits(buf, off);
    } else if bare.rtype == TypePTR || bare.rtype == TypeMX {
      ExpandedFits(buf, off, bare.rtype);
    }
  }

  lemma RRAtFits(buf: Bytes, off: nat)
    requires RRAt(buf, off).Ok?
    ensures RRFits(RRAt(buf, off).value)
  {
    NameAtFits(buf, off);
    var bare := BareRRAt(buf, off);
    RDataAtFits(buf, bare.next, bare.value);
  }

  lemma RRFitsIsWritable(rr: RR)
    requires RRFits(rr)
    ensures WritableRR(rr)
  {}

  /** A list the reader returns has as many items as asked for, each one read
      somewhere. */
  lemma {:induction false} ListItems<T>(item: nat -> Parsed<T>, off: nat, count: nat)
    requires ListAt(item, off, count).Ok?
    ensures |ListAt(item, off, count).value| == count
    ensures forall i | 0 <= i < count :: ReadSomewhere(item, ListAt(item, off, count).value[i])
  {
    if count > 0 {
      ListItems(item, off, count - 1);
      var front := ListAt(item, off, count - 1);
      var x := item(front.next);
      assert IsReadAt(item, front.next, x.value);
    }
  }

  predicate IsReadAt<T(==)>(item: nat -> Parsed<T>, p: nat, x: T) {
    item(p).Ok? && item(p).value == x
  }

  ghost predicate ReadSomewhere<T>(item: nat -> Parsed<T>, x: T) {
    exists p: nat :: IsReadAt(item, p, x)
  }

  lemma RRsFit(buf: Bytes, off: nat, count: nat)
    requires ListAt(RRReader(buf), off, count).Ok?
    ensures |ListAt(RRReader(buf), off, count).value| == count && AllFit(ListAt(RRReader(buf), off, count).value)
  {
    ListItems(RRReader(buf), off, count);
    var rrs := ListAt(RRReader(buf), off, count).value;
    forall i | 0 <= i < |rrs| ensures RRFits(rrs[i]) {
      assert ReadSomewhere(RRReader(buf), rrs[i]);
      var p: nat :| IsReadAt(RRReader(buf), p, rrs[i]);
      RRAtFits(buf, p);
    }
  }

  lemma QuestionsFit(buf: Bytes, off: nat, count: nat)
    requires ListAt(QuestionReader(buf), off, count).Ok?
    ensures var qs := ListAt(QuestionReader(buf), off, count).value;
            |qs| == count && forall i | 0 <= i < |qs| :: NameFits(qs[i].name)
  {
    ListItems(QuestionReader(buf), off, count);
    var qs := ListAt(QuestionReader(buf), off, count).value;
    forall i | 0 <= i < |qs| ensures NameFits(qs[i].name) {
      assert ReadSomewhere(QuestionReader(buf), qs[i]);
      var p: nat :| IsReadAt(QuestionReader(buf), p, qs[i]);
      NameAtFits(buf, p);
    }
  }

  lemma SectionsFit(buf: Bytes, off: nat, h: Header)
    requires SectionsAt(buf, off, h).Ok?
    ensures var m := SectionsAt(buf, off, h).value;
            && m.header == h && MessageFits(m)
            && |m.questions| == h.qdcount && |m.answers| == h.ancount
            && |m.authorities| == h.nscount && |m.additionals| == h.arcount
  {
    var q := ListAt(QuestionReader(buf), off, h.qdcount);
    QuestionsFit(buf, off, h.qdcount);
    var an := ListAt(RRReader(buf), q.next, h.ancount);
    RRsFit(buf, q.next, h.ancount);
    var ns := ListAt(RRReader(buf), an.next, h.nscount);
    RRsFit(buf, an.next, h.nscount);
    RRsFit(buf, ns.next, h.arcount);
  }

  lemma AllFitWritable(rrs: seq<RR>)
    requires AllFit(rrs)
    ensures RRsWritable(rrs)
  {
    forall i | 0 <= i < |rrs| ensures WritableRR(rrs[i]) { RRFitsIsWritable(rrs[i]); }
  }

  lemma FitsMessageWritable(m: Message)
    requires MessageFits(m)
    ensures MessageWritable(m)
  {
    AllFitWritable(m.answers);
    AllFitWritable(m.authorities);
    AllFitWritable(m.additionals);
  }

  lemma Parts(buf: Bytes) returns (h: Header, p: nat)
    requires MessageIn(buf).Ok?
    ensures h.opcode < 16 && h.rcode < 16 && SectionsAt(buf, p, h) == MessageIn(buf)
  {
    h, p := HeaderAt(buf, 0).value, HeaderAt(buf, 0).next;
  }

  lemma FitsKeepsHeader(m: Message)
    requires MessageFits(m) && m.header.opcode < 16 && m.header.rcode < 16
    requires |m.questions| == m.header.qdcount && |m.answers| == m.header.ancount
    requires |m.authorities| == m.header.nscount && |m.additionals| == m.header.arcount
    ensures MessageWritable(m) && SentHeader(m) == m.header
  {
    FitsMessageWritable(m);
  }

  /** A message that survives the trip back, header included. */
  ghost predicate Repackable(m: Message) {
    MessageFits(m) && MessageWritable(m) && SentHeader(m) == m.header
  }

  lemma SectionsRepackable(buf: Bytes, off: nat, h: Header)
    requires SectionsAt(buf, off, h).Ok? && h.opcode < 16 && h.rcode < 16
    ensures Repackable(SectionsAt(buf, off, h).value)
  {
    SectionsFit(buf, off, h);
    FitsKeepsHeader(SectionsAt(buf, off, h).value);
  }

  /** Every message Unpack accepts can be packed again. */
  lemma UnpackedFits(buf: Bytes)
    requires MessageIn(buf).Ok?
    ensures Repackable(MessageIn(buf).value)
  {
    var h, p := Parts(buf);
    SectionsRepackable(buf, p, h);
  }

  /** Unpacking any octets and packing the result never fails after the first
      step, and unpacks again to the same header and the same sections. */
  method Repack(buf: Bytes) returns (r: Option<Bytes>)
    ensures r.Some? <==> MessageIn(buf).Ok?
    ensures r.Some? ==> MessageIn(r.value).Ok? && MessageIn(r.value).value.header == MessageIn(buf).value.header
                        && SameSections(MessageIn(buf).value, MessageIn(r.value).value)
  {
    var m := Unpack(buf);
    if m.None? { return None; }
    UnpackedFits(buf);
    r := Pack(m.value);
  }
}

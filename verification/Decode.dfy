/** Reading DNS messages (sections 4.1.1 to 4.1.4 of RFC 1035). The functions say
    what is at an offset of a buffer; class Decoder is the program's cursor that
    reads it field by field. */
module Decode {
  import opened Octets
  import opened Names
  import opened Messages
  import opened Canonical

  const MAX_JUMPS := 20
  const MAX_NAME := 255

  /** A value read from a buffer and the offset after it, or an error. */
  datatype Parsed<+T> = Ok(value: T, next: nat) | Bad
  {
    predicate IsFailure() { Bad? }
    function PropagateFailure<U>(): Parsed<U> requires Bad? { Bad }
    function Extract(): (T, nat) requires Ok? { (value, next) }
  }

  function U8At(buf: Bytes, off: nat): Parsed<Octet> {
    if off + 1 > |buf| then Bad else Ok(buf[off], off + 1)
  }

  function U16At(buf: Bytes, off: nat): Parsed<U16> {
    if off + 2 > |buf| then Bad else Ok(GetU16(buf, off), off + 2)
  }

  function U32At(buf: Bytes, off: nat): Parsed<U32> {
    if off + 4 > |buf| then Bad else Ok(GetU32(buf, off), off + 4)
  }

  function BytesAt(buf: Bytes, off: nat, n: nat): Parsed<Bytes> {
    if off + n > |buf| then Bad else Ok(buf[off..off + n], off + n)
  }

  /** The name spelled from pos on, following compression pointers; next is where
      the name's own bytes end. */
  function NameFrom(buf: Bytes, pos: nat, jumps: nat, nameLen: nat): (r: Parsed<Name>)
    requires jumps <= MAX_JUMPS
    ensures r.Ok? ==> pos < r.next <= |buf|
    decreases MAX_JUMPS - jumps, |buf| - pos
  {
    if pos >= |buf| then Bad
    else
      var length := buf[pos] as int;
      if length == 0 then Ok([], pos + 1)
      else if length >= 0xC0 then
        if pos + 2 > |buf| || jumps + 1 > MAX_JUMPS then Bad
        else
          match NameFrom(buf, GetU16(buf, pos) % 0x4000, jumps + 1, nameLen)
          case Bad => Bad
          case Ok(n, _) => Ok(n, pos + 2)
      else if length >= 0x40 then Bad
      else if pos + 1 + length > |buf| then Bad
      else if nameLen + length + 1 > MAX_NAME then Bad
      else if DOT in buf[pos + 1..pos + 1 + length] then Bad
      else
        match NameFrom(buf, pos + 1 + length, jumps, nameLen + length + 1)
        case Bad => Bad
        case Ok(n, end) => Ok([buf[pos + 1..pos + 1 + length]] + n, end)
  }

  function NameAt(buf: Bytes, off: nat): (r: Parsed<Name>)
    ensures r.Ok? ==> off < r.next <= |buf|
  {
    NameFrom(buf, off, 0, 0)
  }

  function HeaderAt(buf: Bytes, off: nat): Parsed<Header> {
    var (id, p) :- U16At(buf, off);
    var (flags1, p) :- U8At(buf, p);
    var (flags2, p) :- U8At(buf, p);
    var (qd, p) :- U16At(buf, p);
    var (an, p) :- U16At(buf, p);
    var (ns, p) :- U16At(buf, p);
    var (ar, p) :- U16At(buf, p);
    Ok(FlagsToHeader(id, flags1, flags2, qd, an, ns, ar), p)
  }

  function FlagsToHeader(id: U16, flags1: Octet, flags2: Octet, qd: U16, an: U16, ns: U16, ar: U16): Header {
    Header(id, flags1 >= 0x80, flags1 / 8 % 16, flags1 / 4 % 2 == 1, flags1 / 2 % 2 == 1, flags1 % 2 == 1,
           flags2 >= 0x80, flags2 / 32 % 2 == 1, flags2 / 16 % 2 == 1, flags2 % 16, qd, an, ns, ar)
  }

  function QuestionAt(buf: Bytes, off: nat): Parsed<Question> {
    var (name, p) :- NameAt(buf, off);
    var (qtype, p) :- U16At(buf, p);
    var (qclass, p) :- U16At(buf, p);
    Ok(Question(name, qtype, qclass), p)
  }

  function SOAAt(buf: Bytes, off: nat): Parsed<SOA> {
    var (mname, p) :- NameAt(buf, off);
    var (rname, p) :- NameAt(buf, p);
    var (serial, p) :- U32At(buf, p);
    var (refresh, p) :- U32At(buf, p);
    var (retry, p) :- U32At(buf, p);
    var (expire, p) :- U32At(buf, p);
    var (minimum, p) :- U32At(buf, p);
    Ok(SOA(mname, rname, serial, refresh, retry, expire, minimum), p)
  }

  /** encodeName: the uncompressed form, for names that fit. */
  function EncodeName(n: Name): Option<Bytes> {
    if DottedLen(n) > MAX_NAME || !LabelsOk(n) then None else Some(WireName(n))
  }

  /** The length of a name's dotted text, without a trailing dot. */
  function DottedLen(n: Name): nat {
    if n == [] then 0 else if |n| == 1 then |n[0]| else |n[0]| + 1 + DottedLen(n[1..])
  }

  function BareRR(name: Name, rtype: U16, rclass: U16, ttl: U32, rdlength: U16): RR {
    RR(name, rtype, rclass, ttl, rdlength, [], [], [], [], None, [])
  }

  /** PTR and MX RDATA, with the name in it expanded: it may be compressed, and
      would mean something else in another message. */
  function ExpandedAt(buf: Bytes, off: nat, rtype: U16): Parsed<Bytes> {
    if rtype == TypeMX then
      var (pref, p) :- U16At(buf, off);
      var (n, p) :- NameAt(buf, p);
      match EncodeName(n) { case None => Bad case Some(w) => Ok(PutU16(pref) + w, p) }
    else
      var (n, p) :- NameAt(buf, off);
      match EncodeName(n) { case None => Bad case Some(w) => Ok(w, p) }
  }

  function RDataAt(buf: Bytes, off: nat, rr: RR): Parsed<RR> {
    if rr.rtype == TypeA then
      if rr.rdlength != 4 then Bad else
      var (b, p) :- BytesAt(buf, off, 4);
      Ok(rr.(a := b), p)
    else if rr.rtype == TypeAAAA then
      if rr.rdlength != 16 then Bad else
      var (b, p) :- BytesAt(buf, off, 16);
      Ok(rr.(aaaa := b), p)
    else if rr.rtype == TypeNS then
      var (n, p) :- NameAt(buf, off);
      Ok(rr.(ns := n), p)
    else if rr.rtype == TypeCNAME then
      var (n, p) :- NameAt(buf, off);
      Ok(rr.(cname := n), p)
    else if rr.rtype == TypeSOA then
      var (s, p) :- SOAAt(buf, off);
      Ok(rr.(soa := Some(s)), p)
    else if rr.rtype == TypePTR || rr.rtype == TypeMX then
      var (raw, p) :- ExpandedAt(buf, off, rr.rtype);
      Ok(rr.(raw := raw), p)
    else
      var (b, p) :- BytesAt(buf, off, rr.rdlength);
      Ok(rr.(raw := b), p)
  }

  function BareRRAt(buf: Bytes, off: nat): Parsed<RR> {
    var (name, p) :- NameAt(buf, off);
    var (rtype, p) :- U16At(buf, p);
    var (rclass, p) :- U16At(buf, p);
    var (ttl, p) :- U32At(buf, p);
    var (rdlength, p) :- U16At(buf, p);
    Ok(BareRR(name, rtype, rclass, ttl, rdlength), p)
  }

  function RRAt(buf: Bytes, off: nat): Parsed<RR> {
    var (bare, p) :- BareRRAt(buf, off);
    var (rr, end) :- RDataAt(buf, p, bare);
    if end != p + bare.rdlength then Bad else Ok(rr, end)
  }

  /** count items in a row, each read where the one before it ended. */
  function ListAt<T>(item: nat -> Parsed<T>, off: nat, count: nat): Parsed<seq<T>> {
    if count == 0 then Ok([], off)
    else
      var (items, p) :- ListAt(item, off, count - 1);
      var (x, p) :- item(p);
      Ok(items + [x], p)
  }

  function RRReader(buf: Bytes): nat -> Parsed<RR> {
    (off: nat) => RRAt(buf, off)
  }

  function QuestionReader(buf: Bytes): nat -> Parsed<Question> {
    (off: nat) => QuestionAt(buf, off)
  }

  /** The message in a buffer. */
  function MessageIn(buf: Bytes): Parsed<Message> {
    match HeaderAt(buf, 0)
    case Bad => Bad
    case Ok(h, p) => SectionsAt(buf, p, h)
  }

  function SectionsAt(buf: Bytes, off: nat, h: Header): Parsed<Message> {
    match ListAt(QuestionReader(buf), off, h.qdcount)
    case Bad => Bad
    case Ok(questions, p) =>
      match ListAt(RRReader(buf), p, h.ancount)
      case Bad => Bad
      case Ok(answers, p) =>
        match ListAt(RRReader(buf), p, h.nscount)
        case Bad => Bad
        case Ok(authorities, p) =>
          match ListAt(RRReader(buf), p, h.arcount)
          case Bad => Bad
          case Ok(additionals, p) => Ok(Message(h, questions, answers, authorities, additionals), p)
  }

  // ---- the cursor ----

  /** What the name loop has so far, joined to what is still to be read. */
  function NameSoFar(labels: Name, jumped: bool, off: nat, rest: Parsed<Name>): Parsed<Name> {
    match rest
    case Bad => Bad
    case Ok(n, end) => Ok(labels + n, if jumped then off else end)
  }

  class Decoder {
    const buf: Bytes
    var off: nat

    constructor (buf: Bytes)
      ensures this.buf == buf && off == 0
    {
      this.buf := buf;
      off := 0;
    }

    /** r is what p says, and on success the cursor is after it. */
    ghost predicate Reads<T>(r: Option<T>, p: Parsed<T>)
      reads this
    {
      match p
      case Bad => r == None
      case Ok(v, next) => r == Some(v) && off == next
    }

    method ReadUint8() returns (r: Option<Octet>)
      modifies this
      ensures Reads(r, U8At(buf, old(off)))
    {
      if off + 1 > |buf| { return None; }
      r := Some(buf[off]);
      off := off + 1;
    }

    method ReadUint16() returns (r: Option<U16>)
      modifies this
      ensures Reads(r, U16At(buf, old(off)))
    {
      if off + 2 > |buf| { return None; }
      r := Some(GetU16(buf, off));
      off := off + 2;
    }

    method ReadUint32() returns (r: Option<U32>)
      modifies this
      ensures Reads(r, U32At(buf, old(off)))
    {
      if off + 4 > |buf| { return None; }
      r := Some(GetU32(buf, off));
      off := off + 4;
    }

    method ReadBytes(n: nat) returns (r: Option<Bytes>)
      modifies this
      ensures Reads(r, BytesAt(buf, old(off), n))
    {
      if off + n > |buf| { return None; }
      r := Some(buf[off..off + n]);
      off := off + n;
    }

    /** Labels one after another, jumping where a pointer says, at most twenty
        times; the cursor ends after the name, or after its first pointer. */
    method ReadName() returns (r: Option<Name>)
      modifies this
      ensures Reads(r, NameAt(buf, old(off)))
    {
      var labels: Name := [];
      var pos: nat := off;
      var jumped := false;
      var jumps: nat := 0;
      var nameLen: nat := 0;
      NothingRead(buf, off);
      while true
        invariant Reading(buf, old(off), labels, jumped, off, pos, jumps, nameLen)
        decreases MAX_JUMPS - jumps, |buf| - pos
      {
        if Stuck(buf, pos, jumps, nameLen) { NameStuck(buf, old(off), labels, jumped, off, pos, jumps, nameLen); }
        if pos >= |buf| { return None; }
        var length := buf[pos] as int;
        if length == 0 {
          NameDone(buf, old(off), labels, jumped, off, pos, jumps, nameLen);
          pos := pos + 1;
          break;
        }
        if length >= 0xC0 {
          if pos + 2 > |buf| { return None; }
          var ptr := GetU16(buf, pos) % 0x4000;
          if jumps + 1 > MAX_JUMPS { return None; }
          PointerStep(buf, old(off), labels, jumped, off, pos, jumps, nameLen);
          if !jumped {
            off := pos + 2;
            jumped := true;
          }
          jumps := jumps + 1;
          pos := ptr;
          continue;
        }
        if length >= 0x40 { return None; }
        if pos + 1 + length > |buf| { return None; }
        if nameLen + length + 1 > MAX_NAME { return None; }
        var part := buf[pos + 1..pos + 1 + length];
        if DOT in part { return None; }
        LabelStep(buf, old(off), labels, jumped, off, pos, jumps, nameLen);
        nameLen := nameLen + length + 1;
        labels := labels + [part];
        pos := pos + 1 + length;
      }
      if !jumped { off := pos; }
      return Some(labels);
    }

    method ReadHeader() returns (r: Option<Header>)
      modifies this
      ensures Reads(r, HeaderAt(buf, old(off)))
    {
      var id := ReadUint16();
      if id.None? { return None; }
      var flags1 := ReadUint8();
      if flags1.None? { return None; }
      var flags2 := ReadUint8();
      if flags2.None? { return None; }
      var qd := ReadUint16();
      if qd.None? { return None; }
      var an := ReadUint16();
      if an.None? { return None; }
      var ns := ReadUint16();
      if ns.None? { return None; }
      var ar := ReadUint16();
      if ar.None? { return None; }
      return Some(FlagsToHeader(id.value, flags1.value, flags2.value, qd.value, an.value, ns.value, ar.value));
    }

    method ReadQuestion() returns (r: Option<Question>)
      modifies this
      ensures Reads(r, QuestionAt(buf, old(off)))
    {
      var name := ReadName();
      if name.None? { return None; }
      var qtype := ReadUint16();
      if qtype.None? { return None; }
      var qclass := ReadUint16();
      if qclass.None? { return None; }
      return Some(Question(name.value, qtype.value, qclass.value));
    }

    method ReadSOA() returns (r: Option<SOA>)
      modifies this
      ensures Reads(r, SOAAt(buf, old(off)))
    {
      var mname := ReadName();
      if mname.None? { return None; }
      var rname := ReadName();
      if rname.None? { return None; }
      var serial := ReadUint32();
      if serial.None? { return None; }
      var refresh := ReadUint32();
      if refresh.None? { return None; }
      var retry := ReadUint32();
      if retry.None? { return None; }
      var expire := ReadUint32();
      if expire.None? { return None; }
      var minimum := ReadUint32();
      if minimum.None? { return None; }
      return Some(SOA(mname.value, rname.value, serial.value, refresh.value, retry.value, expire.value, minimum.value));
    }

    method ReadExpanded(rtype: U16) returns (r: Option<Bytes>)
      modifies this
      ensures Reads(r, ExpandedAt(buf, old(off), rtype))
    {
      var prefix: Bytes := [];
      if rtype == TypeMX {
        var pref := ReadUint16();
        if pref.None? { return None; }
        prefix := PutU16(pref.value);
      }
      var n := ReadName();
      if n.None? { return None; }
      var encoded := EncodeName(n.value);
      if encoded.None? { return None; }
      assert [] + encoded.value == encoded.value;
      return Some(prefix + encoded.value);
    }

    method ReadRData(rr: RR) returns (r: Option<RR>)
      modifies this
      ensures Reads(r, RDataAt(buf, old(off), rr))
    {
      if rr.rtype == TypeA {
        if rr.rdlength != 4 { return None; }
        var b := ReadBytes(4);
        return if b.None? then None else Some(rr.(a := b.value));
      } else if rr.rtype == TypeAAAA {
        if rr.rdlength != 16 { return None; }
        var b := ReadBytes(16);
        return if b.None? then None else Some(rr.(aaaa := b.value));
      } else if rr.rtype == TypeNS {
        var n := ReadName();
        return if n.None? then None else Some(rr.(ns := n.value));
      } else if rr.rtype == TypeCNAME {
        var n := ReadName();
        return if n.None? then None else Some(rr.(cname := n.value));
      } else if rr.rtype == TypeSOA {
        var s := ReadSOA();
        return if s.None? then None else Some(rr.(soa := s));
      } else if rr.rtype == TypePTR || rr.rtype == TypeMX {
        var raw := ReadExpanded(rr.rtype);
        return if raw.None? then None else Some(rr.(raw := raw.value));
      } else {
        var b := ReadBytes(rr.rdlength);
        return if b.None? then None else Some(rr.(raw := b.value));
      }
    }

    method ReadRR() returns (r: Option<RR>)
      modifies this
      ensures Reads(r, RRAt(buf, old(off)))
    {
      var name := ReadName();
      if name.None? { return None; }
      var rtype := ReadUint16();
      if rtype.None? { return None; }
      var rclass := ReadUint16();
      if rclass.None? { return None; }
      var ttl := ReadUint32();
      if ttl.None? { return None; }
      var rdlength := ReadUint16();
      if rdlength.None? { return None; }
      var start := off;
      var bare := BareRR(name.value, rtype.value, rclass.value, ttl.value, rdlength.value);
      assert BareRRAt(buf, old(off)) == Ok(bare, start);
      var rr := ReadRData(bare);
      if rr.None? { return None; }
      if off != start + rdlength.value { return None; }
      return rr;
    }

    method ReadRRs(count: nat) returns (r: Option<seq<RR>>)
      modifies this
      ensures Reads(r, ListAt(RRReader(buf), old(off), count))
    {
      var rrs: seq<RR> := [];
      for i := 0 to count
        invariant ListAt(RRReader(buf), old(off), i) == Ok(rrs, off)
      {
        ListNext(RRReader(buf), old(off), i, rrs, off);
        var rr := ReadRR();
        if rr.None? {
          ListStuck(RRReader(buf), old(off), i + 1, count);
          return None;
        }
        rrs := rrs + [rr.value];
      }
      return Some(rrs);
    }

    method ReadQuestions(count: nat) returns (r: Option<seq<Question>>)
      modifies this
      ensures Reads(r, ListAt(QuestionReader(buf), old(off), count))
    {
      var qs: seq<Question> := [];
      for i := 0 to count
        invariant ListAt(QuestionReader(buf), old(off), i) == Ok(qs, off)
      {
        ListNext(QuestionReader(buf), old(off), i, qs, off);
        var q := ReadQuestion();
        if q.None? {
          ListStuck(QuestionReader(buf), old(off), i + 1, count);
          return None;
        }
        qs := qs + [q.value];
      }
      return Some(qs);
    }
  }

  lemma NothingSoFar(off: nat, rest: Parsed<Name>)
    ensures NameSoFar([], false, off, rest) == rest
  {
    if rest.Ok? { assert [] + rest.value == rest.value; }
  }

  /** What has been read from start on, and what is still to be read at pos, make up
      the name at start. */
  ghost predicate Reading(buf: Bytes, start: nat, labels: Name, jumped: bool, off: nat, pos: nat, jumps: nat,
                          nameLen: nat) {
    && jumps <= MAX_JUMPS
    && forall k {:trigger Opened(Door.Read, k)} | Opened(Door.Read, k) ::
         NameAt(buf, start) == NameSoFar(labels, jumped, off, NameFrom(buf, pos, jumps, nameLen))
  }

  lemma NothingRead(buf: Bytes, start: nat)
    ensures Reading(buf, start, [], false, start, start, 0, 0)
  {
    NothingSoFar(start, NameFrom(buf, start, 0, 0));
  }

  /** What stops a name from being read on. */
  predicate Stuck(buf: Bytes, pos: nat, jumps: nat, nameLen: nat) {
    || pos >= |buf|
    || (buf[pos] >= 0xC0 && (pos + 2 > |buf| || jumps + 1 > MAX_JUMPS))
    || 0x40 <= buf[pos] < 0xC0
    || (0 < buf[pos] < 0x40 &&
          var stop := pos + 1 + buf[pos] as int;
          stop > |buf| || nameLen + buf[pos] as int + 1 > MAX_NAME || DOT in buf[pos + 1..stop])
  }

  lemma NameStuck(buf: Bytes, start: nat, labels: Name, jumped: bool, off: nat, pos: nat, jumps: nat, nameLen: nat)
    requires Reading(buf, start, labels, jumped, off, pos, jumps, nameLen) && Stuck(buf, pos, jumps, nameLen)
    ensures NameAt(buf, start) == Bad
  {
    assert Opened(Door.Read, 0);
  }

  lemma NameDone(buf: Bytes, start: nat, labels: Name, jumped: bool, off: nat, pos: nat, jumps: nat, nameLen: nat)
    requires Reading(buf, start, labels, jumped, off, pos, jumps, nameLen) && pos < |buf| && buf[pos] == 0
    ensures NameAt(buf, start) == Ok(labels, if jumped then off else pos + 1)
  {
    assert Opened(Door.Read, 0);
    assert labels + [] == labels;
  }

  lemma PointerStep(buf: Bytes, start: nat, labels: Name, jumped: bool, off: nat, pos: nat, jumps: nat, nameLen: nat)
    requires Reading(buf, start, labels, jumped, off, pos, jumps, nameLen)
    requires jumps < MAX_JUMPS && pos + 2 <= |buf| && buf[pos] >= 0xC0
    ensures Reading(buf, start, labels, true, if jumped then off else pos + 2,
                    GetU16(buf, pos) % 0x4000, jumps + 1, nameLen)
  {
    assert Opened(Door.Read, 0);
  }

  lemma LabelStep(buf: Bytes, start: nat, labels: Name, jumped: bool, off: nat, pos: nat, jumps: nat, nameLen: nat)
    requires Reading(buf, start, labels, jumped, off, pos, jumps, nameLen) && pos < |buf| && 0 < buf[pos] < 0x40
    requires var stop := pos + 1 + buf[pos] as int;
             stop <= |buf| && nameLen + buf[pos] as int + 1 <= MAX_NAME && DOT !in buf[pos + 1..stop]
    ensures var stop := pos + 1 + buf[pos] as int;
            Reading(buf, start, labels + [buf[pos + 1..stop]], jumped, off, stop, jumps, nameLen + buf[pos] as int + 1)
  {
    assert Opened(Door.Read, 0);
    var stop := pos + 1 + buf[pos] as int;
    var rest := NameFrom(buf, stop, jumps, nameLen + buf[pos] as int + 1);
    if rest.Ok? {
      assert labels + ([buf[pos + 1..stop]] + rest.value) == labels + [buf[pos + 1..stop]] + rest.value;
    }
  }

  lemma ListNext<T>(item: nat -> Parsed<T>, off: nat, i: nat, items: seq<T>, p: nat)
    requires ListAt(item, off, i) == Ok(items, p)
    ensures ListAt(item, off, i + 1) == match item(p) { case Bad => Bad case Ok(x, q) => Ok(items + [x], q) }
  {}

  lemma {:induction false} ListStuck<T>(item: nat -> Parsed<T>, off: nat, i: nat, count: nat)
    requires i <= count && ListAt(item, off, i) == Bad
    ensures ListAt(item, off, count) == Bad
  {
    if i < count { ListStuck(item, off, i, count - 1); }
  }

  /** Unpack reads exactly the message in the buffer, and fails if there is none. */
  method Unpack(buf: Bytes) returns (r: Option<Message>)
    ensures match MessageIn(buf) { case Bad => r == None case Ok(m, _) => r == Some(m) }
  {
    var d := new Decoder(buf);
    var h := d.ReadHeader();
    if h.None? { return None; }
    var questions := d.ReadQuestions(h.value.qdcount);
    if questions.None? { return None; }
    var answers := d.ReadRRs(h.value.ancount);
    if answers.None? { return None; }
    var authorities := d.ReadRRs(h.value.nscount);
    if authorities.None? { return None; }
    var additionals := d.ReadRRs(h.value.arcount);
    if additionals.None? { return None; }
    return Some(Message(h.value, questions.value, answers.value, authorities.value, additionals.value));
  }
}

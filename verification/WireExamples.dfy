/** The wire format in concrete octets, and the bound on compression pointers. */
module WireExamples {
  import opened Octets
  import opened Names
  import opened Messages
  import opened Canonical
  import opened Decode
  import opened Codec

  /** The flags of a header are the bits section 4.1.1 of RFC 1035 and section 3.2 of
      RFC 4035 give them: QR, the opcode, AA, TC, RD, RA, AD, CD and the response code. */
  lemma FlagBits(h: Header)
    requires h.opcode < 16 && h.rcode < 16
    ensures GetU16([Flags1(h), Flags2(h)], 0) ==
            (if h.qr then 0x8000 else 0) + h.opcode * 0x800 + (if h.aa then 0x400 else 0) + (if h.tc then 0x200 else 0)
            + (if h.rd then 0x100 else 0) + (if h.ra then 0x80 else 0) + (if h.ad then 0x20 else 0)
            + (if h.cd then 0x10 else 0) + h.rcode
  {
    HighBits(h);
    LowBits(h);
  }

  lemma HighBits(h: Header)
    requires h.opcode < 16
    ensures Flags1(h) == (if h.qr then 0x80 else 0) + h.opcode * 8 + (if h.aa then 4 else 0) + (if h.tc then 2 else 0)
                         + (if h.rd then 1 else 0)
  {
    assert h.opcode % 16 == h.opcode;
  }

  lemma LowBits(h: Header)
    requires h.rcode < 16
    ensures Flags2(h) == (if h.ra then 0x80 else 0) + (if h.ad then 0x20 else 0) + (if h.cd then 0x10 else 0) + h.rcode
  {
    assert h.rcode % 16 == h.rcode;
  }

  // ---- how many pointers are followed ----

  /** From position 0 on, k pointers each to the next, and then the root. */
  predicate Pointers(buf: Bytes, k: nat) {
    && k < 0x2000 && |buf| == 2 * k + 1 && buf[2 * k] == 0
    && forall i | 0 <= i < k :: GetU16(buf, 2 * i) == 0xC000 + 2 * (i + 1)
  }

  lemma PointerAt(buf: Bytes, pos: nat, target: nat)
    requires pos + 2 <= |buf| && target < 0x4000 && GetU16(buf, pos) == 0xC000 + target
    ensures buf[pos] >= 0xC0 && GetU16(buf, pos) % 0x4000 == target
  {}

  lemma {:induction false} PointerRead(buf: Bytes, k: nat, i: nat)
    requires Pointers(buf, k) && i <= k && i <= MAX_JUMPS
    ensures NameFrom(buf, 2 * i, i, 0).Ok? <==> k <= 20
    decreases k - i
  {
    if i < k {
      PointerAt(buf, 2 * i, 2 * (i + 1));
      if i + 1 <= MAX_JUMPS { PointerRead(buf, k, i + 1); }
    }
  }

  /** A name is read through twenty pointers, and not through more. */
  lemma PointerLimit(buf: Bytes, k: nat)
    requires Pointers(buf, k)
    ensures NameAt(buf, 0).Ok? <==> k <= 20
  {
    PointerRead(buf, k, 0);
  }

  /** A label may hold any octet but a dot. */
  lemma DotRefused(buf: Bytes)
    requires |buf| == 3 && buf[0] == 1 && buf[2] == 0
    ensures NameAt(buf, 0) == if buf[1] == '.' as int then Bad else Ok([[buf[1]]], 3)
  {
    assert NameFrom(buf, 2, 0, 2) == Ok([], 3);
    assert buf[1..2] == [buf[1]] && [[buf[1]]] + [] == [[buf[1]]];
  }

  // ---- a response ----

  const X: Bytes := [120]
  const Y: Bytes := [121]
  const ADDRESS: Bytes := [0x20, 0x01, 0x0D, 0xB8, 0, 0, 0, 0, 0, 0, 0, 0, 0, 0, 0, 1]

  const HEAD: Bytes := [0x12, 0x34, 0x85, 0xA3, 0, 1, 0, 2, 0, 0, 0, 0]
  const ASKED: Bytes := [1, 120, 0, 0, 28, 0, 1]
  const ALIAS: Bytes := [0xC0, 12, 0, 5, 0, 1, 0, 1, 0, 2, 0, 4, 1, 121, 0xC0, 12]
  const HOST: Bytes := [0xC0, 31, 0, 28, 0, 1, 0, 0, 0, 60, 0, 16]

  /** The question about "x" for an IPv6 address, an alias to "y.x", and its address,
      with every name but the first compressed. */
  const RESPONSE: Bytes := HEAD + ASKED + ALIAS + HOST + ADDRESS

  const ALIAS_RR := RR([X], 5, 1, 0x1_0002, 4, [], [], [], [Y, X], None, [])
  const HOST_RR := RR([Y, X], 28, 1, 60, 16, [], ADDRESS, [], [], None, [])
  const READ := Message(Header(0x1234, true, 0, true, false, true, true, true, false, 3, 1, 2, 0, 0),
                        [Question([X], 28, 1)], [ALIAS_RR, HOST_RR], [], [])

  /** The octets of the response, part by part. */
  predicate Spells(r: Bytes) {
    && |r| == 63 && r[..12] == HEAD && r[12..19] == ASKED && r[19..35] == ALIAS && r[35..47] == HOST
    && r[47..63] == ADDRESS
  }

  lemma ResponseSpells()
    ensures Spells(RESPONSE)
  {}

  lemma AtOffset(r: Bytes, part: Bytes, from: nat, to: nat, i: nat)
    requires from <= to <= |r| && r[from..to] == part && i < |part|
    ensures r[from + i] == part[i]
  {}

  lemma HeaderReads(r: Bytes)
    requires Spells(r)
    ensures HeaderAt(r, 0) == Ok(READ.header, 12)
  {
    forall i | 0 <= i < 12 ensures r[i] == HEAD[i] { AtOffset(r, HEAD, 0, 12, i); }
  }

  lemma NameOctets(r: Bytes)
    requires Spells(r)
    ensures r[12] == 1 && r[13] == 120 && r[14] == 0 && r[19] == 0xC0 && r[20] == 12 && r[35] == 0xC0 && r[36] == 31
    ensures r[31] == 1 && r[32] == 121 && r[33] == 0xC0 && r[34] == 12
  {
    forall i | 0 <= i < 7 ensures r[12 + i] == ASKED[i] { AtOffset(r, ASKED, 12, 19, i); }
    forall i | 0 <= i < 16 ensures r[19 + i] == ALIAS[i] { AtOffset(r, ALIAS, 19, 35, i); }
    forall i | 0 <= i < 12 ensures r[35 + i] == HOST[i] { AtOffset(r, HOST, 35, 47, i); }
  }

  lemma RootAt(r: Bytes, pos: nat, jumps: nat, len: nat)
    requires jumps <= 2 && pos < |r| && r[pos] == 0
    ensures NameFrom(r, pos, jumps, len) == Ok([], pos + 1)
  {}

  /** One octet as a label, and what follows it. */
  lemma LabelAt(r: Bytes, pos: nat, jumps: nat, len: nat, rest: Name, end: nat)
    requires jumps <= 2 && len <= 2 && pos + 2 <= |r| && r[pos] == 1 && r[pos + 1] != DOT
    requires NameFrom(r, pos + 2, jumps, len + 2) == Ok(rest, end)
    ensures NameFrom(r, pos, jumps, len) == Ok([[r[pos + 1]]] + rest, end)
  {
    assert r[pos + 1..pos + 2] == [r[pos + 1]];
  }

  /** A pointer is the name it points to. */
  lemma Through(r: Bytes, pos: nat, target: nat, jumps: nat, len: nat, n: Name, end: nat)
    requires jumps <= 1 && pos + 2 <= |r| && target < 0x40 && r[pos] == 0xC0 && r[pos + 1] == target
    requires NameFrom(r, target, jumps + 1, len) == Ok(n, end)
    ensures NameFrom(r, pos, jumps, len) == Ok(n, pos + 2)
  {
    assert GetU16(r, pos) == 0xC000 + target;
    PointerAt(r, pos, target);
  }

  lemma FirstRead(r: Bytes, jumps: nat, len: nat)
    requires Spells(r) && jumps <= 2 && len <= 2
    ensures NameFrom(r, 12, jumps, len) == Ok([X], 15)
  {
    NameOctets(r);
    RootAt(r, 14, jumps, len + 2);
    LabelAt(r, 12, jumps, len, [], 15);
    assert [X] + [] == [X];
  }

  lemma PointedRead(r: Bytes)
    requires Spells(r)
    ensures NameFrom(r, 19, 0, 0) == Ok([X], 21)
  {
    NameOctets(r);
    FirstRead(r, 1, 0);
    Through(r, 19, 12, 0, 0, [X], 15);
  }

  lemma YRead(r: Bytes, jumps: nat)
    requires Spells(r) && jumps <= 1
    ensures NameFrom(r, 31, jumps, 0) == Ok([Y, X], 35)
  {
    NameOctets(r);
    FirstRead(r, jumps + 1, 2);
    Through(r, 33, 12, jumps, 2, [X], 15);
    LabelAt(r, 31, jumps, 0, [X], 35);
    assert [Y] + [X] == [Y, X];
  }

  lemma HostRead(r: Bytes)
    requires Spells(r)
    ensures NameFrom(r, 35, 0, 0) == Ok([Y, X], 37)
  {
    NameOctets(r);
    YRead(r, 1);
    Through(r, 35, 31, 0, 0, [Y, X], 35);
  }

  lemma QuestionReads(r: Bytes)
    requires Spells(r)
    ensures QuestionAt(r, 12) == Ok(READ.questions[0], 19)
  {
    FirstRead(r, 0, 0);
    forall i | 0 <= i < 7 ensures r[12 + i] == ASKED[i] { AtOffset(r, ASKED, 12, 19, i); }
    assert r[15] == 0 && r[16] == 28 && r[17] == 0 && r[18] == 1;
  }

  lemma AliasFields(r: Bytes)
    requires Spells(r)
    ensures r[21] == 0 && r[22] == 5 && r[23] == 0 && r[24] == 1 && r[25] == 0 && r[26] == 1 && r[27] == 0
    ensures r[28] == 2 && r[29] == 0 && r[30] == 4
  {
    forall i | 0 <= i < 16 ensures r[19 + i] == ALIAS[i] { AtOffset(r, ALIAS, 19, 35, i); }
  }

  lemma HostFields(r: Bytes)
    requires Spells(r)
    ensures r[37] == 0 && r[38] == 28 && r[39] == 0 && r[40] == 1 && r[41] == 0 && r[42] == 0 && r[43] == 0
    ensures r[44] == 60 && r[45] == 0 && r[46] == 16
  {
    forall i | 0 <= i < 12 ensures r[35 + i] == HOST[i] { AtOffset(r, HOST, 35, 47, i); }
  }

  lemma AliasReads(r: Bytes)
    requires Spells(r)
    ensures RRAt(r, 19) == Ok(ALIAS_RR, 35)
  {
    PointedRead(r);
    YRead(r, 0);
    AliasFields(r);
    assert BareRRAt(r, 19) == Ok(BareRR([X], 5, 1, 0x1_0002, 4), 31);
  }

  lemma HostReads(r: Bytes)
    requires Spells(r)
    ensures RRAt(r, 35) == Ok(HOST_RR, 63)
  {
    HostRead(r);
    HostFields(r);
    assert BareRRAt(r, 35) == Ok(BareRR([Y, X], 28, 1, 60, 16), 47);
  }

  lemma OneItem<T>(item: nat -> Parsed<T>, off: nat, x: T, end: nat)
    requires item(off) == Ok(x, end)
    ensures ListAt(item, off, 1) == Ok([x], end)
  {
    assert ListAt(item, off, 0) == Ok([], off);
    assert [] + [x] == [x];
  }

  lemma TwoItems<T>(item: nat -> Parsed<T>, off: nat, x: T, mid: nat, y: T, end: nat)
    requires item(off) == Ok(x, mid) && item(mid) == Ok(y, end)
    ensures ListAt(item, off, 2) == Ok([x, y], end)
  {
    OneItem(item, off, x, mid);
    assert [x] + [y] == [x, y];
  }

  lemma SpelledReads(r: Bytes)
    requires Spells(r)
    ensures MessageIn(r) == Ok(READ, 63)
  {
    HeaderReads(r);
    QuestionReads(r);
    AliasReads(r);
    HostReads(r);
    OneItem(QuestionReader(r), 12, READ.questions[0], 19);
    TwoItems(RRReader(r), 19, ALIAS_RR, 35, HOST_RR, 63);
  }

  /** Octet for octet: the fields are big-endian and in the order of section 4.1 of
      RFC 1035, and pointers are expanded wherever a name may hold one. */
  lemma ResponseReads()
    ensures MessageIn(RESPONSE) == Ok(READ, 63)
  {
    ResponseSpells();
    SpelledReads(RESPONSE);
  }
}

/** DNS messages and the DNSSEC records carried inside raw RDATA. */
module Messages {
  import opened Octets
  import opened Names

  datatype Option<+T> = None | Some(value: T)

  const TypeA: U16 := 1
  const TypeNS: U16 := 2
  const TypeCNAME: U16 := 5
  const TypeSOA: U16 := 6
  const TypePTR: U16 := 12
  const TypeMX: U16 := 15
  const TypeAAAA: U16 := 28
  const TypeDS: U16 := 43
  const TypeRRSIG: U16 := 46
  const TypeNSEC: U16 := 47
  const TypeDNSKEY: U16 := 48
  const TypeNSEC3: U16 := 50
  const ClassIN: U16 := 1

  const RCodeSuccess: Octet := 0
  const RCodeServerFailure: Octet := 2
  const RCodeNameError: Octet := 3

  datatype Header = Header(
    id: U16, qr: bool, opcode: Octet, aa: bool, tc: bool, rd: bool, ra: bool,
    ad: bool, cd: bool, rcode: Octet,
    qdcount: U16, ancount: U16, nscount: U16, arcount: U16)

  datatype Question = Question(name: Name, qtype: U16, qclass: U16)

  datatype SOA = SOA(mname: Name, rname: Name, serial: U32, refresh: U32,
                     retry: U32, expire: U32, minimum: U32)

  /** A resource record. Only the field belonging to rtype means anything; an
      absent address is the empty sequence. */
  datatype RR = RR(name: Name, rtype: U16, rclass: U16, ttl: U32, rdlength: U16,
                   a: Bytes, aaaa: Bytes, ns: Name, cname: Name, soa: Option<SOA>, raw: Bytes)

  datatype Message = Message(header: Header, questions: seq<Question>,
                             answers: seq<RR>, authorities: seq<RR>, additionals: seq<RR>)

  // ---- DNSSEC records ----

  datatype DNSKEY = DNSKEY(flags: U16, protocol: Octet, algorithm: Octet, publicKey: Bytes)
  datatype DS = DS(keyTag: U16, algorithm: Octet, digestType: Octet, digest: Bytes)
  datatype RRSIG = RRSIG(typeCovered: U16, algorithm: Octet, labels: Octet, originalTTL: U32,
                         expiration: U32, inception: U32, keyTag: U16,
                         signerName: Name, signature: Bytes)
  datatype NSEC = NSEC(nextDomain: Name, typeBitmap: Bytes)
  datatype NSEC3 = NSEC3(algorithm: Octet, flags: Octet, iterations: U16, salt: Bytes,
                         nextHashed: Bytes, typeBitmap: Bytes)
  {
    predicate OptOut() { flags % 2 == 1 }
  }

  function ParseDNSKEY(raw: Bytes): Option<DNSKEY> {
    if |raw| < 4 then None else Some(DNSKEY(GetU16(raw, 0), raw[2], raw[3], raw[4..]))
  }

  function ParseDS(raw: Bytes): Option<DS> {
    if |raw| < 4 then None else Some(DS(GetU16(raw, 0), raw[2], raw[3], raw[4..]))
  }

  /** An uncompressed name at the front of buf, with what follows it. */
  function UncompressedName(buf: Bytes): (r: Option<(Name, Bytes)>)
    ensures r.Some? ==> |r.value.1| < |buf|
  {
    if buf == [] then None
    else if buf[0] == 0 then Some(([], buf[1..]))
    else if buf[0] >= 0x40 || 1 + buf[0] as int > |buf| then None
    else
      match UncompressedName(buf[1 + buf[0] as int..])
      case None => None
      case Some((n, rest)) => Some(([buf[1..1 + buf[0] as int]] + n, rest))
  }

  function ParseRRSIG(raw: Bytes): Option<RRSIG> {
    if |raw| < 18 then None
    else
      match UncompressedName(raw[18..])
      case None => None
      case Some((signer, signature)) =>
        Some(RRSIG(GetU16(raw, 0), raw[2], raw[3], GetU32(raw, 4), GetU32(raw, 8),
                   GetU32(raw, 12), GetU16(raw, 16), signer, signature))
  }

  function ParseNSEC(raw: Bytes): Option<NSEC> {
    match UncompressedName(raw)
    case None => None
    case Some((next, bitmap)) => Some(NSEC(next, bitmap))
  }

  function ParseNSEC3(raw: Bytes): Option<NSEC3> {
    if |raw| < 5 then None
    else
      var saltLen := raw[4] as int;
      if |raw| < 5 + saltLen + 1 then None
      else
        var rest := raw[5 + saltLen..];
        var hashLen := rest[0] as int;
        if |rest| < 1 + hashLen then None
        else Some(NSEC3(raw[0], raw[1], GetU16(raw, 2), raw[5..5 + saltLen],
                        rest[1..1 + hashLen], rest[1 + hashLen..]))
  }

  function AsDNSKEY(rr: RR): Option<DNSKEY> { if rr.rtype != TypeDNSKEY then None else ParseDNSKEY(rr.raw) }
  function AsDS(rr: RR): Option<DS> { if rr.rtype != TypeDS then None else ParseDS(rr.raw) }
  function AsRRSIG(rr: RR): Option<RRSIG> { if rr.rtype != TypeRRSIG then None else ParseRRSIG(rr.raw) }
  function AsNSEC(rr: RR): Option<NSEC> { if rr.rtype != TypeNSEC then None else ParseNSEC(rr.raw) }
  function AsNSEC3(rr: RR): Option<NSEC3> { if rr.rtype != TypeNSEC3 then None else ParseNSEC3(rr.raw) }

  function WithLabels(labels: Name, r: Option<(Name, Bytes)>): Option<(Name, Bytes)> {
    match r
    case None => None
    case Some((n, rest)) => Some((labels + n, rest))
  }

  lemma UncompressedStep(labels: Name, buf: Bytes, off: nat)
    requires off < |buf| && 0 < buf[off] < 0x40 && off + 1 + buf[off] as int <= |buf|
    ensures var stop := off + 1 + buf[off] as int;
            WithLabels(labels, UncompressedName(buf[off..]))
            == WithLabels(labels + [buf[off + 1..stop]], UncompressedName(buf[stop..]))
  {
    var s, n := buf[off..], 1 + buf[off] as int;
    assert s[1..n] == buf[off + 1..off + n] && s[n..] == buf[off + n..];
    match UncompressedName(s[n..])
    case None =>
    case Some((m, _)) => assert labels + ([s[1..n]] + m) == labels + [s[1..n]] + m;
  }

  method ReadUncompressedName(buf: Bytes) returns (r: Option<(Name, nat)>)
    ensures r.None? <==> UncompressedName(buf).None?
    ensures r.Some? ==> r.value.1 <= |buf| && UncompressedName(buf) == Some((r.value.0, buf[r.value.1..]))
  {
    var labels: Name := [];
    var off := 0;
    assert buf[0..] == buf;
    assert UncompressedName(buf).Some? ==> labels + UncompressedName(buf).value.0 == UncompressedName(buf).value.0;
    while true
      invariant off <= |buf|
      invariant UncompressedName(buf) == WithLabels(labels, UncompressedName(buf[off..]))
      decreases |buf| - off
    {
      if off >= |buf| { return None; }
      var length := buf[off] as int;
      if length == 0 {
        assert buf[off..][1..] == buf[off + 1..] && labels + [] == labels;
        return Some((labels, off + 1));
      }
      if length >= 0x40 { return None; }
      if off + 1 + length > |buf| { return None; }
      UncompressedStep(labels, buf, off);
      off := off + 1;
      labels := labels + [buf[off..off + length]];
      off := off + length;
    }
  }

  // ---- type bitmaps ----

  /** b & (0x80 >> k) != 0 */
  predicate Bit(b: Octet, k: int)
    requires 0 <= k < 8
  {
    if k == 0 then b >= 0x80
    else if k == 1 then b % 0x80 >= 0x40
    else if k == 2 then b % 0x40 >= 0x20
    else if k == 3 then b % 0x20 >= 0x10
    else if k == 4 then b % 0x10 >= 0x08
    else if k == 5 then b % 0x08 >= 0x04
    else if k == 6 then b % 0x04 >= 0x02
    else b % 0x02 >= 0x01
  }

  /** Whether bit number t % 256, counted from the left, is set in one window. */
  predicate BitSet(bits: Bytes, t: U16) {
    var offset := t % 0x100;
    offset / 8 < |bits| && Bit(bits[offset / 8], offset % 8)
  }

  /** Whether a type bitmap (section 4.1.2 of RFC 4034) lists type t: the first
      window with the right number decides. */
  predicate TypeInBitmap(buf: Bytes, t: U16) {
    if |buf| < 2 || |buf| < 2 + buf[1] as int then false
    else if buf[0] as int == t / 0x100 then BitSet(buf[2..2 + buf[1] as int], t)
    else TypeInBitmap(buf[2 + buf[1] as int..], t)
  }

  method ScanBitmap(bitmap: Bytes, t: U16) returns (listed: bool)
    ensures listed == TypeInBitmap(bitmap, t)
  {
    var buf := bitmap;
    while |buf| >= 2
      invariant TypeInBitmap(bitmap, t) == TypeInBitmap(buf, t)
    {
      var window, length := buf[0], buf[1] as int;
      if |buf| < 2 + length { return false; }
      var bits := buf[2..2 + length];
      if window as int == t / 0x100 {
        var offset := t % 0x100;
        var i := offset / 8;
        if i < |bits| {
          return Bit(bits[i], offset % 8);
        }
        return false;
      }
      buf := buf[2 + length..];
    }
    return false;
  }

  /** A window of a well-formed bitmap. */
  datatype Window = Window(number: Octet, bits: Bytes)

  predicate WellFormedWindows(ws: seq<Window>) {
    && (forall i | 0 <= i < |ws| :: 1 <= |ws[i].bits| <= 32)
    && (forall i, j | 0 <= i < j < |ws| :: ws[i].number < ws[j].number)
  }

  function EncodeWindows(ws: seq<Window>): Bytes
    requires forall i | 0 <= i < |ws| :: 1 <= |ws[i].bits| <= 32
  {
    if ws == [] then [] else [ws[0].number, |ws[0].bits|] + ws[0].bits + EncodeWindows(ws[1..])
  }

  /** The type set a list of windows stands for. */
  predicate Listed(ws: seq<Window>, t: U16) {
    exists i | 0 <= i < |ws| :: ws[i].number as int == t / 0x100 && BitSet(ws[i].bits, t)
  }

  /** On every well-formed bitmap the reader sees exactly the types encoded. */
  lemma {:induction false} BitmapRoundTrip(ws: seq<Window>, t: U16)
    requires WellFormedWindows(ws)
    ensures TypeInBitmap(EncodeWindows(ws), t) <==> Listed(ws, t)
  {
    if ws != [] {
      var buf := EncodeWindows(ws);
      var n := |ws[0].bits|;
      assert buf[2..2 + n] == ws[0].bits;
      assert buf[2 + n..] == EncodeWindows(ws[1..]);
      BitmapRoundTrip(ws[1..], t);
      if Listed(ws[1..], t) {
        var i :| 0 <= i < |ws[1..]| && ws[1..][i].number as int == t / 0x100 && BitSet(ws[1..][i].bits, t);
        assert ws[i + 1] == ws[1..][i];
      }
      if Listed(ws, t) && ws[0].number as int != t / 0x100 {
        var i :| 0 <= i < |ws| && ws[i].number as int == t / 0x100 && BitSet(ws[i].bits, t);
        assert ws[1..][i - 1] == ws[i];
      }
    }
  }
}

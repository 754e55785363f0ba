/** Denial of existence over hashed names (RFC 5155): the checker. */
module Nsec3 {
  import opened Octets
  import opened Names
  import opened Messages
  import opened Canonical

  /** How a proof came out: it holds, it does not hold, it is in a form that
      cannot be checked, or a name in it has no wire form. */
  datatype Verdict = Proven | NoDenial | Unsupported | Malformed

  /** A verdict other than success: an error. */
  type Failure = v: Verdict | v != Proven witness NoDenial

  /** The digest, and the encoding of a digest as an owner label. Neither is
      interpreted here. */
  datatype HashSuite = HashSuite(digest: Bytes -> Bytes, text: Bytes -> Bytes)

  const HASH_SHA1: Octet := 1
  const MAX_ITERATIONS := 100

  /** An NSEC3 with the hash in its owner name, which is the near end of its gap. */
  datatype Nsec3Record = Nsec3Record(owner: Bytes, zone: Name, rr: NSEC3)

  datatype Hashed = Hash(text: Bytes) | HashError(verdict: Failure)
  datatype Found = Hit(record: Nsec3Record) | Miss | FindError(verdict: Failure)
  datatype Enclosing = Enclosing(encloser: Name, nextCloser: Name) | EncloserError(verdict: Failure)

  /** Whether hash falls strictly inside the gap from owner to next, the last
      gap of a zone wrapping around. */
  predicate InGap(owner: Bytes, hash: Bytes, next: Bytes) {
    var afterOwner := Compare(hash, owner) > 0;
    var beforeNext := Compare(hash, next) < 0;
    if Compare(owner, next) >= 0 then afterOwner || beforeNext else afterOwner && beforeNext
  }

  predicate Covers3(hs: HashSuite, n: Nsec3Record, hash: Bytes) {
    InGap(n.owner, hash, hs.text(n.rr.nextHashed))
  }

  function Rehash(hs: HashSuite, sum: Bytes, salt: Bytes, rounds: nat): Bytes {
    if rounds == 0 then sum else hs.digest(Rehash(hs, sum, salt, rounds - 1) + salt)
  }

  /** The hash text of a wire-form name. */
  function HashWire(hs: HashSuite, wire: Bytes, salt: Bytes, iterations: nat): Bytes {
    hs.text(Rehash(hs, hs.digest(wire + salt), salt, iterations))
  }

  function HashName(hs: HashSuite, n: NSEC3, name: Name): Hashed {
    if n.algorithm != HASH_SHA1 || n.iterations > MAX_ITERATIONS then HashError(Unsupported)
    else
      match CanonicalName(name)
      case None => HashError(Malformed)
      case Some(wire) => Hash(HashWire(hs, wire, n.salt, n.iterations))
  }

  /** The first record whose owner is the hash of name. */
  function FindMatch(hs: HashSuite, nsec3s: seq<Nsec3Record>, name: Name): Found {
    if nsec3s == [] then Miss
    else
      match HashName(hs, nsec3s[0].rr, name)
      case HashError(v) => FindError(v)
      case Hash(h) => if h == nsec3s[0].owner then Hit(nsec3s[0]) else FindMatch(hs, nsec3s[1..], name)
  }

  /** The first record whose gap contains the hash of name. */
  function FindCover(hs: HashSuite, nsec3s: seq<Nsec3Record>, name: Name): Found {
    if nsec3s == [] then Miss
    else
      match HashName(hs, nsec3s[0].rr, name)
      case HashError(v) => FindError(v)
      case Hash(h) => if Covers3(hs, nsec3s[0], h) then Hit(nsec3s[0]) else FindCover(hs, nsec3s[1..], name)
  }

  /** Searching upwards from the ancestor of name with i labels removed. */
  function EncloserFrom(hs: HashSuite, nsec3s: seq<Nsec3Record>, name: Name, zone: Name, i: nat): Enclosing
    requires 1 <= i
    decreases |name| - i
  {
    if |name| - i < |zone| then EncloserError(NoDenial)
    else
      match FindMatch(hs, nsec3s, name[i..])
      case FindError(v) => EncloserError(v)
      case Hit(_) => Enclosing(name[i..], name[i - 1..])
      case Miss => EncloserFrom(hs, nsec3s, name, zone, i + 1)
  }

  function ClosestEncloser3(hs: HashSuite, nsec3s: seq<Nsec3Record>, name: Name, zone: Name): Enclosing {
    if |name| < |zone| then EncloserError(NoDenial) else EncloserFrom(hs, nsec3s, name, zone, 1)
  }

  function NoDS3(hs: HashSuite, nsec3s: seq<Nsec3Record>, zone: Name): Verdict {
    match FindMatch(hs, nsec3s, zone)
    case FindError(v) => v
    case Hit(m) =>
      if TypeInBitmap(m.rr.typeBitmap, TypeSOA) || TypeInBitmap(m.rr.typeBitmap, TypeDS) then NoDenial else Proven
    case Miss =>
      match FindCover(hs, nsec3s, zone)
      case FindError(v) => v
      case Hit(c) => if c.rr.OptOut() then Proven else NoDenial
      case Miss => NoDenial
  }

  function NameError3(hs: HashSuite, nsec3s: seq<Nsec3Record>, qname: Name, zone: Name): Verdict {
    match ClosestEncloser3(hs, nsec3s, qname, zone)
    case EncloserError(v) => v
    case Enclosing(encloser, nextCloser) =>
      match FindCover(hs, nsec3s, nextCloser)
      case FindError(v) => v
      case Miss => NoDenial
      case Hit(_) =>
        match FindCover(hs, nsec3s, Wildcard(encloser))
        case FindError(v) => v
        case Miss => NoDenial
        case Hit(_) => Proven
  }

  /** What a bitmap says about a name that is there: the query's type is missing,
      no alias was withheld, and the name is not the parent's side of a cut. */
  predicate EmptyAtOwner(bitmap: Bytes, qtype: U16) {
    && !TypeInBitmap(bitmap, qtype)
    && !TypeInBitmap(bitmap, TypeCNAME)
    && (qtype == TypeDS || !TypeInBitmap(bitmap, TypeNS) || TypeInBitmap(bitmap, TypeSOA))
  }

  function NoData3(hs: HashSuite, nsec3s: seq<Nsec3Record>, qname: Name, qtype: U16, zone: Name): Verdict {
    match FindMatch(hs, nsec3s, qname)
    case FindError(v) => v
    case Hit(m) => if EmptyAtOwner(m.rr.typeBitmap, qtype) then Proven else NoDenial
    case Miss =>
      match ClosestEncloser3(hs, nsec3s, qname, zone)
      case EncloserError(v) => v
      case Enclosing(encloser, nextCloser) =>
        match FindCover(hs, nsec3s, nextCloser)
        case FindError(v) => v
        case Miss => NoDenial
        case Hit(cover) =>
          if qtype == TypeDS && cover.rr.OptOut() then Proven
          else
            match FindMatch(hs, nsec3s, Wildcard(encloser))
            case FindError(v) => v
            case Hit(w) => if TypeInBitmap(w.rr.typeBitmap, qtype) then NoDenial else Proven
            case Miss => NoDenial
  }

  function NoCloserMatch3(hs: HashSuite, nsec3s: seq<Nsec3Record>, qname: Name, zone: Name): Verdict {
    match ClosestEncloser3(hs, nsec3s, qname, zone)
    case EncloserError(v) => v
    case Enclosing(_, nextCloser) =>
      match FindCover(hs, nsec3s, nextCloser)
      case FindError(v) => v
      case Miss => NoDenial
      case Hit(_) => Proven
  }

  // ---- gathering the records of a section ----

  predicate SameParameters(a: NSEC3, b: NSEC3) {
    a.algorithm == b.algorithm && a.iterations == b.iterations && a.salt == b.salt
  }

  function Upper(b: Octet): Octet {
    if 97 <= b <= 122 then b - 32 else b
  }

  function UpperAll(s: Bytes): Bytes {
    seq(|s|, i requires 0 <= i < |s| => Upper(s[i]))
  }

  /** The NSEC3 records of a section, or nothing if an owner carries no hash or
      the records do not all share one zone and one set of parameters. */
  function Nsec3Records(records: seq<RR>): (r: Option<seq<Nsec3Record>>) {
    if records == [] then Some([])
    else
      match Nsec3Records(records[..|records| - 1])
      case None => None
      case Some(out) =>
        var rr := records[|records| - 1];
        match AsNSEC3(rr)
        case None => Some(out)
        case Some(n) =>
          if rr.name == [] || rr.name[0] == [] then None
          else if out != [] && !EqualName(rr.name[1..], out[0].zone) then None
          else if out != [] && !SameParameters(out[0].rr, n) then None
          else Some(out + [Nsec3Record(UpperAll(rr.name[0]), rr.name[1..], n)])
  }

  // ---- the loops ----

  method ComputeHashName(hs: HashSuite, n: NSEC3, name: Name) returns (h: Hashed)
    ensures h == HashName(hs, n, name)
  {
    if n.algorithm != HASH_SHA1 { return HashError(Unsupported); }
    if n.iterations > MAX_ITERATIONS { return HashError(Unsupported); }
    var wire := BuildCanonicalName(name);
    if wire.None? { return HashError(Malformed); }
    var sum := hs.digest(wire.value + n.salt);
    for i := 0 to n.iterations
      invariant sum == Rehash(hs, hs.digest(wire.value + n.salt), n.salt, i)
    {
      sum := hs.digest(sum + n.salt);
    }
    return Hash(hs.text(sum));
  }

  method ScanMatch(hs: HashSuite, nsec3s: seq<Nsec3Record>, name: Name) returns (r: Found)
    ensures r == FindMatch(hs, nsec3s, name)
  {
    for i := 0 to |nsec3s|
      invariant FindMatch(hs, nsec3s, name) == FindMatch(hs, nsec3s[i..], name)
    {
      assert nsec3s[i..][1..] == nsec3s[i + 1..];
      var h := ComputeHashName(hs, nsec3s[i].rr, name);
      match h
      case HashError(v) => return FindError(v);
      case Hash(text) =>
        if text == nsec3s[i].owner { return Hit(nsec3s[i]); }
    }
    return Miss;
  }

  method ScanCover(hs: HashSuite, nsec3s: seq<Nsec3Record>, name: Name) returns (r: Found)
    ensures r == FindCover(hs, nsec3s, name)
  {
    for i := 0 to |nsec3s|
      invariant FindCover(hs, nsec3s, name) == FindCover(hs, nsec3s[i..], name)
    {
      assert nsec3s[i..][1..] == nsec3s[i + 1..];
      var h := ComputeHashName(hs, nsec3s[i].rr, name);
      match h
      case HashError(v) => return FindError(v);
      case Hash(text) =>
        if Covers3(hs, nsec3s[i], text) { return Hit(nsec3s[i]); }
    }
    return Miss;
  }

  method SearchEncloser(hs: HashSuite, nsec3s: seq<Nsec3Record>, name: Name, zone: Name) returns (r: Enclosing)
    ensures r == ClosestEncloser3(hs, nsec3s, name, zone)
  {
    if |name| < |zone| { return EncloserError(NoDenial); }
    var i := 1;
    while |name| - i >= |zone|
      invariant 1 <= i
      invariant ClosestEncloser3(hs, nsec3s, name, zone) == EncloserFrom(hs, nsec3s, name, zone, i)
    {
      var m := ScanMatch(hs, nsec3s, name[i..]);
      match m
      case FindError(v) => return EncloserError(v);
      case Hit(_) => return Enclosing(name[i..], name[i - 1..]);
      case Miss =>
      i := i + 1;
    }
    return EncloserError(NoDenial);
  }

  method CollectNsec3Records(records: seq<RR>) returns (r: Option<seq<Nsec3Record>>)
    ensures r == Nsec3Records(records)
  {
    var out: seq<Nsec3Record> := [];
    for k := 0 to |records|
      invariant Nsec3Records(records[..k]) == Some(out)
      invariant Nsec3Records(records[..k]).None? ==> Nsec3Records(records).None?
    {
      assert records[..k + 1][..k] == records[..k];
      var rr := records[k];
      match AsNSEC3(rr)
      case None =>
      case Some(n) =>
        if rr.name == [] || rr.name[0] == []
          || (out != [] && !EqualName(rr.name[1..], out[0].zone))
          || (out != [] && !SameParameters(out[0].rr, n)) {
          Nsec3RecordsPrefix(records, k + 1);
          return None;
        }
        out := out + [Nsec3Record(UpperAll(rr.name[0]), rr.name[1..], n)];
    }
    assert records[..|records|] == records;
    return Some(out);
  }

  lemma {:induction false} Nsec3RecordsPrefix(records: seq<RR>, k: nat)
    requires k <= |records| && Nsec3Records(records[..k]).None?
    ensures Nsec3Records(records).None?
    decreases |records|
  {
    if k < |records| {
      var front := records[..|records| - 1];
      assert front[..k] == records[..k];
      Nsec3RecordsPrefix(front, k);
    } else {
      assert records[..k] == records;
    }
  }

  /** Every record that survives the gathering hashes names the same way, so it
      does not matter which one is asked. */
  lemma {:induction false} OneHashForAll(hs: HashSuite, records: seq<RR>, i: nat, j: nat, name: Name)
    requires Nsec3Records(records).Some?
    requires var out := Nsec3Records(records).value; i < |out| && j < |out|
    ensures var out := Nsec3Records(records).value;
            HashName(hs, out[i].rr, name) == HashName(hs, out[j].rr, name) && EqualName(out[i].zone, out[j].zone)
  {
    ParametersShared(records, i);
    ParametersShared(records, j);
  }

  lemma {:induction false} ParametersShared(records: seq<RR>, i: nat)
    requires Nsec3Records(records).Some? && i < |Nsec3Records(records).value|
    ensures var out := Nsec3Records(records).value;
            SameParameters(out[0].rr, out[i].rr) && EqualName(out[i].zone, out[0].zone)
    decreases |records|
  {
    var front := records[..|records| - 1];
    var out := Nsec3Records(front).value;
    if i < |out| { ParametersShared(front, i); }
  }

  /** The case of an owner name does not matter: the hash in it is compared in capitals. */
  lemma OwnerCase(a: Bytes, b: Bytes)
    requires LowerAll(a) == LowerAll(b)
    ensures UpperAll(a) == UpperAll(b)
    ensures forall i | 0 <= i < |a| :: !('a' as int <= UpperAll(a)[i] <= 'z' as int)
    ensures forall i | 0 <= i < |a| :: LowerAll(UpperAll(a))[i] == LowerAll(a)[i]
  {
    assert |a| == |LowerAll(a)| == |LowerAll(b)| == |b|;
    forall i | 0 <= i < |a| ensures Upper(a[i]) == Upper(b[i]) {
      assert LowerAll(a)[i] == LowerAll(b)[i];
    }
  }
}

/** Denial of existence with NSEC records (section 5.4 of RFC 4035): the checker,
    and the entry points that read a section in whichever form it is in. */
module Denial {
  import opened Octets
  import opened Names
  import opened Messages
  import opened Nsec3

  /** An NSEC with its owner name, which is half of its gap. */
  datatype NsecRecord = NsecRecord(owner: Name, rr: NSEC)

  datatype Evidence = Plain(nsec: seq<NsecRecord>) | HashedProof(nsec3: seq<Nsec3Record>, zone: Name)

  function NsecRecords(records: seq<RR>): seq<NsecRecord> {
    if records == [] then []
    else
      var rr := records[|records| - 1];
      NsecRecords(records[..|records| - 1])
      + match AsNSEC(rr) { case None => [] case Some(n) => [NsecRecord(rr.name, n)] }
  }

  /** A section's denial records: the NSEC ones if there are any, otherwise the
      NSEC3 ones. */
  function Collect(records: seq<RR>): Option<Evidence> {
    if NsecRecords(records) != [] then Some(Plain(NsecRecords(records)))
    else
      match Nsec3Records(records)
      case None => None
      case Some(n3) => if n3 == [] then None else Some(HashedProof(n3, n3[0].zone))
  }

  /** Whether name falls strictly inside the record's gap. */
  predicate Covers(n: NsecRecord, name: Name) {
    var owner, next, x := Canon(n.owner), Canon(n.rr.nextDomain), Canon(name);
    var afterOwner := Order(x, owner) > 0;
    var beforeNext := Order(x, next) < 0;
    if Order(owner, next) >= 0 then afterOwner || beforeNext else afterOwner && beforeNext
  }

  /** The longer of the suffixes a covered name shares with the ends of the gap. */
  function ClosestEncloser(n: NsecRecord, name: Name): Name {
    var a := CommonSuffix(name, n.owner);
    var b := CommonSuffix(name, n.rr.nextDomain);
    if |a| >= |b| then a else b
  }

  function FindCovering(nsecs: seq<NsecRecord>, name: Name): Option<NsecRecord> {
    if nsecs == [] then None
    else if Covers(nsecs[0], name) then Some(nsecs[0])
    else FindCovering(nsecs[1..], name)
  }

  function FindOwner(nsecs: seq<NsecRecord>, name: Name): Option<NsecRecord> {
    if nsecs == [] then None
    else if EqualName(nsecs[0].owner, name) then Some(nsecs[0])
    else FindOwner(nsecs[1..], name)
  }

  function NoDS(nsecs: seq<NsecRecord>, zone: Name): Verdict {
    match FindOwner(nsecs, zone)
    case Some(n) =>
      if TypeInBitmap(n.rr.typeBitmap, TypeSOA) || TypeInBitmap(n.rr.typeBitmap, TypeDS) then NoDenial else Proven
    case None => if FindCovering(nsecs, zone).Some? then Proven else NoDenial
  }

  function NoName(nsecs: seq<NsecRecord>, qname: Name): Verdict {
    match FindCovering(nsecs, qname)
    case None => NoDenial
    case Some(c) =>
      if FindCovering(nsecs, Wildcard(ClosestEncloser(c, qname))).Some? then Proven else NoDenial
  }

  predicate WildcardLacks(nsecs: seq<NsecRecord>, wildcard: Name, qtype: U16) {
    exists i | 0 <= i < |nsecs| :: EqualName(nsecs[i].owner, wildcard) && !TypeInBitmap(nsecs[i].rr.typeBitmap, qtype)
  }

  function NoDataAt(nsecs: seq<NsecRecord>, qname: Name, qtype: U16): Verdict {
    match FindOwner(nsecs, qname)
    case Some(n) => if EmptyAtOwner(n.rr.typeBitmap, qtype) then Proven else NoDenial
    case None =>
      match FindCovering(nsecs, qname)
      case None => NoDenial
      case Some(c) =>
        if IsProperSubdomain(c.rr.nextDomain, qname) then Proven
        else if WildcardLacks(nsecs, Wildcard(ClosestEncloser(c, qname)), qtype) then Proven
        else NoDenial
  }

  function NoCloser(nsecs: seq<NsecRecord>, qname: Name): Verdict {
    if FindCovering(nsecs, qname).Some? then Proven else NoDenial
  }

  // ---- the four proofs, over a section ----

  function NoDSVerdict(hs: HashSuite, records: seq<RR>, zone: Name): Verdict {
    match Collect(records)
    case None => NoDenial
    case Some(Plain(nsecs)) => NoDS(nsecs, zone)
    case Some(HashedProof(n3, _)) => NoDS3(hs, n3, zone)
  }

  function NameErrorVerdict(hs: HashSuite, records: seq<RR>, qname: Name): Verdict {
    match Collect(records)
    case None => NoDenial
    case Some(Plain(nsecs)) => NoName(nsecs, qname)
    case Some(HashedProof(n3, zone)) => NameError3(hs, n3, qname, zone)
  }

  function NoDataVerdict(hs: HashSuite, records: seq<RR>, qname: Name, qtype: U16): Verdict {
    match Collect(records)
    case None => NoDenial
    case Some(Plain(nsecs)) => NoDataAt(nsecs, qname, qtype)
    case Some(HashedProof(n3, zone)) => NoData3(hs, n3, qname, qtype, zone)
  }

  function NoCloserMatchVerdict(hs: HashSuite, records: seq<RR>, qname: Name): Verdict {
    match Collect(records)
    case None => NoDenial
    case Some(Plain(nsecs)) => NoCloser(nsecs, qname)
    case Some(HashedProof(n3, zone)) => NoCloserMatch3(hs, n3, qname, zone)
  }

  // ---- the loops ----

  method ScanCovers(n: NsecRecord, name: Name) returns (r: bool)
    ensures r == Covers(n, name)
  {
    var c := CompareNames(name, n.owner);
    var afterOwner := c > 0;
    c := CompareNames(name, n.rr.nextDomain);
    var beforeNext := c < 0;
    c := CompareNames(n.owner, n.rr.nextDomain);
    if c >= 0 {
      return afterOwner || beforeNext;
    }
    return afterOwner && beforeNext;
  }

  method ScanCovering(nsecs: seq<NsecRecord>, name: Name) returns (r: Option<NsecRecord>)
    ensures r == FindCovering(nsecs, name)
  {
    for i := 0 to |nsecs|
      invariant FindCovering(nsecs, name) == FindCovering(nsecs[i..], name)
    {
      assert nsecs[i..][1..] == nsecs[i + 1..];
      var covered := ScanCovers(nsecs[i], name);
      if covered { return Some(nsecs[i]); }
    }
    return None;
  }

  method FindClosestEncloser(n: NsecRecord, name: Name) returns (r: Name)
    ensures r == ClosestEncloser(n, name)
  {
    var a := FindCommonSuffix(name, n.owner);
    var b := FindCommonSuffix(name, n.rr.nextDomain);
    r := if |a| >= |b| then a else b;
  }

  lemma {:induction false} NsecRecordsPrefix(records: seq<RR>, k: nat)
    requires k <= |records|
    ensures |NsecRecords(records[..k])| <= |NsecRecords(records)|
    decreases |records|
  {
    if k < |records| {
      var front := records[..|records| - 1];
      assert front[..k] == records[..k];
      NsecRecordsPrefix(front, k);
    } else {
      assert records[..k] == records;
    }
  }

  method CollectDenial(records: seq<RR>) returns (d: Option<Evidence>)
    ensures d == Collect(records)
  {
    var nsecs: seq<NsecRecord> := [];
    for k := 0 to |records|
      invariant nsecs == NsecRecords(records[..k])
    {
      assert records[..k + 1][..k] == records[..k];
      match AsNSEC(records[k])
      case None =>
      case Some(n) => nsecs := nsecs + [NsecRecord(records[k].name, n)];
    }
    assert records[..|records|] == records;
    if |nsecs| > 0 { return Some(Plain(nsecs)); }
    var n3 := CollectNsec3Records(records);
    if n3.None? || n3.value == [] { return None; }
    return Some(HashedProof(n3.value, n3.value[0].zone));
  }

  method CheckNoDS3(hs: HashSuite, nsec3s: seq<Nsec3Record>, zone: Name) returns (v: Verdict)
    ensures v == NoDS3(hs, nsec3s, zone)
  {
    var m := ScanMatch(hs, nsec3s, zone);
    match m
    case FindError(e) => return e;
    case Hit(r) =>
      var soa := ScanBitmap(r.rr.typeBitmap, TypeSOA);
      if soa { return NoDenial; }
      var ds := ScanBitmap(r.rr.typeBitmap, TypeDS);
      return if ds then NoDenial else Proven;
    case Miss =>
      var cover := ScanCover(hs, nsec3s, zone);
      match cover
      case FindError(e) => return e;
      case Hit(c) => return if c.rr.OptOut() then Proven else NoDenial;
      case Miss => return NoDenial;
  }

  method ProveNoDS(hs: HashSuite, records: seq<RR>, zone: Name) returns (v: Verdict)
    ensures v == NoDSVerdict(hs, records, zone)
  {
    var d := CollectDenial(records);
    if d.None? { return NoDenial; }
    if d.value.HashedProof? {
      v := CheckNoDS3(hs, d.value.nsec3, zone);
      return;
    }
    var nsecs := d.value.nsec;
    for i := 0 to |nsecs|
      invariant FindOwner(nsecs, zone) == FindOwner(nsecs[i..], zone)
    {
      assert nsecs[i..][1..] == nsecs[i + 1..];
      if EqualName(nsecs[i].owner, zone) {
        var soa := ScanBitmap(nsecs[i].rr.typeBitmap, TypeSOA);
        if soa { return NoDenial; }
        var ds := ScanBitmap(nsecs[i].rr.typeBitmap, TypeDS);
        return if ds then NoDenial else Proven;
      }
    }
    var c := ScanCovering(nsecs, zone);
    return if c.Some? then Proven else NoDenial;
  }

  method ProveNameError(hs: HashSuite, records: seq<RR>, qname: Name) returns (v: Verdict)
    ensures v == NameErrorVerdict(hs, records, qname)
  {
    var d := CollectDenial(records);
    if d.None? { return NoDenial; }
    if d.value.HashedProof? {
      var n3 := d.value.nsec3;
      var e := SearchEncloser(hs, n3, qname, d.value.zone);
      if e.EncloserError? { return e.verdict; }
      var cover := ScanCover(hs, n3, e.nextCloser);
      if cover.FindError? { return cover.verdict; }
      if cover.Miss? { return NoDenial; }
      var wild := ScanCover(hs, n3, Wildcard(e.encloser));
      if wild.FindError? { return wild.verdict; }
      return if wild.Miss? then NoDenial else Proven;
    }
    var covering := ScanCovering(d.value.nsec, qname);
    if covering.None? { return NoDenial; }
    var encloser := FindClosestEncloser(covering.value, qname);
    var wildcard := ScanCovering(d.value.nsec, Wildcard(encloser));
    return if wildcard.None? then NoDenial else Proven;
  }

  method CheckEmptyAtOwner(bitmap: Bytes, qtype: U16) returns (r: bool)
    ensures r == EmptyAtOwner(bitmap, qtype)
  {
    var listed := ScanBitmap(bitmap, qtype);
    if listed { return false; }
    var alias := ScanBitmap(bitmap, TypeCNAME);
    if alias { return false; }
    var ns := ScanBitmap(bitmap, TypeNS);
    var soa := ScanBitmap(bitmap, TypeSOA);
    return !(qtype != TypeDS && ns && !soa);
  }

  method CheckNoData3(hs: HashSuite, nsec3s: seq<Nsec3Record>, qname: Name, qtype: U16, zone: Name) returns (v: Verdict)
    ensures v == NoData3(hs, nsec3s, qname, qtype, zone)
  {
    var m := ScanMatch(hs, nsec3s, qname);
    if m.FindError? { return m.verdict; }
    if m.Hit? {
      var empty := CheckEmptyAtOwner(m.record.rr.typeBitmap, qtype);
      return if empty then Proven else NoDenial;
    }
    var e := SearchEncloser(hs, nsec3s, qname, zone);
    if e.EncloserError? { return e.verdict; }
    var cover := ScanCover(hs, nsec3s, e.nextCloser);
    if cover.FindError? { return cover.verdict; }
    if cover.Miss? { return NoDenial; }
    if qtype == TypeDS && cover.record.rr.OptOut() { return Proven; }
    var wild := ScanMatch(hs, nsec3s, Wildcard(e.encloser));
    if wild.FindError? { return wild.verdict; }
    if wild.Miss? { return NoDenial; }
    var listed := ScanBitmap(wild.record.rr.typeBitmap, qtype);
    return if listed then NoDenial else Proven;
  }

  method ScanWildcardLacks(nsecs: seq<NsecRecord>, wildcard: Name, qtype: U16) returns (r: bool)
    ensures r == WildcardLacks(nsecs, wildcard, qtype)
  {
    for i := 0 to |nsecs|
      invariant forall k | 0 <= k < i ::
                  !(EqualName(nsecs[k].owner, wildcard) && !TypeInBitmap(nsecs[k].rr.typeBitmap, qtype))
    {
      var listed := ScanBitmap(nsecs[i].rr.typeBitmap, qtype);
      if EqualName(nsecs[i].owner, wildcard) && !listed { return true; }
    }
    return false;
  }

  method ProveNoData(hs: HashSuite, records: seq<RR>, qname: Name, qtype: U16) returns (v: Verdict)
    ensures v == NoDataVerdict(hs, records, qname, qtype)
  {
    var d := CollectDenial(records);
    if d.None? { return NoDenial; }
    if d.value.HashedProof? {
      var n3 := d.value.nsec3;
      v := CheckNoData3(hs, n3, qname, qtype, d.value.zone);
      return;
    }
    var nsecs := d.value.nsec;
    for i := 0 to |nsecs|
      invariant FindOwner(nsecs, qname) == FindOwner(nsecs[i..], qname)
    {
      assert nsecs[i..][1..] == nsecs[i + 1..];
      if EqualName(nsecs[i].owner, qname) {
        var empty := CheckEmptyAtOwner(nsecs[i].rr.typeBitmap, qtype);
        return if empty then Proven else NoDenial;
      }
    }
    var covering := ScanCovering(nsecs, qname);
    if covering.None? { return NoDenial; }
    if IsProperSubdomain(covering.value.rr.nextDomain, qname) { return Proven; }
    var encloser := FindClosestEncloser(covering.value, qname);
    var lacks := ScanWildcardLacks(nsecs, Wildcard(encloser), qtype);
    return if lacks then Proven else NoDenial;
  }

  method ProveNoCloserMatch(hs: HashSuite, records: seq<RR>, qname: Name) returns (v: Verdict)
    ensures v == NoCloserMatchVerdict(hs, records, qname)
  {
    var d := CollectDenial(records);
    if d.None? { return NoDenial; }
    if d.value.HashedProof? {
      var e := SearchEncloser(hs, d.value.nsec3, qname, d.value.zone);
      if e.EncloserError? { return e.verdict; }
      var cover := ScanCover(hs, d.value.nsec3, e.nextCloser);
      if cover.FindError? { return cover.verdict; }
      return if cover.Miss? then NoDenial else Proven;
    }
    var covering := ScanCovering(d.value.nsec, qname);
    return if covering.None? then NoDenial else Proven;
  }
}

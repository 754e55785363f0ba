/** What the NSEC3 checker's verdicts mean for the zone that signed the records. */
module Nsec3Proofs {
  import opened Octets
  import opened Names
  import opened Messages
  import opened Canonical
  import opened Nsec3
  import opened Zones
  import DenialProofs

  /** The hash of section 5 of RFC 5155, after some number of additional rounds: each
      digest is over what went before with the salt appended. */
  function IteratedHash(hs: HashSuite, wire: Bytes, salt: Bytes, rounds: nat): Bytes {
    if rounds == 0 then hs.digest(wire + salt) else hs.digest(IteratedHash(hs, wire, salt, rounds - 1) + salt)
  }

  /** A zone signed with NSEC3: which of its existing names have a record, and
      the parameters every record shares. */
  datatype HashedZone = HashedZone(zone: Zone, hashed: set<Name>, salt: Bytes, iterations: U16)
  {
    predicate Hashes(n: Name) {
      n in hashed
    }

    /** Hashed names exist and include every ancestor of theirs up to the apex; an
        owner may be left out only if it is an unsigned delegation (section 6 of
        RFC 5155). */
    ghost predicate Valid() {
      && zone.Tree()
      && Hashes(zone.apex)
      && forall j {:trigger Opened(Door.Zones, j)} | Opened(Door.Zones, j) :: Closed()
    }

    ghost predicate Closed() {
      && (forall n {:trigger Hashes(n)} | Hashes(n) :: IsSuffix(zone.apex, n) && zone.Exists(n) && LabelsOk(n))
      && (forall n, s {:trigger Hashes(n), IsSuffix(s, n)} | Hashes(n) && IsSuffix(s, n)
          && IsSuffix(zone.apex, s) :: Hashes(s))
      && (forall o {:trigger zone.Owns(o)} | zone.Owns(o) && !Hashes(o) :: Optional(o))
    }

    /** A delegation without DS, and so without an alias, and no wildcard. */
    predicate Optional(o: Name) {
      && zone.IsCut(o) && TypeDS !in zone.types[o] && TypeCNAME !in zone.types[o]
      && (o == [] || o[0] != [STAR])
    }

    function TypesAt(n: Name): set<U16> {
      if n in zone.types then zone.types[n] else {}
    }

    /** The hash of a lowercased name under the zone's parameters. */
    function HashOf(hs: HashSuite, n: Name): Bytes {
      if LabelsOk(n) then hs.text(IteratedHash(hs, WireName(n), salt, iterations)) else []
    }
  }

  ghost predicate IsHash(hs: HashSuite, hz: HashedZone, h: Bytes) {
    exists w {:trigger hz.Hashes(w)} | hz.Hashes(w) :: hz.HashOf(hs, w) == h
  }

  /** next is the hash after h in the zone's cyclic chain of hashes. */
  ghost predicate IsNextHash(hs: HashSuite, hz: HashedZone, h: Bytes, next: Bytes) {
    && IsHash(hs, hz, next)
    && if exists w {:trigger hz.Hashes(w)} | hz.Hashes(w) :: Compare(h, hz.HashOf(hs, w)) < 0
       then
         && Compare(h, next) < 0
         && forall w {:trigger hz.Hashes(w)} | hz.Hashes(w) && Compare(h, hz.HashOf(hs, w)) < 0 ::
              Compare(next, hz.HashOf(hs, w)) <= 0
       else
         forall w {:trigger hz.Hashes(w)} | hz.Hashes(w) :: Compare(next, hz.HashOf(hs, w)) <= 0
  }

  ghost predicate RecordAt(hs: HashSuite, hz: HashedZone, r: Nsec3Record, o: Name) {
    && hz.Hashes(o)
    && r.owner == hz.HashOf(hs, o)
    && DenialProofs.BitmapOf(r.rr.typeBitmap, hz.TypesAt(o))
  }

  /** The record is one of the zone's own chain. Unless it opts out, its gap holds
      the hash of no owner, with or without a record. */
  ghost predicate Authentic(hs: HashSuite, hz: HashedZone, r: Nsec3Record) {
    && r.rr.algorithm == HASH_SHA1 && r.rr.salt == hz.salt && r.rr.iterations == hz.iterations
    && (exists o {:trigger hz.Hashes(o)} :: RecordAt(hs, hz, r, o))
    && IsNextHash(hs, hz, r.owner, hs.text(r.rr.nextHashed))
    && (!r.rr.OptOut() ==>
          forall o {:trigger hz.zone.Owns(o)} | hz.zone.Owns(o) && !hz.Hashes(o) && LabelsOk(o) ::
            !Covers3(hs, r, hz.HashOf(hs, o)))
  }

  /** An owner without a record lies below the name: the only way a name without
      a record can exist is to be above such an owner, or one itself. */
  ghost predicate LeftOut(hz: HashedZone, n: Name) {
    exists o {:trigger hz.zone.Owns(o)} | hz.zone.Owns(o) && !hz.Hashes(o) :: IsSuffix(n, o)
  }

  ghost predicate AllAuthentic(hs: HashSuite, hz: HashedZone, nsec3s: seq<Nsec3Record>) {
    forall i {:trigger DenialProofs.Index(nsec3s, i)} | DenialProofs.Index(nsec3s, i) :: Authentic(hs, hz, nsec3s[i])
  }

  /** No hashed name other than n itself has n's hash. */
  ghost predicate NoCollision(hs: HashSuite, hz: HashedZone, n: Name) {
    forall o {:trigger hz.Hashes(o)} | hz.Hashes(o) && hz.HashOf(hs, o) == hz.HashOf(hs, n) :: o == n
  }

  /** Being an ancestor, stated so that proofs choose the ancestors they speak of. */
  predicate Above(s: Name, c: Name) {
    IsSuffix(s, c)
  }

  /** The hash tells apart the names a proof about c has to hash. */
  ghost predicate Separated(hs: HashSuite, hz: HashedZone, c: Name) {
    forall s {:trigger Above(s, c)} | Above(s, c) :: NoCollision(hs, hz, s) && NoCollision(hs, hz, Wildcard(s))
  }

  lemma HashedExists(hz: HashedZone, n: Name)
    requires hz.Valid() && hz.Hashes(n)
    ensures IsSuffix(hz.zone.apex, n) && hz.zone.Exists(n) && LabelsOk(n)
  {
    assert Opened(Door.Zones, 0);
  }

  lemma HashedUp(hz: HashedZone, n: Name, s: Name)
    requires hz.Valid() && hz.Hashes(n) && IsSuffix(s, n) && IsSuffix(hz.zone.apex, s)
    ensures hz.Hashes(s)
  {
    assert Opened(Door.Zones, 0);
  }

  lemma UnhashedOwner(hz: HashedZone, o: Name)
    requires hz.Valid() && hz.zone.Owns(o) && !hz.Hashes(o)
    ensures hz.Optional(o)
  {
    assert Opened(Door.Zones, 0);
  }

  /** A name without a record exists exactly if it is above an owner left out. */
  lemma UnhashedExists(hz: HashedZone, n: Name)
    requires hz.Valid() && IsSuffix(hz.zone.apex, n) && !hz.Hashes(n)
    ensures hz.zone.Exists(n) <==> LeftOut(hz, n)
  {
    if hz.zone.Exists(n) {
      var o :| hz.zone.Owns(o) && IsSuffix(n, o);
      if hz.Hashes(o) { HashedUp(hz, o, n); }
    }
  }

  // ---- the checker's hash is the zone's ----

  /** The digests one after the other: the first is over the name in wire form, each
      next one over the one before, with the salt appended every time. */
  ghost predicate Digests(hs: HashSuite, wire: Bytes, salt: Bytes, sums: seq<Bytes>) {
    && sums != [] && sums[0] == hs.digest(wire + salt)
    && forall i, j | 0 <= i < |sums| && j == i + 1 && j < |sums| :: sums[j] == hs.digest(sums[i] + salt)
  }

  lemma {:induction false} RehashIsIterated(hs: HashSuite, wire: Bytes, salt: Bytes, rounds: nat)
    ensures Rehash(hs, hs.digest(wire + salt), salt, rounds) == IteratedHash(hs, wire, salt, rounds)
  {
    if rounds > 0 { RehashIsIterated(hs, wire, salt, rounds - 1); }
  }

  lemma {:induction false} RehashIsLast(hs: HashSuite, wire: Bytes, salt: Bytes, sums: seq<Bytes>)
    requires Digests(hs, wire, salt, sums)
    ensures Rehash(hs, hs.digest(wire + salt), salt, |sums| - 1) == sums[|sums| - 1]
    decreases |sums|
  {
    if |sums| > 1 {
      var front := sums[..|sums| - 1];
      assert Digests(hs, wire, salt, front);
      RehashIsLast(hs, wire, salt, front);
    }
  }

  /** A name is hashed, unless it has no wire form or the record asks for more than the
      checker does: what it gets is the text of the last of as many digests as there are
      iterations and one more, over the lowercased name. */
  lemma HashIsLastDigest(hs: HashSuite, n: NSEC3, name: Name, sums: seq<Bytes>)
    requires LabelsOk(Canon(name)) ==> Digests(hs, WireName(Canon(name)), n.salt, sums)
    requires |sums| == n.iterations + 1
    ensures HashName(hs, n, name) ==
            if n.algorithm != 1 || n.iterations > 100 then HashError(Unsupported)
            else if !LabelsOk(name) then HashError(Malformed)
            else Hash(hs.text(sums[|sums| - 1]))
  {
    LabelsOkCanon(name);
    if LabelsOk(name) { RehashIsLast(hs, WireName(Canon(name)), n.salt, sums); }
  }

  // ---- searching ----

  lemma AllAuthenticTail(hs: HashSuite, hz: HashedZone, nsec3s: seq<Nsec3Record>)
    requires AllAuthentic(hs, hz, nsec3s) && nsec3s != []
    ensures AllAuthentic(hs, hz, nsec3s[1..])
  {
    forall i {:trigger DenialProofs.Index(nsec3s[1..], i)} | DenialProofs.Index(nsec3s[1..], i)
        ensures Authentic(hs, hz, nsec3s[1..][i]) {
      assert DenialProofs.Index(nsec3s, i + 1);
    }
  }

  lemma SameHash(hs: HashSuite, hz: HashedZone, r: Nsec3Record, x: Name)
    requires Authentic(hs, hz, r) && HashName(hs, r.rr, x).Hash?
    ensures HashName(hs, r.rr, x).text == hz.HashOf(hs, Canon(x)) && LabelsOk(Canon(x))
  {
    LabelsOkCanon(x);
    RehashIsIterated(hs, WireName(Canon(x)), hz.salt, hz.iterations);
  }

  lemma {:induction false} FoundMatch(hs: HashSuite, hz: HashedZone, nsec3s: seq<Nsec3Record>, x: Name)
    requires AllAuthentic(hs, hz, nsec3s)
    ensures match FindMatch(hs, nsec3s, x)
            case Hit(r) => Authentic(hs, hz, r) && r.owner == hz.HashOf(hs, Canon(x)) && LabelsOk(Canon(x))
            case Miss => forall i | 0 <= i < |nsec3s| :: nsec3s[i].owner != hz.HashOf(hs, Canon(x))
            case FindError(_) => true
  {
    if nsec3s != [] {
      assert DenialProofs.Index(nsec3s, 0);
      AllAuthenticTail(hs, hz, nsec3s);
      if HashName(hs, nsec3s[0].rr, x).Hash? { SameHash(hs, hz, nsec3s[0], x); }
      FoundMatch(hs, hz, nsec3s[1..], x);
      assert forall i | 1 <= i < |nsec3s| :: nsec3s[i] == nsec3s[1..][i - 1];
    }
  }

  lemma {:induction false} FoundCover(hs: HashSuite, hz: HashedZone, nsec3s: seq<Nsec3Record>, x: Name)
    requires AllAuthentic(hs, hz, nsec3s)
    ensures match FindCover(hs, nsec3s, x)
            case Hit(r) => Authentic(hs, hz, r) && Covers3(hs, r, hz.HashOf(hs, Canon(x))) && LabelsOk(Canon(x))
            case Miss => forall i | 0 <= i < |nsec3s| :: !Covers3(hs, nsec3s[i], hz.HashOf(hs, Canon(x)))
            case FindError(_) => true
  {
    if nsec3s != [] {
      assert DenialProofs.Index(nsec3s, 0);
      AllAuthenticTail(hs, hz, nsec3s);
      if HashName(hs, nsec3s[0].rr, x).Hash? { SameHash(hs, hz, nsec3s[0], x); }
      FoundCover(hs, hz, nsec3s[1..], x);
      assert forall i | 1 <= i < |nsec3s| :: nsec3s[i] == nsec3s[1..][i - 1];
    }
  }

  lemma {:induction false} FoundEncloser(hs: HashSuite, nsec3s: seq<Nsec3Record>, x: Name, zone: Name, i: nat)
      returns (k: nat)
    requires 1 <= i && EncloserFrom(hs, nsec3s, x, zone, i).Enclosing?
    ensures i <= k <= |x| - |zone| && FindMatch(hs, nsec3s, x[k..]).Hit?
    ensures EncloserFrom(hs, nsec3s, x, zone, i) == Enclosing(x[k..], x[k - 1..])
    decreases |x| - i
  {
    k := i;
    if FindMatch(hs, nsec3s, x[i..]).Miss? { k := FoundEncloser(hs, nsec3s, x, zone, i + 1); }
  }

  // ---- what one record says ----

  /** A matching record means the name is there, with the types it lists. */
  lemma MatchMeans(hs: HashSuite, hz: HashedZone, r: Nsec3Record, c: Name)
    requires Authentic(hs, hz, r) && r.owner == hz.HashOf(hs, c) && NoCollision(hs, hz, c)
    ensures hz.Hashes(c) && DenialProofs.BitmapOf(r.rr.typeBitmap, hz.TypesAt(c))
  {
    var o :| RecordAt(hs, hz, r, o);
    assert hz.Hashes(o);
    assert hz.HashOf(hs, o) == hz.HashOf(hs, c);
    assert o == c;
  }

  lemma GapIsEmpty(hs: HashSuite, hz: HashedZone, h: Bytes, next: Bytes, w: Name)
    requires IsNextHash(hs, hz, h, next) && hz.Hashes(w)
    ensures !InGap(h, hz.HashOf(hs, w), next)
  {
    CompareFlip(hz.HashOf(hs, w), h);
    CompareFlip(hz.HashOf(hs, w), next);
  }

  /** A covered hash is the hash of no name with a record, and unless the record
      opts out, of no owner: the name exists only if owners left out lie below. */
  lemma CoverMeans(hs: HashSuite, hz: HashedZone, r: Nsec3Record, c: Name)
    requires hz.Valid() && Authentic(hs, hz, r) && Covers3(hs, r, hz.HashOf(hs, c)) && LabelsOk(c)
    requires IsSuffix(hz.zone.apex, c)
    ensures !hz.Hashes(c) && (hz.zone.Exists(c) <==> LeftOut(hz, c))
    ensures !r.rr.OptOut() ==> c !in hz.zone.types
  {
    if hz.Hashes(c) { GapIsEmpty(hs, hz, r.owner, hs.text(r.rr.nextHashed), c); }
    UnhashedExists(hz, c);
    if hz.zone.Owns(c) { assert c in hz.zone.types; }
  }

  /** Whatever sits at or below a name that is not hashed is an unsigned
      delegation. */
  lemma UnhashedBelow(hz: HashedZone, s: Name, o: Name)
    requires hz.Valid() && IsSuffix(hz.zone.apex, s) && !hz.Hashes(s)
    requires hz.zone.Owns(o) && IsSuffix(s, o)
    ensures hz.Optional(o) && !hz.Hashes(o)
  {
    if hz.Hashes(o) { HashedUp(hz, o, s); }
    UnhashedOwner(hz, o);
  }

  /** Below the deepest name that is there, with the next name down known not to
      exist, the tree stops. */
  lemma StopsAt(z: Zone, c: Name, k: nat)
    requires z.Tree() && IsSuffix(z.apex, c) && 1 <= k <= |c|
    requires IsSuffix(z.apex, c[k..]) && z.Exists(c[k..]) && !z.Exists(c[k - 1..])
    ensures !z.Exists(c) && z.Encloser(c) == c[k..]
  {
    AncestorSlice(c, k);
    AncestorSlice(c, k - 1);
    EncloserDeepest(z, c, c[k..]);
    EncloserShort(z, c, k);
    NothingBelow(z, c, k, c);
  }

  lemma AncestorSlice(c: Name, k: nat)
    requires k <= |c|
    ensures IsSuffix(c[k..], c) && IsSuffix(c, c)
  {}

  lemma EncloserShort(z: Zone, c: Name, k: nat)
    requires z.apex in z.types && IsSuffix(z.apex, c) && 1 <= k <= |c|
    requires IsSuffix(c[k - 1..], c) && !z.Exists(c[k - 1..])
    ensures |z.Encloser(c)| <= |c| - k
  {
    EncloserExists(z, c);
    if |z.Encloser(c)| > |c| - k { NothingBelow(z, c, k, z.Encloser(c)); }
  }

  lemma NothingBelow(z: Zone, c: Name, k: nat, e: Name)
    requires 1 <= k <= |c| && !z.Exists(c[k - 1..]) && IsSuffix(c[k - 1..], c)
    requires IsSuffix(e, c) && |e| > |c| - k
    ensures !z.Exists(e)
  {
    SuffixNested(c[k - 1..], e, c);
    if z.Exists(e) { ExistsUp(z, c[k - 1..], e); }
  }

  lemma ExistsUp(z: Zone, s: Name, n: Name)
    requires IsSuffix(s, n) && z.Exists(n)
    ensures z.Exists(s)
  {
    var o :| z.Owns(o) && IsSuffix(n, o);
    SuffixTrans(s, n, o);
  }

  lemma SameBothWays(a: Name, b: Name)
    requires IsSuffix(a, b) && IsSuffix(b, a)
    ensures a == b
  {
    assert b[0..] == b;
  }

  lemma ExistingAtCut(z: Zone, cut: Name, c: Name)
    requires z.Tree() && z.Exists(c) && z.Owns(cut) && z.IsCut(cut) && IsSuffix(cut, c)
    ensures c == cut
  {
    var o :| z.Owns(o) && IsSuffix(c, o);
    SuffixTrans(cut, c, o);
    SameBothWays(cut, c);
  }

  /** Nothing that exists is below a delegation. */
  lemma OwnedBelow(z: Zone, c: Name)
    requires z.Tree() && z.Exists(c)
    ensures !z.BelowCut(c)
  {
    if z.BelowCut(c) {
      var cut :| z.Owns(cut) && z.IsCut(cut) && IsSuffix(cut, c) && cut != c;
      ExistingAtCut(z, cut, c);
    }
  }

  // ---- the lookup of a name under the last ancestor with a record ----

  /** The ancestor with k labels removed has a record, and the one below it none. */
  ghost predicate Splits(hz: HashedZone, c: Name, k: nat) {
    && hz.Valid() && 1 <= k <= |c| && IsSuffix(hz.zone.apex, c) && IsSuffix(hz.zone.apex, c[k..])
    && IsSuffix(hz.zone.apex, c[k - 1..]) && hz.Hashes(c[k..]) && !hz.Hashes(c[k - 1..])
  }

  /** A delegation at or above such a name is that ancestor, or was left out below it. */
  lemma CutAbove(hz: HashedZone, c: Name, k: nat, o: Name)
    requires Splits(hz, c, k) && hz.zone.Owns(o) && hz.zone.IsCut(o) && IsSuffix(o, c)
    ensures o == c[k..] || (|o| > |c| - k && !hz.Hashes(o) && hz.Optional(o))
  {
    AncestorSlice(c, k);
    AncestorSlice(c, k - 1);
    if |o| <= |c| - k {
      SuffixNested(o, c[k..], c);
      HashedExists(hz, c[k..]);
      ExistingAtCut(hz.zone, o, c[k..]);
    } else {
      SuffixNested(c[k - 1..], o, c);
      UnhashedBelow(hz, c[k - 1..], o);
    }
  }

  /** One of the names below that ancestor, from j labels removed on, is an owner. */
  ghost predicate OwnedBetween(z: Zone, c: Name, j: nat, k: nat) {
    exists i: nat {:trigger Removed(c, i)} | j <= i < k <= |c| :: Removed(c, i) in z.types
  }

  function Removed(c: Name, i: nat): Name {
    if i <= |c| then c[i..] else []
  }

  lemma ReferredAtCut(hz: HashedZone, c: Name, k: nat, qtype: U16)
    requires Splits(hz, c, k) && hz.zone.IsCut(c[k..])
    ensures hz.zone.Lookup(c, qtype) == Referral
  {
    AncestorSlice(c, k);
    assert hz.zone.Owns(c[k..]) && |c[k..]| < |c|;
  }

  /** A referral from elsewhere is to a delegation that was left out. */
  lemma ReferredBetween(hz: HashedZone, c: Name, k: nat, qtype: U16)
    requires Splits(hz, c, k) && !hz.zone.IsCut(c[k..]) && hz.zone.Lookup(c, qtype) == Referral
    ensures OwnedBetween(hz.zone, c, if qtype == TypeDS then 1 else 0, k)
  {
    var z := hz.zone;
    var o := c;
    if z.BelowCut(c) { o :| z.Owns(o) && z.IsCut(o) && IsSuffix(o, c) && o != c; }
    assert z.Owns(o) && z.IsCut(o) && IsSuffix(o, c) by { AncestorSlice(c, 0); }
    CutAbove(hz, c, k, o);
    var i := |c| - |o|;
    assert Removed(c, i) == o;
    if i == 0 { SameBothWays(o, c); }
  }

  /** Nothing exists below the ancestor: the lookup is its wildcard's. */
  lemma StoppedLookup(hz: HashedZone, c: Name, k: nat, qtype: U16)
    requires Splits(hz, c, k) && !hz.zone.IsCut(c[k..]) && !hz.zone.Exists(c[k - 1..])
    ensures !hz.zone.Exists(c) && hz.zone.Encloser(c) == c[k..]
    ensures var w := Wildcard(c[k..]);
            hz.zone.Lookup(c, qtype) == if w in hz.zone.types then hz.zone.AtOwner(w, qtype)
                                        else if hz.zone.Exists(w) then NoData else NameError
  {
    var z := hz.zone;
    HashedExists(hz, c[k..]);
    StopsAt(z, c, k);
    if c in z.types { assert z.Owns(c) && IsSuffix(c, c); }
    CutIsEncloser(z, c);
  }

  /** Something below it was left out and exists: nothing is found there. */
  lemma OmittedLookup(hz: HashedZone, c: Name, k: nat, qtype: U16)
    requires Splits(hz, c, k) && !hz.zone.IsCut(c[k..]) && hz.zone.Exists(c[k - 1..])
    ensures hz.zone.Lookup(c, qtype) in {Referral, NoData, NameError}
  {
    var z, n := hz.zone, c[k - 1..];
    AncestorSlice(c, k - 1);
    if c in z.types {
      assert z.Owns(c);
      UnhashedBelow(hz, n, c);
    } else if !z.Exists(c) {
      var e := z.Encloser(c);
      EncloserDeepest(z, c, n);
      SuffixNested(n, e, c);
      OmittedWildcard(hz, n, e);
    }
  }

  /** No wildcard is owned below a name without a record. */
  lemma OmittedWildcard(hz: HashedZone, n: Name, e: Name)
    requires hz.Valid() && IsSuffix(hz.zone.apex, n) && !hz.Hashes(n) && IsSuffix(n, e)
    ensures Wildcard(e) !in hz.zone.types
  {
    var w := Wildcard(e);
    assert w[1..] == e;
    SuffixTrans(n, e, w);
    if w in hz.zone.types {
      assert hz.zone.Owns(w);
      UnhashedBelow(hz, n, w);
    }
  }

  // ---- the closest encloser ----

  /** The setting of every proof below: authentic records, shown for a name of
      the zone, with a hash that tells the names involved apart. */
  ghost predicate Setting(hs: HashSuite, hz: HashedZone, nsec3s: seq<Nsec3Record>, x: Name, zone: Name) {
    && hz.Valid() && AllAuthentic(hs, hz, nsec3s)
    && IsSuffix(hz.zone.apex, Canon(x)) && |zone| == |hz.zone.apex|
    && Separated(hs, hz, Canon(x))
  }

  /** A name cut at its k-th label and one before, lowercased and inside the zone. */
  predicate CutAt(x: Name, apex: Name, k: nat) {
    var c := Canon(x);
    && 1 <= k <= |x| && Canon(x[k..]) == c[k..] && Canon(x[k - 1..]) == c[k - 1..]
    && IsSuffix(c[k..], c) && IsSuffix(c[k - 1..], c)
    && IsSuffix(apex, c[k..]) && IsSuffix(apex, c[k - 1..])
  }

  lemma CutNames(x: Name, apex: Name, k: nat)
    requires IsSuffix(apex, Canon(x)) && 1 <= k <= |x| - |apex|
    ensures CutAt(x, apex, k)
  {
    var c := Canon(x);
    CanonSlice(x, k);
    CanonSlice(x, k - 1);
    assert IsSuffix(c[k..], c) && IsSuffix(c[k - 1..], c);
    SuffixNested(apex, c[k..], c);
    SuffixNested(apex, c[k - 1..], c);
  }

  lemma SeparatedAt(hs: HashSuite, hz: HashedZone, x: Name, k: nat)
    requires Separated(hs, hz, Canon(x)) && k <= |x|
    ensures Canon(x[k..]) == Canon(x)[k..]
    ensures NoCollision(hs, hz, Canon(x)[k..]) && NoCollision(hs, hz, Wildcard(Canon(x)[k..]))
  {
    CanonSlice(x, k);
    assert Above(Canon(x)[k..], Canon(x));
  }

  lemma AncestorMatched(hs: HashSuite, hz: HashedZone, nsec3s: seq<Nsec3Record>, x: Name, k: nat)
    requires hz.Valid() && AllAuthentic(hs, hz, nsec3s) && Separated(hs, hz, Canon(x)) && k <= |x|
    requires FindMatch(hs, nsec3s, x[k..]).Hit?
    ensures hz.Hashes(Canon(x)[k..]) && hz.zone.Exists(Canon(x)[k..])
  {
    SeparatedAt(hs, hz, x, k);
    FoundMatch(hs, hz, nsec3s, x[k..]);
    MatchMeans(hs, hz, FindMatch(hs, nsec3s, x[k..]).record, Canon(x)[k..]);
    HashedExists(hz, Canon(x)[k..]);
  }

  lemma EncloserMeans(hs: HashSuite, hz: HashedZone, nsec3s: seq<Nsec3Record>, x: Name, zone: Name) returns (k: nat)
    requires Setting(hs, hz, nsec3s, x, zone) && ClosestEncloser3(hs, nsec3s, x, zone).Enclosing?
    ensures CutAt(x, hz.zone.apex, k)
    ensures ClosestEncloser3(hs, nsec3s, x, zone) == Enclosing(x[k..], x[k - 1..])
    ensures hz.Hashes(Canon(x)[k..]) && hz.zone.Exists(Canon(x)[k..])
  {
    k := FoundEncloser(hs, nsec3s, x, zone, 1);
    CutNames(x, hz.zone.apex, k);
    AncestorMatched(hs, hz, nsec3s, x, k);
  }

  /** Only unsigned delegations own anything at or below a name. */
  ghost predicate OnlyUnsigned(hz: HashedZone, c: Name) {
    forall o {:trigger hz.zone.Owns(o)} | hz.zone.Owns(o) && IsSuffix(c, o) ::
      hz.zone.IsCut(o) && TypeDS !in hz.zone.types[o]
  }

  lemma OnlyUnsignedBelow(hz: HashedZone, s: Name, c: Name)
    requires hz.Valid() && IsSuffix(hz.zone.apex, s) && !hz.Hashes(s) && IsSuffix(s, c)
    ensures OnlyUnsigned(hz, c) && !hz.Hashes(c)
  {
    forall o {:trigger hz.zone.Owns(o)} | hz.zone.Owns(o) && IsSuffix(c, o)
      ensures hz.zone.IsCut(o) && TypeDS !in hz.zone.types[o]
    {
      SuffixTrans(s, c, o);
      UnhashedBelow(hz, s, o);
    }
    if hz.Hashes(c) { HashedUp(hz, c, s); }
  }

  /** The next closer name is covered: nothing with a record is at or below it, and
      unless an owner was left out below it the tree stops at the encloser. */
  lemma NextCloserMeans(hs: HashSuite, hz: HashedZone, nsec3s: seq<Nsec3Record>, x: Name, zone: Name) returns (k: nat)
    requires Setting(hs, hz, nsec3s, x, zone) && ClosestEncloser3(hs, nsec3s, x, zone).Enclosing?
    requires var e := ClosestEncloser3(hs, nsec3s, x, zone); FindCover(hs, nsec3s, e.nextCloser).Hit?
    ensures var r := ClosestEncloser3(hs, nsec3s, x, zone);
            var c := Canon(x);
            && 1 <= k <= |c| && Canon(r.encloser) == c[k..] && r.encloser == x[k..] && r.nextCloser == x[k - 1..]
            && IsSuffix(hz.zone.apex, c[k..]) && hz.Hashes(c[k..]) && Splits(hz, c, k)
            && !hz.Hashes(c) && c != hz.zone.apex && OnlyUnsigned(hz, c)
            && (!LeftOut(hz, c[k - 1..]) ==> !hz.zone.Exists(c) && hz.zone.Encloser(c) == c[k..])
            && (!FindCover(hs, nsec3s, r.nextCloser).record.rr.OptOut() ==> c[k - 1..] !in hz.zone.types)
  {
    k := EncloserMeans(hs, hz, nsec3s, x, zone);
    NextCloserCovered(hs, hz, nsec3s, x, k);
  }

  lemma NextCloserCovered(hs: HashSuite, hz: HashedZone, nsec3s: seq<Nsec3Record>, x: Name, k: nat)
    requires hz.Valid() && AllAuthentic(hs, hz, nsec3s) && 1 <= k <= |x|
    requires var c := Canon(x);
             && IsSuffix(hz.zone.apex, c) && IsSuffix(hz.zone.apex, c[k..]) && IsSuffix(hz.zone.apex, c[k - 1..])
             && hz.Hashes(c[k..]) && hz.zone.Exists(c[k..]) && Canon(x[k - 1..]) == c[k - 1..]
    requires FindCover(hs, nsec3s, x[k - 1..]).Hit?
    ensures var c := Canon(x);
            && !hz.Hashes(c) && !hz.Hashes(c[k - 1..]) && c != hz.zone.apex && OnlyUnsigned(hz, c)
            && (!LeftOut(hz, c[k - 1..]) ==> !hz.zone.Exists(c) && hz.zone.Encloser(c) == c[k..])
            && (!FindCover(hs, nsec3s, x[k - 1..]).record.rr.OptOut() ==> c[k - 1..] !in hz.zone.types)
  {
    var c := Canon(x);
    FoundCover(hs, hz, nsec3s, x[k - 1..]);
    CoverMeans(hs, hz, FindCover(hs, nsec3s, x[k - 1..]).record, c[k - 1..]);
    assert IsSuffix(c[k - 1..], c);
    OnlyUnsignedBelow(hz, c[k - 1..], c);
    if !LeftOut(hz, c[k - 1..]) { StopsAt(hz.zone, c, k); }
  }

  lemma NoCloserShape(hs: HashSuite, nsec3s: seq<Nsec3Record>, x: Name, zone: Name)
    requires NoCloserMatch3(hs, nsec3s, x, zone) == Proven
    ensures var r := ClosestEncloser3(hs, nsec3s, x, zone);
            r.Enclosing? && FindCover(hs, nsec3s, r.nextCloser).Hit?
  {}

  lemma NameErrorShape(hs: HashSuite, nsec3s: seq<Nsec3Record>, x: Name, zone: Name)
    requires NameError3(hs, nsec3s, x, zone) == Proven
    ensures var r := ClosestEncloser3(hs, nsec3s, x, zone);
            r.Enclosing? && FindCover(hs, nsec3s, r.nextCloser).Hit? && FindCover(hs, nsec3s, Wildcard(r.encloser)).Hit?
  {}

  lemma NoDataShape(hs: HashSuite, nsec3s: seq<Nsec3Record>, x: Name, qtype: U16, zone: Name)
    requires NoData3(hs, nsec3s, x, qtype, zone) == Proven
    ensures !FindMatch(hs, nsec3s, x).FindError?
    ensures FindMatch(hs, nsec3s, x).Hit? ==> EmptyAtOwner(FindMatch(hs, nsec3s, x).record.rr.typeBitmap, qtype)
    ensures FindMatch(hs, nsec3s, x).Miss? ==>
              var r := ClosestEncloser3(hs, nsec3s, x, zone);
              && r.Enclosing? && FindCover(hs, nsec3s, r.nextCloser).Hit?
              && ((qtype == TypeDS && FindCover(hs, nsec3s, r.nextCloser).record.rr.OptOut())
                  || (FindMatch(hs, nsec3s, Wildcard(r.encloser)).Hit?
                      && !TypeInBitmap(FindMatch(hs, nsec3s, Wildcard(r.encloser)).record.rr.typeBitmap, qtype)))
  {}

  lemma NoDSShape(hs: HashSuite, nsec3s: seq<Nsec3Record>, child: Name)
    requires NoDS3(hs, nsec3s, child) == Proven
    ensures FindMatch(hs, nsec3s, child).Hit? ==>
              var m := FindMatch(hs, nsec3s, child).record.rr.typeBitmap;
              !TypeInBitmap(m, TypeSOA) && !TypeInBitmap(m, TypeDS)
    ensures !FindMatch(hs, nsec3s, child).Hit? ==> FindCover(hs, nsec3s, child).Hit?
  {}

  // ---- name error ----

  lemma WildcardCovered(hs: HashSuite, hz: HashedZone, nsec3s: seq<Nsec3Record>, e: Name)
    requires hz.Valid() && AllAuthentic(hs, hz, nsec3s) && IsSuffix(hz.zone.apex, Canon(e))
    requires FindCover(hs, nsec3s, Wildcard(e)).Hit?
    ensures var w := Wildcard(Canon(e));
            && !hz.Hashes(w) && (hz.zone.Exists(w) <==> LeftOut(hz, w))
            && (!FindCover(hs, nsec3s, Wildcard(e)).record.rr.OptOut() ==> w !in hz.zone.types)
  {
    CanonWildcard(e);
    assert Wildcard(Canon(e))[1..] == Canon(e);
    SuffixTrans(hz.zone.apex, Canon(e), Wildcard(Canon(e)));
    FoundCover(hs, hz, nsec3s, Wildcard(e));
    CoverMeans(hs, hz, FindCover(hs, nsec3s, Wildcard(e)).record, Wildcard(Canon(e)));
  }

  /** The encloser a proof found, lowercased. */
  function FoundEncloserOf(hs: HashSuite, nsec3s: seq<Nsec3Record>, x: Name, zone: Name): Name {
    match ClosestEncloser3(hs, nsec3s, x, zone)
    case Enclosing(e, _) => Canon(e)
    case EncloserError(_) => []
  }

  /** The name one label below the encloser found, and the wildcard there. */
  function NextCloserOf(hs: HashSuite, nsec3s: seq<Nsec3Record>, x: Name, zone: Name): Name {
    match ClosestEncloser3(hs, nsec3s, x, zone)
    case Enclosing(_, n) => Canon(n)
    case EncloserError(_) => []
  }

  /** The record covering a name opts out. */
  predicate CoverOptsOut(hs: HashSuite, nsec3s: seq<Nsec3Record>, x: Name) {
    match FindCover(hs, nsec3s, x)
    case Hit(r) => r.rr.OptOut()
    case _ => false
  }

  /** A record covers the name and does not opt out: the name is no owner. */
  predicate NoOwnerShown(hs: HashSuite, nsec3s: seq<Nsec3Record>, x: Name) {
    FindCover(hs, nsec3s, x).Hit? && !CoverOptsOut(hs, nsec3s, x)
  }

  /** So it is with every name from x, j labels removed, up to the encloser found. */
  predicate NoneShownFrom(hs: HashSuite, nsec3s: seq<Nsec3Record>, x: Name, zone: Name, j: nat) {
    match ClosestEncloser3(hs, nsec3s, x, zone)
    case Enclosing(e, _) => forall i | j <= i < |x| - |e| && i <= |x| :: NoOwnerShown(hs, nsec3s, x[i..])
    case EncloserError(_) => false
  }

  /** The types listed are those of the parent's side of a delegation. */
  predicate ListsCut(bitmap: Bytes) {
    TypeInBitmap(bitmap, TypeNS) && !TypeInBitmap(bitmap, TypeSOA)
  }

  function EncloserTypes(hs: HashSuite, nsec3s: seq<Nsec3Record>, x: Name, zone: Name): Bytes {
    match ClosestEncloser3(hs, nsec3s, x, zone)
    case EncloserError(_) => []
    case Enclosing(e, _) =>
      match FindMatch(hs, nsec3s, e)
      case Hit(m) => m.rr.typeBitmap
      case _ => []
  }

  /** The record that matched the encloser found is a delegation's. */
  predicate EncloserIsCut(hs: HashSuite, nsec3s: seq<Nsec3Record>, x: Name, zone: Name) {
    ListsCut(EncloserTypes(hs, nsec3s, x, zone))
  }

  lemma ListedTypes(hs: HashSuite, hz: HashedZone, m: Nsec3Record, e: Name)
    requires Authentic(hs, hz, m) && m.owner == hz.HashOf(hs, e) && NoCollision(hs, hz, e)
    ensures DenialProofs.BitmapOf(m.rr.typeBitmap, hz.TypesAt(e))
    ensures ListsCut(m.rr.typeBitmap) <==> hz.zone.IsCut(e)
  {
    MatchMeans(hs, hz, m, e);
    assert TypeInBitmap(m.rr.typeBitmap, TypeNS) <==> TypeNS in hz.TypesAt(e);
    assert TypeInBitmap(m.rr.typeBitmap, TypeSOA) <==> TypeSOA in hz.TypesAt(e);
  }

  lemma EncloserListed(hs: HashSuite, hz: HashedZone, nsec3s: seq<Nsec3Record>, x: Name, zone: Name)
    requires Setting(hs, hz, nsec3s, x, zone) && ClosestEncloser3(hs, nsec3s, x, zone).Enclosing?
    ensures DenialProofs.BitmapOf(EncloserTypes(hs, nsec3s, x, zone),
                                  hz.TypesAt(FoundEncloserOf(hs, nsec3s, x, zone)))
    ensures EncloserIsCut(hs, nsec3s, x, zone) <==> hz.zone.IsCut(FoundEncloserOf(hs, nsec3s, x, zone))
  {
    var k := FoundEncloser(hs, nsec3s, x, zone, 1);
    SeparatedAt(hs, hz, x, k);
    FoundMatch(hs, hz, nsec3s, x[k..]);
    ListedTypes(hs, hz, FindMatch(hs, nsec3s, x[k..]).record, Canon(x)[k..]);
  }

  lemma NoneOwned(hs: HashSuite, hz: HashedZone, nsec3s: seq<Nsec3Record>, x: Name, zone: Name, j: nat)
    requires Setting(hs, hz, nsec3s, x, zone) && NoneShownFrom(hs, nsec3s, x, zone, j)
    ensures var k := |x| - |FoundEncloserOf(hs, nsec3s, x, zone)|;
            1 <= k && !OwnedBetween(hz.zone, Canon(x), j, k)
  {
    var k := EncloserMeans(hs, hz, nsec3s, x, zone);
    forall i: nat | j <= i < k ensures Removed(Canon(x), i) !in hz.zone.types {
      NotOwned(hs, hz, nsec3s, x, i, k);
    }
  }

  lemma NotOwned(hs: HashSuite, hz: HashedZone, nsec3s: seq<Nsec3Record>, x: Name, i: nat, k: nat)
    requires hz.Valid() && AllAuthentic(hs, hz, nsec3s) && i < k && CutAt(x, hz.zone.apex, k)
    requires NoOwnerShown(hs, nsec3s, x[i..])
    ensures Canon(x)[i..] !in hz.zone.types
  {
    var c := Canon(x);
    CanonSlice(x, i);
    AncestorSlice(c, i);
    SuffixNested(c[k..], c[i..], c);
    SuffixTrans(hz.zone.apex, c[k..], c[i..]);
    FoundCover(hs, hz, nsec3s, x[i..]);
    CoverMeans(hs, hz, FindCover(hs, nsec3s, x[i..]).record, c[i..]);
  }

  /** A delegation with a DS is above the name. */
  ghost predicate BelowSigned(z: Zone, c: Name) {
    exists o {:trigger z.Owns(o)} | z.Owns(o) :: z.IsCut(o) && TypeDS in z.types[o] && IsSuffix(o, c) && o != c
  }

  /** Whether the lookup of a covered name is a referral, as far as the records tell:
      it is if the encloser found is a delegation, and it is not if that is none and
      every name from there down is shown to be no owner. The name is below a signed
      delegation exactly if the encloser is one: any other was left out, unsigned. */
  ghost predicate ReferralShown(hs: HashSuite, hz: HashedZone, nsec3s: seq<Nsec3Record>, x: Name, qtype: U16,
                                zone: Name)
    requires hz.zone.apex in hz.zone.types && IsSuffix(hz.zone.apex, Canon(x))
  {
    var referred := hz.zone.Lookup(Canon(x), qtype) == Referral;
    && (BelowSigned(hz.zone, Canon(x)) <==>
          EncloserIsCut(hs, nsec3s, x, zone) && TypeInBitmap(EncloserTypes(hs, nsec3s, x, zone), TypeDS))
    && (EncloserIsCut(hs, nsec3s, x, zone) ==> referred)
    && (!EncloserIsCut(hs, nsec3s, x, zone) && NoneShownFrom(hs, nsec3s, x, zone, if qtype == TypeDS then 1 else 0) ==>
          !referred)
  }

  /** The only signed delegation that can be above the name is its last ancestor with
      a record. */
  lemma SignedIsEncloser(hz: HashedZone, c: Name, k: nat)
    requires Splits(hz, c, k)
    ensures BelowSigned(hz.zone, c) <==> hz.zone.IsCut(c[k..]) && TypeDS in hz.TypesAt(c[k..])
  {
    var z := hz.zone;
    AncestorSlice(c, k);
    if z.IsCut(c[k..]) && TypeDS in hz.TypesAt(c[k..]) { assert z.Owns(c[k..]) && |c[k..]| < |c|; }
    if BelowSigned(z, c) {
      var o :| z.Owns(o) && z.IsCut(o) && TypeDS in z.types[o] && IsSuffix(o, c) && o != c;
      CutAbove(hz, c, k, o);
    }
  }

  lemma ReferralDecided(hs: HashSuite, hz: HashedZone, nsec3s: seq<Nsec3Record>, x: Name, qtype: U16, zone: Name)
    requires Setting(hs, hz, nsec3s, x, zone) && ClosestEncloser3(hs, nsec3s, x, zone).Enclosing?
    requires FindCover(hs, nsec3s, ClosestEncloser3(hs, nsec3s, x, zone).nextCloser).Hit?
    ensures ReferralShown(hs, hz, nsec3s, x, qtype, zone)
  {
    var k := NextCloserMeans(hs, hz, nsec3s, x, zone);
    EncloserListed(hs, hz, nsec3s, x, zone);
    SignedIsEncloser(hz, Canon(x), k);
    assert TypeInBitmap(EncloserTypes(hs, nsec3s, x, zone), TypeDS) <==> TypeDS in hz.TypesAt(Canon(x)[k..]);
    var j := if qtype == TypeDS then 1 else 0;
    if hz.zone.IsCut(Canon(x)[k..]) {
      ReferredAtCut(hz, Canon(x), k, qtype);
    } else if NoneShownFrom(hs, nsec3s, x, zone, j) {
      NoneOwned(hs, hz, nsec3s, x, zone, j);
      if hz.zone.Lookup(Canon(x), qtype) == Referral { ReferredBetween(hz, Canon(x), k, qtype); }
    }
  }

  /** A name error proof means the name has no record of its own and neither has
      the wildcard; whatever lies at or below the name is an unsigned delegation. */
  lemma NameErrorSound(hs: HashSuite, hz: HashedZone, nsec3s: seq<Nsec3Record>, x: Name, zone: Name)
    requires Setting(hs, hz, nsec3s, x, zone) && NameError3(hs, nsec3s, x, zone) == Proven
    ensures var e := FoundEncloserOf(hs, nsec3s, x, zone);
            hz.Hashes(e) && !hz.Hashes(Canon(x)) && !hz.Hashes(Wildcard(e)) && OnlyUnsigned(hz, Canon(x))
  {
    NameErrorShape(hs, nsec3s, x, zone);
    var k := NextCloserMeans(hs, hz, nsec3s, x, zone);
    WildcardCovered(hs, hz, nsec3s, ClosestEncloser3(hs, nsec3s, x, zone).encloser);
  }

  /** What the records of a name error proof leave the lookup to be: nothing is found.
      It is a referral if the encloser found is a delegation, and not one if every name
      from there down is shown to be no owner; between an empty answer and a name error
      they do not tell, unless neither name nor wildcard exists. */
  ghost predicate NameErrorMeaning3(hs: HashSuite, hz: HashedZone, nsec3s: seq<Nsec3Record>, x: Name, qtype: U16,
                                    zone: Name)
    requires hz.zone.apex in hz.zone.types && IsSuffix(hz.zone.apex, Canon(x))
  {
    var z, c, n := hz.zone, Canon(x), NextCloserOf(hs, nsec3s, x, zone);
    var w := Wildcard(FoundEncloserOf(hs, nsec3s, x, zone));
    && z.Lookup(c, qtype) in {Referral, NoData, NameError}
    && ReferralShown(hs, hz, nsec3s, x, qtype, zone)
    && (!z.Exists(n) && !z.Exists(w) ==>
          z.Lookup(c, qtype) == if EncloserIsCut(hs, nsec3s, x, zone) then Referral else NameError)
  }

  lemma NameErrorLookup(hs: HashSuite, hz: HashedZone, nsec3s: seq<Nsec3Record>, x: Name, zone: Name, qtype: U16)
    requires Setting(hs, hz, nsec3s, x, zone) && NameError3(hs, nsec3s, x, zone) == Proven
    ensures NameErrorMeaning3(hs, hz, nsec3s, x, qtype, zone)
  {
    NameErrorShape(hs, nsec3s, x, zone);
    ReferralDecided(hs, hz, nsec3s, x, qtype, zone);
    var k := NextCloserMeans(hs, hz, nsec3s, x, zone);
    CutNames(x, hz.zone.apex, k);
    EncloserListed(hs, hz, nsec3s, x, zone);
    WildcardCovered(hs, hz, nsec3s, ClosestEncloser3(hs, nsec3s, x, zone).encloser);
    UncoveredLookup(hz, Canon(x), k, qtype);
  }

  /** With no record for the wildcard either, the lookup finds nothing. */
  lemma UncoveredLookup(hz: HashedZone, c: Name, k: nat, qtype: U16)
    requires Splits(hz, c, k) && !hz.Hashes(Wildcard(c[k..]))
    ensures hz.zone.Lookup(c, qtype) in {Referral, NoData, NameError}
    ensures !hz.zone.IsCut(c[k..]) && !hz.zone.Exists(c[k - 1..]) && !hz.zone.Exists(Wildcard(c[k..])) ==>
              hz.zone.Lookup(c, qtype) == NameError
  {
    if hz.zone.IsCut(c[k..]) {
      ReferredAtCut(hz, c, k, qtype);
    } else if hz.zone.Exists(c[k - 1..]) {
      OmittedLookup(hz, c, k, qtype);
    } else {
      var w := Wildcard(c[k..]);
      StoppedLookup(hz, c, k, qtype);
      if hz.zone.Owns(w) {
        UnhashedOwner(hz, w);
        assert false;
      }
    }
  }

  /** Without opt-out on the two covering records, neither the next closer name nor
      the wildcard is an owner. They can still exist, above owners left out whose own
      hashes lie in other gaps. */
  lemma NameErrorNoOwner(hs: HashSuite, hz: HashedZone, nsec3s: seq<Nsec3Record>, x: Name, zone: Name)
    requires Setting(hs, hz, nsec3s, x, zone) && NameError3(hs, nsec3s, x, zone) == Proven
    ensures var r := ClosestEncloser3(hs, nsec3s, x, zone);
            var n, w := NextCloserOf(hs, nsec3s, x, zone), Wildcard(FoundEncloserOf(hs, nsec3s, x, zone));
            && r.Enclosing?
            && (!CoverOptsOut(hs, nsec3s, r.nextCloser) ==> n !in hz.zone.types)
            && (!CoverOptsOut(hs, nsec3s, Wildcard(r.encloser)) ==> w !in hz.zone.types)
  {
    NameErrorShape(hs, nsec3s, x, zone);
    var k := NextCloserMeans(hs, hz, nsec3s, x, zone);
    CutNames(x, hz.zone.apex, k);
    WildcardCovered(hs, hz, nsec3s, ClosestEncloser3(hs, nsec3s, x, zone).encloser);
  }

  // ---- no data, no DS, no closer match ----

  predicate EmptyTypes(types: set<U16>, qtype: U16) {
    && qtype !in types && TypeCNAME !in types
    && (qtype == TypeDS || TypeNS !in types || TypeSOA in types)
  }

  lemma ExistingLookup(hz: HashedZone, c: Name, qtype: U16)
    requires hz.zone.Tree() && IsSuffix(hz.zone.apex, c) && hz.zone.Exists(c)
    ensures EmptyTypes(hz.TypesAt(c), qtype) <==> hz.zone.Lookup(c, qtype) == NoData
  {
    OwnedBelow(hz.zone, c);
  }

  lemma BitmapEmpty(bitmap: Bytes, types: set<U16>, qtype: U16)
    requires DenialProofs.BitmapOf(bitmap, types)
    ensures EmptyAtOwner(bitmap, qtype) <==> EmptyTypes(types, qtype)
  {
    assert TypeInBitmap(bitmap, qtype) <==> qtype in types;
    assert TypeInBitmap(bitmap, TypeNS) <==> TypeNS in types;
    assert TypeInBitmap(bitmap, TypeSOA) <==> TypeSOA in types;
    assert TypeInBitmap(bitmap, TypeCNAME) <==> TypeCNAME in types;
  }

  lemma MatchedLookup(hz: HashedZone, c: Name, bitmap: Bytes, qtype: U16)
    requires hz.Valid() && hz.Hashes(c) && DenialProofs.BitmapOf(bitmap, hz.TypesAt(c))
    ensures IsSuffix(hz.zone.apex, c)
    ensures EmptyAtOwner(bitmap, qtype) <==> hz.zone.Lookup(c, qtype) == NoData
  {
    HashedExists(hz, c);
    ExistingLookup(hz, c, qtype);
    BitmapEmpty(bitmap, hz.TypesAt(c), qtype);
  }

  /** A no-data proof about a name with a record of its own means the lookup is
      an empty answer. About any other name it means nothing but unsigned
      delegations sit there, which settles a DS query. */
  lemma NoDataSound(hs: HashSuite, hz: HashedZone, nsec3s: seq<Nsec3Record>, x: Name, qtype: U16, zone: Name)
    requires Setting(hs, hz, nsec3s, x, zone) && NoData3(hs, nsec3s, x, qtype, zone) == Proven
    ensures hz.Hashes(Canon(x)) ==> hz.zone.Lookup(Canon(x), qtype) == NoData
    ensures !hz.Hashes(Canon(x)) ==> OnlyUnsigned(hz, Canon(x))
  {
    var c := Canon(x);
    assert Above(c, c);
    NoDataShape(hs, nsec3s, x, qtype, zone);
    FoundMatch(hs, hz, nsec3s, x);
    if FindMatch(hs, nsec3s, x).Hit? {
      var m := FindMatch(hs, nsec3s, x).record;
      MatchMeans(hs, hz, m, c);
      MatchedLookup(hz, c, m.rr.typeBitmap, qtype);
    } else {
      var k := NextCloserMeans(hs, hz, nsec3s, x, zone);
    }
  }

  /** The proof rests on the wildcard's record, not on opt-out. */
  predicate OnWildcard(hs: HashSuite, nsec3s: seq<Nsec3Record>, x: Name, qtype: U16, zone: Name) {
    match ClosestEncloser3(hs, nsec3s, x, zone)
    case EncloserError(_) => false
    case Enclosing(_, n) => qtype != TypeDS || !CoverOptsOut(hs, nsec3s, n)
  }

  /** The wildcard's record lists an alias. */
  predicate WildcardAliases(hs: HashSuite, nsec3s: seq<Nsec3Record>, x: Name, zone: Name) {
    match ClosestEncloser3(hs, nsec3s, x, zone)
    case EncloserError(_) => false
    case Enclosing(e, _) =>
      match FindMatch(hs, nsec3s, Wildcard(e))
      case Hit(m) => TypeInBitmap(m.rr.typeBitmap, TypeCNAME)
      case _ => false
  }

  /** What the records of a no-data proof about a name without a record leave the
      lookup to be. Resting on the wildcard's record: no data is found, and an alias
      only if that record lists one - exactly then, if nothing was left out above the
      name. Resting on opt-out, which takes a DS query: no more than whether it is a
      referral, and what the wildcard, of which nothing was shown, holds. */
  ghost predicate NoDataMeaning3(hs: HashSuite, hz: HashedZone, nsec3s: seq<Nsec3Record>, x: Name, qtype: U16,
                                 zone: Name)
    requires hz.zone.apex in hz.zone.types && IsSuffix(hz.zone.apex, Canon(x))
  {
    var z, c, n := hz.zone, Canon(x), NextCloserOf(hs, nsec3s, x, zone);
    var types, look := hz.TypesAt(Wildcard(FoundEncloserOf(hs, nsec3s, x, zone))), z.Lookup(c, qtype);
    && ReferralShown(hs, hz, nsec3s, x, qtype, zone)
    && (look == Data ==> !OnWildcard(hs, nsec3s, x, qtype, zone) && TypeDS in types)
    && (look == Alias ==> TypeCNAME in types)
    && (OnWildcard(hs, nsec3s, x, qtype, zone) ==>
          && !EncloserIsCut(hs, nsec3s, x, zone)
          && (look == Alias ==> WildcardAliases(hs, nsec3s, x, zone))
          && (!z.Exists(n) ==> look == if WildcardAliases(hs, nsec3s, x, zone) then Alias else NoData))
  }

  lemma NoDataLookup(hs: HashSuite, hz: HashedZone, nsec3s: seq<Nsec3Record>, x: Name, qtype: U16, zone: Name)
    requires Setting(hs, hz, nsec3s, x, zone) && NoData3(hs, nsec3s, x, qtype, zone) == Proven
    requires !hz.Hashes(Canon(x))
    ensures NoDataMeaning3(hs, hz, nsec3s, x, qtype, zone)
  {
    var c := Canon(x);
    assert Above(c, c);
    NoDataShape(hs, nsec3s, x, qtype, zone);
    FoundMatch(hs, hz, nsec3s, x);
    if FindMatch(hs, nsec3s, x).Hit? {
      MatchMeans(hs, hz, FindMatch(hs, nsec3s, x).record, c);
      assert false;
    } else {
      ReferralDecided(hs, hz, nsec3s, x, qtype, zone);
      var k := NextCloserMeans(hs, hz, nsec3s, x, zone);
      CutNames(x, hz.zone.apex, k);
      EncloserListed(hs, hz, nsec3s, x, zone);
      BelowLookup(hz, c, k, qtype);
      if OnWildcard(hs, nsec3s, x, qtype, zone) {
        WildcardMatched(hs, hz, nsec3s, x, ClosestEncloser3(hs, nsec3s, x, zone).encloser, k, qtype);
        if hz.zone.IsCut(c[k..]) { NoWildcardAtCut(hz.zone, c[k..]); }
      }
    }
  }

  /** The lookup of a name without a record finds only what the wildcard holds. */
  lemma BelowLookup(hz: HashedZone, c: Name, k: nat, qtype: U16)
    requires Splits(hz, c, k)
    ensures var look, w := hz.zone.Lookup(c, qtype), Wildcard(c[k..]);
            && (look == Data ==> qtype in hz.TypesAt(w))
            && (look == Alias ==> TypeCNAME in hz.TypesAt(w))
            && (!hz.zone.IsCut(c[k..]) && !hz.zone.Exists(c[k - 1..]) ==>
                  hz.zone.Exists(w) && qtype !in hz.TypesAt(w) ==>
                    look == if TypeCNAME in hz.TypesAt(w) then Alias else NoData)
  {
    if hz.zone.IsCut(c[k..]) {
      ReferredAtCut(hz, c, k, qtype);
    } else if hz.zone.Exists(c[k - 1..]) {
      OmittedLookup(hz, c, k, qtype);
    } else {
      StoppedLookup(hz, c, k, qtype);
    }
  }

  lemma WildcardMatched(hs: HashSuite, hz: HashedZone, nsec3s: seq<Nsec3Record>, x: Name, e: Name, k: nat, qtype: U16)
    requires hz.Valid() && AllAuthentic(hs, hz, nsec3s) && Separated(hs, hz, Canon(x))
    requires k <= |x| && e == x[k..]
    requires FindMatch(hs, nsec3s, Wildcard(e)).Hit?
    requires !TypeInBitmap(FindMatch(hs, nsec3s, Wildcard(e)).record.rr.typeBitmap, qtype)
    ensures var w := Wildcard(Canon(e)); hz.Hashes(w) && hz.zone.Exists(w) && qtype !in hz.TypesAt(w)
    ensures TypeInBitmap(FindMatch(hs, nsec3s, Wildcard(e)).record.rr.typeBitmap, TypeCNAME)
            <==> TypeCNAME in hz.TypesAt(Wildcard(Canon(e)))
  {
    CanonWildcard(e);
    SeparatedAt(hs, hz, x, k);
    FoundMatch(hs, hz, nsec3s, Wildcard(e));
    var m := FindMatch(hs, nsec3s, Wildcard(e)).record;
    MatchMeans(hs, hz, m, Wildcard(Canon(e)));
    HashedExists(hz, Wildcard(Canon(e)));
    assert TypeInBitmap(m.rr.typeBitmap, qtype) <==> qtype in hz.TypesAt(Wildcard(Canon(e)));
    assert TypeInBitmap(m.rr.typeBitmap, TypeCNAME) <==> TypeCNAME in hz.TypesAt(Wildcard(Canon(e)));
  }

  /** The guard the checker lacks for an opt-out gap: the closest encloser is among
      what the records show, with the gap of the next closer name. */
  predicate Located(hs: HashSuite, nsec3s: seq<Nsec3Record>, x: Name, zone: Name) {
    match ClosestEncloser3(hs, nsec3s, x, zone)
    case Enclosing(_, n) => FindCover(hs, nsec3s, n).Hit?
    case EncloserError(_) => false
  }

  /** The name is below the apex and the zone holds no DS for it. If a record of the
      name itself was shown, the zone answers for it: the DS lookup is no referral, and
      the name is a delegation exactly if that record lists NS. If only an opt-out gap
      was, the name may be below a signed delegation, and then the zone says nothing of
      what its parent holds. With the encloser located that is so exactly if the record
      of the encloser lists NS and DS without SOA; and the lookup is a referral if it
      lists NS without SOA, and only then if every name between is shown to be no owner. */
  ghost predicate NoDSMeaning(hs: HashSuite, hz: HashedZone, nsec3s: seq<Nsec3Record>, child: Name, zone: Name)
    requires hz.zone.apex in hz.zone.types && IsSuffix(hz.zone.apex, Canon(child))
  {
    var c, z := Canon(child), hz.zone;
    && c != z.apex && TypeDS !in hz.TypesAt(c)
    && if FindMatch(hs, nsec3s, child).Hit? then
         && z.Lookup(c, TypeDS) != Referral
         && (z.IsCut(c) <==> TypeInBitmap(FindMatch(hs, nsec3s, child).record.rr.typeBitmap, TypeNS))
       else
         && CoverOptsOut(hs, nsec3s, child) && !hz.Hashes(c)
         && (Separated(hs, hz, c) && Located(hs, nsec3s, child, zone) ==>
               ReferralShown(hs, hz, nsec3s, child, TypeDS, zone))
  }

  lemma ShownNoDS(hs: HashSuite, hz: HashedZone, nsec3s: seq<Nsec3Record>, child: Name, zone: Name)
    requires hz.Valid() && AllAuthentic(hs, hz, nsec3s) && IsSuffix(hz.zone.apex, Canon(child))
    requires NoCollision(hs, hz, Canon(child)) && NoDS3(hs, nsec3s, child) == Proven
    requires FindMatch(hs, nsec3s, child).Hit?
    ensures NoDSMeaning(hs, hz, nsec3s, child, zone)
  {
    FoundMatch(hs, hz, nsec3s, child);
    NoDSShape(hs, nsec3s, child);
    MatchedNoDS(hs, hz, FindMatch(hs, nsec3s, child).record, Canon(child));
  }

  lemma OptedOutNoDS(hs: HashSuite, hz: HashedZone, nsec3s: seq<Nsec3Record>, child: Name)
    requires hz.Valid() && AllAuthentic(hs, hz, nsec3s) && IsSuffix(hz.zone.apex, Canon(child))
    requires NoDS3(hs, nsec3s, child) == Proven && !FindMatch(hs, nsec3s, child).Hit?
    ensures CoverOptsOut(hs, nsec3s, child) && !hz.Hashes(Canon(child))
    ensures Canon(child) != hz.zone.apex && TypeDS !in hz.TypesAt(Canon(child))
  {
    FoundCover(hs, hz, nsec3s, child);
    NoDSShape(hs, nsec3s, child);
    CoverMeans(hs, hz, FindCover(hs, nsec3s, child).record, Canon(child));
    CoveredNoDS(hz, Canon(child));
  }

  /** What a no-DS proof means, opt-out included. */
  lemma NoDSSound(hs: HashSuite, hz: HashedZone, nsec3s: seq<Nsec3Record>, child: Name, zone: Name)
    requires hz.Valid() && AllAuthentic(hs, hz, nsec3s) && IsSuffix(hz.zone.apex, Canon(child))
    requires NoCollision(hs, hz, Canon(child)) && |zone| == |hz.zone.apex|
    requires NoDS3(hs, nsec3s, child) == Proven
    ensures NoDSMeaning(hs, hz, nsec3s, child, zone)
  {
    if FindMatch(hs, nsec3s, child).Hit? {
      ShownNoDS(hs, hz, nsec3s, child, zone);
    } else {
      OptedOutNoDS(hs, hz, nsec3s, child);
      if Separated(hs, hz, Canon(child)) && Located(hs, nsec3s, child, zone) {
        ReferralDecided(hs, hz, nsec3s, child, TypeDS, zone);
      }
    }
  }

  lemma MatchedNoDS(hs: HashSuite, hz: HashedZone, m: Nsec3Record, c: Name)
    requires hz.Valid() && Authentic(hs, hz, m) && m.owner == hz.HashOf(hs, c) && NoCollision(hs, hz, c)
    requires !TypeInBitmap(m.rr.typeBitmap, TypeSOA) && !TypeInBitmap(m.rr.typeBitmap, TypeDS)
    ensures IsSuffix(hz.zone.apex, c)
    ensures c != hz.zone.apex && TypeDS !in hz.TypesAt(c) && hz.zone.Lookup(c, TypeDS) != Referral
    ensures hz.zone.IsCut(c) <==> TypeInBitmap(m.rr.typeBitmap, TypeNS)
  {
    MatchMeans(hs, hz, m, c);
    var bitmap, types := m.rr.typeBitmap, hz.TypesAt(c);
    assert TypeInBitmap(bitmap, TypeSOA) <==> TypeSOA in types;
    assert TypeInBitmap(bitmap, TypeDS) <==> TypeDS in types;
    assert TypeInBitmap(bitmap, TypeNS) <==> TypeNS in types;
    HashedExists(hz, c);
    MatchedCut(hz, c);
  }

  lemma MatchedCut(hz: HashedZone, c: Name)
    requires hz.zone.Tree() && IsSuffix(hz.zone.apex, c) && hz.zone.Exists(c) && TypeSOA !in hz.TypesAt(c)
    ensures c != hz.zone.apex && hz.zone.Lookup(c, TypeDS) != Referral
    ensures hz.zone.IsCut(c) <==> TypeNS in hz.TypesAt(c)
  {
    OwnedBelow(hz.zone, c);
    assert hz.zone.Owns(hz.zone.apex);
  }

  lemma CoveredNoDS(hz: HashedZone, c: Name)
    requires hz.Valid() && IsSuffix(hz.zone.apex, c) && !hz.Hashes(c)
    ensures c != hz.zone.apex && TypeDS !in hz.TypesAt(c)
  {
    if hz.zone.Owns(c) { UnhashedOwner(hz, c); }
  }

  /** The name has no record of its own. The wildcard with the given number of labels,
      if the zone owns it, is the one the lookup answers from only if the encloser found
      has as many; then exactly if the next closer name does not exist, which can only
      be above owners that were left out. */
  ghost predicate NoCloserMeaning(hs: HashSuite, hz: HashedZone, nsec3s: seq<Nsec3Record>, x: Name, zone: Name,
                                  labels: nat)
    requires hz.zone.apex in hz.zone.types && IsSuffix(hz.zone.apex, Canon(x)) && labels < |x|
  {
    var c, z, n := Canon(x), hz.zone, NextCloserOf(hs, nsec3s, x, zone);
    var w := Wildcard(c[|c| - labels..]);
    && !hz.Hashes(c) && OnlyUnsigned(hz, c)
    && (w in z.types ==>
          (DenialProofs.Entitled(z, c, w) <==> |FoundEncloserOf(hs, nsec3s, x, zone)| == labels && !z.Exists(n)))
    && (z.Exists(n) ==> OnlyUnsigned(hz, n) && (NoOwnerShown(hs, nsec3s, n) ==> n !in z.types))
  }

  /** What the proof that a wildcard answer is entitled to a name means. */
  lemma NoCloserSound(hs: HashSuite, hz: HashedZone, nsec3s: seq<Nsec3Record>, x: Name, zone: Name, labels: nat)
    requires Setting(hs, hz, nsec3s, x, zone) && NoCloserMatch3(hs, nsec3s, x, zone) == Proven && labels < |x|
    ensures NoCloserMeaning(hs, hz, nsec3s, x, zone, labels)
  {
    NoCloserShape(hs, nsec3s, x, zone);
    var k := NextCloserMeans(hs, hz, nsec3s, x, zone);
    NoCloserAt(hs, hz, nsec3s, x, k, labels);
  }

  lemma NoCloserAt(hs: HashSuite, hz: HashedZone, nsec3s: seq<Nsec3Record>, x: Name, k: nat, labels: nat)
    requires AllAuthentic(hs, hz, nsec3s) && Splits(hz, Canon(x), k) && labels < |x|
    ensures Canon(x[k - 1..]) == Canon(x)[k - 1..]
    ensures var c, z, n := Canon(x), hz.zone, Canon(x[k - 1..]);
            var w := Wildcard(c[|c| - labels..]);
            && (w in z.types ==> (DenialProofs.Entitled(z, c, w) <==> |c| - k == labels && !z.Exists(n)))
            && OnlyUnsigned(hz, n) && (NoOwnerShown(hs, nsec3s, n) ==> n !in z.types)
  {
    CanonSlice(x, k - 1);
    EntitledAt(hz, Canon(x), k, labels);
    NextCloserShown(hs, hz, nsec3s, x[k - 1..]);
  }

  lemma SuffixOfSelf(n: Name)
    ensures IsSuffix(n, n)
  {}

  lemma NextCloserShown(hs: HashSuite, hz: HashedZone, nsec3s: seq<Nsec3Record>, n: Name)
    requires hz.Valid() && AllAuthentic(hs, hz, nsec3s) && IsSuffix(hz.zone.apex, Canon(n)) && !hz.Hashes(Canon(n))
    ensures OnlyUnsigned(hz, Canon(n)) && (NoOwnerShown(hs, nsec3s, Canon(n)) ==> Canon(n) !in hz.zone.types)
  {
    CanonIdempotent(n);
    SuffixOfSelf(Canon(n));
    OnlyUnsignedBelow(hz, Canon(n), Canon(n));
    FoundCover(hs, hz, nsec3s, Canon(n));
    if NoOwnerShown(hs, nsec3s, Canon(n)) {
      CoverMeans(hs, hz, FindCover(hs, nsec3s, Canon(n)).record, Canon(n));
    }
  }

  lemma EntitledAt(hz: HashedZone, c: Name, k: nat, labels: nat)
    requires Splits(hz, c, k) && labels < |c|
    ensures Wildcard(c[|c| - labels..]) in hz.zone.types ==>
              (DenialProofs.Entitled(hz.zone, c, Wildcard(c[|c| - labels..])) <==>
                 |c| - k == labels && !hz.zone.Exists(c[k - 1..]))
  {
    var z, w := hz.zone, Wildcard(c[|c| - labels..]);
    if !z.Exists(c[k - 1..]) {
      HashedExists(hz, c[k..]);
      StopsAt(z, c, k);
      DenialProofs.SameWildcard(c, z.Encloser(c), labels);
    } else if DenialProofs.Entitled(z, c, w) {
      AncestorSlice(c, k - 1);
      EncloserDeepest(z, c, c[k - 1..]);
      SuffixNested(c[k - 1..], z.Encloser(c), c);
      OmittedWildcard(hz, c[k - 1..], z.Encloser(c));
    }
  }
}

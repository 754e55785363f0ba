/** When the NSEC3 proofs succeed, given the whole chain of a zone that does not opt
    out. */
module Nsec3Exact {
  import opened Octets
  import opened Names
  import opened Messages
  import opened Canonical
  import opened Nsec3
  import opened Zones
  import opened Nsec3Proofs
  import DenialProofs

  predicate HasOwner(hs: HashSuite, nsec3s: seq<Nsec3Record>, i: nat, h: Bytes) {
    i < |nsec3s| && nsec3s[i].owner == h
  }

  ghost predicate NoneOptsOut(nsec3s: seq<Nsec3Record>) {
    forall i {:trigger DenialProofs.Index(nsec3s, i)} | DenialProofs.Index(nsec3s, i) :: !nsec3s[i].rr.OptOut()
  }

  ghost predicate AllThere(hs: HashSuite, hz: HashedZone, nsec3s: seq<Nsec3Record>) {
    forall o {:trigger hz.Hashes(o)} | hz.Hashes(o) :: exists i :: HasOwner(hs, nsec3s, i, hz.HashOf(hs, o))
  }

  /** Every hashed name has its record among them and none opts out; the hash tells
      every owner of the zone from the names with records. */
  ghost predicate FullChain(hs: HashSuite, hz: HashedZone, nsec3s: seq<Nsec3Record>) {
    && AllAuthentic(hs, hz, nsec3s) && NoneOptsOut(nsec3s) && AllThere(hs, hz, nsec3s)
    && hz.iterations <= MAX_ITERATIONS
    && (forall o {:trigger hz.zone.Owns(o)} | hz.zone.Owns(o) :: LabelsOk(o) && NoCollision(hs, hz, o))
  }

  /** The name whose hash comes last before h, or last of all if none does. */
  lemma {:induction false} HashBefore(hs: HashSuite, hz: HashedZone, names: set<Name>, h: Bytes) returns (p: Name)
    requires names != {}
    ensures p in names
    ensures forall w | w in names && Compare(hz.HashOf(hs, w), h) < 0 ::
              Compare(hz.HashOf(hs, p), h) < 0 && Compare(hz.HashOf(hs, w), hz.HashOf(hs, p)) <= 0
    ensures (forall w | w in names :: Compare(hz.HashOf(hs, w), h) >= 0) ==>
              forall w | w in names :: Compare(hz.HashOf(hs, w), hz.HashOf(hs, p)) <= 0
    decreases names
  {
    p :| p in names;
    CompareZero(hz.HashOf(hs, p), hz.HashOf(hs, p));
    if names != {p} {
      var rest := names - {p};
      assert rest != {};
      var q := HashBefore(hs, hz, rest, h);
      var a, b := hz.HashOf(hs, p), hz.HashOf(hs, q);
      CompareFlip(a, b);
      CompareZero(b, b);
      if !(Compare(a, h) < 0 && (Compare(b, h) >= 0 || Compare(a, b) > 0))
         && !(Compare(a, h) >= 0 && Compare(b, h) >= 0 && Compare(a, b) > 0) {
        p := q;
      } else {
        forall w | w in rest && Compare(hz.HashOf(hs, w), b) <= 0 && Compare(a, b) > 0
          ensures Compare(hz.HashOf(hs, w), a) <= 0
        {
          CompareZero(hz.HashOf(hs, w), b);
          if Compare(hz.HashOf(hs, w), b) < 0 { CompareTrans(hz.HashOf(hs, w), b, a); }
        }
      }
    }
  }

  /** In a full chain a text that is no name's hash falls into some gap. */
  lemma SomeGapCovers(hs: HashSuite, hz: HashedZone, nsec3s: seq<Nsec3Record>, h: Bytes) returns (i: nat)
    requires hz.Valid() && FullChain(hs, hz, nsec3s) && !IsHash(hs, hz, h)
    ensures i < |nsec3s| && Covers3(hs, nsec3s[i], h)
  {
    assert hz.zone.apex in hz.hashed by { assert hz.Hashes(hz.zone.apex); }
    var p := HashBefore(hs, hz, hz.hashed, h);
    var w;
    i, w := RecordOf(hs, hz, nsec3s, p);
    BetweenNeighbours(hs, hz, p, w, h, hs.text(nsec3s[i].rr.nextHashed));
  }

  lemma RecordOf(hs: HashSuite, hz: HashedZone, nsec3s: seq<Nsec3Record>, p: Name) returns (i: nat, w: Name)
    requires FullChain(hs, hz, nsec3s) && p in hz.hashed
    ensures i < |nsec3s| && nsec3s[i].owner == hz.HashOf(hs, p)
    ensures IsNextHash(hs, hz, nsec3s[i].owner, hs.text(nsec3s[i].rr.nextHashed))
    ensures hz.Hashes(p) && hz.Hashes(w) && hz.HashOf(hs, w) == hs.text(nsec3s[i].rr.nextHashed)
  {
    assert hz.Hashes(p);
    i :| HasOwner(hs, nsec3s, i, hz.HashOf(hs, p));
    assert DenialProofs.Index(nsec3s, i);
    assert IsNextHash(hs, hz, nsec3s[i].owner, hs.text(nsec3s[i].rr.nextHashed));
    w :| hz.Hashes(w) && hz.HashOf(hs, w) == hs.text(nsec3s[i].rr.nextHashed);
  }

  lemma BetweenNeighbours(hs: HashSuite, hz: HashedZone, p: Name, w: Name, h: Bytes, next: Bytes)
    requires hz.Hashes(p) && hz.Hashes(w) && next == hz.HashOf(hs, w) && !IsHash(hs, hz, h)
    requires IsNextHash(hs, hz, hz.HashOf(hs, p), next)
    requires forall v | v in hz.hashed && Compare(hz.HashOf(hs, v), h) < 0 ::
               Compare(hz.HashOf(hs, p), h) < 0 && Compare(hz.HashOf(hs, v), hz.HashOf(hs, p)) <= 0
    requires (forall v | v in hz.hashed :: Compare(hz.HashOf(hs, v), h) >= 0) ==>
               forall v | v in hz.hashed :: Compare(hz.HashOf(hs, v), hz.HashOf(hs, p)) <= 0
    ensures InGap(hz.HashOf(hs, p), h, next)
  {
    var a := hz.HashOf(hs, p);
    CompareZero(next, h);
    CompareZero(a, h);
    CompareFlip(a, h);
    CompareFlip(next, h);
    CompareFlip(a, next);
    if Compare(a, h) >= 0 {
      assert forall v | v in hz.hashed :: Compare(hz.HashOf(hs, v), h) >= 0;
      assert Compare(next, a) <= 0;
    }
  }

  /** A zone that opts out nowhere leaves no owner out. */
  lemma OwnersHashed(hs: HashSuite, hz: HashedZone, nsec3s: seq<Nsec3Record>, o: Name)
    requires hz.Valid() && FullChain(hs, hz, nsec3s) && hz.zone.Owns(o)
    ensures hz.Hashes(o)
  {
    if !hz.Hashes(o) {
      var i := SomeGapCovers(hs, hz, nsec3s, hz.HashOf(hs, o));
      assert DenialProofs.Index(nsec3s, i);
      assert false;
    }
  }

  /** Hence no empty non-terminal either. */
  lemma ExistingHashed(hs: HashSuite, hz: HashedZone, nsec3s: seq<Nsec3Record>, n: Name)
    requires hz.Valid() && FullChain(hs, hz, nsec3s) && IsSuffix(hz.zone.apex, n)
    ensures hz.Hashes(n) <==> hz.zone.Exists(n)
    ensures !LeftOut(hz, n)
  {
    forall o {:trigger hz.zone.Owns(o)} | hz.zone.Owns(o) ensures hz.Hashes(o) { OwnersHashed(hs, hz, nsec3s, o); }
    if hz.Hashes(n) { HashedExists(hz, n); } else { UnhashedExists(hz, n); }
  }

  /** Records of the zone answer for every name with a wire form. */
  lemma {:induction false} SearchesSucceed(hs: HashSuite, hz: HashedZone, nsec3s: seq<Nsec3Record>, x: Name)
    requires AllAuthentic(hs, hz, nsec3s) && hz.iterations <= MAX_ITERATIONS && LabelsOk(x)
    ensures !FindMatch(hs, nsec3s, x).FindError? && !FindCover(hs, nsec3s, x).FindError?
  {
    if nsec3s != [] {
      assert DenialProofs.Index(nsec3s, 0);
      AllAuthenticTail(hs, hz, nsec3s);
      SearchesSucceed(hs, hz, nsec3s[1..], x);
    }
  }

  lemma UnhashedIsCovered(hs: HashSuite, hz: HashedZone, nsec3s: seq<Nsec3Record>, x: Name)
    requires hz.Valid() && FullChain(hs, hz, nsec3s) && LabelsOk(x)
    requires !hz.Hashes(Canon(x)) && NoCollision(hs, hz, Canon(x))
    ensures FindCover(hs, nsec3s, x).Hit?
  {
    SearchesSucceed(hs, hz, nsec3s, x);
    FoundCover(hs, hz, nsec3s, x);
    var i := SomeGapCovers(hs, hz, nsec3s, hz.HashOf(hs, Canon(x)));
  }

  lemma HashedIsMatched(hs: HashSuite, hz: HashedZone, nsec3s: seq<Nsec3Record>, x: Name)
    requires FullChain(hs, hz, nsec3s) && LabelsOk(x) && NoCollision(hs, hz, Canon(x))
    ensures FindMatch(hs, nsec3s, x) == Miss <==> !hz.Hashes(Canon(x))
    ensures FindMatch(hs, nsec3s, x).Hit? <==> hz.Hashes(Canon(x))
  {
    SearchesSucceed(hs, hz, nsec3s, x);
    FoundMatch(hs, hz, nsec3s, x);
    if hz.Hashes(Canon(x)) {
      var i :| HasOwner(hs, nsec3s, i, hz.HashOf(hs, Canon(x)));
    } else if FindMatch(hs, nsec3s, x).Hit? {
      MatchMeans(hs, hz, FindMatch(hs, nsec3s, x).record, Canon(x));
    }
  }

  /** No record matches the ancestor with j labels removed. */
  predicate Missed(hs: HashSuite, nsec3s: seq<Nsec3Record>, x: Name, j: nat) {
    j <= |x| && FindMatch(hs, nsec3s, x[j..]) == Miss
  }

  lemma {:induction false} SearchStops(hs: HashSuite, hz: HashedZone, nsec3s: seq<Nsec3Record>, x: Name, zone: Name,
      i: nat, k: nat)
    requires 1 <= i <= k <= |x| - |zone|
    requires forall j {:trigger Missed(hs, nsec3s, x, j)} | i <= j < k :: Missed(hs, nsec3s, x, j)
    requires FindMatch(hs, nsec3s, x[k..]).Hit?
    ensures EncloserFrom(hs, nsec3s, x, zone, i) == Enclosing(x[k..], x[k - 1..])
    decreases k - i
  {
    if i < k {
      assert Missed(hs, nsec3s, x, i);
      SearchStops(hs, hz, nsec3s, x, zone, i + 1, k);
    }
  }

  /** Given the whole chain of a zone that does not opt out, the name error proof
      goes through exactly when neither the name nor the wildcard at its closest
      encloser exists. */
  lemma NameErrorExact(hs: HashSuite, hz: HashedZone, nsec3s: seq<Nsec3Record>, x: Name, zone: Name)
    requires Setting(hs, hz, nsec3s, x, zone) && FullChain(hs, hz, nsec3s) && LabelsOk(x)
    ensures NameError3(hs, nsec3s, x, zone) == Proven <==>
              !hz.zone.Exists(Canon(x)) && !hz.zone.Exists(Wildcard(hz.zone.Encloser(Canon(x))))
  {
    var c, z := Canon(x), hz.zone;
    if NameError3(hs, nsec3s, x, zone) == Proven { NameErrorFull(hs, hz, nsec3s, x, zone); }
    if !z.Exists(c) && !z.Exists(Wildcard(z.Encloser(c))) { NameErrorComplete(hs, hz, nsec3s, x, zone); }
  }

  lemma NameErrorFull(hs: HashSuite, hz: HashedZone, nsec3s: seq<Nsec3Record>, x: Name, zone: Name)
    requires Setting(hs, hz, nsec3s, x, zone) && FullChain(hs, hz, nsec3s)
    requires NameError3(hs, nsec3s, x, zone) == Proven
    ensures !hz.zone.Exists(Canon(x)) && !hz.zone.Exists(Wildcard(hz.zone.Encloser(Canon(x))))
  {
    NameErrorShape(hs, nsec3s, x, zone);
    var k := NextCloserMeans(hs, hz, nsec3s, x, zone);
    CutNames(x, hz.zone.apex, k);
    WildcardCovered(hs, hz, nsec3s, ClosestEncloser3(hs, nsec3s, x, zone).encloser);
    ExistingHashed(hs, hz, nsec3s, Canon(x)[k - 1..]);
    WildcardIsHashed(hs, hz, nsec3s, Canon(x)[k..]);
  }

  lemma NameErrorComplete(hs: HashSuite, hz: HashedZone, nsec3s: seq<Nsec3Record>, x: Name, zone: Name)
    requires Setting(hs, hz, nsec3s, x, zone) && FullChain(hs, hz, nsec3s) && LabelsOk(x)
    requires !hz.zone.Exists(Canon(x)) && !hz.zone.Exists(Wildcard(hz.zone.Encloser(Canon(x))))
    ensures NameError3(hs, nsec3s, x, zone) == Proven
  {
    var k := EncloserFound(hs, hz, nsec3s, x, zone);
    NextCloserIsCovered(hs, hz, nsec3s, x, k);
    WildcardIsHashed(hs, hz, nsec3s, Canon(x)[k..]);
    WildcardIsCovered(hs, hz, nsec3s, x, k);
  }

  lemma NextCloserIsCovered(hs: HashSuite, hz: HashedZone, nsec3s: seq<Nsec3Record>, x: Name, k: nat)
    requires hz.Valid() && FullChain(hs, hz, nsec3s) && LabelsOk(x) && Separated(hs, hz, Canon(x))
    requires 1 <= k <= |x| && !hz.Hashes(Canon(x)[k - 1..])
    ensures FindCover(hs, nsec3s, x[k - 1..]).Hit?
  {
    SeparatedAt(hs, hz, x, k - 1);
    UnhashedIsCovered(hs, hz, nsec3s, x[k - 1..]);
  }

  lemma WildcardIsCovered(hs: HashSuite, hz: HashedZone, nsec3s: seq<Nsec3Record>, x: Name, k: nat)
    requires hz.Valid() && FullChain(hs, hz, nsec3s) && LabelsOk(x) && Separated(hs, hz, Canon(x))
    requires k <= |x| && !hz.Hashes(Wildcard(Canon(x)[k..]))
    ensures FindCover(hs, nsec3s, Wildcard(x[k..])).Hit?
  {
    SeparatedAt(hs, hz, x, k);
    CanonWildcard(x[k..]);
    UnhashedIsCovered(hs, hz, nsec3s, Wildcard(x[k..]));
  }

  lemma WildcardIsHashed(hs: HashSuite, hz: HashedZone, nsec3s: seq<Nsec3Record>, e: Name)
    requires hz.Valid() && FullChain(hs, hz, nsec3s) && IsSuffix(hz.zone.apex, e)
    ensures hz.Hashes(Wildcard(e)) <==> hz.zone.Exists(Wildcard(e))
    ensures !LeftOut(hz, Wildcard(e))
  {
    assert Wildcard(e)[1..] == e;
    SuffixTrans(hz.zone.apex, e, Wildcard(e));
    ExistingHashed(hs, hz, nsec3s, Wildcard(e));
  }

  lemma AncestorSearch(hs: HashSuite, hz: HashedZone, nsec3s: seq<Nsec3Record>, x: Name, j: nat)
    requires FullChain(hs, hz, nsec3s) && LabelsOk(x) && j <= |x| && Separated(hs, hz, Canon(x))
    ensures FindMatch(hs, nsec3s, x[j..]) == Miss <==> !hz.Hashes(Canon(x)[j..])
    ensures FindMatch(hs, nsec3s, x[j..]).Hit? <==> hz.Hashes(Canon(x)[j..])
  {
    SeparatedAt(hs, hz, x, j);
    HashedIsMatched(hs, hz, nsec3s, x[j..]);
  }

  lemma EncloserFound(hs: HashSuite, hz: HashedZone, nsec3s: seq<Nsec3Record>, x: Name, zone: Name) returns (k: nat)
    requires Setting(hs, hz, nsec3s, x, zone) && FullChain(hs, hz, nsec3s) && LabelsOk(x)
    requires !hz.zone.Exists(Canon(x))
    ensures 1 <= k <= |x| && hz.zone.Encloser(Canon(x)) == Canon(x)[k..] && IsSuffix(hz.zone.apex, Canon(x)[k..])
    ensures ClosestEncloser3(hs, nsec3s, x, zone) == Enclosing(x[k..], x[k - 1..])
    ensures !hz.Hashes(Canon(x)[k - 1..])
  {
    k := EncloserDepth(hs, hz, nsec3s, Canon(x));
    EncloserSearched(hs, hz, nsec3s, x, zone, k);
    AncestorHashed(hz, Canon(x), k - 1);
  }

  lemma EncloserSearched(hs: HashSuite, hz: HashedZone, nsec3s: seq<Nsec3Record>, x: Name, zone: Name, k: nat)
    requires hz.Valid() && FullChain(hs, hz, nsec3s) && LabelsOk(x) && Separated(hs, hz, Canon(x))
    requires IsSuffix(hz.zone.apex, Canon(x)) && k == |x| - |hz.zone.Encloser(Canon(x))|
    requires hz.Hashes(hz.zone.Encloser(Canon(x))) && 1 <= k <= |x| - |zone|
    ensures ClosestEncloser3(hs, nsec3s, x, zone) == Enclosing(x[k..], x[k - 1..])
  {
    SearchAll(hs, hz, nsec3s, x, k);
    SearchStops(hs, hz, nsec3s, x, zone, 1, k);
  }

  lemma SearchAll(hs: HashSuite, hz: HashedZone, nsec3s: seq<Nsec3Record>, x: Name, k: nat)
    requires hz.Valid() && FullChain(hs, hz, nsec3s) && LabelsOk(x) && Separated(hs, hz, Canon(x))
    requires IsSuffix(hz.zone.apex, Canon(x)) && k == |x| - |hz.zone.Encloser(Canon(x))|
    requires hz.Hashes(hz.zone.Encloser(Canon(x)))
    ensures forall j {:trigger Missed(hs, nsec3s, x, j)} | 1 <= j < k :: Missed(hs, nsec3s, x, j)
    ensures FindMatch(hs, nsec3s, x[k..]).Hit?
  {
    forall j {:trigger Missed(hs, nsec3s, x, j)} | 1 <= j < k ensures Missed(hs, nsec3s, x, j) {
      AncestorHashed(hz, Canon(x), j);
      AncestorSearch(hs, hz, nsec3s, x, j);
    }
    AncestorHashed(hz, Canon(x), k);
    AncestorSearch(hs, hz, nsec3s, x, k);
  }

  lemma EncloserDepth(hs: HashSuite, hz: HashedZone, nsec3s: seq<Nsec3Record>, c: Name) returns (k: nat)
    requires hz.Valid() && FullChain(hs, hz, nsec3s) && IsSuffix(hz.zone.apex, c) && !hz.zone.Exists(c)
    ensures 1 <= k <= |c| - |hz.zone.apex| && hz.zone.Encloser(c) == c[k..] && k == |c| - |hz.zone.Encloser(c)|
    ensures hz.Hashes(hz.zone.Encloser(c))
  {
    EncloserHashed(hs, hz, nsec3s, c);
    k := DepthOf(hz.zone, c);
  }

  lemma EncloserHashed(hs: HashSuite, hz: HashedZone, nsec3s: seq<Nsec3Record>, c: Name)
    requires hz.Valid() && FullChain(hs, hz, nsec3s) && IsSuffix(hz.zone.apex, c)
    ensures hz.Hashes(hz.zone.Encloser(c))
  {
    EncloserExists(hz.zone, c);
    ExistingHashed(hs, hz, nsec3s, hz.zone.Encloser(c));
  }

  lemma DepthOf(z: Zone, c: Name) returns (k: nat)
    requires z.apex in z.types && IsSuffix(z.apex, c) && !z.Exists(c)
    ensures 1 <= k <= |c| - |z.apex| && z.Encloser(c) == c[k..] && k == |c| - |z.Encloser(c)|
  {
    EncloserExists(z, c);
    k := |c| - |z.Encloser(c)|;
    WholeSuffix(z.Encloser(c), c);
  }

  lemma WholeSuffix(e: Name, c: Name)
    requires IsSuffix(e, c)
    ensures c[|c| - |e|..] == e && (|e| == |c| ==> e == c)
  {
    assert c[0..] == c;
  }

  lemma AncestorHashed(hz: HashedZone, c: Name, j: nat)
    requires hz.Valid() && IsSuffix(hz.zone.apex, c) && hz.Hashes(hz.zone.Encloser(c))
    requires j <= |c| - |hz.zone.Encloser(c)|
    ensures hz.Hashes(c[j..]) <==> j == |c| - |hz.zone.Encloser(c)|
  {
    WholeSuffix(hz.zone.Encloser(c), c);
    if hz.Hashes(c[j..]) { HashedDepth(hz, c, j); }
  }

  lemma HashedDepth(hz: HashedZone, c: Name, j: nat)
    requires hz.Valid() && IsSuffix(hz.zone.apex, c) && j <= |c| && hz.Hashes(c[j..])
    ensures |c| - j <= |hz.zone.Encloser(c)|
  {
    HashedExists(hz, c[j..]);
    assert IsSuffix(c[j..], c);
    EncloserDeepest(hz.zone, c, c[j..]);
  }

  // ---- the other proofs ----

  /** Given the whole chain of a zone that does not opt out, a name is proven to lack
      a DS exactly when it exists below the apex and does: a name that does not exist
      gets no such proof, unlike with NSEC. */
  lemma NoDSExact(hs: HashSuite, hz: HashedZone, nsec3s: seq<Nsec3Record>, child: Name)
    requires hz.Valid() && FullChain(hs, hz, nsec3s) && IsSuffix(hz.zone.apex, Canon(child)) && LabelsOk(child)
    requires NoCollision(hs, hz, Canon(child))
    ensures var c, z := Canon(child), hz.zone;
            NoDS3(hs, nsec3s, child) == Proven <==> c != z.apex && z.Exists(c) && TypeDS !in hz.TypesAt(c)
  {
    var c := Canon(child);
    ExistingHashed(hs, hz, nsec3s, c);
    HashedIsMatched(hs, hz, nsec3s, child);
    FoundMatch(hs, hz, nsec3s, child);
    if hz.Hashes(c) {
      MatchedDS(hs, hz, FindMatch(hs, nsec3s, child).record, c);
    } else {
      CoverStaysIn(hs, hz, nsec3s, child);
    }
  }

  lemma MatchedDS(hs: HashSuite, hz: HashedZone, m: Nsec3Record, c: Name)
    requires hz.Valid() && Authentic(hs, hz, m) && m.owner == hz.HashOf(hs, c) && NoCollision(hs, hz, c)
    requires IsSuffix(hz.zone.apex, c)
    ensures !TypeInBitmap(m.rr.typeBitmap, TypeSOA) && !TypeInBitmap(m.rr.typeBitmap, TypeDS)
            <==> c != hz.zone.apex && TypeDS !in hz.TypesAt(c)
  {
    MatchMeans(hs, hz, m, c);
    var bitmap := m.rr.typeBitmap;
    assert TypeInBitmap(bitmap, TypeSOA) <==> TypeSOA in hz.TypesAt(c);
    assert TypeInBitmap(bitmap, TypeDS) <==> TypeDS in hz.TypesAt(c);
    assert hz.zone.Owns(hz.zone.apex);
    if c in hz.zone.types { assert hz.zone.Owns(c); }
  }

  lemma {:induction false} CoverStaysIn(hs: HashSuite, hz: HashedZone, nsec3s: seq<Nsec3Record>, x: Name)
    requires AllAuthentic(hs, hz, nsec3s) && NoneOptsOut(nsec3s)
    ensures FindCover(hs, nsec3s, x).Hit? ==> !FindCover(hs, nsec3s, x).record.rr.OptOut()
  {
    if nsec3s != [] {
      assert DenialProofs.Index(nsec3s, 0);
      AllAuthenticTail(hs, hz, nsec3s);
      forall i {:trigger DenialProofs.Index(nsec3s[1..], i)} | DenialProofs.Index(nsec3s[1..], i)
          ensures !nsec3s[1..][i].rr.OptOut() {
        assert DenialProofs.Index(nsec3s, i + 1);
      }
      CoverStaysIn(hs, hz, nsec3s[1..], x);
    }
  }

  /** Given the whole chain of a zone that does not opt out, a wildcard answer is
      proven to be entitled to a name exactly when the name does not exist. */
  lemma NoCloserExact(hs: HashSuite, hz: HashedZone, nsec3s: seq<Nsec3Record>, x: Name, zone: Name)
    requires Setting(hs, hz, nsec3s, x, zone) && FullChain(hs, hz, nsec3s) && LabelsOk(x)
    ensures NoCloserMatch3(hs, nsec3s, x, zone) == Proven <==> !hz.zone.Exists(Canon(x))
  {
    ExistingHashed(hs, hz, nsec3s, Canon(x));
    if NoCloserMatch3(hs, nsec3s, x, zone) == Proven {
      NoCloserShape(hs, nsec3s, x, zone);
      var k := NextCloserMeans(hs, hz, nsec3s, x, zone);
    }
    if !hz.zone.Exists(Canon(x)) {
      var k := EncloserFound(hs, hz, nsec3s, x, zone);
      NextCloserIsCovered(hs, hz, nsec3s, x, k);
    }
  }

  /** Given the whole chain of a zone that does not opt out, an empty answer is proven
      exactly when the name exists and the lookup is empty, or it does not and the
      wildcard at its closest encloser does, without the type. */
  lemma NoDataExact(hs: HashSuite, hz: HashedZone, nsec3s: seq<Nsec3Record>, x: Name, qtype: U16, zone: Name)
    requires Setting(hs, hz, nsec3s, x, zone) && FullChain(hs, hz, nsec3s) && LabelsOk(x)
    ensures var c, z := Canon(x), hz.zone;
            var w := Wildcard(z.Encloser(c));
            NoData3(hs, nsec3s, x, qtype, zone) == Proven <==>
              if z.Exists(c) then z.Lookup(c, qtype) == NoData else z.Exists(w) && qtype !in hz.TypesAt(w)
  {
    var c := Canon(x);
    assert Above(c, c);
    ExistingHashed(hs, hz, nsec3s, c);
    HashedIsMatched(hs, hz, nsec3s, x);
    if hz.Hashes(c) {
      FoundMatch(hs, hz, nsec3s, x);
      var m := FindMatch(hs, nsec3s, x).record;
      MatchMeans(hs, hz, m, c);
      MatchedLookup(hz, c, m.rr.typeBitmap, qtype);
    } else {
      var k := EncloserFound(hs, hz, nsec3s, x, zone);
      NextCloserIsCovered(hs, hz, nsec3s, x, k);
      CoverStaysIn(hs, hz, nsec3s, x[k - 1..]);
      WildcardDecides(hs, hz, nsec3s, x, k, qtype);
    }
  }

  /** The record of a wildcard is there exactly if the wildcard exists, and says what
      it holds. */
  lemma WildcardDecides(hs: HashSuite, hz: HashedZone, nsec3s: seq<Nsec3Record>, x: Name, k: nat, qtype: U16)
    requires hz.Valid() && FullChain(hs, hz, nsec3s) && LabelsOk(x) && Separated(hs, hz, Canon(x)) && k <= |x|
    requires IsSuffix(hz.zone.apex, Canon(x)[k..])
    ensures var w, m := Wildcard(Canon(x)[k..]), FindMatch(hs, nsec3s, Wildcard(x[k..]));
            && !m.FindError?
            && (m.Hit? && !TypeInBitmap(m.record.rr.typeBitmap, qtype)
                <==> hz.zone.Exists(w) && qtype !in hz.TypesAt(w))
  {
    SeparatedAt(hs, hz, x, k);
    CanonWildcard(x[k..]);
    WildcardIsHashed(hs, hz, nsec3s, Canon(x)[k..]);
    MatchDecides(hs, hz, nsec3s, Wildcard(x[k..]), qtype);
  }

  lemma MatchDecides(hs: HashSuite, hz: HashedZone, nsec3s: seq<Nsec3Record>, w: Name, qtype: U16)
    requires hz.Valid() && FullChain(hs, hz, nsec3s) && LabelsOk(w) && NoCollision(hs, hz, Canon(w))
    requires hz.Hashes(Canon(w)) <==> hz.zone.Exists(Canon(w))
    ensures var m := FindMatch(hs, nsec3s, w);
            && !m.FindError?
            && (m.Hit? && !TypeInBitmap(m.record.rr.typeBitmap, qtype)
                <==> hz.zone.Exists(Canon(w)) && qtype !in hz.TypesAt(Canon(w)))
  {
    HashedIsMatched(hs, hz, nsec3s, w);
    FoundMatch(hs, hz, nsec3s, w);
    if hz.Hashes(Canon(w)) {
      var m := FindMatch(hs, nsec3s, w).record;
      MatchMeans(hs, hz, m, Canon(w));
      assert TypeInBitmap(m.rr.typeBitmap, qtype) <==> qtype in hz.TypesAt(Canon(w));
    }
  }
}

/** Small hashed zones on which the NSEC3 checker accepts more than its names suggest.
    The digest and the text form are the identity, so the hash of a name is its
    canonical wire form. */
module Nsec3Examples {
  import opened Octets
  import opened Names
  import opened Messages
  import opened Canonical
  import opened Nsec3
  import opened Zones
  import opened Nsec3Proofs
  import opened DenialExamples
  import DenialProofs

  const OPT_OUT: Octet := 1

  function Plain(): HashSuite {
    HashSuite(b => b, b => b)
  }

  /** A record of a zone at the root. */
  function At(owner: Bytes, flags: Octet, next: Bytes, bitmap: Bytes): Nsec3Record {
    Nsec3Record(owner, [], NSEC3(HASH_SHA1, flags, 0, [], next, bitmap))
  }

  function RootOf(other: Name, types: set<U16>, hashed: set<Name>): HashedZone {
    HashedZone(TwoNames(other, types), hashed, [], 0)
  }

  lemma PlainHash(hz: HashedZone, n: Name)
    requires hz.salt == [] && hz.iterations == 0 && LabelsOk(n)
    ensures hz.HashOf(Plain(), n) == WireName(n)
  {
    assert WireName(n) + [] == WireName(n);
  }

  lemma PlainHashName(r: Nsec3Record, n: Name)
    requires r.rr.algorithm == HASH_SHA1 && r.rr.salt == [] && r.rr.iterations == 0 && LabelsOk(n) && Canon(n) == n
    ensures HashName(Plain(), r.rr, n) == Hash(WireName(n))
  {
    assert WireName(n) + [] == WireName(n);
  }

  lemma Wires()
    ensures LabelsOk([]) && LabelsOk([X]) && LabelsOk([Y, X]) && LabelsOk([[STAR]])
    ensures WireName([]) == [0] && WireName([X]) == [1, 120, 0] && WireName([[STAR]]) == [1, 42, 0]
    ensures WireName([Y, X]) == [1, 121, 1, 120, 0]
  {
    assert [X][1..] == [] && [[STAR]][1..] == [] && [Y, X][1..] == [X];
  }

  lemma CompareFirst(a: Bytes, b: Bytes)
    requires a != [] && b != []
    ensures a[0] < b[0] ==> Compare(a, b) == -1
    ensures a[0] > b[0] ==> Compare(a, b) == 1
    ensures a[0] == b[0] ==> Compare(a, b) == Compare(a[1..], b[1..])
  {}

  lemma NonRoot(n: Name)
    requires LabelsOk(n) && n != []
    ensures Compare(WireName(n), [0]) == 1 && Compare([0], WireName(n)) == -1 && WireName(n) != [0]
  {
    CompareFirst(WireName(n), [0]);
    CompareFirst([0], WireName(n));
  }

  /** A name whose wire form only hashed names can share collides with none. */
  lemma Apart(hz: HashedZone, n: Name)
    requires hz.salt == [] && hz.iterations == 0 && (forall o | hz.Hashes(o) :: LabelsOk(o)) && hz.Hashes([])
    requires forall o | hz.Hashes(o) && o != n && LabelsOk(n) :: WireName(o) != WireName(n)
    requires LabelsOk(n)
    ensures NoCollision(Plain(), hz, n)
  {
    PlainHash(hz, n);
    forall o {:trigger hz.Hashes(o)} | hz.Hashes(o) && hz.HashOf(Plain(), o) == hz.HashOf(Plain(), n) ensures o == n {
      PlainHash(hz, o);
    }
  }

  // ---- opt-out under a name error ----

  function OptedOut(): HashedZone {
    RootOf([X], {TypeNS}, {[]})
  }

  function ApexOnly(): Nsec3Record {
    At([0], OPT_OUT, [0], SOA_NS)
  }

  lemma OptedOutValid()
    ensures OptedOut().Valid()
  {
    var hz := OptedOut();
    TwoNamesTree([X], {TypeNS});
    assert hz.zone.Owns([]) && hz.zone.Owns([X]);
    forall o | hz.zone.Owns(o) ensures o == [] || o == [X] {}
    forall n, s | hz.Hashes(n) && IsSuffix(s, n) ensures s == [] {}
    assert IsSuffix([], []) && hz.zone.Exists([]);
  }

  lemma ApexOnlyAuthentic()
    ensures Authentic(Plain(), OptedOut(), ApexOnly())
  {
    var hz, r := OptedOut(), ApexOnly();
    Wires();
    BitmapsRight();
    PlainHash(hz, []);
    assert hz.Hashes([]) && RecordAt(Plain(), hz, r, []);
    forall w | hz.Hashes(w) ensures w == [] {}
    CompareZero([0], [0]);
  }

  lemma SuffixOfOne(l: Label, s: Name)
    ensures IsSuffix(s, [l]) ==> s == [] || s == [l]
  {
    assert [l][1..] == [] && [l][0..] == [l];
  }

  /** No other hashed name shares the hash of a name or of the wildcard below it. */
  ghost predicate BothApart(hz: HashedZone, n: Name) {
    NoCollision(Plain(), hz, n) && NoCollision(Plain(), hz, Wildcard(n))
  }

  lemma SeparatedOne(hz: HashedZone)
    requires BothApart(hz, []) && BothApart(hz, [X])
    ensures Separated(Plain(), hz, [X])
  {
    forall s {:trigger Above(s, [X])} | Above(s, [X])
      ensures NoCollision(Plain(), hz, s) && NoCollision(Plain(), hz, Wildcard(s))
    {
      SuffixOfOne(X, s);
      assert BothApart(hz, s);
    }
  }

  lemma ApartFromApex(n: Name)
    requires LabelsOk(n)
    ensures NoCollision(Plain(), OptedOut(), n)
  {
    Wires();
    if n != [] { NonRoot(n); }
    forall o | OptedOut().Hashes(o) ensures o == [] {}
    Apart(OptedOut(), n);
  }

  lemma OptedOutSeparated()
    ensures Separated(Plain(), OptedOut(), [X])
  {
    Wires();
    ApartFromApex([]);
    ApartFromApex([X]);
    ApartFromApex(Wildcard([]));
    ApartFromApex(Wildcard([X]));
    SeparatedOne(OptedOut());
  }

  lemma ApexOnlyCovers(n: Name)
    requires LabelsOk(n) && n != [] && Canon(n) == n
    ensures FindCover(Plain(), [ApexOnly()], n) == Hit(ApexOnly())
  {
    PlainHashName(ApexOnly(), n);
    NonRoot(n);
    CompareZero([0], [0]);
  }

  lemma ApexOnlyProves()
    ensures NameError3(Plain(), [ApexOnly()], [X], []) == Proven
    ensures ClosestEncloser3(Plain(), [ApexOnly()], [X], []) == Enclosing([], [X])
  {
    var r := ApexOnly();
    Wires();
    Lowercase();
    assert Canon([]) == [];
    PlainHashName(r, []);
    assert FindMatch(Plain(), [r], []) == Hit(r);
    assert [X][1..] == [] && [X][0..] == [X] && Wildcard([]) == [[STAR]];
    assert EncloserFrom(Plain(), [r], [X], [], 1) == Enclosing([], [X]);
    ApexOnlyCovers([X]);
    ApexOnlyCovers([[STAR]]);
  }

  /** With owners "." and an unsigned delegation "x" left out of the chain, the one
      record of the zone, which opts out, proves a name error for "x". */
  lemma DelegationDenied() returns (hz: HashedZone, nsec3s: seq<Nsec3Record>)
    ensures Setting(Plain(), hz, nsec3s, [X], []) && NameError3(Plain(), nsec3s, [X], []) == Proven
    ensures CoverOptsOut(Plain(), nsec3s, [X]) && hz.zone.IsCut([X])
    ensures IsSuffix(hz.zone.apex, [X]) && hz.zone.Lookup([X], TypeA) == Referral
  {
    hz, nsec3s := OptedOut(), [ApexOnly()];
    OptedOutValid();
    ApexOnlyAuthentic();
    OptedOutSeparated();
    ApexOnlyProves();
    Wires();
    Lowercase();
    ApexOnlyCovers([X]);
  }

  // ---- an opt-out gap below a signed delegation ----

  function SignedX(): HashedZone {
    RootOf([X], {TypeNS, TypeDS}, {[], [X]})
  }

  function AfterX(): Nsec3Record {
    At([1, 120, 0], OPT_OUT, [0], NS_DS)
  }

  /** A zone at the root, hashed at its apex and one owner below it. */
  lemma PairHashed(hz: HashedZone, l: Label, n: Name)
    requires hz.hashed == {[], [l]} && hz.zone.apex == [] && 1 <= |l| <= 63
    requires hz.zone.Owns([]) && hz.zone.Owns([l]) && hz.Hashes(n)
    ensures IsSuffix(hz.zone.apex, n) && hz.zone.Exists(n) && LabelsOk(n)
  {
    assert IsSuffix(n, n);
  }

  lemma PairClosed(hz: HashedZone, l: Label, n: Name, s: Name)
    requires hz.hashed == {[], [l]} && hz.Hashes(n) && IsSuffix(s, n)
    ensures hz.Hashes(s)
  {
    SuffixOfOne(l, s);
  }

  lemma PairValid(hz: HashedZone, l: Label)
    requires hz.zone.Tree() && hz.zone.apex == [] && hz.hashed == {[], [l]} && 1 <= |l| <= 63
    requires hz.zone.Owns([]) && hz.zone.Owns([l])
    requires forall o {:trigger hz.zone.Owns(o)} | hz.zone.Owns(o) && !hz.Hashes(o) ::
               hz.Optional(o)
    ensures hz.Valid()
  {
    forall n {:trigger hz.Hashes(n)} | hz.Hashes(n)
      ensures IsSuffix(hz.zone.apex, n) && hz.zone.Exists(n) && LabelsOk(n)
    {
      PairHashed(hz, l, n);
    }
    forall n, s {:trigger hz.Hashes(n), IsSuffix(s, n)} | hz.Hashes(n) && IsSuffix(s, n) && IsSuffix(hz.zone.apex, s)
      ensures hz.Hashes(s)
    {
      PairClosed(hz, l, n, s);
    }
  }

  lemma SignedXValid()
    ensures SignedX().Valid()
  {
    var hz := SignedX();
    TwoNamesTree([X], {TypeNS, TypeDS});
    forall o {:trigger hz.zone.Owns(o)} | hz.zone.Owns(o) ensures hz.Hashes(o) {}
    assert hz.zone.Owns([]) && hz.zone.Owns([X]);
    PairValid(hz, X);
  }

  lemma AfterXAuthentic()
    ensures Authentic(Plain(), SignedX(), AfterX())
  {
    var hz, r := SignedX(), AfterX();
    Wires();
    DelegationBitmap();
    PlainHash(hz, []);
    PlainHash(hz, [X]);
    assert hz.Hashes([]) && hz.Hashes([X]) && RecordAt(Plain(), hz, r, [X]);
    forall w | hz.Hashes(w) ensures w == [] || w == [X] {}
    NonRoot([X]);
    CompareZero([0], [0]);
    CompareZero([1, 120, 0], [1, 120, 0]);
  }

  lemma BelowXApart()
    ensures NoCollision(Plain(), SignedX(), [Y, X])
  {
    Wires();
    forall o | SignedX().Hashes(o) ensures o == [] || o == [X] {}
    Apart(SignedX(), [Y, X]);
  }

  lemma AfterXCovers()
    ensures FindMatch(Plain(), [AfterX()], [Y, X]) == Miss && FindCover(Plain(), [AfterX()], [Y, X]) == Hit(AfterX())
  {
    var r := AfterX();
    Wires();
    Lowercase();
    PlainHashName(r, [Y, X]);
    var h, o: Bytes := [1, 121, 1, 120, 0], [1, 120, 0];
    CompareFirst(h, o);
    assert h[1..] == [121, 1, 120, 0] && o[1..] == [120, 0];
    CompareFirst(h[1..], o[1..]);
    CompareFirst(o, [0]);
    assert Covers3(Plain(), r, h);
    assert FindMatch(Plain(), [r], [Y, X]) == Miss;
    assert FindCover(Plain(), [r], [Y, X]) == Hit(r);
  }

  lemma AfterXProves()
    ensures NoDS3(Plain(), [AfterX()], [Y, X]) == Proven
  {
    AfterXCovers();
  }

  /** The same record matches the closest encloser, and tells. */
  lemma AfterXTells()
    ensures Located(Plain(), [AfterX()], [Y, X], []) && EncloserIsCut(Plain(), [AfterX()], [Y, X], [])
    ensures TypeInBitmap(EncloserTypes(Plain(), [AfterX()], [Y, X], []), TypeDS)
  {
    var r := AfterX();
    Wires();
    Lowercase();
    PlainHashName(r, [X]);
    AfterXCovers();
    assert [Y, X][1..] == [X] && [Y, X][0..] == [Y, X];
    assert FindMatch(Plain(), [r], [X]) == Hit(r);
    assert EncloserFrom(Plain(), [r], [Y, X], [], 1) == Enclosing([X], [Y, X]);
    DelegationBitmap();
  }

  /** With owners "." and a signed delegation "x", both hashed, a gap that opts out
      proves that "y.x" has no DS, although that is for "x" to say: the lookup is a
      referral. The guard that is missing would tell. */
  lemma SignedChildDenied3() returns (hz: HashedZone, nsec3s: seq<Nsec3Record>)
    ensures hz.Valid() && AllAuthentic(Plain(), hz, nsec3s) && NoCollision(Plain(), hz, [Y, X])
    ensures hz.zone.IsCut([X]) && TypeDS in hz.zone.types[[X]] && NoDS3(Plain(), nsec3s, [Y, X]) == Proven
    ensures IsSuffix(hz.zone.apex, [Y, X]) && hz.zone.Lookup([Y, X], TypeDS) == Referral
    ensures Located(Plain(), nsec3s, [Y, X], []) && EncloserIsCut(Plain(), nsec3s, [Y, X], [])
    ensures TypeInBitmap(EncloserTypes(Plain(), nsec3s, [Y, X], []), TypeDS)
  {
    hz, nsec3s := SignedX(), [AfterX()];
    AfterXTells();
    SignedXValid();
    AfterXAuthentic();
    BelowXApart();
    AfterXProves();
    BelowSignedCut();
  }

  // ---- an empty non-terminal left out ----

  /** The owners ".", "y" with an address, and an unsigned delegation "y.x" that is
      left out, and with it the empty non-terminal "x". */
  function LeftOutBelow(): HashedZone {
    HashedZone(Zone([], map[[] := {TypeNS, TypeSOA}, [Y] := {TypeA}, [Y, X] := {TypeNS}]), {[], [Y]}, [], 0)
  }

  function UpToY(): Nsec3Record {
    At([0], 0, [1, 121, 0], SOA_NS)
  }

  lemma WireOfY()
    ensures LabelsOk([Y]) && WireName([Y]) == [1, 121, 0]
    ensures LabelsOk([[STAR], X]) && WireName([[STAR], X]) == [1, 42, 1, 120, 0]
  {
    assert [Y][1..] == [] && [[STAR], X][1..] == [X];
    Wires();
  }

  lemma LeftOutOwners(o: Name)
    ensures LeftOutBelow().zone.Owns(o) <==> o == [] || o == [Y] || o == [Y, X]
    ensures LeftOutBelow().Hashes(o) <==> o == [] || o == [Y]
  {}

  lemma LeftOutTree()
    ensures LeftOutBelow().zone.Tree()
  {
    var z := LeftOutBelow().zone;
    assert [Y, X][1..] == [X] && [Y, X][0..] == [Y, X] && X != Y;
    forall o ensures z.Owns(o) <==> o == [] || o == [Y] || o == [Y, X] { LeftOutOwners(o); }
    assert !IsSuffix([Y, X], [Y]) && !IsSuffix([Y, X], []);
  }

  lemma LeftOutValid()
    ensures LeftOutBelow().Valid()
  {
    var hz := LeftOutBelow();
    LeftOutTree();
    LeftOutOwners([]);
    LeftOutOwners([Y]);
    forall o {:trigger hz.zone.Owns(o)} | hz.zone.Owns(o) && !hz.Hashes(o)
      ensures hz.Optional(o)
    {
      LeftOutOwners(o);
    }
    PairValid(hz, Y);
  }

  lemma WireOrder()
    ensures Compare([1, 120, 0], [1, 121, 0]) == -1 && Compare([1, 42, 0], [1, 121, 0]) == -1
    ensures Compare([1, 121, 1, 120, 0], [1, 121, 0]) == 1
  {
    var x, s, y, yx: Bytes := [1, 120, 0], [1, 42, 0], [1, 121, 0], [1, 121, 1, 120, 0];
    assert x[1..] == [120, 0] && s[1..] == [42, 0] && y[1..] == [121, 0] && yx[1..] == [121, 1, 120, 0];
    assert y[1..][1..] == [0] && yx[1..][1..] == [1, 120, 0];
    CompareFirst(x, y);
    CompareFirst(s, y);
    CompareFirst(yx, y);
    CompareFirst(yx[1..], y[1..]);
    CompareFirst(yx[1..][1..], y[1..][1..]);
  }

  lemma UpToYAuthentic()
    ensures Authentic(Plain(), LeftOutBelow(), UpToY())
  {
    var hz, r := LeftOutBelow(), UpToY();
    Wires();
    WireOfY();
    WireOrder();
    BitmapsRight();
    PlainHash(hz, []);
    PlainHash(hz, [Y]);
    PlainHash(hz, [Y, X]);
    assert hz.Hashes([]) && hz.Hashes([Y]) && RecordAt(Plain(), hz, r, []);
    forall w | hz.Hashes(w) ensures w == [] || w == [Y] {}
    NonRoot([Y]);
    CompareZero([0], [0]);
    CompareZero([1, 121, 0], [1, 121, 0]);
    forall o {:trigger hz.zone.Owns(o)} | hz.zone.Owns(o) && !hz.Hashes(o) && LabelsOk(o)
      ensures !Covers3(Plain(), r, hz.HashOf(Plain(), o))
    {
      LeftOutOwners(o);
    }
  }

  lemma ApartFromY(n: Name)
    requires LabelsOk(n) && n != [] && WireName(n) != [1, 121, 0]
    ensures NoCollision(Plain(), LeftOutBelow(), n)
  {
    Wires();
    WireOfY();
    NonRoot(n);
    forall o | LeftOutBelow().Hashes(o) ensures o == [] || o == [Y] { LeftOutOwners(o); }
    Apart(LeftOutBelow(), n);
  }

  lemma ApartFromRoot()
    ensures NoCollision(Plain(), LeftOutBelow(), [])
  {
    Wires();
    WireOfY();
    forall o | LeftOutBelow().Hashes(o) ensures o == [] || o == [Y] { LeftOutOwners(o); }
    Apart(LeftOutBelow(), []);
  }

  lemma LeftOutSeparated()
    ensures Separated(Plain(), LeftOutBelow(), [X])
  {
    Wires();
    WireOfY();
    assert Wildcard([]) == [[STAR]] && Wildcard([X]) == [[STAR], X];
    ApartFromRoot();
    ApartFromY([X]);
    ApartFromY([[STAR]]);
    ApartFromY([[STAR], X]);
    SeparatedOne(LeftOutBelow());
  }

  lemma UpToYCovers(n: Name)
    requires LabelsOk(n) && n != [] && Canon(n) == n && Compare(WireName(n), [1, 121, 0]) == -1
    ensures FindCover(Plain(), [UpToY()], n) == Hit(UpToY())
  {
    PlainHashName(UpToY(), n);
    NonRoot(n);
    CompareFirst([0], [1, 121, 0]);
  }

  lemma UpToYProves()
    ensures NameError3(Plain(), [UpToY()], [X], []) == Proven
  {
    var r := UpToY();
    Wires();
    WireOrder();
    Lowercase();
    assert Canon([]) == [];
    PlainHashName(r, []);
    assert FindMatch(Plain(), [r], []) == Hit(r);
    assert [X][1..] == [] && [X][0..] == [X] && Wildcard([]) == [[STAR]];
    assert EncloserFrom(Plain(), [r], [X], [], 1) == Enclosing([], [X]);
    UpToYCovers([X]);
    UpToYCovers([[STAR]]);
  }

  lemma LeftOutLookup()
    ensures var hz := LeftOutBelow();
            LeftOut(hz, [X]) && IsSuffix(hz.zone.apex, [X]) && hz.zone.Lookup([X], TypeA) == NoData
  {
    var hz := LeftOutBelow();
    LeftOutOwners([Y, X]);
    assert [Y, X][1..] == [X] && IsSuffix([X], [Y, X]);
    LeftOutTree();
    assert hz.zone.Exists([X]);
    OwnedBelow(hz.zone, [X]);
    LeftOutOwners([X]);
    assert [X] != [Y] && !hz.zone.Owns([X]);
  }

  /** No record shown opts out, and still the name exists: its own hash and that of
      the delegation left out below it lie in different gaps, of which only the one
      not shown opts out. */
  lemma EmptyNonTerminalLeftOut() returns (hz: HashedZone, nsec3s: seq<Nsec3Record>)
    ensures Setting(Plain(), hz, nsec3s, [X], []) && NameError3(Plain(), nsec3s, [X], []) == Proven
    ensures forall i | 0 <= i < |nsec3s| :: !nsec3s[i].rr.OptOut()
    ensures LeftOut(hz, [X]) && IsSuffix(hz.zone.apex, [X]) && hz.zone.Lookup([X], TypeA) == NoData
  {
    hz, nsec3s := LeftOutBelow(), [UpToY()];
    LeftOutValid();
    UpToYAuthentic();
    LeftOutSeparated();
    UpToYProves();
    LeftOutLookup();
    Lowercase();
  }

  // ---- a salt and a further round ----

  const SALT: Bytes := [0xAA, 0xBB, 0xCC, 0xDD]

  /** The digest puts an octet in front, so that the order of what it is given shows. */
  function Marked(): HashSuite {
    HashSuite(b => [7] + b, b => b)
  }

  /** The record of x, hashed with a salt and one more round. */
  function SaltedX(): Nsec3Record {
    Nsec3Record([7, 7, 1, 120, 0, 0xAA, 0xBB, 0xCC, 0xDD, 0xAA, 0xBB, 0xCC, 0xDD], [],
                NSEC3(HASH_SHA1, 0, 1, SALT, [0], ONLY_A))
  }

  lemma SaltedHash()
    ensures HashName(Marked(), SaltedX().rr, [X]) == Hash(SaltedX().owner)
  {
    Wires();
    Lowercase();
    var hs := Marked();
    var first := hs.digest([1, 120, 0] + SALT);
    var second := hs.digest(first + SALT);
    assert Digests(hs, [1, 120, 0], SALT, [first, second]);
    HashIsLastDigest(hs, SaltedX().rr, [X], [first, second]);
    assert second == SaltedX().owner;
  }

  /** A record at the query's own name, with a salt and one iteration, is found: it
      proves that no other type is there, and no DS. */
  lemma SaltedMatch()
    ensures NoData3(Marked(), [SaltedX()], [X], TypeDS, []) == Proven
    ensures NoDS3(Marked(), [SaltedX()], [X]) == Proven
    ensures NoData3(Marked(), [SaltedX()], [X], TypeA, []) == NoDenial
  {
    SaltedHash();
    BitmapsRight();
    assert FindMatch(Marked(), [SaltedX()], [X]) == Hit(SaltedX());
  }
}

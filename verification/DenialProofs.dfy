/** What the NSEC checker's verdicts mean for the zone that signed the records. */
module DenialProofs {
  import opened Octets
  import opened Names
  import opened Messages
  import opened Nsec3
  import opened Denial
  import opened Zones
  import opened Gaps

  ghost predicate BitmapOf(bitmap: Bytes, types: set<U16>) {
    forall t: U16 {:trigger TypeInBitmap(bitmap, t)} :: TypeInBitmap(bitmap, t) <==> t in types
  }

  /** The record is one of the zone's own chain. */
  ghost predicate Authentic(z: Zone, r: NsecRecord) {
    && IsNext(z, Canon(r.owner), Canon(r.rr.nextDomain))
    && BitmapOf(r.rr.typeBitmap, z.types[Canon(r.owner)])
  }

  predicate Index<T>(s: seq<T>, i: int) {
    0 <= i < |s|
  }

  ghost predicate AllAuthentic(z: Zone, nsecs: seq<NsecRecord>) {
    forall i {:trigger Index(nsecs, i)} | Index(nsecs, i) :: Authentic(z, nsecs[i])
  }

  /** The record of one owner. */
  predicate RecordOf(nsecs: seq<NsecRecord>, i: nat, o: Name) {
    i < |nsecs| && Canon(nsecs[i].owner) == o
  }

  /** Every owner's record is among them. */
  ghost predicate FullChain(z: Zone, nsecs: seq<NsecRecord>) {
    && AllAuthentic(z, nsecs)
    && forall o {:trigger z.Owns(o)} | z.Owns(o) :: exists i :: RecordOf(nsecs, i, o)
  }

  /** The name is one this zone's chain speaks about. */
  predicate Inhabits(z: Zone, x: Name) {
    IsSuffix(z.apex, Canon(x))
  }

  // ---- searching ----

  lemma AllAuthenticTail(z: Zone, nsecs: seq<NsecRecord>)
    requires AllAuthentic(z, nsecs) && nsecs != []
    ensures AllAuthentic(z, nsecs[1..])
  {
    forall i {:trigger Index(nsecs[1..], i)} | Index(nsecs[1..], i) ensures Authentic(z, nsecs[1..][i]) {
      assert Index(nsecs, i + 1);
    }
  }

  lemma {:induction false} FoundCovering(z: Zone, nsecs: seq<NsecRecord>, x: Name)
    requires AllAuthentic(z, nsecs)
    ensures match FindCovering(nsecs, x)
            case Some(r) => Authentic(z, r) && Inside(Canon(r.owner), Canon(x), Canon(r.rr.nextDomain))
            case None => forall i | 0 <= i < |nsecs| :: !Covers(nsecs[i], x)
  {
    assert nsecs != [] ==> Index(nsecs, 0);
    if nsecs != [] && !Covers(nsecs[0], x) {
      AllAuthenticTail(z, nsecs);
      FoundCovering(z, nsecs[1..], x);
      assert forall i | 1 <= i < |nsecs| :: nsecs[i] == nsecs[1..][i - 1];
    }
  }

  lemma {:induction false} FoundOwner(z: Zone, nsecs: seq<NsecRecord>, x: Name)
    requires AllAuthentic(z, nsecs)
    ensures match FindOwner(nsecs, x)
            case Some(r) => Authentic(z, r) && EqualName(r.owner, x)
            case None => forall i :: !RecordOf(nsecs, i, Canon(x))
  {
    assert nsecs != [] ==> Index(nsecs, 0);
    if nsecs != [] && !EqualName(nsecs[0].owner, x) {
      AllAuthenticTail(z, nsecs);
      FoundOwner(z, nsecs[1..], x);
      forall i: nat | FindOwner(nsecs, x).None? ensures !RecordOf(nsecs, i, Canon(x)) {
        if 0 < i < |nsecs| { assert !RecordOf(nsecs[1..], i - 1, Canon(x)); }
      }
    }
  }

  // ---- what one gap says ----

  ghost predicate Covering(z: Zone, r: NsecRecord, x: Name) {
    && z.Tree() && Authentic(z, r) && Inhabits(z, x)
    && Inside(Canon(r.owner), Canon(x), Canon(r.rr.nextDomain))
  }

  /** A covered name owns nothing. */
  lemma CoveredIsNoOwner(z: Zone, r: NsecRecord, x: Name)
    requires Covering(z, r, x)
    ensures Canon(x) !in z.types
  {
    InsideIsNoOwner(z, Canon(r.owner), Canon(x), Canon(r.rr.nextDomain));
  }

  /** The suffix the checker computes is the covered name's closest encloser. */
  lemma ClosestEncloserRight(z: Zone, r: NsecRecord, x: Name)
    requires Covering(z, r, x)
    ensures ClosestEncloser(r, x) == z.Encloser(Canon(x))
  {
    GapEncloser(z, Canon(r.owner), Canon(x), Canon(r.rr.nextDomain));
  }

  /** A covered name is an empty non-terminal exactly if the gap's next name is
      properly below it. */
  lemma CoveredNonTerminal(z: Zone, r: NsecRecord, x: Name)
    requires Covering(z, r, x)
    ensures z.Exists(Canon(x)) <==> IsProperSubdomain(r.rr.nextDomain, x)
  {
    GapNonTerminal(z, Canon(r.owner), Canon(x), Canon(r.rr.nextDomain));
  }

  /** The record belongs to the parent's side of a delegation. */
  predicate AtCut(r: NsecRecord) {
    TypeInBitmap(r.rr.typeBitmap, TypeNS) && !TypeInBitmap(r.rr.typeBitmap, TypeSOA)
  }

  /** The record belongs to a delegation above the name: its zone is not the one that
      answers for it. */
  predicate SkipsCut(r: NsecRecord, x: Name) {
    AtCut(r) && IsSubdomainOrEqual(x, r.owner)
  }

  /** A covered name is below a delegation exactly if the gap's owner is one and
      is above the name. */
  lemma CoveredBelowCut(z: Zone, r: NsecRecord, x: Name)
    requires Covering(z, r, x)
    ensures z.BelowCut(Canon(x)) <==> SkipsCut(r, x)
  {
    GapBelowCut(z, Canon(r.owner), Canon(x), Canon(r.rr.nextDomain));
  }

  lemma WildcardInhabits(z: Zone, x: Name)
    requires z.Tree() && Inhabits(z, x)
    ensures var w := Wildcard(z.Encloser(Canon(x))); Canon(w) == w && Inhabits(z, w)
  {
    var c := Canon(x);
    var e := z.Encloser(c);
    CanonIdempotent(x);
    CanonSlice(c, |c| - |e|);
    CanonWildcard(e);
    assert Wildcard(e)[1..] == e;
    SuffixTrans(z.apex, e, Wildcard(e));
  }

  // ---- name error ----

  /** What the two covering records of a name error proof say the lookup gives. */
  function NameErrorMeaning(gap: NsecRecord, wildGap: NsecRecord, x: Name, wild: Name): Outcome {
    if SkipsCut(gap, x) then Referral
    else if IsProperSubdomain(gap.rr.nextDomain, x) then NoData
    else if IsProperSubdomain(wildGap.rr.nextDomain, wild) then NoData
    else NameError
  }

  lemma NameErrorLookup(z: Zone, gap: NsecRecord, wildGap: NsecRecord, x: Name, qtype: U16)
    requires Covering(z, gap, x) && Covering(z, wildGap, Wildcard(z.Encloser(Canon(x))))
    requires Canon(Wildcard(z.Encloser(Canon(x)))) == Wildcard(z.Encloser(Canon(x)))
    ensures z.Lookup(Canon(x), qtype) == NameErrorMeaning(gap, wildGap, x, Wildcard(z.Encloser(Canon(x))))
  {
    var wild := Wildcard(z.Encloser(Canon(x)));
    CoveredIsNoOwner(z, gap, x);
    CoveredIsNoOwner(z, wildGap, wild);
    CoveredNonTerminal(z, gap, x);
    CoveredNonTerminal(z, wildGap, wild);
    CoveredBelowCut(z, gap, x);
  }

  /** A name error proof settles the lookup completely, whatever the type: it is
      a referral if the covering record belongs to a delegation above the name,
      an empty answer if the name or the wildcard is an empty non-terminal, and
      a name error otherwise. In no case does the name, or the wildcard at its
      closest encloser, own records. */
  lemma NameErrorSound(z: Zone, nsecs: seq<NsecRecord>, x: Name, qtype: U16)
    requires z.Tree() && AllAuthentic(z, nsecs) && Inhabits(z, x)
    requires NoName(nsecs, x) == Proven
    ensures Canon(x) !in z.types && Wildcard(z.Encloser(Canon(x))) !in z.types
    ensures var gap := FindCovering(nsecs, x).value;
            var wild := Wildcard(ClosestEncloser(gap, x));
            z.Lookup(Canon(x), qtype) == NameErrorMeaning(gap, FindCovering(nsecs, wild).value, x, wild)
  {
    FoundCovering(z, nsecs, x);
    var gap := FindCovering(nsecs, x).value;
    ClosestEncloserRight(z, gap, x);
    WildcardInhabits(z, x);
    var wild := Wildcard(z.Encloser(Canon(x)));
    FoundCovering(z, nsecs, wild);
    var wildGap := FindCovering(nsecs, wild).value;
    CoveredIsNoOwner(z, gap, x);
    CoveredIsNoOwner(z, wildGap, wild);
    NameErrorLookup(z, gap, wildGap, x, qtype);
  }

  lemma SomeRecordCovers(z: Zone, nsecs: seq<NsecRecord>, x: Name) returns (i: nat)
    requires z.Tree() && FullChain(z, nsecs) && Inhabits(z, x) && Canon(x) !in z.types
    ensures i < |nsecs| && Covers(nsecs[i], x)
  {
    var c := Canon(x);
    var p := Predecessor(z, z.types.Keys, c);
    assert z.Owns(p);
    i :| RecordOf(nsecs, i, p);
    assert Index(nsecs, i);
    PredecessorGap(z, p, c, Canon(nsecs[i].rr.nextDomain));
  }

  /** In a full chain exactly the names that own nothing are covered. */
  lemma FullChainCovers(z: Zone, nsecs: seq<NsecRecord>, x: Name)
    requires z.Tree() && FullChain(z, nsecs) && Inhabits(z, x)
    ensures FindCovering(nsecs, x).Some? <==> Canon(x) !in z.types
  {
    FoundCovering(z, nsecs, x);
    if Canon(x) !in z.types {
      var i := SomeRecordCovers(z, nsecs, x);
    } else if FindCovering(nsecs, x).Some? {
      CoveredIsNoOwner(z, FindCovering(nsecs, x).value, x);
    }
  }

  /** Given the whole chain, the name error proof goes through exactly when
      neither the name nor the wildcard at its closest encloser owns records. */
  lemma NameErrorExact(z: Zone, nsecs: seq<NsecRecord>, x: Name)
    requires z.Tree() && FullChain(z, nsecs) && Inhabits(z, x)
    ensures NoName(nsecs, x) == Proven <==>
              Canon(x) !in z.types && Wildcard(z.Encloser(Canon(x))) !in z.types
  {
    FoundCovering(z, nsecs, x);
    FullChainCovers(z, nsecs, x);
    if Canon(x) !in z.types {
      ClosestEncloserRight(z, FindCovering(nsecs, x).value, x);
      WildcardInhabits(z, x);
      FullChainCovers(z, nsecs, Wildcard(z.Encloser(Canon(x))));
    }
  }

  // ---- no data ----

  lemma EmptyOwnerLookup(z: Zone, n: NsecRecord, x: Name, qtype: U16)
    requires z.Tree() && Authentic(z, n) && Inhabits(z, x) && EqualName(n.owner, x)
    ensures EmptyAtOwner(n.rr.typeBitmap, qtype) <==> z.Lookup(Canon(x), qtype) == NoData
  {
    var c := Canon(x);
    assert z.Owns(c);
    var b := n.rr.typeBitmap;
    assert TypeInBitmap(b, qtype) <==> qtype in z.types[c];
    assert TypeInBitmap(b, TypeNS) <==> TypeNS in z.types[c];
    assert TypeInBitmap(b, TypeSOA) <==> TypeSOA in z.types[c];
    assert TypeInBitmap(b, TypeCNAME) <==> TypeCNAME in z.types[c];
  }

  /** The lookup of a name that does not exist, answered by a wildcard. */
  lemma WildcardLookup(z: Zone, x: Name, qtype: U16)
    requires z.Tree() && Inhabits(z, x) && Canon(x) !in z.types && !z.Exists(Canon(x))
    requires Wildcard(z.Encloser(Canon(x))) in z.types
    ensures z.Lookup(Canon(x), qtype) == z.AtOwner(Wildcard(z.Encloser(Canon(x))), qtype)
  {
    var w := Wildcard(z.Encloser(Canon(x)));
    CutIsEncloser(z, Canon(x));
    assert z.Owns(w) && IsSuffix(w, w) && z.Exists(w);
    if z.IsCut(z.Encloser(Canon(x))) { NoWildcardAtCut(z, z.Encloser(Canon(x))); }
  }

  /** A no-data proof agrees with the lookup: no record of the type is found. The
      lookup is an empty answer, except that a wildcard whose own types include
      an alias would have been followed: that branch of the checker looks at the
      query's type only. */
  lemma NoDataSound(z: Zone, nsecs: seq<NsecRecord>, x: Name, qtype: U16)
    requires z.Tree() && AllAuthentic(z, nsecs) && Inhabits(z, x)
    requires NoDataAt(nsecs, x, qtype) == Proven
    ensures var c := Canon(x); var w := Wildcard(z.Encloser(c));
            if c !in z.types && !z.Exists(c)
            then w in z.types && z.Lookup(c, qtype) == if TypeCNAME in z.types[w] then Alias else NoData
            else z.Lookup(c, qtype) == NoData
  {
    var c := Canon(x);
    FoundOwner(z, nsecs, x);
    FoundCovering(z, nsecs, x);
    match FindOwner(nsecs, x)
    case Some(n) => EmptyOwnerLookup(z, n, x, qtype);
    case None =>
      var gap := FindCovering(nsecs, x).value;
      CoveredIsNoOwner(z, gap, x);
      CoveredNonTerminal(z, gap, x);
      if z.Exists(c) {
        CutIsEncloser(z, c);
      } else {
        ClosestEncloserRight(z, gap, x);
        WildcardInhabits(z, x);
        var w := Wildcard(z.Encloser(c));
        LackingIsOwner(z, nsecs, w, qtype);
        WildcardLookup(z, x, qtype);
      }
  }

  lemma LackingIsOwner(z: Zone, nsecs: seq<NsecRecord>, w: Name, qtype: U16)
    requires AllAuthentic(z, nsecs) && WildcardLacks(nsecs, w, qtype)
    ensures Canon(w) in z.types && qtype !in z.types[Canon(w)]
  {
    var i :| 0 <= i < |nsecs| && EqualName(nsecs[i].owner, w) && !TypeInBitmap(nsecs[i].rr.typeBitmap, qtype);
    assert Index(nsecs, i);
  }

  lemma RecordAmong(z: Zone, nsecs: seq<NsecRecord>, o: Name) returns (i: nat)
    requires FullChain(z, nsecs) && o in z.types
    ensures i < |nsecs| && Canon(nsecs[i].owner) == o && BitmapOf(nsecs[i].rr.typeBitmap, z.types[o])
  {
    assert z.Owns(o);
    i :| RecordOf(nsecs, i, o);
    assert Index(nsecs, i);
  }

  lemma OwnerIsLacking(z: Zone, nsecs: seq<NsecRecord>, w: Name, qtype: U16)
    requires FullChain(z, nsecs)
    requires Canon(w) in z.types && qtype !in z.types[Canon(w)]
    ensures WildcardLacks(nsecs, w, qtype)
  {
    var i := RecordAmong(z, nsecs, Canon(w));
    assert !TypeInBitmap(nsecs[i].rr.typeBitmap, qtype);
    assert EqualName(nsecs[i].owner, w);
  }

  lemma FullChainOwner(z: Zone, nsecs: seq<NsecRecord>, x: Name)
    requires FullChain(z, nsecs)
    ensures FindOwner(nsecs, x).Some? <==> Canon(x) in z.types
  {
    FoundOwner(z, nsecs, x);
    if Canon(x) in z.types {
      assert z.Owns(Canon(x));
      var i :| RecordOf(nsecs, i, Canon(x));
    }
  }

  /** Given the whole chain, every empty lookup is provable unless it is empty
      because the wildcard itself is an empty non-terminal. */
  lemma NoDataComplete(z: Zone, nsecs: seq<NsecRecord>, x: Name, qtype: U16)
    requires z.Tree() && FullChain(z, nsecs) && Inhabits(z, x)
    requires z.Lookup(Canon(x), qtype) == NoData
    ensures NoDataAt(nsecs, x, qtype) == Proven <==>
              Canon(x) in z.types || z.Exists(Canon(x)) || Wildcard(z.Encloser(Canon(x))) in z.types
  {
    var c := Canon(x);
    FoundOwner(z, nsecs, x);
    FullChainOwner(z, nsecs, x);
    FoundCovering(z, nsecs, x);
    FullChainCovers(z, nsecs, x);
    if c in z.types {
      EmptyOwnerLookup(z, FindOwner(nsecs, x).value, x, qtype);
    } else {
      var gap := FindCovering(nsecs, x).value;
      CoveredNonTerminal(z, gap, x);
      ClosestEncloserRight(z, gap, x);
      WildcardInhabits(z, x);
      var w := Wildcard(z.Encloser(c));
      if WildcardLacks(nsecs, w, qtype) { LackingIsOwner(z, nsecs, w, qtype); }
      if !z.Exists(c) && w in z.types {
        WildcardLookup(z, x, qtype);
        OwnerIsLacking(z, nsecs, w, qtype);
      }
    }
  }

  // ---- no DS, no closer match ----

  /** A no-DS proof means the name is below the apex and this zone holds no DS for it.
      That settles the matter unless the zone's own lookup of the DS is a referral:
      exactly if no record of the name itself was shown, and the covering one belongs
      to a delegation above it. The name is a delegation at all only if a record of
      its own was shown that lists NS, which is not asked for. */
  lemma NoDSSound(z: Zone, nsecs: seq<NsecRecord>, child: Name)
    requires z.Tree() && AllAuthentic(z, nsecs) && Inhabits(z, child)
    requires NoDS(nsecs, child) == Proven
    ensures Canon(child) != z.apex
    ensures Canon(child) in z.types ==> TypeDS !in z.types[Canon(child)]
    ensures z.Lookup(Canon(child), TypeDS) == Referral <==>
              FindOwner(nsecs, child).None? && SkipsCut(FindCovering(nsecs, child).value, child)
    ensures z.IsCut(Canon(child)) <==>
              FindOwner(nsecs, child).Some? && TypeInBitmap(FindOwner(nsecs, child).value.rr.typeBitmap, TypeNS)
  {
    match FindOwner(nsecs, child)
    case None =>
      FoundCovering(z, nsecs, child);
      CoveredNoDS(z, FindCovering(nsecs, child).value, child);
    case Some(n) =>
      FoundOwner(z, nsecs, child);
      OwnedNoDS(z, n, child);
  }

  lemma CoveredNoDS(z: Zone, gap: NsecRecord, x: Name)
    requires Covering(z, gap, x)
    ensures Canon(x) !in z.types && Canon(x) != z.apex
    ensures z.Lookup(Canon(x), TypeDS) == Referral <==> SkipsCut(gap, x)
  {
    CoveredIsNoOwner(z, gap, x);
    CoveredBelowCut(z, gap, x);
    DSReferral(z, Canon(x));
  }

  /** Nothing but a delegation above it refers a DS query on. */
  lemma DSReferral(z: Zone, c: Name)
    requires z.apex in z.types && IsSuffix(z.apex, c)
    ensures z.Lookup(c, TypeDS) == Referral <==> z.BelowCut(c)
  {}

  lemma OwnedNoDS(z: Zone, n: NsecRecord, x: Name)
    requires z.Tree() && Authentic(z, n) && Inhabits(z, x) && EqualName(n.owner, x)
    requires !TypeInBitmap(n.rr.typeBitmap, TypeSOA) && !TypeInBitmap(n.rr.typeBitmap, TypeDS)
    ensures Canon(x) != z.apex && Canon(x) in z.types && TypeDS !in z.types[Canon(x)]
    ensures z.Lookup(Canon(x), TypeDS) != Referral
    ensures z.IsCut(Canon(x)) <==> TypeInBitmap(n.rr.typeBitmap, TypeNS)
  {
    var b, types := n.rr.typeBitmap, z.types[Canon(x)];
    assert z.Owns(Canon(x)) && BitmapOf(b, types);
    assert TypeInBitmap(b, TypeNS) <==> TypeNS in types;
    assert TypeInBitmap(b, TypeSOA) <==> TypeSOA in types;
    assert TypeInBitmap(b, TypeDS) <==> TypeDS in types;
  }

  /** Given the whole chain, a name is proven to lack a DS exactly when it is below
      the apex and the zone holds none for it. Every name below one of the zone's
      delegations passes, whatever the zone delegated to holds there. */
  lemma NoDSExact(z: Zone, nsecs: seq<NsecRecord>, child: Name)
    requires z.Tree() && FullChain(z, nsecs) && Inhabits(z, child)
    ensures NoDS(nsecs, child) == Proven <==>
              Canon(child) != z.apex && (Canon(child) in z.types ==> TypeDS !in z.types[Canon(child)])
    ensures z.BelowCut(Canon(child)) ==>
              NoDS(nsecs, child) == Proven && z.Lookup(Canon(child), TypeDS) == Referral
  {
    var c := Canon(child);
    FoundOwner(z, nsecs, child);
    FullChainCovers(z, nsecs, child);
    FullChainOwner(z, nsecs, child);
    if NoDS(nsecs, child) == Proven {
      NoDSSound(z, nsecs, child);
    } else if c in z.types {
      assert z.Owns(c) && BitmapOf(FindOwner(nsecs, child).value.rr.typeBitmap, z.types[c]);
    }
  }

  /** The wildcard an answer was made from is the one the lookup answers from. */
  ghost predicate Entitled(z: Zone, c: Name, w: Name)
    requires z.apex in z.types && IsSuffix(z.apex, c)
  {
    !z.Exists(c) && w == Wildcard(z.Encloser(c))
  }

  lemma EntitledLookup(z: Zone, c: Name, w: Name, qtype: U16)
    requires z.Tree() && IsSuffix(z.apex, c) && w in z.types && Entitled(z, c, w)
    ensures z.Lookup(c, qtype) == z.AtOwner(w, qtype)
  {
    assert z.Owns(w) && IsSuffix(w, w);
    if c in z.types { assert z.Owns(c) && IsSuffix(c, c); }
    CutIsEncloser(z, c);
    if z.IsCut(z.Encloser(c)) { NoWildcardAtCut(z, z.Encloser(c)); }
  }

  /** A wildcard answer is proven to be entitled to a name only if the name owns
      nothing. The wildcard - one the zone owns, with the given number of labels - is
      then the one the lookup answers from exactly if the closest encloser computed
      from the covering record has as many: not if the name is an empty non-terminal,
      and not if a deeper encloser exists. */
  lemma NoCloserSound(z: Zone, nsecs: seq<NsecRecord>, x: Name, labels: nat, qtype: U16)
    requires z.Tree() && AllAuthentic(z, nsecs) && Inhabits(z, x) && labels < |x|
    requires NoCloser(nsecs, x) == Proven && Wildcard(Canon(x)[|x| - labels..]) in z.types
    ensures var c, w, gap := Canon(x), Wildcard(Canon(x)[|x| - labels..]), FindCovering(nsecs, x).value;
            && c !in z.types
            && (Entitled(z, c, w) <==> |ClosestEncloser(gap, x)| == labels)
            && (Entitled(z, c, w) ==> z.Lookup(c, qtype) == z.AtOwner(w, qtype))
  {
    FoundCovering(z, nsecs, x);
    CoveredEntitled(z, FindCovering(nsecs, x).value, x, labels, qtype);
  }

  lemma CoveredEntitled(z: Zone, gap: NsecRecord, x: Name, labels: nat, qtype: U16)
    requires Covering(z, gap, x) && labels < |x| && Wildcard(Canon(x)[|x| - labels..]) in z.types
    ensures var c, w := Canon(x), Wildcard(Canon(x)[|x| - labels..]);
            && c !in z.types
            && (Entitled(z, c, w) <==> |ClosestEncloser(gap, x)| == labels)
            && (Entitled(z, c, w) ==> z.Lookup(c, qtype) == z.AtOwner(w, qtype))
  {
    CoveredIsNoOwner(z, gap, x);
    ClosestEncloserRight(z, gap, x);
    EntitledExact(z, Canon(x), labels);
    if |z.Encloser(Canon(x))| == labels {
      EntitledLookup(z, Canon(x), Wildcard(Canon(x)[|x| - labels..]), qtype);
    }
  }

  lemma EntitledExact(z: Zone, c: Name, labels: nat)
    requires z.apex in z.types && IsSuffix(z.apex, c) && labels < |c|
    ensures Entitled(z, c, Wildcard(c[|c| - labels..])) <==> |z.Encloser(c)| == labels
  {
    SameWildcard(c, z.Encloser(c), labels);
  }

  lemma SameWildcard(c: Name, e: Name, labels: nat)
    requires IsSuffix(e, c) && labels <= |c|
    ensures Wildcard(c[|c| - labels..]) == Wildcard(e) <==> |e| == labels
  {
    if |e| != labels { assert |Wildcard(c[|c| - labels..])| != |Wildcard(e)|; }
  }

  /** Given the whole chain the proof goes through for every name that owns nothing. */
  lemma NoCloserExact(z: Zone, nsecs: seq<NsecRecord>, x: Name)
    requires z.Tree() && FullChain(z, nsecs) && Inhabits(z, x)
    ensures NoCloser(nsecs, x) == Proven <==> Canon(x) !in z.types
  {
    FullChainCovers(z, nsecs, x);
  }
}

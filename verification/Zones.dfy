/** What a zone holds, and what looking a name up in it gives: the reference the
    denial-of-existence proofs are measured against. Nothing here is code of the
    program; it is the meaning of the records the program is shown. */
module Zones {
  import opened Octets
  import opened Names
  import opened Messages

  /** What an authoritative lookup ends in. */
  datatype Outcome = Referral | Data | Alias | NoData | NameError

  /** The owner names of a zone - its authoritative names and the delegations at
      its bottom edge - with the types each holds. */
  datatype Zone = Zone(apex: Name, types: map<Name, set<U16>>)
  {
    /** One apex, above every owner and the only one with an SOA; nothing is
        owned below a delegation. */
    ghost predicate Tree() {
      && apex in types
      && (forall n {:trigger Owns(n)} | Owns(n) :: IsSuffix(apex, n))
      && (forall n {:trigger Owns(n)} | Owns(n) :: TypeSOA in types[n] <==> n == apex)
      && (forall c, n {:trigger Owns(c), Owns(n)} | Owns(c) && Owns(n) && IsCut(c) && IsSuffix(c, n) :: n == c)
    }

    predicate Owns(n: Name) {
      n in types
    }

    /** A delegation: name server records that are not the zone's own. */
    predicate IsCut(c: Name) {
      c in types && TypeNS in types[c] && TypeSOA !in types[c]
    }

    /** A name exists if it or something below it owns records (section 2.2.2 of
        RFC 4592): an empty non-terminal exists. */
    ghost predicate Exists(n: Name) {
      exists o {:trigger Owns(o)} | Owns(o) :: IsSuffix(n, o)
    }

    /** The deepest existing ancestor of a name, or the name itself. */
    ghost function Encloser(n: Name): (e: Name)
      requires apex in types && IsSuffix(apex, n)
      ensures IsSuffix(e, n) && IsSuffix(apex, e)
      decreases |n|
    {
      if Exists(n) then
        n
      else
        EncloserStep(this, n);
        Encloser(n[1..])
    }

    ghost predicate BelowCut(n: Name) {
      exists c {:trigger Owns(c)} | Owns(c) :: IsCut(c) && IsSuffix(c, n) && c != n
    }

    function AtOwner(o: Name, qtype: U16): Outcome
      requires o in types
    {
      if qtype in types[o] then Data else if TypeCNAME in types[o] then Alias else NoData
    }

    /** The lookup of section 3.3.1 of RFC 4592: referral below or at a
        delegation (a DS query at one is answered), exact match, empty
        non-terminal, then the wildcard at the closest encloser. */
    ghost function Lookup(n: Name, qtype: U16): Outcome
      requires apex in types && IsSuffix(apex, n)
    {
      if BelowCut(n) || (IsCut(n) && qtype != TypeDS) then Referral
      else if n in types then AtOwner(n, qtype)
      else if Exists(n) then NoData
      else
        var w := Wildcard(Encloser(n));
        if w in types then AtOwner(w, qtype)
        else if Exists(w) then NoData
        else NameError
    }
  }

  lemma EncloserStep(z: Zone, n: Name)
    requires z.apex in z.types && IsSuffix(z.apex, n) && !z.Exists(n)
    ensures n != [] && IsSuffix(z.apex, n[1..])
    ensures forall e | IsSuffix(e, n[1..]) :: IsSuffix(e, n)
  {
    assert z.Owns(z.apex) && IsSuffix(z.apex, z.apex);
    assert n != z.apex;
    var rest := n[1..];
    assert IsSuffix(rest, n);
    assert rest[|rest| - |z.apex|..] == n[|n| - |z.apex|..];
    forall e | IsSuffix(e, rest) ensures IsSuffix(e, n) { SuffixTrans(e, rest, n); }
  }

  lemma {:induction false} EncloserExists(z: Zone, n: Name)
    requires z.apex in z.types && IsSuffix(z.apex, n)
    ensures z.Exists(z.Encloser(n))
    decreases |n|
  {
    if !z.Exists(n) {
      EncloserStep(z, n);
      EncloserExists(z, n[1..]);
    }
  }

  lemma {:induction false} EncloserDeepest(z: Zone, n: Name, s: Name)
    requires z.apex in z.types && IsSuffix(z.apex, n)
    requires IsSuffix(s, n) && z.Exists(s)
    ensures |s| <= |z.Encloser(n)|
    decreases |n|
  {
    if !z.Exists(n) {
      EncloserStep(z, n);
      assert s != n;
      assert n[1..][|n[1..]| - |s|..] == n[|n| - |s|..];
      EncloserDeepest(z, n[1..], s);
    }
  }

  /** Nothing is below a delegation, so it is the closest encloser of whatever
      is asked for there. */
  lemma CutIsEncloser(z: Zone, n: Name)
    requires z.Tree() && IsSuffix(z.apex, n) && n !in z.types
    ensures z.BelowCut(n) <==> z.IsCut(z.Encloser(n))
    ensures z.BelowCut(n) ==> !z.Exists(n)
  {
    var e := z.Encloser(n);
    EncloserExists(z, n);
    if z.IsCut(e) { assert z.Owns(e); }
    if z.BelowCut(n) {
      var c :| z.Owns(c) && z.IsCut(c) && IsSuffix(c, n) && c != n;
      assert IsSuffix(c, c);
      EncloserDeepest(z, n, c);
      SuffixNested(c, e, n);
      var o :| z.Owns(o) && IsSuffix(e, o);
      SuffixTrans(c, e, o);
    }
  }

  /** The wildcard of a closest encloser that is a delegation owns nothing. */
  lemma NoWildcardAtCut(z: Zone, e: Name)
    requires z.Tree() && z.IsCut(e)
    ensures !z.Exists(Wildcard(e))
  {
    if z.Exists(Wildcard(e)) {
      var o :| z.Owns(o) && IsSuffix(Wildcard(e), o);
      assert z.Owns(e) && Wildcard(e)[1..] == e;
      SuffixTrans(e, Wildcard(e), o);
      assert false;
    }
  }
}

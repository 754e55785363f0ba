/** The geometry of a zone's NSEC chain. Names here are already lowercased, so
    nothing depends on how case is folded. */
module Gaps {
  import opened Octets
  import opened Names
  import opened Zones

  /** n follows o in the zone's cyclic chain: the next owner in canonical order,
      or the apex after the last one. */
  ghost predicate IsNext(z: Zone, o: Name, n: Name) {
    && o in z.types
    && n in z.types
    && if exists w {:trigger z.Owns(w)} | z.Owns(w) :: Order(o, w) < 0
       then Order(o, n) < 0 && forall w {:trigger z.Owns(w)} | z.Owns(w) && Order(o, w) < 0 :: Order(n, w) <= 0
       else n == z.apex
  }

  /** c falls strictly inside the gap from o to n, which wraps around if n does
      not come after o. */
  predicate Inside(o: Name, c: Name, n: Name) {
    if Order(o, n) >= 0 then Order(c, o) > 0 || Order(c, n) < 0 else Order(c, o) > 0 && Order(c, n) < 0
  }

  ghost predicate Gap(z: Zone, o: Name, c: Name, n: Name) {
    z.Tree() && IsNext(z, o, n) && IsSuffix(z.apex, c) && Inside(o, c, n)
  }

  /** In canonical order nothing of the zone comes before its apex. */
  lemma ApexFirst(z: Zone, n: Name)
    requires IsSuffix(z.apex, n)
    ensures Order(n, z.apex) >= 0
  {
    AncestorFirst(z.apex, n);
    OrderFlip(z.apex, n);
  }

  lemma NoneBetween(z: Zone, a: Name, b: Name, n: Name)
    requires z.Tree() && IsNext(z, a, n) && IsNext(z, b, n)
    ensures Order(a, b) >= 0
  {
    assert z.Owns(a) && z.Owns(b);
    OrderFlip(b, n);
    ApexFirst(z, a);
  }

  /** No two owners have the same next one. */
  lemma OneBefore(z: Zone, a: Name, b: Name, n: Name)
    requires z.Tree() && IsNext(z, a, n) && IsNext(z, b, n)
    ensures a == b
  {
    NoneBetween(z, a, b, n);
    NoneBetween(z, b, a, n);
    OrderFlip(a, b);
    OrderZero(a, b);
  }

  /** A name of the zone inside a gap comes right after the gap's owner: every
      owner is either at or before the gap's owner, or at or past its end - and
      then the end is past the name. */
  lemma GapNeighbours(z: Zone, o: Name, c: Name, n: Name, w: Name)
    requires Gap(z, o, c, n) && z.Owns(w)
    ensures Order(o, c) < 0
    ensures Order(w, o) <= 0 || (Order(c, n) < 0 && Order(n, w) <= 0)
  {
    ApexFirst(z, c);
    assert z.Owns(o);
    ApexFirst(z, o);
    OrderFlip(o, w);
    OrderFlip(c, o);
  }

  /** A name inside a gap owns nothing. */
  lemma InsideIsNoOwner(z: Zone, o: Name, c: Name, n: Name)
    requires Gap(z, o, c, n)
    ensures c !in z.types
  {
    if z.Owns(c) {
      GapNeighbours(z, o, c, n, c);
      OrderFlip(o, c);
      OrderFlip(n, c);
    }
  }

  /** A name above a name inside a gap exists exactly if one of the gap's ends is
      at or below it. This is where subtrees being intervals is used. */
  lemma GapAncestors(z: Zone, o: Name, c: Name, n: Name, s: Name)
    requires Gap(z, o, c, n) && IsSuffix(s, c)
    ensures z.Exists(s) <==> IsSuffix(s, o) || IsSuffix(s, n)
  {
    assert z.Owns(o) && z.Owns(n);
    if z.Exists(s) {
      var w :| z.Owns(w) && IsSuffix(s, w);
      GapNeighbours(z, o, c, n, w);
      if Order(w, o) <= 0 {
        SubtreeInterval(s, w, o, c);
      } else {
        SubtreeInterval(s, c, n, w);
      }
    }
  }

  function Max(a: int, b: int): int {
    if a >= b then a else b
  }

  lemma GapEncloserAtMost(z: Zone, o: Name, c: Name, n: Name, e: Name)
    requires Gap(z, o, c, n) && IsSuffix(e, c) && z.Exists(e)
    ensures |e| <= Max(Shared(c, o), Shared(c, n))
  {
    GapAncestors(z, o, c, n, e);
    SharedExact(c, o, |e|);
    SharedExact(c, n, |e|);
  }

  lemma GapEncloserExists(z: Zone, o: Name, c: Name, n: Name, k: nat)
    requires Gap(z, o, c, n) && k == Max(Shared(c, o), Shared(c, n))
    ensures IsSuffix(c[|c| - k..], c) && z.Exists(c[|c| - k..])
  {
    assert IsSuffix(c[|c| - k..], c);
    SharedExact(c, o, k);
    SharedExact(c, n, k);
    GapAncestors(z, o, c, n, c[|c| - k..]);
  }

  lemma GapEncloserDepth(z: Zone, o: Name, c: Name, n: Name)
    requires Gap(z, o, c, n)
    ensures |z.Encloser(c)| == Max(Shared(c, o), Shared(c, n))
  {
    var k := Max(Shared(c, o), Shared(c, n));
    EncloserExists(z, c);
    GapEncloserAtMost(z, o, c, n, z.Encloser(c));
    GapEncloserExists(z, o, c, n, k);
    EncloserDeepest(z, c, c[|c| - k..]);
  }

  /** The longer common suffix with the two ends of the gap is the deepest
      existing ancestor of a name inside it, or the name itself. */
  lemma GapEncloser(z: Zone, o: Name, c: Name, n: Name)
    requires Gap(z, o, c, n)
    ensures z.Encloser(c) == c[|c| - Max(Shared(c, o), Shared(c, n))..]
  {
    GapEncloserDepth(z, o, c, n);
  }

  /** A name inside a gap is an empty non-terminal exactly if the gap's end is
      below it. */
  lemma GapNonTerminal(z: Zone, o: Name, c: Name, n: Name)
    requires Gap(z, o, c, n)
    ensures z.Exists(c) <==> n != c && IsSuffix(c, n)
  {
    assert IsSuffix(c, c);
    InsideIsNoOwner(z, o, c, n);
    GapAncestors(z, o, c, n, c);
    assert z.Owns(o);
    GapNeighbours(z, o, c, n, o);
    if IsSuffix(c, o) {
      AncestorFirst(c, o);
      OrderFlip(c, o);
    }
  }

  /** A name inside a gap is below a delegation exactly if the gap's owner is one
      and is above the name. */
  lemma GapBelowCut(z: Zone, o: Name, c: Name, n: Name)
    requires Gap(z, o, c, n)
    ensures z.BelowCut(c) <==> z.IsCut(o) && IsSuffix(o, c)
  {
    InsideIsNoOwner(z, o, c, n);
    assert z.Owns(o) && z.Owns(n);
    if z.BelowCut(c) {
      var d :| z.Owns(d) && z.IsCut(d) && IsSuffix(d, c) && d != c;
      assert IsSuffix(d, d);
      GapAncestors(z, o, c, n, d);
      GapNeighbours(z, o, c, n, d);
      AncestorFirst(d, c);
      OrderFlip(c, n);
      OrderZero(n, d);
      if !IsSuffix(d, o) {
        assert n == d;
        OrderFlip(d, c);
      }
    }
  }

  /** The owner just before a name of the zone, among a finite set of owners. */
  lemma {:induction false} Predecessor(z: Zone, owners: set<Name>, x: Name) returns (p: Name)
    requires z.Tree() && IsSuffix(z.apex, x) && x !in owners
    requires z.apex in owners && owners <= z.types.Keys
    ensures p in owners && Order(p, x) < 0
    ensures forall w | w in owners && Order(w, x) < 0 :: Order(w, p) <= 0
    decreases owners
  {
    if owners == {z.apex} {
      p := z.apex;
      ApexFirst(z, x);
      OrderZero(x, p);
      OrderFlip(x, p);
      OrderZero(p, p);
    } else {
      var w :| w in owners && w != z.apex;
      p := Predecessor(z, owners - {w}, x);
      if Order(w, x) < 0 && Order(w, p) > 0 {
        OrderFlip(w, p);
        forall v | v in owners && Order(v, x) < 0 ensures Order(v, w) <= 0 {
          OrderZero(w, w);
          if v != w {
            OrderZero(v, p);
            if Order(v, p) < 0 { OrderTrans(v, p, w); }
          }
        }
        p := w;
      }
    }
  }

  /** A name of the zone that owns nothing is inside the gap of its predecessor. */
  lemma PredecessorGap(z: Zone, p: Name, c: Name, n: Name)
    requires z.Tree() && IsSuffix(z.apex, c) && c !in z.types
    requires IsNext(z, p, n) && Order(p, c) < 0
    requires forall w {:trigger z.Owns(w)} | z.Owns(w) && Order(w, c) < 0 :: Order(w, p) <= 0
    ensures Inside(p, c, n)
  {
    assert z.Owns(p) && z.Owns(n);
    OrderFlip(p, c);
    OrderFlip(p, n);
    OrderFlip(n, c);
    OrderZero(n, c);
    ApexFirst(z, p);
  }
}

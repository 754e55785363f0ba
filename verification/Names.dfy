/** Domain names as sequences of labels, leftmost label first; the root is the
    empty sequence. Comparisons ignore ASCII case. */
module Names {
  import opened Octets

  type Label = Bytes
  type Name = seq<Label>

  /** The lowercased form of a name: what every comparison looks at. */
  function Canon(n: Name): (r: Name)
    ensures |r| == |n|
  {
    seq(|n|, i requires 0 <= i < |n| => LowerAll(n[i]))
  }

  predicate EqualName(a: Name, b: Name) {
    Canon(a) == Canon(b)
  }

  /** z is an ancestor of n, or n itself. */
  predicate IsSuffix(z: Name, n: Name) {
    |z| <= |n| && n[|n| - |z|..] == z
  }

  predicate IsSubdomainOrEqual(name: Name, zone: Name) {
    IsSuffix(Canon(zone), Canon(name))
  }

  predicate IsProperSubdomain(name: Name, zone: Name) {
    !EqualName(name, zone) && IsSubdomainOrEqual(name, zone)
  }

  /** The wildcard directly below n. */
  function Wildcard(n: Name): Name {
    [[STAR]] + n
  }

  function Last(n: Name): Label
    requires n != []
  {
    n[|n| - 1]
  }

  function Front(n: Name): Name
    requires n != []
  {
    n[..|n| - 1]
  }

  /** The canonical order on lowercased names (section 6.1 of RFC 4034): labels
      are compared from the top of the tree down, and an ancestor comes before
      everything below it. */
  function Order(a: Name, b: Name): (c: int)
    ensures -1 <= c <= 1
    decreases |a|
  {
    if a == [] then (if b == [] then 0 else -1)
    else if b == [] then 1
    else
      var c := Compare(Last(a), Last(b));
      if c != 0 then c else Order(Front(a), Front(b))
  }

  /** How many labels two lowercased names share at the top of the tree. */
  function Shared(a: Name, b: Name): (k: nat)
    ensures k <= |a| && k <= |b|
    decreases |a|
  {
    if a == [] || b == [] || Last(a) != Last(b) then 0
    else 1 + Shared(Front(a), Front(b))
  }

  /** The deepest common ancestor of two names, lowercased. */
  function CommonSuffix(a: Name, b: Name): Name {
    Canon(a)[|a| - Shared(Canon(a), Canon(b))..]
  }

  /** The name to ask a server for zone about, on the way down to qname:
      one label below the zone (RFC 9156). */
  function MinimizedQName(qname: Name, zone: Name): Name {
    if |qname| <= |zone| then qname else qname[|qname| - |zone| - 1..]
  }

  // ---- the scanning loops ----

  method CompareNames(a: Name, b: Name) returns (c: int)
    ensures c == Order(Canon(a), Canon(b))
  {
    var al, bl := Canon(a), Canon(b);
    var i, j := |al|, |bl|;
    assert al[..i] == al && bl[..j] == bl;
    while i > 0 && j > 0
      invariant 0 <= i <= |al| && 0 <= j <= |bl|
      invariant Order(al, bl) == Order(al[..i], bl[..j])
    {
      assert Front(al[..i]) == al[..i - 1] && Front(bl[..j]) == bl[..j - 1];
      c := Compare(al[i - 1], bl[j - 1]);
      if c != 0 {
        return;
      }
      i, j := i - 1, j - 1;
    }
    c := if i == 0 && j == 0 then 0 else if i == 0 then -1 else 1;
  }

  /** Comparing the last of the first i and j labels. */
  lemma SharedStep(al: Name, bl: Name, i: nat, j: nat)
    requires i <= |al| && j <= |bl|
    ensures Shared(al[..i], bl[..j]) ==
              if i == 0 || j == 0 || al[i - 1] != bl[j - 1] then 0 else 1 + Shared(al[..i - 1], bl[..j - 1])
  {
    if i > 0 { assert Front(al[..i]) == al[..i - 1]; }
    if j > 0 { assert Front(bl[..j]) == bl[..j - 1]; }
  }

  method FindCommonSuffix(a: Name, b: Name) returns (r: Name)
    ensures r == CommonSuffix(a, b)
  {
    var al, bl := Canon(a), Canon(b);
    var shared := 0;
    assert al[..|al|] == al && bl[..|bl|] == bl;
    while shared < |al| && shared < |bl| && al[|al| - 1 - shared] == bl[|bl| - 1 - shared]
      invariant shared <= |al| && shared <= |bl|
      invariant Shared(al, bl) == shared + Shared(al[..|al| - shared], bl[..|bl| - shared])
    {
      SharedStep(al, bl, |al| - shared, |bl| - shared);
      shared := shared + 1;
    }
    SharedStep(al, bl, |al| - shared, |bl| - shared);
    r := al[|al| - shared..];
  }

  // ---- lowercasing ----

  lemma CanonIdempotent(n: Name)
    ensures Canon(Canon(n)) == Canon(n)
  {
    forall i | 0 <= i < |n| ensures LowerAll(LowerAll(n[i])) == LowerAll(n[i]) {}
  }

  lemma CanonSlice(n: Name, i: nat)
    requires i <= |n|
    ensures Canon(n[i..]) == Canon(n)[i..]
    ensures Canon(n[..i]) == Canon(n)[..i]
  {}

  lemma CanonWildcard(n: Name)
    ensures Canon(Wildcard(n)) == Wildcard(Canon(n))
  {
    assert LowerAll([STAR]) == [STAR];
  }

  // ---- suffixes ----

  lemma SuffixFront(z: Name, n: Name)
    requires z != []
    ensures IsSuffix(z, n) <==> n != [] && Last(z) == Last(n) && IsSuffix(Front(z), Front(n))
  {
    if n != [] && |z| <= |n| {
      var k := |n| - |z|;
      if IsSuffix(z, n) {
        assert Front(n)[k..] == n[k..][..|z| - 1];
      }
    }
  }

  lemma SuffixTrans(a: Name, b: Name, c: Name)
    requires IsSuffix(a, b) && IsSuffix(b, c)
    ensures IsSuffix(a, c)
  {
    assert c[|c| - |a|..] == c[|c| - |b|..][|b| - |a|..];
  }

  /** Two ancestors of one name are ancestors of each other. */
  lemma SuffixNested(a: Name, b: Name, n: Name)
    requires IsSuffix(a, n) && IsSuffix(b, n) && |a| <= |b|
    ensures IsSuffix(a, b)
  {
    assert n[|n| - |a|..] == n[|n| - |b|..][|b| - |a|..];
  }

  // ---- the canonical order ----

  lemma {:induction false} OrderZero(a: Name, b: Name)
    ensures Order(a, b) == 0 <==> a == b
    decreases |a|
  {
    if a != [] && b != [] {
      CompareZero(Last(a), Last(b));
      OrderZero(Front(a), Front(b));
      assert a == Front(a) + [Last(a)] && b == Front(b) + [Last(b)];
    }
  }

  lemma {:induction false} OrderFlip(a: Name, b: Name)
    ensures Order(a, b) == -Order(b, a)
    decreases |a|
  {
    if a != [] && b != [] {
      CompareFlip(Last(a), Last(b));
      OrderFlip(Front(a), Front(b));
    }
  }

  lemma {:induction false} OrderTrans(a: Name, b: Name, c: Name)
    requires Order(a, b) < 0 && Order(b, c) < 0
    ensures Order(a, c) < 0
    decreases |a|
  {
    if a != [] && b != [] && c != [] {
      var x, y, z := Last(a), Last(b), Last(c);
      CompareZero(x, y);
      CompareZero(y, z);
      CompareZero(x, z);
      if x == y && y == z {
        OrderTrans(Front(a), Front(b), Front(c));
      } else if x != y && y != z {
        CompareTrans(x, y, z);
      }
    }
  }

  /** The order is total, and equality in it is equality up to ASCII case. */
  lemma TotalOrder(a: Name, b: Name, c: Name)
    ensures Order(Canon(a), Canon(b)) == 0 <==> EqualName(a, b)
    ensures Order(Canon(a), Canon(b)) == -Order(Canon(b), Canon(a))
    ensures Order(Canon(a), Canon(b)) <= 0 && Order(Canon(b), Canon(c)) <= 0 ==> Order(Canon(a), Canon(c)) <= 0
  {
    OrderZero(Canon(a), Canon(b));
    OrderZero(Canon(b), Canon(c));
    OrderFlip(Canon(a), Canon(b));
    if Order(Canon(a), Canon(b)) < 0 && Order(Canon(b), Canon(c)) < 0 {
      OrderTrans(Canon(a), Canon(b), Canon(c));
    }
  }

  /** Everything below z comes after z. */
  lemma {:induction false} AncestorFirst(z: Name, n: Name)
    requires IsSuffix(z, n)
    ensures Order(z, n) <= 0
    decreases |z|
  {
    if z != [] {
      SuffixFront(z, n);
      CompareZero(Last(z), Last(n));
      AncestorFirst(Front(z), Front(n));
    }
  }

  /** Every subtree is an interval of the canonical order. */
  lemma {:induction false} SubtreeInterval(z: Name, a: Name, x: Name, b: Name)
    requires IsSuffix(z, a) && IsSuffix(z, b)
    requires Order(a, x) <= 0 && Order(x, b) <= 0
    ensures IsSuffix(z, x)
    decreases |z|
  {
    if z != [] {
      SuffixFront(z, a);
      SuffixFront(z, b);
      SuffixFront(z, x);
      var l := Last(z);
      if x == [] {
        assert false;
      } else {
        CompareZero(l, Last(x));
        CompareZero(Last(x), l);
        CompareFlip(l, Last(x));
        SubtreeInterval(Front(z), Front(a), Front(x), Front(b));
      }
    }
  }

  /** Shared counts exactly the common ancestors. */
  lemma {:induction false} SharedExact(a: Name, b: Name, k: nat)
    requires k <= |a|
    ensures k <= Shared(a, b) <==> IsSuffix(a[|a| - k..], b)
    decreases |a|
  {
    if k > 0 {
      var s := a[|a| - k..];
      SuffixFront(s, b);
      if b != [] {
        SharedExact(Front(a), Front(b), k - 1);
        assert Front(s) == Front(a)[|Front(a)| - (k - 1)..];
      }
    }
  }
}

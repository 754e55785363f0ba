/** The text form of a name. The program keeps names as dotted strings and works
    on them with string functions; this module shows that those functions are
    the label-by-label ones of module Names. */
module Dotted {
  import opened Octets
  import opened Names

  /** strings.TrimSuffix(s, ".") */
  function TrimDot(s: Bytes): Bytes {
    if s != [] && s[|s| - 1] == DOT then s[..|s| - 1] else s
  }

  /** strings.Split(s, ".") */
  function SplitDots(s: Bytes): (r: Name)
    ensures |r| >= 1
  {
    if s == [] then [[]]
    else
      var rest := SplitDots(s[1..]);
      if s[0] == DOT then [[]] + rest else [[s[0]] + rest[0]] + rest[1..]
  }

  /** splitName: no labels for the root, the dotted parts for any other name. */
  function SplitName(s: Bytes): Name {
    if TrimDot(s) == [] then [] else SplitDots(TrimDot(s))
  }

  /** strings.Join(labels, ".") */
  function Join(n: Name): Bytes {
    if n == [] then [] else if |n| == 1 then n[0] else n[0] + [DOT] + Join(n[1..])
  }

  /** equalName, on text */
  predicate TextEqual(a: Bytes, b: Bytes) {
    LowerAll(TrimDot(a)) == LowerAll(TrimDot(b))
  }

  predicate HasSuffix(s: Bytes, t: Bytes) {
    |t| <= |s| && s[|s| - |t|..] == t
  }

  /** isSubdomainOrEqual, on text */
  predicate TextSubdomainOrEqual(a: Bytes, b: Bytes) {
    var name, zone := LowerAll(TrimDot(a)), LowerAll(TrimDot(b));
    zone == [] || name == zone || HasSuffix(name, [DOT] + zone)
  }

  /** A name that survives being written with dots: no label is empty and none
      holds a dot. */
  predicate Printable(n: Name) {
    forall i | 0 <= i < |n| :: n[i] != [] && DOT !in n[i]
  }

  lemma {:induction false} JoinSplitDots(s: Bytes)
    ensures Join(SplitDots(s)) == s
  {
    if s != [] {
      JoinSplitDots(s[1..]);
      var rest := SplitDots(s[1..]);
      if s[0] != DOT {
        assert SplitDots(s)[1..] == rest[1..];
        if |rest| > 1 {
          assert Join(SplitDots(s)) == [s[0]] + (rest[0] + [DOT] + Join(rest[1..]));
        }
      } else {
        assert SplitDots(s)[1..] == rest;
      }
    }
  }

  /** A name split with one more octet in front. */
  function Fronted(b: Octet, r: Name): Name {
    if b == DOT || r == [] then [[]] + r else [[b] + r[0]] + r[1..]
  }

  lemma SplitCons(b: Octet, s: Bytes)
    ensures SplitDots([b] + s) == Fronted(b, SplitDots(s))
  {
    assert ([b] + s)[1..] == s;
  }

  lemma FrontedConcat(b: Octet, r: Name, t: Name)
    requires r != []
    ensures Fronted(b, r + t) == Fronted(b, r) + t
  {
    if b != DOT { assert (r + t)[1..] == r[1..] + t; }
  }

  lemma {:induction false} SplitConcat(p: Bytes, z: Bytes)
    ensures SplitDots(p + [DOT] + z) == SplitDots(p) + SplitDots(z)
  {
    if p == [] {
      assert p + [DOT] + z == [DOT] + z;
      SplitCons(DOT, z);
    } else {
      SplitConcat(p[1..], z);
      SplitCons(p[0], p[1..]);
      SplitCons(p[0], p[1..] + [DOT] + z);
      FrontedConcat(p[0], SplitDots(p[1..]), SplitDots(z));
      assert p == [p[0]] + p[1..];
      assert p + [DOT] + z == [p[0]] + (p[1..] + [DOT] + z);
    }
  }

  lemma {:induction false} SplitOneLabel(l: Label)
    requires DOT !in l
    ensures SplitDots(l) == [l]
  {
    if l != [] {
      SplitOneLabel(l[1..]);
      assert l == [l[0]] + l[1..];
    }
  }

  lemma {:induction false} SplitJoinDots(n: Name)
    requires n != [] && Printable(n)
    ensures SplitDots(Join(n)) == n
  {
    SplitOneLabel(n[0]);
    if |n| > 1 {
      SplitJoinDots(n[1..]);
      SplitConcat(n[0], Join(n[1..]));
      assert n == [n[0]] + n[1..];
    } else {
      assert n == [n[0]];
    }
  }

  lemma {:induction false} SplitLower(s: Bytes)
    ensures SplitDots(LowerAll(s)) == Canon(SplitDots(s))
  {
    if s != [] {
      SplitLower(s[1..]);
      assert LowerAll(s)[1..] == LowerAll(s[1..]);
      var rest := SplitDots(s[1..]);
      if s[0] != DOT {
        assert LowerAll([s[0]] + rest[0]) == [Lower(s[0])] + LowerAll(rest[0]);
        assert Canon(rest)[1..] == Canon(rest[1..]);
      } else {
        assert LowerAll([]) == [];
      }
    }
  }

  lemma {:induction false} JoinNotDotted(n: Name)
    requires n != [] && Printable(n)
    ensures Join(n) != [] && Join(n)[|Join(n)| - 1] != DOT
  {
    if |n| > 1 { JoinNotDotted(n[1..]); }
  }

  lemma {:induction false} JoinConcat(p: Name, z: Name)
    requires p != [] && z != []
    ensures Join(p + z) == Join(p) + [DOT] + Join(z)
  {
    if |p| == 1 {
      assert (p + z)[1..] == z;
    } else {
      JoinConcat(p[1..], z);
      assert (p + z)[1..] == p[1..] + z;
    }
  }

  /** Writing a name with dots and splitting it again gives the labels back,
      with or without a trailing root dot. */
  lemma SplitJoin(n: Name)
    requires Printable(n)
    ensures SplitName(Join(n)) == n && SplitName(Join(n) + [DOT]) == n
  {
    if n != [] {
      JoinNotDotted(n);
      SplitJoinDots(n);
    }
    assert TrimDot(Join(n) + [DOT]) == Join(n);
  }

  /** Equality of texts, ignoring case and a trailing dot, is equality of label
      sequences, ignoring case. */
  lemma TextEqualIsEqualName(a: Bytes, b: Bytes)
    ensures TextEqual(a, b) <==> EqualName(SplitName(a), SplitName(b))
  {
    var x, y := TrimDot(a), TrimDot(b);
    SplitLower(x);
    SplitLower(y);
    JoinSplitDots(LowerAll(x));
    JoinSplitDots(LowerAll(y));
  }

  lemma SuffixIntro(p: Bytes, t: Bytes)
    ensures HasSuffix(p + t, t)
  {}

  lemma SuffixToLabels(name: Bytes, zone: Bytes)
    requires HasSuffix(name, [DOT] + zone)
    ensures IsSuffix(SplitDots(zone), SplitDots(name))
  {
    var p := name[..|name| - |zone| - 1];
    assert name == p + ([DOT] + zone) == p + [DOT] + zone;
    SplitConcat(p, zone);
  }

  lemma LabelsToSuffix(name: Bytes, zone: Bytes, nl: Name, zl: Name)
    requires name == Join(nl) && zone == Join(zl) && zl != []
    requires IsSuffix(zl, nl)
    ensures name == zone || HasSuffix(name, [DOT] + zone)
  {
    var p := nl[..|nl| - |zl|];
    assert nl == p + zl;
    if p == [] {
      assert nl == zl;
    } else {
      JoinConcat(p, zl);
      assert Join(p) + [DOT] + zone == Join(p) + ([DOT] + zone);
      SuffixIntro(Join(p), [DOT] + zone);
    }
  }

  /** The string suffix test, with its leading dot, is the whole-label one. */
  lemma TextSubdomainIsSubdomain(a: Bytes, b: Bytes)
    ensures TextSubdomainOrEqual(a, b) <==> IsSubdomainOrEqual(SplitName(a), SplitName(b))
  {
    var name, zone := LowerAll(TrimDot(a)), LowerAll(TrimDot(b));
    SplitLower(TrimDot(a));
    SplitLower(TrimDot(b));
    if zone != [] && name != [] {
      assert Canon(SplitName(a)) == SplitDots(name) && Canon(SplitName(b)) == SplitDots(zone);
      if HasSuffix(name, [DOT] + zone) { SuffixToLabels(name, zone); }
      if IsSuffix(SplitDots(zone), SplitDots(name)) {
        JoinSplitDots(name);
        JoinSplitDots(zone);
        LabelsToSuffix(name, zone, SplitDots(name), SplitDots(zone));
      }
    }
  }
}

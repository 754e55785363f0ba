/** Canonical wire forms (section 6 of RFC 4034): names, RDATA, and the bytes a
    signature is made over. */
module Canonical {
  import opened Octets
  import opened Names
  import opened Messages

  /** Every label is one a name on the wire can hold. */
  predicate LabelsOk(n: Name) {
    forall i | 0 <= i < |n| :: 1 <= |n[i]| <= 63
  }

  /** The uncompressed wire form of a name. */
  function WireName(n: Name): (r: Bytes)
    requires LabelsOk(n)
    ensures |r| >= 1
  {
    if n == [] then [0] else [|n[0]|] + n[0] + WireName(n[1..])
  }

  /** The length-prefixed labels of a name, without the terminating zero. */
  function WireLabels(n: Name): Bytes
    requires LabelsOk(n)
  {
    if n == [] then [] else [|n[0]|] + n[0] + WireLabels(n[1..])
  }

  lemma {:induction false} WireNameLabels(n: Name)
    requires LabelsOk(n)
    ensures WireName(n) == WireLabels(n) + [0]
  {
    if n != [] { WireNameLabels(n[1..]); }
  }

  lemma {:induction false} WireLabelsConcat(a: Name, b: Name)
    requires LabelsOk(a) && LabelsOk(b)
    ensures LabelsOk(a + b) && WireLabels(a + b) == WireLabels(a) + WireLabels(b)
  {
    if a == [] {
      assert a + b == b;
    } else {
      WireLabelsConcat(a[1..], b);
      assert (a + b)[1..] == a[1..] + b && (a + b)[0] == a[0];
      var h := [|a[0]|] + a[0];
      assert h + (WireLabels(a[1..]) + WireLabels(b)) == h + WireLabels(a[1..]) + WireLabels(b);
    }
  }

  lemma WireLabelsSnoc(n: Name, part: Label)
    requires LabelsOk(n) && 1 <= |part| <= 63
    ensures LabelsOk(n + [part]) && WireLabels(n + [part]) == WireLabels(n) + [|part|] + part
  {
    WireLabelsConcat(n, [part]);
    assert WireLabels([part]) == [|part|] + part;
  }

  /** canonicalName: uncompressed and lowercased, or an error for a label that
      does not fit. */
  function CanonicalName(n: Name): Option<Bytes> {
    if LabelsOk(n) then Some(WireName(Canon(n))) else None
  }

  method AppendLowered(buf: Bytes, part: Label) returns (out: Bytes)
    requires |part| <= 63
    ensures out == buf + [|part|] + LowerAll(part)
  {
    out := buf + [|part|];
    for i := 0 to |part|
      invariant out == buf + [|part|] + LowerAll(part)[..i]
    {
      out := out + [Lower(part[i])];
    }
    assert LowerAll(part)[..|part|] == LowerAll(part);
  }

  lemma CanonSnoc(n: Name, part: Label)
    ensures Canon(n + [part]) == Canon(n) + [LowerAll(part)]
  {}

  lemma {:induction false} LabelsOkCanon(n: Name)
    ensures LabelsOk(Canon(n)) <==> LabelsOk(n)
  {
    if LabelsOk(Canon(n)) {
      forall i | 0 <= i < |n| ensures 1 <= |n[i]| <= 63 { assert |Canon(n)[i]| == |n[i]|; }
    }
  }

  lemma CanonicalSnoc(n: Name, part: Label)
    requires LabelsOk(n) && 1 <= |part| <= 63
    ensures LabelsOk(n + [part]) && LabelsOk(Canon(n)) && LabelsOk(Canon(n + [part]))
    ensures WireLabels(Canon(n + [part])) == WireLabels(Canon(n)) + [|part|] + LowerAll(part)
  {
    LabelsOkCanon(n);
    CanonSnoc(n, part);
    WireLabelsSnoc(Canon(n), LowerAll(part));
  }

  method BuildCanonicalName(name: Name) returns (r: Option<Bytes>)
    ensures r == CanonicalName(name)
  {
    if name == [] {
      return Some([0]);
    }
    var out: Bytes := [];
    assert name[..0] == [] && Canon([]) == [];
    for k := 0 to |name|
      invariant LabelsOk(name[..k]) && LabelsOk(Canon(name[..k])) && out == WireLabels(Canon(name[..k]))
    {
      var part := name[k];
      assert name[..k + 1] == name[..k] + [part];
      if |part| == 0 || |part| > 63 {
        return None;
      }
      CanonicalSnoc(name[..k], part);
      out := AppendLowered(out, part);
    }
    assert name[..|name|] == name;
    WireNameLabels(Canon(name));
    r := Some(out + [0]);
  }
}

/** Octets, big-endian integers, and the byte-by-byte order that both the
    canonical order of names and the order of hashes are built from. */
module Octets {
  type Octet = x: int | 0 <= x < 0x100
  type U16 = x: int | 0 <= x < 0x1_0000
  type U32 = x: int | 0 <= x < 0x1_0000_0000
  type Bytes = seq<Octet>

  const DOT: Octet := 46
  const STAR: Octet := 42

  /** What proofs keep closed until they need it; see Opened. */
  datatype Door =
    | Names | Records | Lists | Items | Whole | Read
    | Zones | Verdicts | Keys | Decisions | Earnings | Cuts | Secured | Excuses | RecordSets
    | Given | KeyCaches | Delegated | Caches | Rounds | Clocks | SetChecks | Fetches | PlainSets | Seen | Bases | Doubts
    | Entries | Flights | Accounts | Payments | Denials | Failures | Endings | Steps | Vouching | Compression

  /** Always true. A predicate whose body is stated "for every k with
      Opened(door, k)" means its body; the solver looks inside only where a
      proof says Opened(door, 0). */
  predicate Opened(door: Door, k: int) {
    true
  }

  /** ASCII lowercasing of one octet; every other octet is left alone. */
  function Lower(b: Octet): Octet {
    if 65 <= b <= 90 then b + 32 else b
  }

  predicate IsUpper(b: Octet) {
    'A' as int <= b <= 'Z' as int
  }

  /** Octets are told apart by nothing but the case of ASCII letters. */
  lemma CaseOnly(a: Octet, b: Octet)
    ensures Lower(a) == Lower(b) <==> a == b || (IsUpper(a) && b == a + 32) || (IsUpper(b) && a == b + 32)
    ensures !IsUpper(Lower(a)) && ('a' as int <= a <= 'z' as int ==> Lower(a) == a)
  {}

  function LowerAll(s: Bytes): (r: Bytes)
    ensures |r| == |s|
  {
    seq(|s|, i requires 0 <= i < |s| => Lower(s[i]))
  }

  function PutU16(v: U16): (r: Bytes)
    ensures |r| == 2 && GetU16(r, 0) == v
  {
    [v / 0x100, v % 0x100]
  }

  function PutU32(v: U32): (r: Bytes)
    ensures |r| == 4 && GetU32(r, 0) == v
  {
    PutU16(v / 0x1_0000) + PutU16(v % 0x1_0000)
  }

  function GetU16(b: Bytes, i: nat): U16
    requires i + 2 <= |b|
  {
    (b[i] as int) * 0x100 + b[i + 1] as int
  }

  function GetU32(b: Bytes, i: nat): U32
    requires i + 4 <= |b|
  {
    (GetU16(b, i) as int) * 0x1_0000 + GetU16(b, i + 2) as int
  }

  /** Lexicographic comparison of octet strings: -1, 0 or 1. */
  function Compare(a: Bytes, b: Bytes): (c: int)
    ensures -1 <= c <= 1
  {
    if a == [] then (if b == [] then 0 else -1)
    else if b == [] then 1
    else if a[0] < b[0] then -1
    else if b[0] < a[0] then 1
    else Compare(a[1..], b[1..])
  }

  lemma {:induction false} CompareZero(a: Bytes, b: Bytes)
    ensures Compare(a, b) == 0 <==> a == b
  {
    if a != [] && b != [] {
      CompareZero(a[1..], b[1..]);
      assert a == [a[0]] + a[1..] && b == [b[0]] + b[1..];
    }
  }

  lemma {:induction false} CompareFlip(a: Bytes, b: Bytes)
    ensures Compare(a, b) == -Compare(b, a)
  {
    if a != [] && b != [] { CompareFlip(a[1..], b[1..]); }
  }

  lemma {:induction false} CompareTrans(a: Bytes, b: Bytes, c: Bytes)
    requires Compare(a, b) < 0 && Compare(b, c) < 0
    ensures Compare(a, c) < 0
  {
    if a != [] && b != [] && c != [] && a[0] == b[0] && b[0] == c[0] {
      CompareTrans(a[1..], b[1..], c[1..]);
    }
  }
}

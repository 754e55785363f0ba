/** A map with a recency list over its keys, front the most recently used: the
    shape both caches share. */
module Recency {
  /** Always true: the solver looks inside Ok only where a proof says so. */
  predicate Looking(i: int) {
    true
  }

  datatype Table<K(==), V> = Table(entries: map<K, V>, order: seq<K>)
  {
    /** Map and list in bijection. */
    ghost predicate Ok() {
      forall i {:trigger Looking(i)} | Looking(i) ::
        NoDup(order) && (forall k | k in order :: k in entries) && (forall k | k in entries :: k in order)
    }
  }

  predicate NoDup<K(==)>(order: seq<K>) {
    forall i, j | 0 <= i < j < |order| :: order[i] != order[j]
  }

  function Without<K(==)>(order: seq<K>, k: K): seq<K> {
    if order == [] then [] else if order[0] == k then Without(order[1..], k) else [order[0]] + Without(order[1..], k)
  }

  function Remove<K, V>(t: Table<K, V>, k: K): Table<K, V> {
    Table(t.entries - {k}, Without(t.order, k))
  }

  function Touch<K, V>(t: Table<K, V>, k: K): Table<K, V> {
    Table(t.entries, [k] + Without(t.order, k))
  }

  /** A new entry, in place of any older one for its key, as the most recent. */
  function Add<K, V>(t: Table<K, V>, k: K, v: V): Table<K, V> {
    var r := Remove(t, k);
    Table(r.entries[k := v], [k] + r.order)
  }

  /** The n most recently used entries. */
  function Keep<K, V>(t: Table<K, V>, n: nat): Table<K, V>
    requires n <= |t.order|
    ensures Keep(t, n).order == t.order[..n]
  {
    Table(map k | k in t.entries && k in t.order[..n] :: t.entries[k], t.order[..n])
  }

  function Evict<K, V>(t: Table<K, V>, max: nat): Table<K, V> {
    if |t.order| <= max then t else Keep(t, max)
  }

  lemma {:induction false} WithoutExact<K>(order: seq<K>, k: K, x: K)
    ensures x in Without(order, k) <==> x in order && x != k
  {
    if order != [] {
      WithoutExact(order[1..], k, x);
      assert order == [order[0]] + order[1..];
    }
  }

  lemma NoDupTail<K>(order: seq<K>)
    requires NoDup(order) && order != []
    ensures NoDup(order[1..]) && order[0] !in order[1..]
  {}

  lemma NoDupCons<K>(x: K, order: seq<K>)
    requires NoDup(order) && x !in order
    ensures NoDup([x] + order)
  {}

  lemma {:induction false} WithoutNoDup<K>(order: seq<K>, k: K)
    requires NoDup(order)
    ensures NoDup(Without(order, k))
  {
    if order != [] {
      NoDupTail(order);
      WithoutNoDup(order[1..], k);
      WithoutExact(order[1..], k, order[0]);
      if order[0] != k { NoDupCons(order[0], Without(order[1..], k)); }
    }
  }

  lemma RemoveOk<K, V>(t: Table<K, V>, k: K)
    requires t.Ok()
    ensures Remove(t, k).Ok()
  {
    assert Looking(0);
    WithoutNoDup(t.order, k);
    var r := Remove(t, k);
    forall x | x in r.order ensures x in r.entries { WithoutExact(t.order, k, x); }
    forall x | x in r.entries ensures x in r.order { WithoutExact(t.order, k, x); }
  }

  lemma FrontOk<K, V>(entries: map<K, V>, order: seq<K>, k: K, v: V)
    requires Table(entries, order).Ok() && k !in entries
    ensures Table(entries[k := v], [k] + order).Ok()
  {
    assert Looking(0);
    NoDupCons(k, order);
  }

  lemma AddOk<K, V>(t: Table<K, V>, k: K, v: V)
    requires t.Ok()
    ensures Add(t, k, v).Ok()
  {
    RemoveOk(t, k);
    FrontOk(t.entries - {k}, Without(t.order, k), k, v);
  }

  lemma TouchOk<K, V>(t: Table<K, V>, k: K)
    requires t.Ok() && k in t.entries
    ensures Touch(t, k).Ok()
  {
    AddOk(t, k, t.entries[k]);
    assert Touch(t, k) == Add(t, k, t.entries[k]);
  }

  lemma {:induction false} SizeIsLength<K>(order: seq<K>, keys: set<K>)
    requires NoDup(order) && forall k :: k in order <==> k in keys
    ensures |order| == |keys|
  {
    if order == [] {
      assert keys == {};
    } else {
      NoDupTail(order);
      forall k ensures k in order[1..] <==> k in keys - {order[0]} {
        assert order == [order[0]] + order[1..];
      }
      SizeIsLength(order[1..], keys - {order[0]});
    }
  }

  lemma Sized<K, V>(t: Table<K, V>)
    requires t.Ok()
    ensures |t.order| == |t.entries|
  {
    assert Looking(0);
    SizeIsLength(t.order, t.entries.Keys);
    assert |t.entries| == |t.entries.Keys|;
  }

  /** Of a key that is not there, the list has nothing to drop. */
  lemma RemoveAbsent<K, V>(t: Table<K, V>, k: K)
    requires t.Ok() && k !in t.entries
    ensures Remove(t, k) == t
  {
    assert Looking(0);
    WithoutNothing(t.order, k);
    assert t.entries - {k} == t.entries;
  }

  lemma KeepOk<K, V>(t: Table<K, V>, n: nat)
    requires t.Ok() && n <= |t.order|
    ensures Keep(t, n).Ok()
  {
    assert Looking(0);
    forall k | k in t.order[..n] ensures k in t.order {}
  }

  lemma KeepAll<K, V>(t: Table<K, V>)
    requires t.Ok()
    ensures Keep(t, |t.order|) == t
  {
    assert Looking(0);
    assert t.order[..|t.order|] == t.order;
    assert Keep(t, |t.order|).entries == t.entries;
  }

  /** Dropping the back of the list is keeping one less. */
  lemma KeepStep<K, V>(t: Table<K, V>, n: nat)
    requires t.Ok() && 0 < n <= |t.order|
    ensures Remove(Keep(t, n), t.order[n - 1]) == Keep(t, n - 1)
  {
    assert Looking(0);
    var front, last := t.order[..n - 1], t.order[n - 1];
    assert t.order[..n] == front + [last];
    assert last !in front;
    WithoutLast(front, last);
    assert Keep(t, n).entries - {last} == Keep(t, n - 1).entries;
  }

  lemma {:induction false} WithoutLast<K>(front: seq<K>, k: K)
    requires k !in front
    ensures Without(front + [k], k) == front
  {
    if front == [] {
      assert [] + [k] == [k];
    } else {
      assert front[0] in front;
      assert (front + [k])[1..] == front[1..] + [k];
      WithoutLast(front[1..], k);
    }
  }

  lemma {:induction false} WithoutNothing<K>(order: seq<K>, k: K)
    requires k !in order
    ensures Without(order, k) == order
  {
    if order != [] {
      assert order[0] in order;
      WithoutNothing(order[1..], k);
    }
  }

  /** A new entry always survives its own insertion, within capacity. */
  lemma AddThenEvict<K, V>(t: Table<K, V>, k: K, v: V, max: nat)
    requires t.Ok() && max >= 1
    ensures var r := Evict(Add(t, k, v), max);
            && r.Ok() && |r.entries| <= max
            && k in r.entries && r.entries[k] == v && r.order[0] == k
            && (forall x | x in r.entries && x != k :: x in t.entries && r.entries[x] == t.entries[x])
  {
    var u := Add(t, k, v);
    AddOk(t, k, v);
    if |u.order| > max {
      KeepOk(u, max);
      assert u.order[..max][0] == k;
    }
    Sized(Evict(u, max));
  }

  lemma AddSize<K, V>(t: Table<K, V>, k: K, v: V)
    requires t.Ok()
    ensures |Add(t, k, v).order| == |t.entries| + if k in t.entries then 0 else 1
  {
    AddOk(t, k, v);
    Sized(Add(t, k, v));
    var keys := Add(t, k, v).entries.Keys;
    assert keys == t.entries.Keys + {k};
    assert |Add(t, k, v).entries| == |keys| && |t.entries| == |t.entries.Keys|;
    if k in t.entries { assert keys == t.entries.Keys; }
  }

  lemma OnlyLastGone<K>(order: seq<K>, k: K, x: K)
    requires x in order && x !in ([k] + order)[..|order|]
    ensures order != [] && x == order[|order| - 1]
  {
    var s := ([k] + order)[..|order|];
    forall j | 0 <= j < |order| - 1 ensures order[j] in s { assert s[j + 1] == order[j]; }
  }

  /** Nothing goes while there is room. */
  lemma RoomForAll<K, V>(t: Table<K, V>, k: K, v: V, max: nat, x: K)
    requires t.Ok() && |Add(t, k, v).order| <= max && x in t.entries
    ensures x in Evict(Add(t, k, v), max).entries
  {}

  /** What an insertion pushes out is the entry used longest ago, and only when a
      full table gains a key. */
  lemma OnlyOldestGoes<K, V>(t: Table<K, V>, k: K, v: V, max: nat, x: K)
    requires t.Ok() && |t.entries| <= max && max >= 1
    requires x in t.entries && x != k && x !in Evict(Add(t, k, v), max).entries
    ensures |t.entries| == max && k !in t.entries && x == t.order[|t.order| - 1]
  {
    AddSize(t, k, v);
    if |Add(t, k, v).order| <= max {
      RoomForAll(t, k, v, max, x);
    } else {
      FullTable(t, k, v, max, x);
    }
  }

  lemma FullTable<K, V>(t: Table<K, V>, k: K, v: V, max: nat, x: K)
    requires t.Ok() && |t.entries| == max && k !in t.entries
    requires max <= |Add(t, k, v).order|
    requires x in t.entries && x != k && x !in Keep(Add(t, k, v), max).entries
    ensures t.order != [] && x == t.order[|t.order| - 1]
  {
    Sized(t);
    NewOrder(t, k, v);
    assert x in t.order by { assert Looking(0); }
    assert x in Add(t, k, v).entries;
    OnlyLastGone(t.order, k, x);
  }

  lemma NewOrder<K, V>(t: Table<K, V>, k: K, v: V)
    requires t.Ok() && k !in t.entries
    ensures Add(t, k, v).order == [k] + t.order
  {
    RemoveAbsent(t, k);
  }

  /** One round of eviction. */
  lemma EvictStep<K, V>(full: Table<K, V>, t: Table<K, V>, n: nat)
    requires full.Ok() && 0 < n <= |full.order| && t == Keep(full, n)
    ensures t.order != [] && Remove(t, t.order[|t.order| - 1]) == Keep(full, n - 1)
  {
    KeepStep(full, n);
  }

  lemma KeepSize<K, V>(t: Table<K, V>, n: nat)
    requires t.Ok() && n <= |t.order|
    ensures |Keep(t, n).entries| == n
  {
    KeepOk(t, n);
    Sized(Keep(t, n));
  }

  /** The entries that are kept, after dropping all beyond n from the back. */
  ghost predicate Dropped<K, V>(t: Table<K, V>, r: Table<K, V>, n: nat, max: nat) {
    n <= |t.order| && r == Keep(t, n) && |r.entries| == n && (n == |t.order| || n >= max)
  }

  lemma KeptIsDropped<K, V>(t: Table<K, V>, r: Table<K, V>, n: nat, max: nat)
    requires t.Ok() && n <= |t.order| && r == Keep(t, n) && (n == |t.order| || n >= max)
    ensures Dropped(t, r, n, max)
  {
    KeepSize(t, n);
  }

  lemma DroppedAll<K, V>(t: Table<K, V>, r: Table<K, V>, n: nat, max: nat)
    requires t.Ok() && Dropped(t, r, n, max) && n <= max
    ensures r == Evict(t, max)
  {
    KeepAll(t);
  }

  /** Drops entries from the back of the list until max are left. */
  method EvictOver<K, V>(t: Table<K, V>, max: nat) returns (r: Table<K, V>)
    requires t.Ok()
    ensures r == Evict(t, max)
  {
    r := t;
    KeepAll(t);
    ghost var n: nat := |t.order|;
    KeptIsDropped(t, r, n, max);
    while |r.entries| > max
      invariant Dropped(t, r, n, max)
      decreases n
    {
      EvictStep(t, r, n);
      r := Remove(r, r.order[|r.order| - 1]);
      n := n - 1;
      KeptIsDropped(t, r, n, max);
    }
    DroppedAll(t, r, n, max);
  }
}

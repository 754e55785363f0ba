/** The two caches a walk draws on: validated zone keys, and the servers of zones
    already reached. */
module Delegations {
  import opened Octets
  import opened Names
  import opened Messages
  import opened Recency
  import opened Times

  const MIN_DELEGATION_TTL: U32 := 60
  const MAX_DELEGATION_TTL: U32 := 604_800
  const DEFAULT_ENTRIES := 2000

  function ClampTTL(ttl: U32): (r: U32)
    ensures 60 <= r <= 604_800 && (60 <= ttl <= 604_800 ==> r == ttl)
    ensures ttl <= 60 ==> r == 60
    ensures ttl >= 604_800 ==> r == 604_800
  {
    if ttl < MIN_DELEGATION_TTL then MIN_DELEGATION_TTL
    else if ttl > MAX_DELEGATION_TTL then MAX_DELEGATION_TTL else ttl
  }

  datatype KeyEntry = KeyEntry(keys: seq<DNSKEY>, expiry: int)

  /** DNSKEY sets that have already been validated. */
  class KeyCache {
    var entries: map<Name, KeyEntry>

    constructor ()
      ensures entries == map[]
    {
      entries := map[];
    }

    function Get(zone: Name, now: int): (r: Option<seq<DNSKEY>>)
      reads this
      ensures r.Some? <==> Canon(zone) in entries && entries[Canon(zone)].expiry > now
      ensures r.Some? ==> r.value == entries[Canon(zone)].keys
    {
      if Canon(zone) !in entries || entries[Canon(zone)].expiry <= now then None
      else Some(entries[Canon(zone)].keys)
    }

    method Put(zone: Name, keys: seq<DNSKEY>, ttl: U32, now: int)
      modifies this
      ensures entries == if keys == [] then old(entries)
                         else old(entries)[Canon(zone) := KeyEntry(keys, now + ClampTTL(ttl) * 1_000_000_000)]
    {
      if |keys| == 0 { return; }
      entries := entries[Canon(zone) := KeyEntry(keys, now + ClampTTL(ttl) * SECOND)];
    }
  }

  datatype Delegation = Delegation(servers: seq<Bytes>, secure: bool, expiry: int)

  type Delegated = Table<Name, Delegation>

  datatype Start = Start(zone: Name, servers: seq<Bytes>, secure: bool)

  /** The search from a name up to the root for an entry still alive: expired ones
      met on the way go, the one found becomes the most recent. */
  function Search(t: Delegated, name: Name, now: int): (Delegated, Option<Name>)
    decreases |name|
  {
    if name in t.entries && t.entries[name].expiry > now then (Touch(t, name), Some(name))
    else
      var u := if name in t.entries then Remove(t, name) else t;
      if name == [] then (u, None) else Search(u, name[1..], now)
  }

  /** One step of the search. */
  lemma SearchStep(t: Delegated, name: Name, now: int)
    ensures Alive(t, name, now) ==> Search(t, name, now) == (Touch(t, name), Some(name))
    ensures !Alive(t, name, now) ==>
              var u := if name in t.entries then Remove(t, name) else t;
              Search(t, name, now) == if name == [] then (u, None) else Search(u, name[1..], now)
  {}

  predicate Alive(t: Delegated, name: Name, now: int) {
    name in t.entries && t.entries[name].expiry > now
  }

  /** What a search finds is the deepest live ancestor-or-self, and it drops only
      entries that have expired. */
  lemma {:induction false} SearchIsDeepest(t: Delegated, name: Name, now: int)
    requires t.Ok()
    ensures var (u, r) := Search(t, name, now);
            && u.Ok()
            && (forall k | k in u.entries :: k in t.entries && u.entries[k] == t.entries[k])
            && (forall k | k in t.entries && k !in u.entries :: t.entries[k].expiry <= now)
            && (r.Some? ==> IsSuffix(r.value, name) && Alive(t, r.value, now))
            && (forall z | IsSuffix(z, name) && Alive(t, z, now) :: r.Some? && |z| <= |r.value|)
    decreases |name|
  {
    if Alive(t, name, now) {
      TouchOk(t, name);
    } else {
      var u := if name in t.entries then Remove(t, name) else t;
      if name in t.entries { RemoveOk(t, name); }
      if name == [] {
        forall z | IsSuffix(z, name) ensures z == name {}
      } else {
        SearchIsDeepest(u, name[1..], now);
        ShorterSuffix(name);
        var r := Search(t, name, now).1;
        forall z | IsSuffix(z, name) && Alive(t, z, now) ensures r.Some? && |z| <= |r.value| {
          assert IsSuffix(z, name[1..]) && Alive(u, z, now);
        }
      }
    }
  }

  lemma ShorterSuffix(name: Name)
    requires name != []
    ensures forall z | IsSuffix(z, name) && z != name :: IsSuffix(z, name[1..])
    ensures forall z | IsSuffix(z, name[1..]) :: IsSuffix(z, name)
  {
    forall z | IsSuffix(z, name) && z != name ensures IsSuffix(z, name[1..]) {
      assert name[1..][|name| - 1 - |z|..] == name[|name| - |z|..];
    }
    forall z | IsSuffix(z, name[1..]) ensures IsSuffix(z, name) {
      assert name[1..][|name| - 1 - |z|..] == name[|name| - |z|..];
    }
  }

  class DelegationCache {
    const maxEntries: nat
    var entries: map<Name, Delegation>
    var order: seq<Name>

    ghost function Contents(): Delegated
      reads this
    {
      Table(entries, order)
    }

    ghost predicate Valid()
      reads this
    {
      maxEntries > 0 && Contents().Ok() && |entries| <= maxEntries
    }

    constructor (max: nat)
      ensures Valid() && entries == map[] && order == []
      ensures maxEntries == if max == 0 then 2000 else max
    {
      maxEntries := if max == 0 then DEFAULT_ENTRIES else max;
      entries := map[];
      order := [];
    }

    method Drop(key: Name)
      requires key in entries
      modifies this
      ensures Contents() == Remove(old(Contents()), key)
    {
      order := Without(order, key);
      entries := entries - {key};
    }

    method Promote(key: Name)
      requires key in entries
      modifies this`order
      ensures Contents() == Touch(old(Contents()), key)
    {
      order := [key] + Without(order, key);
    }

    /** Where a resolution for qname can start: the deepest live cached zone it
        sits under. */
    method ClosestEnclosing(qname: Name, now: int) returns (r: Option<Start>)
      requires Valid()
      modifies this
      ensures Valid()
      ensures Contents() == Search(old(Contents()), Canon(qname), now).0
      ensures match Search(old(Contents()), Canon(qname), now).1
              case None => r == None
              case Some(z) => z in old(entries) && r == Some(Start(z, old(entries)[z].servers, old(entries)[z].secure))
    {
      var name := Canon(qname);
      ghost var was := Contents();
      while true
        invariant Contents().Ok() && Search(was, Canon(qname), now) == Search(Contents(), name, now)
        invariant forall k | k in entries :: k in was.entries && entries[k] == was.entries[k]
        decreases |name|
      {
        SearchStep(Contents(), name, now);
        if name in entries {
          if entries[name].expiry > now {
            TouchOk(Contents(), name);
            Promote(name);
            SizeKept(was, Contents());
            return Some(Start(name, entries[name].servers, entries[name].secure));
          }
          RemoveOk(Contents(), name);
          Drop(name);
        }
        if name == [] {
          SizeKept(was, Contents());
          return None;
        }
        name := name[1..];
      }
    }

    /** Records the servers for a zone, as the most recent entry; a full cache
        gives up the one used longest ago. */
    method Put(zone: Name, servers: seq<Bytes>, ttl: U32, secure: bool, now: int)
      requires Valid()
      modifies this
      ensures Valid()
      ensures Contents() == if servers == [] then old(Contents())
                            else Evict(Add(old(Contents()), Canon(zone),
                                           Delegation(servers, secure, now + ClampTTL(ttl) * 1_000_000_000)),
                                       maxEntries)
    {
      if |servers| == 0 { return; }
      var key := Canon(zone);
      var e := Delegation(servers, secure, now + ClampTTL(ttl) * SECOND);
      AddOk(Contents(), key, e);
      AddThenEvict(Contents(), key, e, maxEntries);
      if key in entries {
        Drop(key);
      } else {
        RemoveAbsent(Contents(), key);
      }
      order := [key] + order;
      entries := entries[key := e];
      var kept := EvictOver(Table(entries, order), maxEntries);
      entries, order := kept.entries, kept.order;
    }

    method Forget(zone: Name)
      requires Valid()
      modifies this
      ensures Valid() && Contents() == Remove(old(Contents()), Canon(zone))
    {
      var key := Canon(zone);
      RemoveOk(Contents(), key);
      if key in entries {
        Drop(key);
      } else {
        RemoveAbsent(Contents(), key);
      }
      SizeKept(old(Contents()), Contents());
    }
  }

  lemma SizeKept<K, V>(t: Table<K, V>, u: Table<K, V>)
    requires forall k | k in u.entries :: k in t.entries
    ensures |u.entries| <= |t.entries|
  {
    Subset(u.entries.Keys, t.entries.Keys);
    assert |u.entries| == |u.entries.Keys| && |t.entries| == |t.entries.Keys|;
  }

  lemma Subset<T>(a: set<T>, b: set<T>)
    requires a <= b
    ensures |a| <= |b|
  {
    assert b == a + (b - a);
  }
}

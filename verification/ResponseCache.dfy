/** The cache of responses (middleware/cache/cache.go): a bounded table with expiry
    that also answers below a name known not to exist (RFC 8020). */
module ResponseCache {
  import opened Octets
  import opened Names
  import opened Messages
  import opened Recency
  import opened Times

  /** The type of an entry that answers for every type of a name. */
  const ANY: U16 := 0
  const NEGATIVE_FALLBACK_TTL: U32 := 60
  const SERVER_FAILURE_TTL: U32 := 5
  const DEFAULT_MAX_ENTRIES := 10000

  datatype Key = Key(name: Name, qtype: U16)

  datatype Response = Response(rcode: Octet, answers: seq<RR>, authorities: seq<RR>, authentic: bool)

  datatype Entry = Entry(response: Response, expiry: int)

  type Cached = Table<Key, Entry>

  function NormalizeKey(name: Name, qtype: U16): Key {
    Key(Canon(name), qtype)
  }

  /** Two questions share a key exactly if they ask for one name, up to case, and one
      type. */
  lemma KeysTell(a: Name, s: U16, b: Name, t: U16)
    ensures NormalizeKey(a, s) == NormalizeKey(b, t) <==> EqualName(a, b) && s == t
  {}

  // ---- how long a response is kept ----

  function LeastTTL(rrs: seq<RR>): U32
    requires rrs != []
  {
    if |rrs| == 1 then rrs[0].ttl
    else
      var m := LeastTTL(rrs[..|rrs| - 1]);
      if rrs[|rrs| - 1].ttl < m then rrs[|rrs| - 1].ttl else m
  }

  lemma {:induction false} LeastIsLeast(rrs: seq<RR>)
    requires rrs != []
    ensures forall i | 0 <= i < |rrs| :: LeastTTL(rrs) <= rrs[i].ttl
    ensures exists i | 0 <= i < |rrs| :: LeastTTL(rrs) == rrs[i].ttl
    decreases |rrs|
  {
    var n := |rrs| - 1;
    if n > 0 {
      LeastIsLeast(rrs[..n]);
      var i :| 0 <= i < n && LeastTTL(rrs[..n]) == rrs[..n][i].ttl;
      assert rrs[..n][i] == rrs[i];
      forall j | 0 <= j < n ensures LeastTTL(rrs) <= rrs[j].ttl { assert rrs[..n][j] == rrs[j]; }
      assert LeastTTL(rrs) == rrs[i].ttl || LeastTTL(rrs) == rrs[n].ttl;
    } else {
      assert LeastTTL(rrs) == rrs[0].ttl;
    }
  }

  /** The negative TTL of section 5 of RFC 2308, from the first SOA. */
  function NegativeTTL(authorities: seq<RR>, fallback: U32): U32 {
    if authorities == [] then fallback
    else if authorities[0].rtype == TypeSOA && authorities[0].soa.Some? then
      if authorities[0].soa.value.minimum < authorities[0].ttl then authorities[0].soa.value.minimum
          else authorities[0].ttl
    else NegativeTTL(authorities[1..], fallback)
  }

  /** The authorities' first SOA. */
  predicate FirstSOA(authorities: seq<RR>, i: nat) {
    && i < |authorities| && authorities[i].rtype == TypeSOA && authorities[i].soa.Some?
    && forall j | 0 <= j < i :: authorities[j].rtype != TypeSOA || authorities[j].soa.None?
  }

  /** The lesser of its TTL and its minimum field; the fallback if there is none. */
  lemma {:induction false} NegativeMeans(authorities: seq<RR>, fallback: U32)
    ensures forall i: nat | FirstSOA(authorities, i) ::
              var ttl, rr := NegativeTTL(authorities, fallback), authorities[i];
              && ttl <= rr.ttl && ttl <= rr.soa.value.minimum && (ttl == rr.ttl || ttl == rr.soa.value.minimum)
    ensures (forall i: nat :: !FirstSOA(authorities, i)) ==> NegativeTTL(authorities, fallback) == fallback
  {
    if authorities != [] && !(authorities[0].rtype == TypeSOA && authorities[0].soa.Some?) {
      var rest := authorities[1..];
      NegativeMeans(rest, fallback);
      forall i: nat | FirstSOA(authorities, i) ensures i > 0 && FirstSOA(rest, i - 1) {
        assert forall j | 0 <= j < i - 1 :: rest[j] == authorities[j + 1];
      }
      forall i: nat | FirstSOA(rest, i) ensures FirstSOA(authorities, i + 1) {
        assert forall j | 1 <= j < i + 1 :: authorities[j] == rest[j - 1];
      }
    } else if authorities != [] {
      assert FirstSOA(authorities, 0);
    }
  }

  method MinTTL(rrs: seq<RR>) returns (m: U32)
    requires rrs != []
    ensures m == LeastTTL(rrs)
  {
    m := rrs[0].ttl;
    for k := 1 to |rrs|
      invariant m == LeastTTL(rrs[..k])
    {
      assert rrs[..k + 1][..k] == rrs[..k];
      if rrs[k].ttl < m { m := rrs[k].ttl; }
    }
    assert rrs[..|rrs|] == rrs;
  }

  method NegativeTTLFromSOA(authorities: seq<RR>, fallback: U32) returns (ttl: U32)
    ensures ttl == NegativeTTL(authorities, fallback)
  {
    for k := 0 to |authorities|
      invariant NegativeTTL(authorities, fallback) == NegativeTTL(authorities[k..], fallback)
    {
      var rr := authorities[k];
      assert authorities[k..][0] == rr && authorities[k..][1..] == authorities[k + 1..];
      if rr.rtype == TypeSOA && rr.soa.Some? {
        ttl := rr.ttl;
        if rr.soa.value.minimum < ttl { ttl := rr.soa.value.minimum; }
        return;
      }
    }
    return fallback;
  }

  /** What a response may be cached for, before clamping; 0 is not at all. */
  function RawTTL(r: Response): U32 {
    if r.rcode == RCodeNameError then NegativeTTL(r.authorities, NEGATIVE_FALLBACK_TTL)
    else if r.rcode == RCodeSuccess then
      if r.answers != [] then LeastTTL(r.answers) else NegativeTTL(r.authorities, NEGATIVE_FALLBACK_TTL)
    else if r.rcode == RCodeServerFailure then SERVER_FAILURE_TTL
    else 0
  }

  /** The least TTL of the answers; the negative TTL where there are none or the name
      does not exist; a few seconds for a server failure; any other code is not kept. */
  lemma KeptMeans(r: Response)
    ensures r.rcode == 0 && r.answers != [] ==>
              && (forall i | 0 <= i < |r.answers| :: RawTTL(r) <= r.answers[i].ttl)
              && (exists i | 0 <= i < |r.answers| :: RawTTL(r) == r.answers[i].ttl)
    ensures r.rcode == 3 || (r.rcode == 0 && r.answers == []) ==>
              && (forall i: nat | FirstSOA(r.authorities, i) ::
                    && RawTTL(r) <= r.authorities[i].ttl && RawTTL(r) <= r.authorities[i].soa.value.minimum
                    && (RawTTL(r) == r.authorities[i].ttl || RawTTL(r) == r.authorities[i].soa.value.minimum))
              && ((forall i: nat :: !FirstSOA(r.authorities, i)) ==> RawTTL(r) == 60)
    ensures r.rcode == 2 ==> RawTTL(r) == 5
    ensures r.rcode != 0 && r.rcode != 3 && r.rcode != 2 ==> RawTTL(r) == 0
  {
    if r.answers != [] { LeastIsLeast(r.answers); }
    NegativeMeans(r.authorities, NEGATIVE_FALLBACK_TTL);
  }

  method FindTTL(r: Response) returns (ttl: U32)
    ensures ttl == RawTTL(r)
  {
    if r.rcode == RCodeNameError {
      ttl := NegativeTTLFromSOA(r.authorities, NEGATIVE_FALLBACK_TTL);
    } else if r.rcode == RCodeSuccess && |r.answers| > 0 {
      ttl := MinTTL(r.answers);
    } else if r.rcode == RCodeSuccess {
      ttl := NegativeTTLFromSOA(r.authorities, NEGATIVE_FALLBACK_TTL);
    } else if r.rcode == RCodeServerFailure {
      ttl := SERVER_FAILURE_TTL;
    } else {
      ttl := 0;
    }
  }

  /** A name error says the name does not exist for any type. */
  function PutKey(name: Name, qtype: U16, r: Response): Key {
    NormalizeKey(name, if r.rcode == RCodeNameError then ANY else qtype)
  }

  // ---- finding ----

  /** The nearest entry for every type at name or above it, short of the root. */
  function Enclosing(t: Cached, rest: Name): (r: Option<Key>)
    ensures r.Some? ==> r.value in t.entries
  {
    if Key(rest, ANY) in t.entries then Some(Key(rest, ANY))
    else if |rest| <= 1 then None
    else Enclosing(t, rest[1..])
  }

  function Find(t: Cached, name: Name, qtype: U16): (r: Option<Key>)
    ensures r.Some? ==> r.value in t.entries
  {
    if NormalizeKey(name, qtype) in t.entries then Some(NormalizeKey(name, qtype)) else Enclosing(t, Canon(name))
  }

  /** The key is the question's own, or stands for every type of an
      ancestor-or-self of the name. */
  predicate AnswersFor(k: Key, name: Name, qtype: U16) {
    k == NormalizeKey(name, qtype) || (k.qtype == ANY && IsSuffix(k.name, Canon(name)))
  }

  lemma {:induction false} EnclosingSound(t: Cached, rest: Name)
    ensures match Enclosing(t, rest)
            case None => forall z | z != [] && IsSuffix(z, rest) :: Key(z, ANY) !in t.entries
            case Some(k) => k in t.entries && k.qtype == ANY && IsSuffix(k.name, rest)
    decreases |rest|
  {
    if Key(rest, ANY) !in t.entries && |rest| > 1 {
      EnclosingSound(t, rest[1..]);
      match Enclosing(t, rest[1..])
      case Some(k) => SuffixTrans(k.name, rest[1..], rest);
      case None =>
        forall z | z != [] && IsSuffix(z, rest) ensures Key(z, ANY) !in t.entries {
          if z != rest { SuffixNested(z, rest[1..], rest); }
        }
    }
  }

  /** What is found answers the question; nothing is found only if neither the
      question nor any name above it has an entry. */
  lemma FindSound(t: Cached, name: Name, qtype: U16)
    ensures match Find(t, name, qtype)
            case None => forall k: Key | k.name != [] && AnswersFor(k, name, qtype) :: k !in t.entries
            case Some(k) => k in t.entries && AnswersFor(k, name, qtype)
  {
    EnclosingSound(t, Canon(name));
  }

  // ---- serving ----

  /** The TTL shown with what is left of an entry's life. */
  function ServedTTL(remaining: int): U32 {
    var t := Seconds(remaining) % 0x1_0000_0000;
    if t == 0 then 1 else t
  }

  function WithTTL(rrs: seq<RR>, ttl: U32): (r: seq<RR>)
    ensures |r| == |rrs|
  {
    seq(|rrs|, i requires 0 <= i < |rrs| => rrs[i].(ttl := ttl))
  }

  function Served(r: Response, ttl: U32): Response {
    r.(answers := WithTTL(r.answers, ttl), authorities := WithTTL(r.authorities, ttl))
  }

  /** A lookup: what is found and alive is served and becomes the most recent, what
      has expired goes. */
  function LookupIn(t: Cached, name: Name, qtype: U16, now: int): (Cached, Option<Response>) {
    match Find(t, name, qtype)
    case None => (t, None)
    case Some(k) =>
      var e := t.entries[k];
      if e.expiry <= now then (Remove(t, k), None)
      else (Touch(t, k), Some(Served(e.response, ServedTTL(e.expiry - now))))
  }

  /** A new entry in front; a full table gives up the least recently used. */
  function PutIn(t: Cached, k: Key, e: Entry, max: nat): Cached {
    Evict(Add(t, k, e), max)
  }

  /** A response as it was handed in: for which question, when, and the TTL it got. */
  datatype Stored = Stored(name: Name, qtype: U16, response: Response, at: int, ttl: U32)

  /** The same records, each with this TTL. */
  predicate Retimed(a: seq<RR>, b: seq<RR>, ttl: U32) {
    |a| == |b| && forall i | 0 <= i < |a| :: a[i].ttl == ttl && a[i].(ttl := b[i].ttl) == b[i]
  }

  /** The served response is put's, still alive, every TTL the whole seconds it has left
      or 1 if there are none. */
  predicate FreshCopy(r: Response, p: Stored, now: int) {
    var remaining := p.at + p.ttl * SECOND - now;
    var left := if Seconds(remaining) < 1 then 1 else Seconds(remaining);
    && remaining > 0 && left <= (if p.ttl < 1 then 1 else p.ttl)
    && r.rcode == p.response.rcode && r.authentic == p.response.authentic
    && Retimed(r.answers, p.response.answers, left) && Retimed(r.authorities, p.response.authorities, left)
  }

  /** The response was put for this very question; or it answers for every type of a
      name at or above the question's, being put for type 0 or a name error. */
  predicate MeantFor(p: Stored, name: Name, qtype: U16) {
    || (EqualName(p.name, name) && p.qtype == qtype)
    || (IsSubdomainOrEqual(name, p.name) && (p.qtype == 0 || p.response.rcode == 3))
  }

  lemma ServedInTime(r: Response, p: Stored, now: int)
    requires p.at <= now < p.at + p.ttl * SECOND && p.response == r
    ensures FreshCopy(Served(r, ServedTTL(p.at + p.ttl * SECOND - now)), p, now)
  {
    var remaining := p.at + p.ttl * SECOND - now;
    assert 0 <= Seconds(remaining) <= p.ttl;
  }

  /** The entry is what was put last under its key, and its key that of the put. */
  ghost predicate Holds(latest: map<Key, Stored>, k: Key, e: Entry) {
    && k in latest && e.response == latest[k].response && e.expiry == latest[k].at + latest[k].ttl * SECOND
    && k == PutKey(latest[k].name, latest[k].qtype, latest[k].response)
  }

  /** Every entry is the latest response put under its key. */
  ghost predicate Faithful(entries: map<Key, Entry>, latest: map<Key, Stored>) {
    forall j {:trigger Opened(Door.Entries, j)} | Opened(Door.Entries, j) ::
      forall k | k in entries :: Holds(latest, k, entries[k])
  }

  lemma FaithfulSubset(entries: map<Key, Entry>, fewer: map<Key, Entry>, latest: map<Key, Stored>)
    requires Faithful(entries, latest) && forall k | k in fewer :: k in entries && fewer[k] == entries[k]
    ensures Faithful(fewer, latest)
  {
    assert Opened(Door.Entries, 0);
  }

  lemma FaithfulPut(entries: map<Key, Entry>, more: map<Key, Entry>, latest: map<Key, Stored>, k: Key, p: Stored)
    requires Faithful(entries, latest) && k == PutKey(p.name, p.qtype, p.response)
    requires forall x | x in more && x != k :: x in entries && more[x] == entries[x]
    requires k in more ==> more[k] == Entry(p.response, p.at + p.ttl * SECOND)
    ensures Faithful(more, latest[k := p])
  {
    assert Opened(Door.Entries, 0);
  }

  /** What was put under a key that answers a question was meant for it. */
  lemma KeyMeant(p: Stored, k: Key, name: Name, qtype: U16)
    requires k == PutKey(p.name, p.qtype, p.response) && AnswersFor(k, name, qtype)
    ensures MeantFor(p, name, qtype)
  {
    CanonIdempotent(p.name);
  }

  ghost predicate Answered(r: Response, latest: map<Key, Stored>, k: Key, name: Name, qtype: U16, now: int) {
    k in latest && MeantFor(latest[k], name, qtype) && (latest[k].at <= now ==> FreshCopy(r, latest[k], now))
  }

  /** What a lookup serves is a fresh copy of the latest response put for the
      question, or for every type of a name at or above it. */
  lemma LookupSound(t: Cached, latest: map<Key, Stored>, name: Name, qtype: U16, now: int)
    requires Faithful(t.entries, latest)
    ensures var (_, r) := LookupIn(t, name, qtype, now); r.Some? ==> Explained(r.value, latest, name, qtype, now)
  {
    FindSound(t, name, qtype);
    match Find(t, name, qtype)
    case None =>
    case Some(k) =>
      assert Opened(Door.Entries, 0);
      var e, p := t.entries[k], latest[k];
      if e.expiry > now {
        if p.at <= now { ServedInTime(e.response, p, now); }
        KeyMeant(p, k, name, qtype);
        assert Answered(Served(e.response, ServedTTL(e.expiry - now)), latest, k, name, qtype, now);
      }
  }

  ghost predicate Explained(r: Response, latest: map<Key, Stored>, name: Name, qtype: U16, now: int) {
    exists k :: Answered(r, latest, k, name, qtype, now)
  }

  lemma KeyFound(u: Cached, p: Stored, name: Name, qtype: U16)
    requires EqualName(name, p.name) && (qtype == p.qtype || p.response.rcode == RCodeNameError)
    requires var k := PutKey(p.name, p.qtype, p.response);
             k in u.entries && (k != NormalizeKey(name, qtype) ==> NormalizeKey(name, qtype) !in u.entries)
    ensures Find(u, name, qtype) == Some(PutKey(p.name, p.qtype, p.response))
  {}

  lemma FoundIsServed(u: Cached, p: Stored, name: Name, qtype: U16, now: int)
    requires p.at <= now < p.at + p.ttl * SECOND
    requires EqualName(name, p.name) && (qtype == p.qtype || p.response.rcode == RCodeNameError)
    requires var k := PutKey(p.name, p.qtype, p.response);
             && k in u.entries && u.entries[k] == Entry(p.response, p.at + p.ttl * SECOND)
             && (k != NormalizeKey(name, qtype) ==> NormalizeKey(name, qtype) !in u.entries)
    ensures var (_, r) := LookupIn(u, name, qtype, now); r.Some? && FreshCopy(r.value, p, now)
  {
    KeyFound(u, p, name, qtype);
    ServedInTime(p.response, p, now);
  }

  /** What has just been put is found: for its own question, and if it is a name error
      for every type of the name that has no entry of its own. */
  lemma PutIsFound(t: Cached, p: Stored, max: nat, name: Name, qtype: U16, now: int)
    requires t.Ok() && 1 <= max && p.at <= now < p.at + p.ttl * SECOND
    requires EqualName(name, p.name) && (qtype == p.qtype || p.response.rcode == RCodeNameError)
    requires var k := PutKey(p.name, p.qtype, p.response);
             k != NormalizeKey(name, qtype) ==> NormalizeKey(name, qtype) !in t.entries
    ensures var k := PutKey(p.name, p.qtype, p.response);
            var (_, r) := LookupIn(PutIn(t, k, Entry(p.response, p.at + p.ttl * SECOND), max), name, qtype, now);
            r.Some? && FreshCopy(r.value, p, now)
  {
    var k, e := PutKey(p.name, p.qtype, p.response), Entry(p.response, p.at + p.ttl * SECOND);
    AddThenEvict(t, k, e, max);
    FoundIsServed(PutIn(t, k, e, max), p, name, qtype, now);
  }

  lemma LookupKeeps(t: Cached, name: Name, qtype: U16, now: int)
    requires t.Ok()
    ensures var (u, _) := LookupIn(t, name, qtype, now);
            u.Ok() && |u.entries| <= |t.entries| && forall k | k in u.entries ::
                k in t.entries && u.entries[k] == t.entries[k]
  {
    match Find(t, name, qtype)
    case None =>
    case Some(k) =>
      RemoveOk(t, k);
      TouchOk(t, k);
      Fewer(t.entries, t.entries - {k});
  }

  class Store {
    const maxEntries: nat
    const minTTL: U32
    const maxTTL: U32
    var entries: map<Key, Entry>
    var order: seq<Key>
    /** The last response put under each key, whether or not it is still held. */
    ghost var latest: map<Key, Stored>

    ghost function Contents(): Cached
      reads this
    {
      Table(entries, order)
    }

    /** Map and list in bijection, within capacity, and every entry the latest put
        of its key. */
    ghost predicate Valid()
      reads this
    {
      maxEntries > 0 && Contents().Ok() && |entries| <= maxEntries && Faithful(entries, latest)
    }

    constructor (max: nat, minTTL: U32, maxTTL: U32)
      ensures Valid() && entries == map[] && latest == map[]
      ensures maxEntries == if max == 0 then 10000 else max
      ensures this.minTTL == minTTL && this.maxTTL == maxTTL
    {
      maxEntries := if max == 0 then DEFAULT_MAX_ENTRIES else max;
      this.minTTL, this.maxTTL := minTTL, maxTTL;
      entries, order, latest := map[], [], map[];
    }

    function ClampTTL(ttl: U32): (r: U32)
      ensures r <= maxTTL && (minTTL <= maxTTL ==> minTTL <= r)
      ensures minTTL <= ttl <= maxTTL ==> r == ttl
    {
      var low := if ttl < minTTL then minTTL else ttl;
      if low > maxTTL then maxTTL else low
    }

    /** A cached response for a question, or for a name above it that does not
        exist; one that has expired goes instead. */
    method Lookup(name: Name, qtype: U16, now: int) returns (r: Option<Response>)
      requires Valid()
      modifies this`entries, this`order
      ensures Valid()
      ensures LookupIn(old(Contents()), name, qtype, now) == (Contents(), r)
      ensures r.Some? ==> Explained(r.value, latest, name, qtype, now)
    {
      LookupKeeps(Contents(), name, qtype, now);
      LookupSound(Contents(), latest, name, qtype, now);
      FaithfulSubset(entries, LookupIn(Contents(), name, qtype, now).0.entries, latest);
      var k := NormalizeKey(name, qtype);
      if k !in entries {
        var above := EnclosingNXDOMAIN(name);
        if above.None? { return None; }
        k := above.value;
      }
      var e := entries[k];
      var remaining := e.expiry - now;
      if remaining <= 0 {
        order := Without(order, k);
        entries := entries - {k};
        return None;
      }
      order := [k] + Without(order, k);
      return Some(Served(e.response, ServedTTL(remaining)));
    }

    method EnclosingNXDOMAIN(name: Name) returns (k: Option<Key>)
      ensures k == Enclosing(Contents(), Canon(name))
    {
      var rest := Canon(name);
      while true
        invariant Enclosing(Contents(), Canon(name)) == Enclosing(Contents(), rest)
        decreases |rest|
      {
        if Key(rest, ANY) in entries { return Some(Key(rest, ANY)); }
        if |rest| <= 1 { return None; }
        rest := rest[1..];
      }
    }

    /** Caches a response, if its kind and TTL allow; the least recently used entry
        makes room. */
    method Put(name: Name, qtype: U16, r: Response, now: int)
      requires Valid()
      modifies this
      ensures Valid()
      ensures RawTTL(r) == 0 ==> Contents() == old(Contents()) && latest == old(latest)
      ensures RawTTL(r) != 0 ==>
                var k, ttl := PutKey(name, qtype, r), ClampTTL(RawTTL(r));
                && Contents() == PutIn(old(Contents()), k, Entry(r, now + ttl * SECOND), maxEntries)
                && latest == old(latest)[k := Stored(name, qtype, r, now, ttl)]
    {
      var ttl := FindTTL(r);
      if ttl == 0 { return; }
      Insert(PutKey(name, qtype, r), r, now, ClampTTL(ttl), name, qtype);
    }

    method Insert(k: Key, r: Response, now: int, ttl: U32, ghost name: Name, ghost qtype: U16)
      requires Valid() && k == PutKey(name, qtype, r)
      modifies this
      ensures Valid()
      ensures Contents() == PutIn(old(Contents()), k, Entry(r, now + ttl * SECOND), maxEntries)
      ensures latest == old(latest)[k := Stored(name, qtype, r, now, ttl)]
    {
      var e := Entry(r, now + ttl * SECOND);
      ghost var full := Evict(Add(Contents(), k, e), maxEntries);
      AddOk(Contents(), k, e);
      AddThenEvict(Contents(), k, e, maxEntries);
      FaithfulPut(entries, full.entries, latest, k, Stored(name, qtype, r, now, ttl));
      if k in entries {
        order := Without(order, k);
        entries := entries - {k};
      } else {
        RemoveAbsent(Contents(), k);
      }
      order := [k] + order;
      entries := entries[k := e];
      var kept := EvictOver(Table(entries, order), maxEntries);
      entries, order := kept.entries, kept.order;
      latest := latest[k := Stored(name, qtype, r, now, ttl)];
    }
  }

  lemma Fewer(all: map<Key, Entry>, some: map<Key, Entry>)
    requires some.Keys <= all.Keys
    ensures |some| <= |all|
  {
    assert |some| == |some.Keys| && |all| == |all.Keys|;
    assert all.Keys == some.Keys + (all.Keys - some.Keys);
  }

  // ---- what an answer from above means ----

  /** Every entry that answers for all types is a name error. */
  ghost predicate AnyIsNameError(latest: map<Key, Stored>) {
    forall k | k in latest && k.qtype == 0 :: latest[k].response.rcode == 3
  }

  /** Putting a response keeps that so exactly unless it is one for query type 0
      that is not a name error, which nothing in the cache excludes. */
  lemma AnyKept(latest: map<Key, Stored>, name: Name, qtype: U16, r: Response, now: int, ttl: U32)
    requires AnyIsNameError(latest)
    ensures AnyIsNameError(latest[PutKey(name, qtype, r) := Stored(name, qtype, r, now, ttl)]) <==>
        !(qtype == 0 && r.rcode != 3)
  {
    var k := PutKey(name, qtype, r);
    var after := latest[k := Stored(name, qtype, r, now, ttl)];
    if qtype == 0 && r.rcode != 3 { assert k in after && k.qtype == 0; }
  }

  /** With that, what answers a question is its own latest response or a name error
      at or above it. */
  lemma AnswerMeans(r: Response, latest: map<Key, Stored>, k: Key, name: Name, qtype: U16, now: int)
    requires Answered(r, latest, k, name, qtype, now) && latest[k].at <= now && AnyIsNameError(latest)
    requires k == PutKey(latest[k].name, latest[k].qtype, latest[k].response)
    ensures FreshCopy(r, latest[k], now)
    ensures var p := latest[k];
            || (EqualName(p.name, name) && p.qtype == qtype)
            || (IsSubdomainOrEqual(name, p.name) && r.rcode == RCodeNameError)
  {}

  /** A response stored under query type 0 answers for every type of every name
      below: here, an address of "x" for "y.x". */
  lemma TypeZeroAnswersBelow(rr: RR, qtype: U16) returns (t: Cached)
    requires rr.ttl > 0 && qtype != 0
    ensures var r := Response(RCodeSuccess, [rr], [], false);
            && t == Add(Table(map[], []), PutKey([[120]], 0, r), Entry(r, SECOND)) && RawTTL(r) != 0
            && Find(t, [[121], [120]], qtype) == Some(PutKey([[120]], 0, r))
  {
    var r := Response(RCodeSuccess, [rr], [], false);
    t := Add(Table(map[], []), PutKey([[120]], ANY, r), Entry(r, SECOND));
    var parent: Name, child: Name := [[120]], [[121], [120]];
    assert LowerAll([120]) == [120] && LowerAll([121]) == [121];
    assert Canon(parent) == parent && Canon(child) == child;
    assert t.entries.Keys == {Key(parent, ANY)};
    assert child[1..] == parent && |child| == 2 && child != parent;
    assert Enclosing(t, child) == Enclosing(t, parent) == Some(Key(parent, ANY));
  }
}

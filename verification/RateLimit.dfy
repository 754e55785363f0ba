/** A token bucket per client address (middleware/ratelimit/ratelimit.go). Times are
    real numbers of seconds, and the program's floating point is real arithmetic. */
module RateLimit {
  import opened Octets

  const DEFAULT_RATE := 50.0
  const DEFAULT_BURST := 100.0
  const MAX_CLIENTS := 10000

  type Addr = nat

  datatype Bucket = Bucket(tokens: real, seen: real)

  type Clients = map<Addr, Bucket>

  datatype Limits = Limits(rate: real, burst: real)

  function Min(a: real, b: real): real {
    if a < b then a else b
  }

  /** The bucket after the time since it was last seen. */
  function Refilled(l: Limits, b: Bucket, now: real): real {
    Min(b.tokens + (now - b.seen) * l.rate, l.burst)
  }

  predicate Oldest(clients: Clients, ip: Addr, now: real) {
    ip in clients && clients[ip].seen <= now && forall x | x in clients :: clients[ip].seen <= clients[x].seen
  }

  /** A full table gives up one of the clients seen least recently; one seen after
      now is never chosen. */
  ghost predicate Evicted(clients: Clients, now: real, kept: Clients) {
    if |clients| < MAX_CLIENTS then kept == clients
    else
      || (exists ip :: Oldest(clients, ip, now) && kept == clients - {ip})
      || ((forall ip | ip in clients :: clients[ip].seen > now) && kept == clients)
  }

  /** One query from ip at now: what the table becomes and whether it is let through. */
  ghost predicate Step(l: Limits, s: Clients, ip: Addr, now: real, t: Clients, ok: bool) {
    if ip !in s then
      ok && exists kept :: Evicted(s, now, kept) && t == kept[ip := Bucket(l.burst - 1.0, now)]
    else
      var tokens := Refilled(l, s[ip], now);
      ok == (tokens >= 1.0) && t == s[ip := Bucket(if ok then tokens - 1.0 else tokens, now)]
  }

  class Limiter {
    const limits: Limits
    var clients: Clients

    constructor (rate: real, burst: real)
      ensures clients == map[]
      ensures limits == Limits(if rate <= 0.0 then 50.0 else rate, if burst <= 0.0 then 100.0 else burst)
    {
      limits := Limits(if rate <= 0.0 then DEFAULT_RATE else rate, if burst <= 0.0 then DEFAULT_BURST else burst);
      clients := map[];
    }

    /** Takes a token for ip, having refilled its bucket for the time gone by. */
    method Allow(ip: Addr, now: real) returns (ok: bool)
      modifies this
      ensures Step(limits, old(clients), ip, now, clients, ok)
    {
      if ip !in clients {
        EvictIfFull(now);
        clients := clients[ip := Bucket(limits.burst - 1.0, now)];
        return true;
      }
      var b := clients[ip];
      var tokens := Refilled(limits, b, now);
      if tokens < 1.0 {
        clients := clients[ip := Bucket(tokens, now)];
        return false;
      }
      clients := clients[ip := Bucket(tokens - 1.0, now)];
      return true;
    }

    /** Scans for the client seen least recently, in whatever order the table gives. */
    method EvictIfFull(now: real)
      modifies this
      ensures Evicted(old(clients), now, clients)
      ensures |old(clients)| < 10000 ==> clients == old(clients)
    {
      if |clients| < MAX_CLIENTS { return; }
      var found := false;
      var oldest: Addr := 0;
      var oldestSeen := now;
      var pending := clients.Keys;
      while pending != {}
        invariant pending <= clients.Keys && oldestSeen <= now
        invariant found ==> oldest in clients && clients[oldest].seen == oldestSeen
        invariant forall x | x in clients.Keys - pending :: oldestSeen <= clients[x].seen
        invariant !found ==> oldestSeen == now && forall x | x in clients.Keys - pending :: clients[x].seen > now
        decreases |pending|
      {
        var ip :| ip in pending;
        pending := pending - {ip};
        if clients[ip].seen <= oldestSeen {
          found, oldest, oldestSeen := true, ip, clients[ip].seen;
        }
      }
      if found {
        assert Oldest(clients, oldest, now);
        clients := clients - {oldest};
      }
    }
  }

  // ---- one step ----

  /** Tokens stay within the burst, and are never negative. */
  ghost predicate InBounds(l: Limits, s: Clients) {
    forall ip | ip in s :: 0.0 <= s[ip].tokens <= l.burst
  }

  ghost predicate SeenBy(s: Clients, now: real) {
    forall ip | ip in s :: s[ip].seen <= now
  }

  lemma RefillBounds(l: Limits, b: Bucket, now: real)
    requires l.rate > 0.0 && 0.0 <= b.tokens <= l.burst && b.seen <= now
    ensures 0.0 <= Refilled(l, b, now) <= l.burst
    ensures Refilled(l, b, now) <= b.tokens + (now - b.seen) * l.rate
  {
    assert (now - b.seen) * l.rate >= 0.0;
  }

  lemma StepKeeps(l: Limits, s: Clients, ip: Addr, now: real, t: Clients, ok: bool)
    requires l.rate > 0.0 && l.burst >= 1.0 && InBounds(l, s) && SeenBy(s, now)
    requires Step(l, s, ip, now, t, ok)
    ensures InBounds(l, t) && SeenBy(t, now)
  {
    if ip in s { RefillBounds(l, s[ip], now); }
  }

  lemma SizeWithout(s: Clients, ip: Addr)
    requires ip in s
    ensures |s - {ip}| == |s| - 1
  {
    assert (s - {ip}).Keys == s.Keys - {ip};
    assert |s| == |s.Keys| && |s - {ip}| == |(s - {ip}).Keys|;
  }

  lemma SizeWith(s: Clients, ip: Addr, b: Bucket)
    ensures |s[ip := b]| == |s| + if ip in s then 0 else 1
  {
    var t := s[ip := b];
    assert t.Keys == s.Keys + {ip};
    assert |s| == |s.Keys| && |t| == |t.Keys|;
  }

  /** While the clock does not go backwards, the table stays within its bound. */
  lemma StepSize(l: Limits, s: Clients, ip: Addr, now: real, t: Clients, ok: bool)
    requires |s| <= MAX_CLIENTS && SeenBy(s, now) && Step(l, s, ip, now, t, ok)
    ensures |t| <= MAX_CLIENTS
  {
    if ip in s {
      SizeWith(s, ip, t[ip]);
    } else {
      var kept :| Evicted(s, now, kept) && t == kept[ip := Bucket(l.burst - 1.0, now)];
      SizeWith(kept, ip, Bucket(l.burst - 1.0, now));
      if |s| >= MAX_CLIENTS {
        assert s != map[];
        var y :| y in s;
        assert s[y].seen <= now;
        var x :| Oldest(s, x, now) && kept == s - {x};
        SizeWithout(s, x);
      }
    }
  }

  // ---- whole runs ----

  datatype Query = Query(ip: Addr, now: real, ok: bool)

  /** The table before and after each of a sequence of queries, on a clock that does
      not go backwards. */
  ghost predicate Trace(l: Limits, states: seq<Clients>, queries: seq<Query>) {
    && |states| == |queries| + 1
    && (forall i, j | 0 <= i < |queries| && j == i + 1 ::
        Step(l, states[i], queries[i].ip, queries[i].now, states[j], queries[i].ok))
    && (forall i, j | 0 <= i < j < |queries| :: queries[i].now <= queries[j].now)
  }

  ghost predicate Sound(l: Limits, s: Clients, now: real) {
    InBounds(l, s) && SeenBy(s, now) && |s| <= 10000
  }

  /** Every table of a run from a sound one is sound. */
  lemma {:induction false} TraceSound(l: Limits, states: seq<Clients>, queries: seq<Query>, n: nat)
    requires l.rate > 0.0 && l.burst >= 1.0 && Trace(l, states, queries) && n < |queries|
    requires Sound(l, states[0], queries[0].now)
    ensures Sound(l, states[n], queries[n].now) && Sound(l, states[n + 1], queries[n].now)
    decreases n
  {
    if n > 0 { TraceSound(l, states, queries, n - 1); }
    var q := queries[n];
    assert Step(l, states[n], q.ip, q.now, states[n + 1], q.ok);
    StepKeeps(l, states[n], q.ip, q.now, states[n + 1], q.ok);
    StepSize(l, states[n], q.ip, q.now, states[n + 1], q.ok);
  }

  function Admitted(queries: seq<Query>, ip: Addr): nat {
    if queries == [] then 0
    else
      var q := queries[|queries| - 1];
      Admitted(queries[..|queries| - 1], ip) + if q.ip == ip && q.ok then 1 else 0
  }

  /** The client is in the table after each of the queries. */
  ghost predicate Resident(states: seq<Clients>, ip: Addr) {
    forall i | 1 <= i < |states| :: ip in states[i]
  }

  lemma TimesAdd(rate: real, a: real, b: real, c: real)
    ensures (c - b) * rate + (b - a) * rate == (c - a) * rate
  {}

  lemma TimesGrow(rate: real, a: real, b: real)
    requires rate > 0.0 && a <= b
    ensures (b - a) * rate >= 0.0
  {}

  /** The client's account since start: what it was let through and what it has left
      are covered by the burst and the time gone by. */
  ghost predicate Covered(l: Limits, admitted: nat, b: Bucket, start: real) {
    forall j {:trigger Opened(Door.Accounts, j)} | Opened(Door.Accounts, j) ::
      start <= b.seen && admitted as real + b.tokens <= l.burst + (b.seen - start) * l.rate
  }

  /** One query's cost: what it spends and leaves is covered by what there was and
      the time gone by. */
  ghost predicate Paid(l: Limits, b: Bucket, spent: nat, c: Bucket) {
    forall j {:trigger Opened(Door.Payments, j)} | Opened(Door.Payments, j) ::
      b.seen <= c.seen && spent as real + c.tokens <= b.tokens + (c.seen - b.seen) * l.rate
  }

  function Spent(q: Query, ip: Addr): nat {
    if q.ip == ip && q.ok then 1 else 0
  }

  lemma OneStep(l: Limits, s: Clients, q: Query, t: Clients, ip: Addr)
    requires l.rate > 0.0 && l.burst >= 1.0 && InBounds(l, s) && SeenBy(s, q.now)
    requires Step(l, s, q.ip, q.now, t, q.ok) && ip in s && ip in t
    ensures Paid(l, s[ip], Spent(q, ip), t[ip])
  {
    if q.ip == ip {
      RefillBounds(l, s[ip], q.now);
    } else {
      assert t[ip] == s[ip];
    }
  }

  /** After its first query in a window, a client has used its burst up to what it
      has left. */
  lemma FirstStep(l: Limits, s: Clients, q: Query, t: Clients)
    requires l.rate > 0.0 && l.burst >= 1.0 && InBounds(l, s) && SeenBy(s, q.now)
    requires Step(l, s, q.ip, q.now, t, q.ok)
    ensures q.ip in t && Covered(l, Spent(q, q.ip), t[q.ip], q.now)
  {
    assert (q.now - q.now) * l.rate == 0.0;
    if q.ip in s { RefillBounds(l, s[q.ip], q.now); }
  }

  lemma CoveredAfter(l: Limits, admitted: nat, b: Bucket, start: real, spent: nat, c: Bucket)
    requires Covered(l, admitted, b, start) && Paid(l, b, spent, c)
    ensures Covered(l, admitted + spent, c, start)
  {
    assert Opened(Door.Accounts, 0) && Opened(Door.Payments, 0);
    TimesAdd(l.rate, start, b.seen, c.seen);
  }

  lemma AdmittedStep(queries: seq<Query>, n: nat, ip: Addr)
    requires 1 <= n <= |queries|
    ensures Admitted(queries[..n], ip) == Admitted(queries[..n - 1], ip) + Spent(queries[n - 1], ip)
    ensures n == 1 ==> Admitted(queries[..n - 1], ip) == 0
  {
    assert queries[..n][..n - 1] == queries[..n - 1] && queries[..n][n - 1] == queries[n - 1];
    assert queries[..0] == [];
  }

  /** The account after n queries of a window that opens with one of ip's. */
  lemma {:induction false} Account(l: Limits, states: seq<Clients>, queries: seq<Query>, ip: Addr, n: nat)
    requires l.rate > 0.0 && l.burst >= 1.0 && Trace(l, states, queries) && 1 <= n <= |queries|
    requires Sound(l, states[0], queries[0].now) && queries[0].ip == ip && Resident(states, ip)
    ensures Covered(l, Admitted(queries[..n], ip), states[n][ip], queries[0].now)
    decreases n
  {
    var q := queries[n - 1];
    assert Step(l, states[n - 1], q.ip, q.now, states[n], q.ok);
    AdmittedStep(queries, n, ip);
    if n == 1 {
      FirstStep(l, states[0], q, states[1]);
    } else {
      TraceSound(l, states, queries, n - 2);
      assert queries[n - 2].now <= q.now;
      Account(l, states, queries, ip, n - 1);
      OneStep(l, states[n - 1], q, states[n], ip);
      CoveredAfter(l, Admitted(queries[..n - 1], ip), states[n - 1][ip], queries[0].now, Spent(q, ip), states[n][ip]);
    }
  }

  /** At most burst, and the rate over the time from start to end. */
  predicate WithinBudget(l: Limits, admitted: nat, start: real, end: real) {
    admitted as real <= l.burst + (end - start) * l.rate
  }

  lemma CoveredBound(l: Limits, admitted: nat, b: Bucket, start: real, end: real)
    requires l.rate > 0.0 && Covered(l, admitted, b, start) && 0.0 <= b.tokens && b.seen <= end
    ensures WithinBudget(l, admitted, start, end)
  {
    assert Opened(Door.Accounts, 0);
    TimesGrow(l.rate, b.seen, end);
    TimesAdd(l.rate, start, b.seen, end);
  }

  lemma WindowEnd(l: Limits, states: seq<Clients>, queries: seq<Query>, ip: Addr)
    requires l.rate > 0.0 && l.burst >= 1.0 && Trace(l, states, queries) && queries != []
    requires Sound(l, states[0], queries[0].now) && queries[0].ip == ip && Resident(states, ip)
    ensures var n := |queries|;
            && Covered(l, Admitted(queries, ip), states[n][ip], queries[0].now)
            && 0.0 <= states[n][ip].tokens && states[n][ip].seen <= queries[n - 1].now
  {
    var n := |queries|;
    Account(l, states, queries, ip, n);
    assert queries[..n] == queries;
    TraceSound(l, states, queries, n - 1);
  }

  /** The bound for a window that opens with one of the client's own queries. */
  lemma OwnWindowBound(l: Limits, states: seq<Clients>, queries: seq<Query>, ip: Addr)
    requires l.rate > 0.0 && l.burst >= 1.0 && Trace(l, states, queries) && queries != []
    requires Sound(l, states[0], queries[0].now) && queries[0].ip == ip && Resident(states, ip)
    ensures WithinBudget(l, Admitted(queries, ip), queries[0].now, queries[|queries| - 1].now)
  {
    WindowEnd(l, states, queries, ip);
    CoveredBound(l, Admitted(queries, ip), states[|queries|][ip], queries[0].now, queries[|queries| - 1].now);
  }

  lemma {:induction false} AdmittedTail(queries: seq<Query>, ip: Addr)
    requires queries != [] && queries[0].ip != ip
    ensures Admitted(queries, ip) == Admitted(queries[1..], ip)
    decreases |queries|
  {
    if |queries| > 1 {
      var n := |queries| - 1;
      assert queries[1..][..n - 1] == queries[..n][1..];
      AdmittedTail(queries[..n], ip);
    } else {
      assert queries[..0] == [];
    }
  }

  lemma TailTrace(l: Limits, states: seq<Clients>, queries: seq<Query>, ip: Addr)
    requires l.rate > 0.0 && l.burst >= 1.0 && Trace(l, states, queries) && |queries| > 1
    requires Sound(l, states[0], queries[0].now) && Resident(states, ip)
    ensures Trace(l, states[1..], queries[1..]) && Sound(l, states[1], queries[1].now) && Resident(states[1..], ip)
  {
    TraceSound(l, states, queries, 0);
    forall i, j | 0 <= i < |queries[1..]| && j == i + 1
      ensures Step(l, states[1..][i], queries[1..][i].ip, queries[1..][i].now, states[1..][j], queries[1..][i].ok)
    {
      assert Step(l, states[i + 1], queries[i + 1].ip, queries[i + 1].now, states[j + 1], queries[i + 1].ok);
    }
  }

  lemma BudgetWidens(l: Limits, admitted: nat, start: real, mid: real, end: real)
    requires l.rate > 0.0 && start <= mid && WithinBudget(l, admitted, mid, end)
    ensures WithinBudget(l, admitted, start, end)
  {
    TimesGrow(l.rate, start, mid);
    TimesAdd(l.rate, start, mid, end);
  }

  /** Over any window, a client that stays in the table is let through at most burst
      times, plus the rate over the time the window lasts. */
  lemma {:induction false} WindowBound(l: Limits, states: seq<Clients>, queries: seq<Query>, ip: Addr)
    requires l.rate > 0.0 && l.burst >= 1.0 && Trace(l, states, queries) && queries != []
    requires Sound(l, states[0], queries[0].now) && Resident(states, ip)
    ensures WithinBudget(l, Admitted(queries, ip), queries[0].now, queries[|queries| - 1].now)
    decreases |queries|
  {
    if queries[0].ip == ip {
      OwnWindowBound(l, states, queries, ip);
    } else if |queries| == 1 {
      assert Admitted(queries[..0], ip) == 0;
      assert (queries[0].now - queries[0].now) * l.rate == 0.0;
    } else {
      TailTrace(l, states, queries, ip);
      WindowBound(l, states[1..], queries[1..], ip);
      AdmittedTail(queries, ip);
      BudgetWidens(l, Admitted(queries, ip), queries[0].now, queries[1].now, queries[|queries| - 1].now);
    }
  }

  /** A burst below one, which nothing excludes, breaks the bound with the first
      query: a new client is always let through. */
  lemma FirstAlwaysPasses(l: Limits, now: real, t: Clients, ok: bool)
    requires l.rate > 0.0 && Step(l, map[], 0, now, t, ok)
    ensures WithinBudget(l, Admitted([Query(0, now, ok)], 0), now, now) <==> l.burst >= 1.0
    ensures InBounds(l, t) <==> l.burst >= 1.0
  {
    assert Admitted([Query(0, now, ok)][..0], 0) == 0;
    assert (now - now) * l.rate == 0.0;
    var kept :| Evicted(map[], now, kept) && t == kept[0 := Bucket(l.burst - 1.0, now)];
  }

  // ---- nobody is refused without having used up a window ----

  lemma AdmittedNext(queries: seq<Query>, m: nat, n: nat, ip: Addr)
    requires m <= n < |queries|
    ensures Admitted(queries[m..n + 1], ip) == Admitted(queries[m..n], ip) + Spent(queries[n], ip)
    ensures Admitted(queries[n..n], ip) == 0
  {
    assert queries[m..n + 1][..n - m] == queries[m..n];
  }

  /** What was let through and what is left amount to at least what there was to begin
      with and the rate over the time gone by: nothing was lost. */
  ghost predicate Owed(l: Limits, first: real, start: real, admitted: nat, b: Bucket) {
    forall j {:trigger Opened(Door.Accounts, j)} | Opened(Door.Accounts, j) ::
      admitted as real + b.tokens >= first + (b.seen - start) * l.rate
  }

  /** The window from the client's m-th query on, its bucket full then. */
  ghost predicate FullAt(l: Limits, states: seq<Clients>, queries: seq<Query>, ip: Addr, m: nat, n: nat)
    requires n < |states| && ip in states[n] && n <= |queries|
  {
    m < n && queries[m].ip == ip && Owed(l, l.burst, queries[m].now, Admitted(queries[m..n], ip), states[n][ip])
  }

  ghost predicate SomeFull(l: Limits, states: seq<Clients>, queries: seq<Query>, ip: Addr, n: nat)
    requires n < |states| && ip in states[n] && n <= |queries|
  {
    exists m: nat :: FullAt(l, states, queries, ip, m, n)
  }

  /** Since its bucket was last full, or since the run began, the client lost nothing. */
  ghost predicate NothingLost(l: Limits, states: seq<Clients>, queries: seq<Query>, ip: Addr, n: nat)
    requires n < |states| && ip in states[n] && n <= |queries|
  {
    || SomeFull(l, states, queries, ip, n)
    || (ip in states[0]
        && Owed(l, states[0][ip].tokens, states[0][ip].seen, Admitted(queries[..n], ip), states[n][ip]))
  }

  /** A step leaves the bucket short of nothing but what it spent, or found it full. */
  lemma OwedStep(l: Limits, s: Clients, q: Query, t: Clients, ip: Addr, first: real, start: real, admitted: nat)
    requires Step(l, s, q.ip, q.now, t, q.ok) && ip in s && ip in t && Owed(l, first, start, admitted, s[ip])
    ensures || Owed(l, first, start, admitted + Spent(q, ip), t[ip])
            || (q.ip == ip && Owed(l, l.burst, q.now, Spent(q, ip), t[ip]))
  {
    assert Opened(Door.Accounts, 0);
    if q.ip == ip {
      TimesAdd(l.rate, start, s[ip].seen, q.now);
      assert (q.now - q.now) * l.rate == 0.0;
    } else {
      assert t[ip] == s[ip];
    }
  }

  lemma FirstIsFull(l: Limits, s: Clients, q: Query, t: Clients)
    requires Step(l, s, q.ip, q.now, t, q.ok) && q.ip !in s
    ensures q.ip in t && Owed(l, l.burst, q.now, Spent(q, q.ip), t[q.ip])
  {
    assert (q.now - q.now) * l.rate == 0.0;
  }

  /** Stays in the table after each of the first n queries. */
  ghost predicate Stays(states: seq<Clients>, ip: Addr, n: nat) {
    n < |states| && forall i | 1 <= i <= n :: ip in states[i]
  }

  /** If a window was full, or a step found the bucket so, some window is. */
  lemma FullStep(l: Limits, states: seq<Clients>, queries: seq<Query>, ip: Addr, m: nat, n: nat)
    requires Trace(l, states, queries) && m < n < |queries| && Stays(states, ip, n + 1)
    requires FullAt(l, states, queries, ip, m, n)
    ensures NothingLost(l, states, queries, ip, n + 1)
  {
    var q := queries[n];
    assert Step(l, states[n], q.ip, q.now, states[n + 1], q.ok);
    AdmittedNext(queries, m, n, ip);
    AdmittedNext(queries, n, n, ip);
    OwedStep(l, states[n], q, states[n + 1], ip, l.burst, queries[m].now, Admitted(queries[m..n], ip));
    if Owed(l, l.burst, queries[m].now, Admitted(queries[m..n + 1], ip), states[n + 1][ip]) {
      assert FullAt(l, states, queries, ip, m, n + 1);
    } else {
      assert FullAt(l, states, queries, ip, n, n + 1);
    }
    assert SomeFull(l, states, queries, ip, n + 1);
  }

  lemma EntryStep(l: Limits, states: seq<Clients>, queries: seq<Query>, ip: Addr, n: nat)
    requires Trace(l, states, queries) && n < |queries| && Stays(states, ip, n + 1)
    requires ip in states[0] && ip in states[n]
    requires Owed(l, states[0][ip].tokens, states[0][ip].seen, Admitted(queries[..n], ip), states[n][ip])
    ensures NothingLost(l, states, queries, ip, n + 1)
  {
    var q := queries[n];
    assert Step(l, states[n], q.ip, q.now, states[n + 1], q.ok);
    AdmittedStep(queries, n + 1, ip);
    AdmittedNext(queries, n, n, ip);
    OwedStep(l, states[n], q, states[n + 1], ip, states[0][ip].tokens, states[0][ip].seen, Admitted(queries[..n], ip));
    if !Owed(l, states[0][ip].tokens, states[0][ip].seen, Admitted(queries[..n + 1], ip), states[n + 1][ip]) {
      assert FullAt(l, states, queries, ip, n, n + 1);
    }
  }

  lemma {:induction false} LosesNothing(l: Limits, states: seq<Clients>, queries: seq<Query>, ip: Addr, n: nat)
    requires Trace(l, states, queries) && n <= |queries| && Stays(states, ip, n)
    requires ip in states[0] || (1 <= n && queries[0].ip == ip)
    ensures ip in states[n] && NothingLost(l, states, queries, ip, n)
    decreases n
  {
    if n == 0 {
      assert queries[..0] == [] && (states[0][ip].seen - states[0][ip].seen) * l.rate == 0.0;
    } else if n == 1 && ip !in states[0] {
      assert Step(l, states[0], queries[0].ip, queries[0].now, states[1], queries[0].ok);
      FirstIsFull(l, states[0], queries[0], states[1]);
      AdmittedNext(queries, 0, 0, ip);
      assert FullAt(l, states, queries, ip, 0, 1);
    } else {
      var k := n - 1;
      LosesNothing(l, states, queries, ip, k);
      if SomeFull(l, states, queries, ip, k) {
        var m: nat :| FullAt(l, states, queries, ip, m, k);
        FullStep(l, states, queries, ip, m, k);
      } else {
        EntryStep(l, states, queries, ip, k);
      }
    }
  }

  /** One query more would exceed what there was to begin with and the rate over the
      time since. */
  predicate UsedUp(l: Limits, first: real, start: real, admitted: nat, now: real) {
    admitted as real + 1.0 > first + (now - start) * l.rate
  }

  lemma RefusedIsShort(l: Limits, s: Clients, q: Query, t: Clients, first: real, start: real, admitted: nat)
    requires l.burst >= 1.0 && Step(l, s, q.ip, q.now, t, q.ok) && q.ip in s && !q.ok
    requires Owed(l, first, start, admitted, s[q.ip])
    ensures UsedUp(l, first, start, admitted, q.now)
  {
    assert Opened(Door.Accounts, 0);
    TimesAdd(l.rate, start, s[q.ip].seen, q.now);
  }

  /** A client that stays in the table is refused only if it has used up a window that
      opens with one of its own queries, burst and rate, or what it had when the run
      began. */
  lemma RefusedOnlyIfSpent(l: Limits, states: seq<Clients>, queries: seq<Query>, ip: Addr, n: nat)
    requires l.burst >= 1.0 && Trace(l, states, queries) && n < |queries| && Stays(states, ip, n)
    requires queries[n].ip == ip && !queries[n].ok && (ip in states[0] || queries[0].ip == ip)
    ensures || (exists m: nat | m < n && queries[m].ip == ip ::
                UsedUp(l, l.burst, queries[m].now, Admitted(queries[m..n], ip), queries[n].now))
            || (ip in states[0] && UsedUp(l, states[0][ip].tokens, states[0][ip].seen, Admitted(queries[..n], ip),
                                          queries[n].now))
  {
    var q := queries[n];
    assert Step(l, states[n], q.ip, q.now, states[n + 1], q.ok);
    LosesNothing(l, states, queries, ip, n);
    if SomeFull(l, states, queries, ip, n) {
      var m: nat :| FullAt(l, states, queries, ip, m, n);
      RefusedIsShort(l, states[n], q, states[n + 1], l.burst, queries[m].now, Admitted(queries[m..n], ip));
    } else {
      RefusedIsShort(l, states[n], q, states[n + 1], states[0][ip].tokens, states[0][ip].seen,
                     Admitted(queries[..n], ip));
    }
  }

  /** A client that has waited for one token's worth of time is let through. */
  lemma IdlePasses(l: Limits, s: Clients, ip: Addr, now: real, t: Clients, ok: bool)
    requires l.burst >= 1.0 && InBounds(l, s) && Step(l, s, ip, now, t, ok)
    requires ip in s ==> (now - s[ip].seen) * l.rate >= 1.0
    ensures ok
  {
    if ip in s {
      assert Refilled(l, s[ip], now) >= 1.0;
    }
  }
}

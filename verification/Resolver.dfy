/** The resolver: its caches, its checks, and the walk. */
module Resolver {
  import opened Octets
  import opened Names
  import opened Messages
  import opened Nsec3
  import opened Denial
  import opened Signing
  import opened Recency
  import opened Times
  import opened Delegations
  import opened Trust
  import opened Spans
  import opened Aliases
  import opened Referrals
  import opened Refusals
  import opened Outcomes
  import opened Resolution

  /** The digest could not be checked, or it is the key's, and a signature of the key over
      the set could not. */
  ghost predicate BlindPair(env: Env, zone: Name, section: seq<RR>, key: DNSKEY, ds: DS) {
    || MatchesDS(env, zone, key, ds, Check.Unsupported)
    || (MatchesDS(env, zone, key, ds, Check.Valid) && exists sig, tick: nat ::
        UncheckedSig(env, RecordsOfType(section, TypeDNSKEY, zone), section, sig, key, tick))
  }

  /** What EnterZone and its callers are told about a zone. */
  ghost predicate ZoneOk(env: Env, zone: Name, sec: SecState) {
    if sec.secure then TrustedKeys(env, zone, sec.keys) else OpenCut(env, zone)
  }

  /** The root, when no trust anchor's algorithm could be checked: secure in name,
      with nothing to check by. A walk that starts so can only fail. */
  predicate Keyless(sec: SecState) {
    sec.secure && sec.keys == []
  }

  /** What a proof came to, over all the section's denial records that keys vouch for. */
  ghost predicate DenialChecked(env: Env, section: seq<RR>, claim: Claim, ks: seq<DNSKEY>, d: DenialCheck) {
    match d
    case Proved => Denied(env, section, claim, ks, Proven) && DecidedIn(env, section, claim, ks, Proven)
    case Unknown =>
      Denied(env, section, claim, ks, Verdict.Unsupported) && DecidedIn(env, section, claim, ks, Verdict.Unsupported)
    case Refuted => Unproved(env, section, claim, ks)
  }

  lemma NothingDecided(env: Env, pzone: Name, parent: SecState, section: seq<RR>, claim: Claim, v: Verdict)
    requires SecOk(env, pzone, parent) && parent.secure && v != NoDenial
    requires DecidedIn(env, section, claim, parent.keys, v)
    ensures TrustedKeys(env, pzone, parent.keys)
  {
    if parent.keys == [] { NoKeysNoDecision(env, section, claim, v); }
  }

  lemma NothingSigned(env: Env, pzone: Name, parent: SecState, rrset: seq<RR>, sig: RRSIG)
    requires SecOk(env, pzone, parent) && parent.secure && SignedBy(env, rrset, sig, parent.keys)
    ensures TrustedKeys(env, pzone, parent.keys)
  {}

  lemma InvalidIsVain(env: Env, rrset: seq<RR>, section: seq<RR>, ks: seq<DNSKEY>)
    requires AllInvalid(env, rrset, section, ks)
    ensures InVain(env, rrset, section, ks)
  {
    if rrset != [] && ks != [] {
      var sigs := SigsFor(section, rrset[0].name, rrset[0].rtype);
      forall t, j | 0 <= t < |sigs| && 0 <= j < |ks| ensures Refused(env, rrset, sigs[t], ks[j], true) {
        assert Refused(env, rrset, sigs[t], ks[j], false);
      }
    }
  }

  /** The section ends the chain of trust at the zone: it holds no digests of it, and the
      parent proves there that there are none, or in a form that cannot be checked; or
      the digests the parent signs there are for keys that cannot be. */
  ghost predicate CutHere(env: Env, zone: Name, pzone: Name, keys: seq<DNSKEY>, section: seq<RR>) {
    forall j {:trigger Opened(Door.Cuts, j)} | Opened(Door.Cuts, j) ::
      if RecordsOfType(section, TypeDS, zone) == [] then
        exists v :: UnsignedCut(Past(env), zone, pzone, keys, section, v)
      else UnsupportedCut(Past(env), zone, pzone, keys, section)
  }

  /** What is known below a cut, from the section that showed it. */
  ghost predicate Entered(env: Env, zone: Name, pzone: Name, keys: seq<DNSKEY>, section: seq<RR>, sec: SecState) {
    if sec.secure then TrustedKeys(env, zone, sec.keys) && SignedCut(Past(env), zone, section, keys)
    else CutHere(env, zone, pzone, keys, section)
  }

  lemma EnteredIsOk(env: Env, zone: Name, pzone: Name, keys: seq<DNSKEY>, section: seq<RR>, sec: SecState)
    requires Entered(env, zone, pzone, keys, section, sec)
    ensures ZoneOk(env, zone, sec)
  {
    if !sec.secure {
      assert Opened(Door.Cuts, 0);
      if RecordsOfType(section, TypeDS, zone) == [] {
        var v :| UnsignedCut(Past(env), zone, pzone, keys, section, v);
        OpenByDenial(env, zone, pzone, keys, section, v);
      } else {
        TrustedLater(Past(env), env, pzone, keys);
        OpenByAlgorithm(env, zone, pzone, keys, section);
      }
    }
  }

  lemma CutByDenial(env: Env, zone: Name, pzone: Name, parent: SecState, section: seq<RR>, v: Verdict)
    requires SecOk(env, pzone, parent) && parent.secure && IsProperSubdomain(zone, pzone) && Shown(env, section)
    requires DecidedIn(env, section, NoDSAt(zone), parent.keys, v) && (v == Proven || v == Verdict.Unsupported)
    requires RecordsOfType(section, TypeDS, zone) == []
    ensures CutHere(env, zone, pzone, parent.keys, section)
  {
    NothingDecided(env, pzone, parent, section, NoDSAt(zone), v);
    UnsignedCutLater(env, Past(env), zone, pzone, parent.keys, section, v);
  }

  lemma CutByAlgorithm(env: Env, zone: Name, pzone: Name, keys: seq<DNSKEY>, section: seq<RR>)
    requires TrustedKeys(env, pzone, keys) && IsProperSubdomain(zone, pzone) && SignedCut(env, zone, section, keys)
    requires UncheckedKeys(Past(env), zone, DSIn(section, zone)) && RecordsOfType(section, TypeDS, zone) != []
    ensures CutHere(env, zone, pzone, keys, section)
  {
    TrustedLater(env, Past(env), pzone, keys);
    SignedCutLater(env, Past(env), zone, section, keys);
  }

  class Resolver {
    /** What it depends on. What the network says and the clock reads at each of its
        steps is fixed; the span here is not used. */
    const env: Env
    const validate: bool
    const minimize: bool
    const keys: KeyCache
    const delegations: DelegationCache
    /** The steps taken: queries sent and readings of the clock. */
    var ticks: nat
    /** The step by which all that is cached was justified. */
    ghost var stamp: nat

    ghost function Over(since: nat, until: nat): Env {
      env.(since := since, until := until)
    }

    /** What happened since a step, up to now. */
    ghost function Here(since: nat): Env
      reads this`ticks
    {
      Over(since, ticks)
    }

    /** Every cached key set is trusted, every cached delegation justified, and the
        root is never among them. */
    ghost predicate Kept()
      reads this`stamp, keys, delegations
    {
      forall j {:trigger Opened(Door.Caches, j)} | Opened(Door.Caches, j) ::
        && KeysTrusted(Over(0, stamp), keys.entries)
        && delegations.Valid() && AllJustified(Over(0, stamp), validate, delegations.entries)
        && [] !in delegations.entries
    }

    ghost predicate Valid()
      reads this`ticks, this`stamp, keys, delegations
    {
      stamp <= ticks && Kept()
    }

    lemma KeysKept()
      requires Kept()
      ensures KeysTrusted(Over(0, stamp), keys.entries)
    {
      assert Opened(Door.Caches, 0);
    }

    constructor (env: Env, validate: bool, minimize: bool)
      ensures Valid() && fresh(keys) && fresh(delegations)
      ensures keys.entries == map[] && delegations.entries == map[]
      ensures this.env == env && this.validate == validate && this.minimize == minimize
    {
      this.env, this.validate, this.minimize := env, validate, minimize;
      keys := new KeyCache();
      delegations := new DelegationCache(0);
      ticks, stamp := 0, 0;
    }

    method Now() returns (now: int, ghost tick: nat)
      modifies this`ticks
      ensures now == env.clock(tick) && tick == old(ticks) && ticks == tick + 1
    {
      tick := ticks;
      now := env.clock(ticks);
      ticks := ticks + 1;
    }

    /** One question to a zone's servers, to each that may be asked in turn until the
        network brings an answer. */
    method QueryServers(servers: seq<Bytes>, name: Name, qtype: U16, ghost since: nat) returns (r: Reply)
      requires since <= ticks
      modifies this`ticks
      ensures old(ticks) <= ticks <= old(ticks) + Askable(env, servers)
      ensures r.NoReply? ==> SilentFrom(Here(since), servers, name, qtype, old(ticks))
      ensures r.Answered? ==> Received(Here(since), r.msg, name, qtype)
      ensures r.Answered? ==>
                && old(ticks) < ticks && env.network(ticks - 1, name, qtype) == r
                && forall k: nat | old(ticks) <= k < ticks - 1 :: env.network(k, name, qtype) == NoReply
    {
      r := NoReply;
      for i := 0 to |servers|
        invariant r == NoReply && ticks == old(ticks) + Askable(env, servers[..i])
        invariant forall k: nat | old(ticks) <= k < ticks :: env.network(k, name, qtype) == NoReply
      {
        AskableStep(env, servers, i);
        if env.allowed(servers[i]) {
          ghost var k := ticks;
          r := env.network(ticks, name, qtype);
          ticks := ticks + 1;
          if r.Answered? {
            assert During(Here(since), k) && Here(since).network(k, name, qtype) == Answered(r.msg);
            return;
          }
        }
      }
      assert servers[..|servers|] == servers;
      AskableSame(env, Here(since), servers);
    }

    method CheckOne(rrset: seq<RR>, sig: RRSIG, key: DNSKEY) returns (c: Check, ghost tick: nat)
      modifies this`ticks
      ensures old(ticks) <= tick < ticks && VerdictAt(env, rrset, sig, key, tick, c)
    {
      var now;
      now, tick := Now();
      c := CheckRRSet(env.crypto, rrset, sig, key, Seconds(now));
    }

    /** What checking every signature a section holds for rrset under every key came
        to: one is valid, all were refused, or one cannot be checked. */
    ghost predicate SetChecked(e: Env, rrset: seq<RR>, section: seq<RR>, ks: seq<DNSKEY>, r: SetCheck) {
      match r
      case Covered(sig) => Carries(section, rrset, sig) && SignedBy(e, rrset, sig, ks)
      case NotCovered => AllInvalid(e, rrset, section, ks)
      case CannotCheck => InVain(e, rrset, section, ks) && SomeUncheckable(e, rrset, section, ks)
    }

    /** Which it is, if the clock stands still meanwhile. */
    ghost predicate SetDecided(rrset: seq<RR>, section: seq<RR>, ks: seq<DNSKEY>, now: int, r: SetCheck) {
      forall j {:trigger Opened(Door.SetChecks, j)} | Opened(Door.SetChecks, j) ::
        && (r.Covered? <==> SetHas(env.crypto, rrset, section, ks, now, Check.Valid))
        && (r.CannotCheck? <==> !SetHas(env.crypto, rrset, section, ks, now, Check.Valid)
                                && SetHas(env.crypto, rrset, section, ks, now, Check.Unsupported))
        && (r.Covered? ==> exists key :: SetHasBy(env.crypto, rrset, section, ks, now, Check.Valid, r.sig, key))
    }

    /** Whether a section holds a valid signature over rrset by one of ks. */
    method VerifySet(rrset: seq<RR>, section: seq<RR>, ks: seq<DNSKEY>, ghost since: nat, ghost now: int)
        returns (r: SetCheck)
      requires since <= ticks && forall rr | rr in rrset :: rr in section
      modifies this`ticks
      ensures old(ticks) <= ticks
      ensures SetChecked(Here(since), rrset, section, ks, r)
      ensures Steady(env, old(ticks), ticks, now) ==> SetDecided(rrset, section, ks, now, r)
      ensures ks == [] ==> r.NotCovered?
    {
      if |rrset| == 0 || |ks| == 0 { return NotCovered; }
      var covering := CollectSigs(section, rrset[0].name, rrset[0].rtype);
      ghost var from := ticks;
      r := NotCovered;
      for s := 0 to |covering|
        invariant !r.Covered? && from <= ticks
        invariant RefusedUpTo(Here(from), rrset, covering, ks, s, 0, r.CannotCheck?)
        invariant r.CannotCheck? ==> SomeUncheckable(Here(from), rrset, section, ks)
      {
        for i := 0 to |ks|
          invariant !r.Covered? && from <= ticks
          invariant RefusedUpTo(Here(from), rrset, covering, ks, s, i, r.CannotCheck?)
          invariant r.CannotCheck? ==> SomeUncheckable(Here(from), rrset, section, ks)
        {
          ghost var before := Here(from);
          var c, tick := CheckOne(rrset, covering[s], ks[i]);
          if c == Check.Valid {
            CoveredNow(rrset, section, ks, covering[s], i, tick, since, from, now);
            return Covered(covering[s]);
          }
          RefusedStep(before, Here(from), rrset, covering, ks, s, i, r.CannotCheck?, tick, c);
          if r.CannotCheck? { SomeLater(before, Here(from), rrset, section, ks); }
          if c == Check.Unsupported {
            assert UncheckableWith(Here(from), rrset, section, ks, covering[s], ks[i], tick);
            r := CannotCheck;
          }
        }
      }
      RefusedAll(rrset, section, ks, since, from, now, r);
    }

    lemma CoveredNow(rrset: seq<RR>, section: seq<RR>, ks: seq<DNSKEY>, sig: RRSIG, i: nat, tick: nat, since: nat,
                     from: nat, now: int)
      requires since <= from <= tick < ticks && i < |ks| && Carries(section, rrset, sig)
      requires VerdictAt(env, rrset, sig, ks[i], tick, Check.Valid)
      ensures SetChecked(Here(since), rrset, section, ks, Covered(sig))
      ensures Steady(env, from, ticks, now) ==> SetDecided(rrset, section, ks, now, Covered(sig))
    {
      VerdictLater(env, Here(since), rrset, sig, ks[i], tick, Check.Valid);
      assert SignsWith(Here(since), rrset, sig, ks, i, tick);
      if Steady(env, from, ticks, now) {
        VerdictNow(env, from, ticks, now, rrset, sig, ks[i], tick, Check.Valid);
        assert SetHasBy(env.crypto, rrset, section, ks, now, Check.Valid, sig, ks[i]);
      }
    }

    lemma RefusedAll(rrset: seq<RR>, section: seq<RR>, ks: seq<DNSKEY>, since: nat, from: nat, now: int, r: SetCheck)
      requires since <= from <= ticks && rrset != [] && !r.Covered?
      requires var sigs := SigsFor(section, rrset[0].name, rrset[0].rtype);
               RefusedUpTo(Here(from), rrset, sigs, ks, |sigs|, 0, r.CannotCheck?)
      requires r.CannotCheck? ==> SomeUncheckable(Here(from), rrset, section, ks)
      ensures SetChecked(Here(since), rrset, section, ks, r)
      ensures Steady(env, from, ticks, now) ==> SetDecided(rrset, section, ks, now, r)
    {
      var sigs := SigsFor(section, rrset[0].name, rrset[0].rtype);
      var blind := r.CannotCheck?;
      forall t, j | 0 <= t < |sigs| && 0 <= j < |ks| ensures Refused(Here(since), rrset, sigs[t], ks[j], blind) {
        RefusedLater(Here(from), Here(since), rrset, sigs[t], ks[j], blind, blind);
      }
      if r.CannotCheck? { SomeLater(Here(from), Here(since), rrset, section, ks); }
      if Steady(env, from, ticks, now) {
        NoneHas(env, from, ticks, now, rrset, section, ks, r.CannotCheck?);
        if r.CannotCheck? {
          var sig, key, tick: nat :| UncheckableWith(Here(from), rrset, section, ks, sig, key, tick);
          VerdictLater(Here(from), env, rrset, sig, key, tick, Check.Unsupported);
          OneHas(env, from, ticks, now, rrset, section, ks, sig, key, tick, Check.Unsupported);
        }
      }
    }

    /** The denial records of a section that carry a valid signature. */
    method VerifiedNSECs(section: seq<RR>, ks: seq<DNSKEY>, ghost since: nat) returns (out: seq<RR>)
      requires since <= ticks
      modifies this`ticks
      ensures old(ticks) <= ticks && KeptAll(Here(since), section, out, ks)
    {
      out := [];
      var checked: set<(Name, U16)> := {};
      for k := 0 to |section|
        invariant old(ticks) <= ticks && AllVetted(Here(since), section, out, ks)
        invariant forall rr | rr in out :: rr in section && IsDenial(rr)
        invariant forall id | id in checked :: SetKeptOrRefused(Here(since), section, out, id.0, id.1, ks)
        invariant forall i | 0 <= i < k && IsDenial(section[i]) :: (Canon(section[i].name), section[i].rtype) in checked
      {
        var rr := section[k];
        if rr.rtype != TypeNSEC && rr.rtype != TypeNSEC3 { continue; }
        var id := (Canon(rr.name), rr.rtype);
        if id in checked { continue; }
        ghost var before := Here(since);
        var rrset := PickRecords(section, rr.rtype, rr.name);
        CanonSame(rr.name);
        ScanUpToCase(section, rr.name, Canon(rr.name), rr.rtype);
        RecordsOwned(section, rr.rtype, rr.name);
        var c := VerifySet(rrset, section, ks, since, 0);
        AllVettedLater(before, Here(since), section, out, ks);
        forall i | i in checked ensures SetKeptOrRefused(Here(since), section, out, i.0, i.1, ks) {
          SetKeptLater(before, Here(since), section, out, i.0, i.1, ks);
        }
        checked := checked + {id};
        if c.NotCovered? { InvalidIsVain(Here(since), rrset, section, ks); }
        if c.Covered? {
          VettedSet(Here(since), section, rrset, c.sig, ks);
          AllVettedConcat(Here(since), section, out, rrset, ks);
          out := out + rrset;
        }
      }
      forall i | 0 <= i < |section| && IsDenial(section[i])
        ensures KeptOrRefused(Here(since), section, out, section[i], ks)
      {
        KeptMeans(Here(since), section, out, section[i], ks);
      }
    }

    method Prove(claim: Claim, records: seq<RR>) returns (v: Verdict)
      ensures Decides(env, claim, records, v)
    {
      match claim
      case NoDSAt(zone) => v := ProveNoDS(env.hs, records, zone);
      case NoSuchName(qname) => v := ProveNameError(env.hs, records, qname);
      case NoSuchData(qname, qtype) => v := ProveNoData(env.hs, records, qname, qtype);
      case NothingCloser(qname) => v := ProveNoCloserMatch(env.hs, records, qname);
    }

    /** One of the proofs over the denial records of a section that the zone signed: it
        holds, it is in a form that cannot be checked, or it fails. */
    method CheckDenial(sec: SecState, section: seq<RR>, claim: Claim, ghost since: nat) returns (d: DenialCheck)
      requires since <= ticks
      modifies this`ticks
      ensures old(ticks) <= ticks
      ensures !validate || !sec.secure ==> d == Unknown
      ensures validate && sec.secure ==> DenialChecked(Here(since), section, claim, sec.keys, d)
      ensures validate && Keyless(sec) ==> d == Refuted
    {
      if !validate || !sec.secure { return Unknown; }
      var nsecs := VerifiedNSECs(section, sec.keys, since);
      var v := Prove(claim, nsecs);
      DecidesLater(env, Here(since), claim, nsecs, v);
      assert DeniedOver(Here(since), section, claim, sec.keys, v, nsecs);
      DeniedIsDecided(Here(since), section, claim, sec.keys, v);
      if sec.keys == [] { NoKeysNoDecision(Here(since), section, claim, v); }
      match v
      case Proven => d := Proved;
      case Unsupported => d := Unknown;
      case _ => d := Refuted;
    }

    /** What came of fetching a zone's keys, if the clock stands still meanwhile: keys if
        one is vouched for and signed the set; none, and no failure, if none is but one
        cannot be checked. */
    ghost predicate KeysDecided(zone: Name, anchors: seq<DS>, reply: Reply, now: int, r: Option<seq<DNSKEY>>) {
      forall j {:trigger Opened(Door.Fetches, j)} | Opened(Door.Fetches, j) ::
        match reply
        case NoReply => r == None
        case Answered(msg) =>
          if KeysGood(env.crypto, zone, msg.answers, anchors, now) then r == Some(KeysIn(msg.answers, zone))
          else if KeysBlind(env.crypto, zone, msg.answers, anchors, now) then r == Some([])
          else r == None
    }

    lemma RepliedKeys(zone: Name, anchors: seq<DS>, msg: Message, now: int, r: Option<seq<DNSKEY>>, verified: bool,
                      unsupported: bool)
      requires verified <==> KeysGood(env.crypto, zone, msg.answers, anchors, now)
      requires !verified ==> (unsupported <==> KeysBlind(env.crypto, zone, msg.answers, anchors, now))
      requires r == if verified then Some(KeysIn(msg.answers, zone)) else if unsupported then Some([]) else None
      ensures KeysDecided(zone, anchors, Answered(msg), now, r)
    {}

    /** The cache after a zone's keys were accepted from a reply: kept for the least TTL of
        the records, within bounds. */
    ghost predicate KeysCached(before: map<Name, KeyEntry>, after: map<Name, KeyEntry>, zone: Name, msg: Message,
                               ks: seq<DNSKEY>) {
      exists i: nat, tick: nat :: KeysCachedAt(before, after, zone, msg, ks, i, tick)
    }

    ghost predicate KeysCachedAt(before: map<Name, KeyEntry>, after: map<Name, KeyEntry>, zone: Name, msg: Message,
                                 ks: seq<DNSKEY>, i: nat, tick: nat) {
      var rrs := RecordsOfType(msg.answers, TypeDNSKEY, zone);
      && i < |rrs| && (forall j | 0 <= j < |rrs| :: rrs[i].ttl <= rrs[j].ttl)
      && after == before[Canon(zone) := KeyEntry(ks, env.clock(tick) + ClampTTL(rrs[i].ttl) * SECOND)]
    }

    /** A zone's keys: cached, or fetched and accepted because one of them matches a
        digest from above and signed the set. No keys means that something in the
        reply could not be checked; None that the zone failed the check. */
    method ZoneKeys(zone: Name, servers: seq<Bytes>, anchors: seq<DS>, ghost base: Base, ghost since: nat,
        ghost now: int) returns (r: Option<seq<DNSKEY>>, ghost cached: bool, ghost reply: Reply)
      requires Valid() && BaseOk(Here(0), base, zone, anchors) && Usable(env, servers) && since <= ticks
      modifies this`ticks, this`stamp, keys
      ensures Valid() && old(ticks) <= ticks
      ensures r.Some? && r.value != [] ==> TrustedKeys(Here(0), zone, r.value)
      ensures r.Some? && r.value == [] ==> UncheckedKeys(Here(0), zone, anchors)
      ensures r.None? ==> NoKeys(Here(since), zone, anchors)
      ensures var found := old(keys.Get(zone, env.clock(ticks)));
              cached == found.Some? && (cached ==> r == found && r.value != [])
      ensures if !cached && r.Some? && r.value != [] then
                reply.Answered? && KeysCached(old(keys.entries), keys.entries, zone, reply.msg, r.value)
              else keys.entries == old(keys.entries)
      ensures !cached && Steady(env, old(ticks), ticks, now) ==> KeysDecided(zone, anchors, reply, now, r)
    {
      ghost var start := Here(0);
      cached, reply := false, NoReply;
      var time, _ := Now();
      var found := keys.Get(zone, time);
      if found.Some? {
        KeysKept();
        CachedKeys(Over(0, stamp), keys.entries, zone);
        TrustedLater(Over(0, stamp), Here(0), zone, found.value);
        return found, true, reply;
      }
      ghost var from := ticks;
      var got := QueryServers(servers, zone, TypeDNSKEY, since);
      reply := got;
      if got.NoReply? {
        assert SilentServers(Here(since), zone, TypeDNSKEY, servers, from);
        return None, cached, reply;
      }
      BaseLater(start, Here(0), base, zone, anchors);
      ghost var asked := ticks;
      r := AcceptReply(zone, got.msg, anchors, base, since, now);
      if Steady(env, old(ticks), ticks, now) { SteadyWithin(env, old(ticks), ticks, asked, ticks, now); }
      if r.None? { assert KeyReplyRefused(Here(since), zone, got.msg, anchors); }
    }

    /** The keys of a reply, if one of them is vouched for. */
    method AcceptReply(zone: Name, msg: Message, anchors: seq<DS>, ghost base: Base, ghost since: nat,
        ghost now: int) returns (r: Option<seq<DNSKEY>>)
      requires Valid() && BaseOk(Here(0), base, zone, anchors) && since <= ticks
      requires Received(Here(since), msg, zone, TypeDNSKEY)
      modifies this`ticks, this`stamp, keys
      ensures Valid() && old(ticks) <= ticks
      ensures r.Some? && r.value != [] ==> TrustedKeys(Here(0), zone, r.value)
      ensures r.Some? && r.value == [] ==> UncheckedKeys(Here(0), zone, anchors)
      ensures r.None? ==> KeyReplyRefused(Here(since), zone, msg, anchors)
      ensures if r.Some? && r.value != [] then KeysCached(old(keys.entries), keys.entries, zone, msg, r.value)
              else keys.entries == old(keys.entries)
      ensures Steady(env, old(ticks), ticks, now) ==> KeysDecided(zone, anchors, Answered(msg), now, r)
    {
      ghost var start, begun := Here(0), Here(since);
      var rrs := PickRecords(msg.answers, TypeDNSKEY, zone);
      if |rrs| == 0 {
        RepliedKeys(zone, anchors, msg, now, None, false, false);
        return None;
      }
      var found := CollectKeys(rrs);
      RecordsOwned(msg.answers, TypeDNSKEY, zone);
      var verified, unsupported := VouchKeys(zone, rrs, msg.answers, found, anchors, since, now);
      assert Valid();
      ghost var vouched := ticks;
      r := if verified then Some(found) else if unsupported then Some([]) else None;
      ReceivedLater(begun, Here(since), msg, zone, TypeDNSKEY);
      ReceivedLater(begun, Here(0), msg, zone, TypeDNSKEY);
      if verified {
        BaseLater(start, Here(0), base, zone, anchors);
        AcceptKeys(zone, rrs, found, msg, anchors, base);
      } else if unsupported {
        assert UncheckedReply(Here(0), zone, msg, anchors);
      }
      if Steady(env, old(ticks), ticks, now) {
        SteadyWithin(env, old(ticks), ticks, old(ticks), vouched, now);
        RepliedKeys(zone, anchors, msg, now, r, verified, unsupported);
      }
    }

    /** Keeps a key set that was vouched for. */
    method AcceptKeys(zone: Name, rrs: seq<RR>, found: seq<DNSKEY>, ghost msg: Message, anchors: seq<DS>,
        ghost base: Base)
      requires Valid() && BaseOk(Here(0), base, zone, anchors) && VouchedReply(Here(0), zone, msg, anchors)
      requires found == KeysIn(msg.answers, zone) && rrs != [] && rrs == RecordsOfType(msg.answers, TypeDNSKEY, zone)
      modifies this`ticks, this`stamp, keys
      ensures Valid() && old(ticks) <= ticks && TrustedKeys(Here(0), zone, found) && found != []
      ensures KeysCached(old(keys.entries), keys.entries, zone, msg, found)
    {
      VouchedIsTrusted(Here(0), base, zone, anchors, msg);
      TrustedNotEmpty(Here(0), zone, found);
      ghost var start := Here(0);
      var ttl := MinTTLOf(rrs);
      var now, tick := Now();
      TrustedLater(start, Here(0), zone, found);
      KeepKeys(zone, found, ttl, now);
      ghost var i: nat :| i < |rrs| && rrs[i].ttl == ttl;
      assert KeysCachedAt(old(keys.entries), keys.entries, zone, msg, found, i, tick);
    }

    method KeepKeys(zone: Name, found: seq<DNSKEY>, ttl: U32, now: int)
      requires Valid() && TrustedKeys(Here(0), zone, found) && found != []
      modifies this`stamp, keys
      ensures Valid()
      ensures keys.entries == old(keys.entries)[Canon(zone) := KeyEntry(found, now + ClampTTL(ttl) * SECOND)]
    {
      assert Opened(Door.Caches, 0);
      KeysTrustedLater(Over(0, stamp), Here(0), keys.entries);
      AllJustifiedLater(Over(0, stamp), Here(0), validate, delegations.entries);
      TrustedPut(Here(0), keys.entries, zone, KeyEntry(found, now + ClampTTL(ttl) * SECOND));
      keys.Put(zone, found, ttl, now);
      stamp := ticks;
    }

    /** None of the first k pairs is good, and one is blind exactly if it was noted. */
    ghost predicate NoneGood(zone: Name, section: seq<RR>, anchors: seq<DS>, i: nat, a: nat, now: int,
                             unsupported: bool) {
      var ks := KeysIn(section, zone);
      && (forall j, b | 0 <= j < |ks| && 0 <= b < |anchors| && (j < i || (j == i && b < a)) ::
            !PairGood(env.crypto, zone, section, ks[j], anchors[b], now))
      && (unsupported <==> exists j, b | 0 <= j < |ks| && 0 <= b < |anchors| && (j < i || (j == i && b < a)) ::
            PairBlind(env.crypto, zone, section, ks[j], anchors[b], now))
    }

    lemma NoneGoodStep(zone: Name, section: seq<RR>, anchors: seq<DS>, i: nat, a: nat, now: int, unsupported: bool,
                       blind: bool)
      requires i < |KeysIn(section, zone)| && a < |anchors| && NoneGood(zone, section, anchors, i, a, now, unsupported)
      requires !PairGood(env.crypto, zone, section, KeysIn(section, zone)[i], anchors[a], now)
      requires blind <==> PairBlind(env.crypto, zone, section, KeysIn(section, zone)[i], anchors[a], now)
      ensures NoneGood(zone, section, anchors, i, a + 1, now, unsupported || blind)
    {
      var ks := KeysIn(section, zone);
      if blind { assert PairBlind(env.crypto, zone, section, ks[i], anchors[a], now); }
    }

    /** No key found yet that is vouched for and signed the set, by step until, after the
        first i keys and the next one under the first a digests: something could not be
        checked, or every pair was refused. */
    ghost predicate NotYet(zone: Name, section: seq<RR>, anchors: seq<DS>, i: nat, a: nat, since: nat, from: nat,
                           until: nat, now: int, unsupported: bool) {
      forall j {:trigger Opened(Door.Vouching, j)} | Opened(Door.Vouching, j) ::
        && (if unsupported then UncheckedIn(Over(0, until), zone, section, anchors)
            else PairsRefused(Over(since, until), zone, section, anchors, i, a))
        && (Steady(env, from, until, now) ==> NoneGood(zone, section, anchors, i, a, now, unsupported))
    }

    /** What one pair came to by step until, tried from step from on. */
    ghost predicate NotThis(zone: Name, section: seq<RR>, key: DNSKEY, ds: DS, since: nat, from: nat, until: nat,
                            now: int, blind: bool) {
      && (if blind then BlindPair(Over(0, until), zone, section, key, ds)
          else PairRefused(Over(since, until), zone, section, key, ds))
      && (Steady(env, from, until, now) ==>
            && !PairGood(env.crypto, zone, section, key, ds, now)
            && (blind <==> PairBlind(env.crypto, zone, section, key, ds, now)))
    }

    lemma NotYetStep(zone: Name, section: seq<RR>, anchors: seq<DS>, i: nat, a: nat, since: nat, from: nat,
                     middle: nat, until: nat, now: int, unsupported: bool, blind: bool)
      requires since <= from <= middle <= until && i < |KeysIn(section, zone)| && a < |anchors|
      requires NotYet(zone, section, anchors, i, a, since, from, middle, now, unsupported)
      requires NotThis(zone, section, KeysIn(section, zone)[i], anchors[a], since, middle, until, now, blind)
      ensures NotYet(zone, section, anchors, i, a + 1, since, from, until, now, unsupported || blind)
    {
      assert Opened(Door.Vouching, 0);
      if blind {
        assert UncheckedDS(Over(0, until), zone, section, anchors, KeysIn(section, zone)[i], a);
      } else if unsupported {
        UncheckedInLater(Over(0, middle), Over(0, until), zone, section, anchors);
      } else {
        PairsRefusedLater(Over(since, middle), Over(since, until), zone, section, anchors, i, a);
      }
      if Steady(env, from, until, now) {
        SteadyWithin(env, from, until, from, middle, now);
        SteadyWithin(env, from, until, middle, until, now);
        NoneGoodStep(zone, section, anchors, i, a, now, unsupported, blind);
      }
    }

    lemma NotYetRow(zone: Name, section: seq<RR>, anchors: seq<DS>, i: nat, since: nat, from: nat, until: nat,
                    now: int, unsupported: bool)
      ensures NotYet(zone, section, anchors, i, |anchors|, since, from, until, now, unsupported) ==>
                NotYet(zone, section, anchors, i + 1, 0, since, from, until, now, unsupported)
    {
      assert Opened(Door.Vouching, 0);
    }

    /** Looks for a key the parent vouched for that signed the whole set. */
    method VouchKeys(zone: Name, rrs: seq<RR>, section: seq<RR>, found: seq<DNSKEY>, anchors: seq<DS>,
        ghost since: nat, ghost now: int) returns (verified: bool, unsupported: bool)
      requires rrs == RecordsOfType(section, TypeDNSKEY, zone) && found == KeysOf(rrs) && since <= ticks
      requires forall rr | rr in rrs :: rr in section
      modifies this`ticks
      ensures old(ticks) <= ticks
      ensures verified ==> Vouched(Here(0), zone, section, anchors)
      ensures !verified && unsupported ==> UncheckedIn(Here(0), zone, section, anchors)
      ensures !verified && !unsupported ==> PairsRefused(Here(since), zone, section, anchors, |found|, 0)
      ensures Steady(env, old(ticks), ticks, now) ==>
                && (verified <==> KeysGood(env.crypto, zone, section, anchors, now))
                && (!verified ==> (unsupported <==> KeysBlind(env.crypto, zone, section, anchors, now)))
    {
      ghost var from := ticks;
      verified, unsupported := false, false;
      NothingYet(zone, section, anchors, since, from, now);
      for i := 0 to |found|
        invariant !verified && since <= from <= ticks
        invariant NotYet(zone, section, anchors, i, 0, since, from, ticks, now, unsupported)
      {
        for a := 0 to |anchors|
          invariant !verified && from <= ticks
          invariant NotYet(zone, section, anchors, i, a, since, from, ticks, now, unsupported)
        {
          ghost var middle := ticks;
          var good, blind := VouchOne(zone, rrs, section, found[i], anchors[a], since, now);
          if good {
            GoodPair(zone, section, anchors, i, a, from, middle, now);
            return true, unsupported;
          }
          NotYetStep(zone, section, anchors, i, a, since, from, middle, ticks, now, unsupported, blind);
          unsupported := unsupported || blind;
        }
        NotYetRow(zone, section, anchors, i, since, from, ticks, now, unsupported);
      }
      NotAtAll(zone, section, anchors, since, from, now, unsupported);
    }

    lemma NothingYet(zone: Name, section: seq<RR>, anchors: seq<DS>, since: nat, from: nat, now: int)
      ensures NotYet(zone, section, anchors, 0, 0, since, from, from, now, false)
    {}

    lemma GoodPair(zone: Name, section: seq<RR>, anchors: seq<DS>, i: nat, a: nat, from: nat, middle: nat, now: int)
      requires i < |KeysIn(section, zone)| && a < |anchors| && from <= middle <= ticks
      requires MatchesDS(Here(0), zone, KeysIn(section, zone)[i], anchors[a], Check.Valid)
      requires Verified(Here(0), section, RecordsOfType(section, TypeDNSKEY, zone), [KeysIn(section, zone)[i]])
      requires Steady(env, middle, ticks, now) ==>
                 PairGood(env.crypto, zone, section, KeysIn(section, zone)[i], anchors[a], now)
      ensures Vouched(Here(0), zone, section, anchors)
      ensures Steady(env, from, ticks, now) ==> KeysGood(env.crypto, zone, section, anchors, now)
    {
      assert VouchedBy(Here(0), zone, section, anchors, i, a);
      if Steady(env, from, ticks, now) { SteadyWithin(env, from, ticks, middle, ticks, now); }
    }

    lemma NotAtAll(zone: Name, section: seq<RR>, anchors: seq<DS>, since: nat, from: nat, now: int, unsupported: bool)
      requires NotYet(zone, section, anchors, |KeysIn(section, zone)|, 0, since, from, ticks, now, unsupported)
      ensures if unsupported then UncheckedIn(Here(0), zone, section, anchors)
              else PairsRefused(Here(since), zone, section, anchors, |KeysIn(section, zone)|, 0)
      ensures Steady(env, from, ticks, now) ==>
                && !KeysGood(env.crypto, zone, section, anchors, now)
                && (unsupported <==> KeysBlind(env.crypto, zone, section, anchors, now))
    {
      assert Opened(Door.Vouching, 0);
    }

    lemma PairDecided(zone: Name, section: seq<RR>, key: DNSKEY, ds: DS, now: int, r: SetCheck)
      requires VerifyDS(env.crypto, zone, key, ds) == Check.Valid
      requires SetDecided(RecordsOfType(section, TypeDNSKEY, zone), section, [key], now, r)
      ensures r.Covered? <==> PairGood(env.crypto, zone, section, key, ds, now)
      ensures !r.Covered? ==> (r.CannotCheck? <==> PairBlind(env.crypto, zone, section, key, ds, now))
    {
      assert Opened(Door.SetChecks, 0);
    }

    method VouchOne(zone: Name, rrs: seq<RR>, section: seq<RR>, key: DNSKEY, ds: DS, ghost since: nat,
        ghost now: int) returns (good: bool, blind: bool)
      requires rrs == RecordsOfType(section, TypeDNSKEY, zone) && forall rr | rr in rrs :: rr in section
      requires since <= ticks
      modifies this`ticks
      ensures old(ticks) <= ticks
      ensures good ==>
                && MatchesDS(Here(0), zone, key, ds, Check.Valid) && Verified(Here(0), section, rrs, [key])
                && (Steady(env, old(ticks), ticks, now) ==> PairGood(env.crypto, zone, section, key, ds, now))
      ensures !good ==> NotThis(zone, section, key, ds, since, old(ticks), ticks, now, blind)
    {
      good, blind := false, false;
      var c := VerifyDS(env.crypto, zone, key, ds);
      match c
      case Valid =>
        var v := VerifySet(rrs, section, [key], since, now);
        if Steady(env, old(ticks), ticks, now) { PairDecided(zone, section, key, ds, now, v); }
        if v.Covered? {
          assert VerifiedBy(Here(since), section, rrs, [key], v.sig);
          VerifiedLater(Here(since), Here(0), section, rrs, [key]);
          good := true;
        } else if v.CannotCheck? {
          SomeLater(Here(since), Here(0), rrs, section, [key]);
          ghost var sig, k, tick: nat :| UncheckableWith(Here(0), rrs, section, [key], sig, k, tick);
          assert k == key;
          blind := true;
        }
      case Unsupported => blind := true;
      case Invalid =>
    }

    /** What the security state below a zone cut is: signed digests and keys that
        match them, or the parent's proof that there are none. */
    method EnterZone(parent: SecState, ghost pzone: Name, section: seq<RR>, zone: Name, servers: seq<Bytes>,
        ghost since: nat) returns (r: Option<SecState>)
      requires Valid() && validate && SecOk(Here(0), pzone, parent) && parent.secure && IsProperSubdomain(zone, pzone)
      requires Shown(Here(0), section) && Usable(env, servers) && since <= ticks
      modifies this`ticks, this`stamp, keys
      ensures Valid() && old(ticks) <= ticks
      ensures r.Some? ==> Entered(Here(0), zone, pzone, parent.keys, section, r.value)
      ensures r.None? ==> EntryRefused(Here(since), zone, parent.keys, section)
      ensures Keyless(parent) ==> r.None?
    {
      ghost var start := Here(0);
      var dsSet := PickRecords(section, TypeDS, zone);
      if |dsSet| == 0 {
        var d := CheckDenial(parent, section, NoDSAt(zone), since);
        SecLater(start, Here(0), pzone, parent);
        ShownLater(start, Here(0), section);
        if d == Refuted { return None; }
        ghost var v := if d == Proved then Proven else Verdict.Unsupported;
        DecidedLater(Here(since), Here(0), section, NoDSAt(zone), parent.keys, v);
        CutByDenial(Here(0), zone, pzone, parent, section, v);
        return Some(INSECURE);
      }
      RecordsOwned(section, TypeDS, zone);
      var c := VerifySet(dsSet, section, parent.keys, since, 0);
      SecLater(start, Here(0), pzone, parent);
      ShownLater(start, Here(0), section);
      if c.NotCovered? { InvalidIsVain(Here(since), dsSet, section, parent.keys); }
      if !c.Covered? { return None; }
      assert VerifiedBy(Here(since), section, dsSet, parent.keys, c.sig);
      ghost var signed := Here(since);
      VerifiedLater(Here(since), Here(0), section, dsSet, parent.keys);
      SignedLater(Here(since), Here(0), dsSet, c.sig, parent.keys);
      NothingSigned(Here(0), pzone, parent, dsSet, c.sig);
      r := EnterSigned(parent.keys, pzone, section, dsSet, zone, servers, since);
      if r.None? { VerifiedLater(signed, Here(since), section, dsSet, parent.keys); }
    }

    /** Below a cut whose digests the parent signed. */
    method EnterSigned(ghost pkeys: seq<DNSKEY>, ghost pzone: Name, ghost section: seq<RR>, dsSet: seq<RR>, zone: Name,
        servers: seq<Bytes>, ghost since: nat) returns (r: Option<SecState>)
      requires Valid() && TrustedKeys(Here(0), pzone, pkeys) && IsProperSubdomain(zone, pzone)
      requires SignedCut(Here(0), zone, section, pkeys) && dsSet == RecordsOfType(section, TypeDS, zone) && dsSet != []
      requires Usable(env, servers) && since <= ticks
      modifies this`ticks, this`stamp, keys
      ensures Valid() && old(ticks) <= ticks
      ensures r.Some? ==> Entered(Here(0), zone, pzone, pkeys, section, r.value)
      ensures r.None? ==> NoKeys(Here(since), zone, DSIn(section, zone))
    {
      ghost var start := Here(0);
      SignedCutLater(start, Past(start), zone, section, pkeys);
      ghost var base := BelowParent(start, zone, pzone, pkeys, section);
      var anchors := CollectDS(dsSet);
      var ks, _, _ := ZoneKeys(zone, servers, anchors, base, since, 0);
      if ks.None? { return None; }
      SignedCutLater(start, Here(0), zone, section, pkeys);
      if |ks.value| == 0 {
        TrustedLater(start, Here(0), pzone, pkeys);
        CutByAlgorithm(Here(0), zone, pzone, pkeys, section);
        return Some(INSECURE);
      }
      SignedCutLater(Here(0), Past(Here(0)), zone, section, pkeys);
      return Some(SecState(true, ks.value));
    }

    /** The start of every validated resolution: the root's keys, by the anchors. */
    method RootState(servers: seq<Bytes>, ghost since: nat) returns (r: Option<SecState>)
      requires Valid() && Usable(env, servers) && since <= ticks
      modifies this`ticks, this`stamp, keys
      ensures Valid() && old(ticks) <= ticks
      ensures r.Some? ==> r.value.secure && SecOk(Here(0), [], r.value)
      ensures r.None? ==> Broken(Here(since), [])
    {
      var ks, _, _ := ZoneKeys([], servers, env.anchors, RootBase, since, 0);
      if ks.None? { return None; }
      return Some(SecState(true, ks.value));
    }

    /** Into a zone no referral led to, by asking the parent's servers for its DS. */
    method FetchDelegation(parent: SecState, ghost pzone: Name, zone: Name, servers: seq<Bytes>, ghost since: nat)
        returns (r: Option<SecState>)
      requires Valid() && validate && SecOk(Here(0), pzone, parent) && parent.secure && IsProperSubdomain(zone, pzone)
      requires Usable(env, servers) && since <= ticks
      modifies this`ticks, this`stamp, keys
      ensures Valid() && old(ticks) <= ticks
      ensures r.Some? ==> ZoneOk(Here(0), zone, r.value)
      ensures r.None? ==> Broken(Here(since), zone)
      ensures Keyless(parent) ==> r.None?
    {
      ghost var start, from := Here(0), ticks;
      var reply := QueryServers(servers, zone, TypeDS, since);
      if reply.NoReply? {
        assert SilentServers(Here(since), zone, TypeDS, servers, from);
        return None;
      }
      SecLater(start, Here(0), pzone, parent);
      var section := reply.msg.answers + reply.msg.authorities;
      assert ShownBy(Here(since), section, reply.msg, zone, TypeDS);
      r := CrossInto(parent, pzone, section, zone, servers, since);
      if r.Some? { EnteredIsOk(Here(0), zone, pzone, parent.keys, section, r.value); }
    }

    /** Into a zone by a section just shown: if that fails, the chain of trust breaks there. */
    method CrossInto(parent: SecState, ghost pzone: Name, section: seq<RR>, zone: Name, servers: seq<Bytes>,
        ghost since: nat) returns (r: Option<SecState>)
      requires Valid() && validate && SecOk(Here(0), pzone, parent) && parent.secure && IsProperSubdomain(zone, pzone)
      requires since <= ticks && Shown(Here(since), section) && Usable(env, servers)
      modifies this`ticks, this`stamp, keys
      ensures Valid() && old(ticks) <= ticks
      ensures r.Some? ==> Entered(Here(0), zone, pzone, parent.keys, section, r.value)
      ensures r.None? ==> Broken(Here(since), zone)
      ensures Keyless(parent) ==> r.None?
    {
      ghost var start, begun := Here(0), Here(since);
      ShownLater(begun, start, section);
      r := EnterZone(parent, pzone, section, zone, servers, since);
      if r.None? {
        KeysForLater(start, Here(since), pzone, parent.keys);
        ShownLater(begun, Here(since), section);
        assert CutRefused(Here(since), zone, pzone, parent.keys, section);
      }
    }

    /** From the zone the walk is in down to the zone that answered, one cut at a
        time; an unsigned cut on the way ends it. */
    method DescendTo(start: SecState, from: Name, to: Name, servers: seq<Bytes>, ghost since: nat)
        returns (r: Option<SecState>)
      requires Valid() && validate && SecOk(Here(0), from, start) && start.secure && IsProperSubdomain(to, from)
      requires Usable(env, servers) && since <= ticks
      modifies this`ticks, this`stamp, keys
      ensures Valid() && old(ticks) <= ticks
      ensures r.Some? ==> StateOk(Here(0), true, to, r.value)
      ensures r.None? ==> NotValidatedMeans(Here(since), to)
      ensures Keyless(start) ==> r.None?
    {
      var sec, zone := start, from;
      Deeper(to, from);
      while !EqualName(zone, to)
        invariant Valid() && old(ticks) <= ticks && SecOk(Here(0), zone, sec) && sec.secure
        invariant IsSubdomainOrEqual(to, zone)
        invariant zone != [] ==> TrustedKeys(Here(0), zone, sec.keys)
        invariant Keyless(start) ==> sec == start && zone == from
        decreases |to| - |zone|
      {
        Enclosed(to, zone);
        OneLabelDown(to, zone);
        var child := MinimizedQName(to, zone);
        var next := FetchDelegation(sec, zone, child, servers, since);
        if next.None? {
          BreaksBelow(Here(since), to, child);
          return None;
        }
        if !next.value.secure {
          ExemptAt(Here(0), child);
          ExemptBelow(Here(0), to, child);
          return Some(INSECURE);
        }
        sec, zone := next.value, child;
      }
      SameLengthNames(zone, to);
      TrustedUpToCase(Here(0), zone, to, sec.keys);
      return Some(sec);
    }

    /** Validation across a referral; once it has ended it stays ended. */
    method CrossDelegation(parent: SecState, ghost pzone: Name, ghost validating: bool, section: seq<RR>,
        zone: Name, servers: seq<Bytes>, ghost since: nat)
        returns (r: Option<SecState>)
      requires Valid() && validate && StateOk(Here(0), validating, pzone, parent) && IsProperSubdomain(zone, pzone)
      requires since <= ticks && Shown(Here(since), section) && Usable(env, servers)
      modifies this`ticks, this`stamp, keys
      ensures Valid() && old(ticks) <= ticks
      ensures r.Some? ==> StateOk(Here(0), validating, zone, r.value)
      ensures r.Some? && parent.secure ==> Entered(Here(0), zone, pzone, parent.keys, section, r.value)
      ensures !parent.secure ==> r == Some(INSECURE)
      ensures r.None? ==> validating && Broken(Here(since), zone)
      ensures Keyless(parent) ==> r.None?
    {
      if !parent.secure {
        if validating { ExemptBelow(Here(0), zone, pzone); }
        return Some(INSECURE);
      }
      r := CrossInto(parent, pzone, section, zone, servers, since);
      if r.Some? {
        EnteredIsOk(Here(0), zone, pzone, parent.keys, section, r.value);
        if !r.value.secure { ExemptAt(Here(0), zone); }
      }
    }

    /** The state a resolution begins in: validated root keys, or the cached keys of
        the zone it starts from. */
    method StartingSecurity(zone: Name, servers: seq<Bytes>, checkingDisabled: bool, ghost since: nat)
        returns (r: Option<SecState>, ghost at: int)
      requires Valid() && Usable(env, servers) && since <= ticks
      modifies this`ticks, this`stamp, keys
      ensures Valid() && old(ticks) <= ticks
      ensures r.Some? && r.value.secure ==> validate && !checkingDisabled && SecOk(Here(0), zone, r.value)
      ensures r.Some? && validate && !checkingDisabled && zone == [] ==> r.value.secure
      ensures !validate || checkingDisabled || zone == [] ==> at == 0
      ensures validate && !checkingDisabled && zone != [] ==>
                r.Some? && (r.value.secure <==> old(keys.Get(zone, at)).Some?) && at == env.clock(old(ticks))
                && (r.value.secure ==> r.value.keys == old(keys.Get(zone, at)).value)
      ensures !validate || checkingDisabled ==> r == Some(INSECURE)
      ensures r.None? ==> validate && !checkingDisabled && zone == [] && Broken(Here(since), [])
    {
      at := 0;
      if !validate || checkingDisabled { return Some(INSECURE), at; }
      if zone == [] {
        r := RootState(servers, since);
        return;
      }
      var now, _ := Now();
      at := now;
      var cached := keys.Get(zone, now);
      if cached.Some? {
        KeysKept();
        CachedKeys(Over(0, stamp), keys.entries, zone);
        TrustedLater(Over(0, stamp), Here(0), zone, cached.value);
        return Some(SecState(true, cached.value)), at;
      }
      return Some(INSECURE), at;
    }

    lemma PlainPasses(rrset: seq<RR>, section: seq<RR>, ks: seq<DNSKEY>, now: int, r: SetCheck)
      requires PlainlySigned(env.crypto, rrset, section, ks, now) && rrset != []
      requires SetDecided(rrset, section, ks, now, r)
      ensures r.Covered? && !IsWildcardExpansion(rrset[0].name, r.sig)
    {
      assert Opened(Door.PlainSets, 0);
      assert Opened(Door.SetChecks, 0);
    }

    /** Each set among the records has to carry a signature by the zone's keys, and
        a wildcard's the proof it owes. */
    method ValidateAnswer(sec: SecState, resp: Message, records: seq<RR>, ghost zone: Name, ghost qname: Name,
        ghost qtype: U16, ghost since: nat, ghost now: int) returns (r: Option<bool>)
      requires since <= ticks && SecOk(Here(0), zone, sec) && IsSubdomainOrEqual(qname, zone)
      requires Received(Here(since), resp, qname, qtype) && AllIn(records)
      requires forall rr | rr in records :: rr in resp.answers
      modifies this`ticks
      ensures old(ticks) <= ticks
      ensures r == Some(true) ==> validate && sec.secure && AllEarnedIn(Here(since), qname, qtype, resp, records)
      ensures r == Some(false) && validate && sec.secure && records != [] ==>
                exists k: nat :: DoubtedFrom(Here(since), qname, qtype, resp, records, k)
      ensures r.None? ==> validate && sec.secure && AnswerRefused(Here(since), qname, qtype, resp, records, sec.keys)
      ensures validate && Keyless(sec) && records != [] ==> r.None?
      ensures Steady(env, old(ticks), ticks, now) && validate && sec.secure && records != [] ==>
                AllPlainlySigned(env.crypto, records, resp.answers, sec.keys, now) ==> r == Some(true)
    {
      if !validate || !sec.secure || |records| == 0 { return Some(false); }
      ghost var start, begun := Here(0), Here(since);
      ghost var last := begun;
      var seen: set<(Name, U16)> := {};
      CheckedNone(last, qname, qtype, zone, sec.keys, resp, records);
      for k := 0 to |records|
        invariant (sec.keys == [] ==> k == 0) && old(ticks) <= ticks && last == Here(since)
        invariant CheckedUpTo(last, qname, qtype, zone, sec.keys, resp, records, k, seen)
      {
        var rr := records[k];
        var id := (Canon(rr.name), rr.rtype);
        if id !in seen {
          ghost var middle := ticks;
          SecLater(start, Here(0), zone, sec);
          ReceivedLater(begun, last, resp, qname, qtype);
          var c := CheckSet(sec, resp, records, rr, zone, qname, qtype, since, now);
          if Steady(env, old(ticks), ticks, now) && AllPlainlySigned(env.crypto, records, resp.answers, sec.keys, now) {
            SteadyWithin(env, old(ticks), ticks, middle, ticks, now);
            OnePlain(env.crypto, records, resp.answers, sec.keys, now, rr);
          }
          if c != Proved {
            CheckedLater(last, Here(since), qname, qtype, zone, sec.keys, resp, records, k, seen);
            CheckedSoFar(Here(since), qname, qtype, zone, sec.keys, resp, records, k, seen);
          }
          match c
          case Refuted =>
            assert RefusedFrom(Here(since), qname, qtype, resp, records, sec.keys, k);
            return None;
          case Unknown =>
            assert DoubtedFrom(Here(since), qname, qtype, resp, records, k);
            return Some(false);
          case Proved =>
            CheckedLater(last, Here(since), qname, qtype, zone, sec.keys, resp, records, k, seen);
            last := Here(since);
            CheckedSet(last, qname, qtype, zone, sec.keys, resp, records, k, seen, id);
            seen := seen + {id};
        }
        CheckedStep(last, qname, qtype, zone, sec.keys, resp, records, k, seen);
      }
      CheckedAll(last, qname, qtype, zone, sec.keys, resp, records, seen);
      return Some(true);
    }

    /** One set among the records: the one rr belongs to. */
    method CheckSet(sec: SecState, resp: Message, records: seq<RR>, rr: RR, ghost zone: Name, ghost qname: Name,
        ghost qtype: U16, ghost since: nat, ghost now: int) returns (d: DenialCheck)
      requires since <= ticks && validate && SecOk(Here(0), zone, sec) && sec.secure && IsSubdomainOrEqual(qname, zone)
      requires rr in records && rr.rclass == ClassIN
      requires Received(Here(since), resp, qname, qtype) && forall r | r in records :: r in resp.answers
      modifies this`ticks
      ensures old(ticks) <= ticks
      ensures d == Proved ==>
                SetEarned(Here(since), qname, qtype, zone, sec.keys, resp, records, Canon(rr.name), rr.rtype)
      ensures d == Unknown ==> DoubtIn(Here(since), qname, qtype, resp, rr)
      ensures d == Refuted ==> RecordRefused(Here(since), resp, records, rr, sec.keys)
      ensures sec.keys == [] ==> d == Refuted
      ensures var rrset := RecordsOfType(records, rr.rtype, rr.name);
              Steady(env, old(ticks), ticks, now) && PlainlySigned(env.crypto, rrset, resp.answers, sec.keys, now) ==>
                d == Proved
    {
      ghost var start := Here(since);
      var rrset := PickRecords(records, rr.rtype, rr.name);
      RecordsOwned(records, rr.rtype, rr.name);
      RecordsHold(records, rr);
      var c := VerifySet(rrset, resp.answers, sec.keys, since, now);
      ghost var checked := ticks;
      SecLater(start, Here(since), zone, sec);
      ReceivedLater(start, Here(since), resp, qname, qtype);
      ghost var plain := Steady(env, old(ticks), checked, now)
                         && PlainlySigned(env.crypto, rrset, resp.answers, sec.keys, now);
      if plain { PlainPasses(rrset, resp.answers, sec.keys, now, c); }
      match c
      case NotCovered => return Refuted;
      case CannotCheck =>
        DoubtBySignature(Here(since), qname, qtype, zone, sec, resp, records, rr);
        return Unknown;
      case Covered(sig) =>
        SameLengthNames(rrset[0].name, rr.name);
        if IsWildcardExpansion(rr.name, sig) {
          d := CheckExpansion(sec, resp, records, rr, rrset, sig, zone, qname, qtype, since);
          if Steady(env, old(ticks), ticks, now) {
            SteadyWithin(env, old(ticks), ticks, old(ticks), checked, now);
            assert !plain;
          }
          return;
        }
        NothingSigned(Here(since), zone, sec, rrset, sig);
        SetIsEarned(Here(since), qname, qtype, zone, sec.keys, resp, records, rr, sig);
        return Proved;
    }

    /** A set signed for a wildcard: the proof it owes. */
    method CheckExpansion(sec: SecState, resp: Message, records: seq<RR>, rr: RR, ghost rrset: seq<RR>,
        ghost sig: RRSIG, ghost zone: Name, ghost qname: Name, ghost qtype: U16, ghost since: nat)
        returns (d: DenialCheck)
      requires since <= ticks && validate && SecOk(Here(since), zone, sec) && sec.secure
      requires IsSubdomainOrEqual(qname, zone) && rr in records && rr.rclass == ClassIN
      requires Received(Here(since), resp, qname, qtype) && forall r | r in records :: r in resp.answers
      requires rrset == RecordsOfType(records, rr.rtype, rr.name)
      requires Carries(resp.answers, rrset, sig) && SignedBy(Here(since), rrset, sig, sec.keys)
      requires IsWildcardExpansion(rr.name, sig)
      modifies this`ticks
      ensures old(ticks) <= ticks
      ensures d == Proved ==>
                SetEarned(Here(since), qname, qtype, zone, sec.keys, resp, records, Canon(rr.name), rr.rtype)
      ensures d == Unknown ==> DoubtIn(Here(since), qname, qtype, resp, rr)
      ensures d == Refuted ==> ExpansionRefused(Here(since), resp, rrset, rr, sec.keys, sig)
    {
      ghost var start := Here(since);
      NothingSigned(start, zone, sec, rrset, sig);
      d := CheckDenial(sec, resp.authorities, NothingCloser(rr.name), since);
      TrustedLater(start, Here(since), zone, sec.keys);
      ReceivedLater(start, Here(since), resp, qname, qtype);
      SignedLater(start, Here(since), rrset, sig, sec.keys);
      if d == Unknown { DoubtByProof(Here(since), qname, qtype, zone, sec.keys, resp, rr); }
      if d == Proved { SetIsEarned(Here(since), qname, qtype, zone, sec.keys, resp, records, rr, sig); }
    }

    // ---- the walk ----

    /** The root servers, and the state validation starts in there. */
    method Restart(qname: Name, checkingDisabled: bool, ghost since: nat) returns (r: Option<Walk>)
      requires Valid() && since <= ticks
      modifies this`ticks, this`stamp, keys
      ensures Valid() && old(ticks) <= ticks
      ensures r.Some? ==> WalkOk(Here(0), validate && !checkingDisabled, qname, r.value) && AtRoot(env, r.value)
      ensures r.None? ==> validate && !checkingDisabled && NotValidatedMeans(Here(since), qname)
    {
      var sec, _ := StartingSecurity([], env.roots, checkingDisabled, since);
      EnclosedRoot(qname);
      if sec.None? {
        BreaksBelow(Here(since), qname, []);
        return None;
      }
      return Some(Walk([], env.roots, sec.value, false));
    }

    /** The cached delegation of z is one to start from: unless it was reached securely,
        validation is on, and no keys of it were in the cache. */
    ghost predicate Startable(d: Delegation, ks: Option<seq<DNSKEY>>, validating: bool) {
      validating && d.secure ==> ks.Some?
    }

    /** Where a walk begins: the deepest live cached zone, unless it was reached
        securely and its keys have gone since - then the root. */
    method Begin(qname: Name, checkingDisabled: bool, ghost since: nat)
        returns (r: Option<Walk>, ghost now: int, ghost at: int)
      requires Valid() && since <= ticks
      modifies this`ticks, this`stamp, keys, delegations
      ensures Valid() && old(ticks) <= ticks
      ensures r.Some? ==> WalkOk(Here(0), validate && !checkingDisabled, qname, r.value)
      ensures r.None? ==> validate && !checkingDisabled && NotValidatedMeans(Here(since), qname)
      ensures now == env.clock(old(ticks)) && (at == 0 || at == env.clock(old(ticks) + 1))
      ensures r.Some? ==>
                match Search(old(delegations.Contents()), Canon(qname), now).1
                case None => AtRoot(env, r.value)
                case Some(z) =>
                  && z in old(delegations.entries)
                  && var d := old(delegations.entries)[z];
                     if Startable(d, old(keys.Get(z, at)), validate && !checkingDisabled)
                     then r.value.zone == z && r.value.servers == d.servers && r.value.fromCache
                     else AtRoot(env, r.value)
    {
      var time, _ := Now();
      now, at := time, 0;
      var start := CachedStart(qname, time);
      ghost var found := Here(0);
      if start.None? {
        r := Restart(qname, checkingDisabled, since);
        return;
      }
      var zone, servers := start.value.zone, start.value.servers;
      var sec;
      sec, at := StartingSecurity(zone, servers, checkingDisabled, since);
      if start.value.secure && !sec.value.secure && validate && !checkingDisabled {
        r := Restart(qname, checkingDisabled, since);
        return;
      }
      JustifiedLater(found, Here(0), validate, zone, start.value.secure);
      return Some(Walk(zone, servers, sec.value, true)), now, at;
    }

    method CachedStart(qname: Name, now: int) returns (start: Option<Start>)
      requires Valid()
      modifies delegations
      ensures Valid()
      ensures start.Some? ==> IsSubdomainOrEqual(qname, start.value.zone) && start.value.zone != []
                              && Justified(Here(0), validate, start.value.zone, start.value.secure)
                              && Usable(env, start.value.servers)
      ensures match Search(old(delegations.Contents()), Canon(qname), now).1
              case None => start.None?
              case Some(z) =>
                && z in old(delegations.entries)
                && var d := old(delegations.entries)[z]; start == Some(Start(z, d.servers, d.secure))
    {
      assert Opened(Door.Caches, 0);
      ghost var was := delegations.Contents();
      SearchIsDeepest(was, Canon(qname), now);
      start := delegations.ClosestEnclosing(qname, now);
      JustifiedSubset(Over(0, stamp), validate, was.entries, delegations.Contents().entries);
      if start.Some? {
        SearchedZone(start.value.zone, qname);
        JustifiedEntry(Over(0, stamp), validate, was.entries, start.value.zone);
        JustifiedLater(Over(0, stamp), Here(0), validate, start.value.zone, start.value.secure);
      }
    }

    method Forget(zone: Name)
      requires Valid()
      modifies delegations
      ensures Valid() && delegations.Contents() == Remove(old(delegations.Contents()), Canon(zone))
    {
      assert Opened(Door.Caches, 0);
      ghost var was := delegations.entries;
      delegations.Forget(zone);
      JustifiedSubset(Over(0, stamp), validate, was, delegations.Contents().entries);
    }

    /** The cache after a delegation was kept: the most recent entry, for as long as its
        TTL says, within bounds. */
    ghost predicate Remembered(before: Delegated, after: Delegated, zone: Name, servers: seq<Bytes>, ttl: U32,
                               secure: bool) {
      exists tick: nat :: RememberedAt(before, after, zone, servers, ttl, secure, tick)
    }

    ghost predicate RememberedAt(before: Delegated, after: Delegated, zone: Name, servers: seq<Bytes>, ttl: U32,
                                 secure: bool, tick: nat) {
      after == Evict(Add(before, Canon(zone), Delegation(servers, secure, env.clock(tick) + ClampTTL(ttl) * SECOND)),
                     delegations.maxEntries)
    }

    method Remember(zone: Name, servers: seq<Bytes>, ttl: U32, secure: bool)
      requires Valid() && Justified(Here(0), validate, zone, secure) && zone != []
      requires servers != [] && forall i | 0 <= i < |servers| :: env.allowed(servers[i])
      modifies this`ticks, this`stamp, delegations
      ensures Valid() && old(ticks) <= ticks
      ensures Remembered(old(delegations.Contents()), delegations.Contents(), zone, servers, ttl, secure)
    {
      ghost var start := Here(0);
      var now, tick := Now();
      JustifiedLater(start, Here(0), validate, zone, secure);
      KeepDelegation(zone, servers, ttl, secure, now);
      assert RememberedAt(old(delegations.Contents()), delegations.Contents(), zone, servers, ttl, secure, tick);
    }

    method KeepDelegation(zone: Name, servers: seq<Bytes>, ttl: U32, secure: bool, now: int)
      requires Valid() && Justified(Here(0), validate, zone, secure) && zone != []
      requires servers != [] && forall i | 0 <= i < |servers| :: env.allowed(servers[i])
      modifies this`stamp, delegations
      ensures Valid()
      ensures delegations.Contents() ==
              Evict(Add(old(delegations.Contents()), Canon(zone),
                        Delegation(servers, secure, now + ClampTTL(ttl) * SECOND)), delegations.maxEntries)
    {
      assert Opened(Door.Caches, 0);
      KeysTrustedLater(Over(0, stamp), Here(0), keys.entries);
      AllJustifiedLater(Over(0, stamp), Here(0), validate, delegations.entries);
      stamp := ticks;
      ghost var was := delegations.Contents();
      ghost var d := Delegation(servers, secure, now + ClampTTL(ttl) * SECOND);
      CanonSame(zone);
      JustifiedUpToCase(Here(0), validate, zone, Canon(zone), secure);
      AddThenEvict(was, Canon(zone), d, delegations.maxEntries);
      delegations.Put(zone, servers, ttl, secure, now);
      JustifiedPut(Here(0), validate, was.entries, delegations.Contents().entries, Canon(zone), d);
    }

    /** A server for a zone and its parent answers from the child without a referral;
        the signatures say which zone answered, and validation follows them. */
    method Descend(w: Walk, resp: Message, qname: Name, ghost validating: bool, ghost since: nat)
        returns (r: Option<Walk>)
      requires Valid() && WalkOk(Here(0), validating, qname, w) && (validating ==> validate) && since <= ticks
      modifies this`ticks, this`stamp, keys
      ensures Valid() && old(ticks) <= ticks
      ensures r.Some? ==> FollowedDown(w, resp, qname, r.value)
      ensures r.None? ==> validating && NotValidatedMeans(Here(since), qname)
      ensures r.Some? ==>
              && WalkOk(Here(0), validating, qname, r.value) && |w.zone| <= |r.value.zone|
              && r.value.fromCache == w.fromCache
      ensures Keyless(w.sec) && r.Some? ==> r.value == w
    {
      if !w.sec.secure { return Some(w); }
      var signer := SignerBelow(resp.answers + resp.authorities, w.zone, qname);
      if signer.None? { return Some(w); }
      Deeper(signer.value, w.zone);
      var sec := DescendTo(w.sec, w.zone, signer.value, w.servers, since);
      if sec.None? {
        BreaksAbove(Here(since), qname, signer.value);
        return None;
      }
      return Some(w.(zone := signer.value, sec := sec.value));
    }

    /** A name error, from a signed zone only with its proof. */
    method NameErrorOutcome(w: Walk, resp: Message, qname: Name, qtype: U16, cnameDepth: nat,
        ghost validating: bool, ghost since: nat) returns (o: Outcome)
      requires since <= ticks && Received(Here(since), resp, qname, qtype) && resp.header.rcode == 3
      requires WalkOk(Here(0), validating, qname, w) && (validating ==> validate) && cnameDepth < MAX_CNAME_CHAIN
      modifies this`ticks
      ensures old(ticks) <= ticks && Promised(Here(since), validating, qname, qtype, cnameDepth, o)
      ensures IsBogus(validating, o) || IsNameError(o, qname, resp.authorities)
      ensures Keyless(w.sec) ==> o == Failed(Bogus)
    {
      ghost var start, begun := Here(0), Here(since);
      var d := CheckDenial(w.sec, resp.authorities, NoSuchName(qname), since);
      StateLater(start, Here(since), validating, w.zone, w.sec);
      ReceivedLater(begun, Here(since), resp, qname, qtype);
      if d == Refuted {
        BogusHere(Here(since), validating, qname, qtype, cnameDepth, resp, w);
        return Failed(Bogus);
      }
      if validating {
        NameErrorGrounds(Here(since), w.zone, w.sec, resp, qname, qtype, if d == Proved then Proven
            else Verdict.Unsupported);
      }
      var soa := SOAAuthority(resp.authorities);
      SOAIsFirst(resp.authorities);
      var e := NXDomain(qname, if soa == [] then None else Some(soa[0]));
      assert ErrorGiven(Here(since), qname, qtype, e.soa, resp);
      FailsHere(Here(since), validating, qname, qtype, cnameDepth, e);
      return Failed(e);
    }

    /** Neither an answer nor a referral: the name has no data of the type, which a
        signed zone has to prove. */
    method NoDataOutcome(w: Walk, resp: Message, qname: Name, qtype: U16, ghost cnameDepth: nat,
        ghost validating: bool, ghost since: nat) returns (o: Outcome)
      requires since <= ticks && Received(Here(since), resp, qname, qtype) && Unsettled(resp, qname, qtype)
      requires ReferralIn(resp.authorities, qname, w.zone).None?
      requires WalkOk(Here(0), validating, qname, w) && (validating ==> validate) && cnameDepth < MAX_CNAME_CHAIN
      modifies this`ticks
      ensures old(ticks) <= ticks && Promised(Here(since), validating, qname, qtype, cnameDepth, o)
      ensures IsBogus(validating, o) || IsAnswer(validating, o, [], SOAAuthority(resp.authorities))
      ensures Keyless(w.sec) ==> o == Failed(Bogus)
    {
      ghost var start, begun := Here(0), Here(since);
      var d := CheckDenial(w.sec, resp.authorities, NoSuchData(qname, qtype), since);
      StateLater(start, Here(since), validating, w.zone, w.sec);
      ReceivedLater(begun, Here(since), resp, qname, qtype);
      if d == Refuted {
        BogusHere(Here(since), validating, qname, qtype, cnameDepth, resp, w);
        return Failed(Bogus);
      }
      EndsEmpty(Here(since), qname, qtype, resp);
      NoDataGrounds(Here(since), validating, w, resp, qname, qtype, d);
      return Resolved(Result([], SOAAuthority(resp.authorities), d == Proved));
    }

    /** Records of the type asked for, with the CNAMEs that led to them. */
    method AnswerOutcome(w: Walk, resp: Message, qname: Name, qtype: U16, cnameDepth: nat, ghost validating: bool,
                         c: Chased, ghost since: nat) returns (o: Outcome)
      requires since <= ticks && Received(Here(since), resp, qname, qtype)
      requires WalkOk(Here(0), validating, qname, w) && (validating ==> validate) && cnameDepth < MAX_CNAME_CHAIN
      requires c == Chase(resp.answers, qname, qtype, cnameDepth) && c.Chased? && c.answers != []
      requires resp.header.rcode == 0
      modifies this`ticks
      ensures old(ticks) <= ticks && Promised(Here(since), validating, qname, qtype, cnameDepth, o)
      ensures IsBogus(validating, o) || IsAnswer(validating, o, c.chain + c.answers, [])
      ensures Keyless(w.sec) ==> o == Failed(Bogus)
    {
      ghost var start, begun := Here(0), Here(since);
      var all := c.chain + c.answers;
      AnswerShape(resp.answers, qname, qtype, cnameDepth, c);
      var secure := ValidateAnswer(w.sec, resp, all, w.zone, qname, qtype, since, 0);
      ReceivedLater(begun, Here(since), resp, qname, qtype);
      StateLater(start, Here(since), validating, w.zone, w.sec);
      if secure.None? {
        BogusHere(Here(since), validating, qname, qtype, cnameDepth, resp, w);
        return Failed(Bogus);
      }
      GivenHere(Here(since), qname, qtype, all, resp);
      AnswerEnds(Here(since), qname, qtype, cnameDepth, resp, c);
      if secure.value {
        InOneIsEarned(Here(since), qname, qtype, resp, all);
        SecureHere(Here(since), qname, qtype, all);
      } else if validating {
        AnswerExcused(Here(since), w, qname, qtype, resp, all);
      }
      return Resolved(Result(all, [], secure.value));
    }

    /** The chain left what this server knows: the rest is resolved from its end,
        with the CNAMEs so far in front. If that fails, its error is the outcome, and
        the chain that led to it is not looked at. */
    method AliasOutcome(w: Walk, resp: Message, qname: Name, qtype: U16, checkingDisabled: bool, cnameDepth: nat,
        glueDepth: nat, c: Chased, ghost since: nat) returns (o: Outcome, ghost inner: Outcome)
      requires Valid() && cnameDepth < MAX_CNAME_CHAIN && glueDepth <= MAX_GLUE_LOOKUPS && since <= ticks
      requires WalkOk(Here(0), validate && !checkingDisabled, qname, w) && Received(Here(since), resp, qname, qtype)
      requires c == Chase(resp.answers, qname, qtype, cnameDepth) && c.Chased? && c.chain != [] && c.answers == []
      requires resp.header.rcode == 0
      modifies this`ticks, this`stamp, keys, delegations
      ensures Valid() && old(ticks) <= ticks
      ensures Promised(Here(since), validate && !checkingDisabled, qname, qtype, cnameDepth, o)
      ensures JoinedTo(Here(since), validate && !checkingDisabled, qtype, cnameDepth + |c.chain|, c.chain, c.name,
                       inner, o)
      ensures Keyless(w.sec) ==> o.Failed?
      decreases MAX_GLUE_LOOKUPS - glueDepth, MAX_CNAME_CHAIN - cnameDepth, 0
    {
      ghost var start, begun := Here(0), Here(since);
      ghost var validating := validate && !checkingDisabled;
      ChaseBound(resp.answers, qname, qtype, cnameDepth);
      var r := Resolve(c.name, qtype, checkingDisabled, cnameDepth + |c.chain|, glueDepth, since);
      inner := r;
      ReceivedLater(begun, Here(since), resp, qname, qtype);
      if r.Failed? {
        FailedAlias(Here(since), validating, resp, qname, qtype, cnameDepth, c, r);
        return r, inner;
      }
      StateLater(start, Here(0), validating, w.zone, w.sec);
      o := AliasAnswer(w, resp, qname, qtype, checkingDisabled, cnameDepth, c, r, since);
    }

    /** A chain in front of an answer for its end. */
    method AliasAnswer(w: Walk, resp: Message, qname: Name, qtype: U16, ghost checkingDisabled: bool,
        ghost cnameDepth: nat, c: Chased, inner: Outcome, ghost since: nat) returns (o: Outcome)
      requires cnameDepth < MAX_CNAME_CHAIN && since <= ticks
      requires WalkOk(Here(0), validate && !checkingDisabled, qname, w) && Received(Here(since), resp, qname, qtype)
      requires c == Chase(resp.answers, qname, qtype, cnameDepth) && c.Chased? && c.chain != [] && c.answers == []
      requires resp.header.rcode == 0
      requires inner.Resolved?
      requires Promised(Here(since), validate && !checkingDisabled, c.name, qtype, cnameDepth + |c.chain|, inner)
      modifies this`ticks
      ensures old(ticks) <= ticks
      ensures JoinedTo(Here(since), validate && !checkingDisabled, qtype, cnameDepth + |c.chain|, c.chain, c.name,
                       inner, o)
      ensures Promised(Here(since), validate && !checkingDisabled, qname, qtype, cnameDepth, o)
      ensures Keyless(w.sec) ==> o.Failed?
    {
      ghost var start, begun := Here(0), Here(since);
      ghost var validating := validate && !checkingDisabled;
      ChainHeld(resp.answers, qname, qtype, cnameDepth);
      var chainSecure := ValidateAnswer(w.sec, resp, c.chain, w.zone, qname, qtype, since, 0);
      StateLater(start, Here(since), validating, w.zone, w.sec);
      ReceivedLater(begun, Here(since), resp, qname, qtype);
      PromisedLater(begun, Here(since), validating, c.name, qtype, cnameDepth + |c.chain|, inner);
      var rest := inner.result;
      if chainSecure.None? {
        assert c.chain + c.answers == c.chain;
        BogusHere(Here(since), validating, qname, qtype, cnameDepth, resp, w);
        return Failed(Bogus);
      }
      AliasJoined(Here(since), validating, w, resp, qname, qtype, cnameDepth, c, inner, chainSecure.value);
      return Resolved(Result(c.chain + rest.answers, rest.authority, rest.secure && chainSecure.value));
    }

    /** What a response to the full question says, if it settles it; None when it
        can only be a referral or nothing at all. */
    method ReadResponse(w: Walk, resp: Message, qname: Name, qtype: U16, checkingDisabled: bool, cnameDepth: nat,
        glueDepth: nat, ghost since: nat)
        returns (o: Option<Outcome>)
      requires Valid() && cnameDepth < MAX_CNAME_CHAIN && glueDepth <= MAX_GLUE_LOOKUPS && since <= ticks
      requires WalkOk(Here(0), validate && !checkingDisabled, qname, w) && Received(Here(since), resp, qname, qtype)
      modifies this`ticks, this`stamp, keys, delegations
      ensures Valid() && old(ticks) <= ticks
      ensures o.Some? ==> Promised(Here(since), validate && !checkingDisabled, qname, qtype, cnameDepth, o.value)
      ensures ReadAs(Here(since), validate && !checkingDisabled, qname, qtype, cnameDepth, resp, o)
      ensures o.None? ==> ticks == old(ticks) && Unsettled(resp, qname, qtype)
      ensures o.Some? && Keyless(w.sec) ==> o.value.Failed?
      decreases MAX_GLUE_LOOKUPS - glueDepth, MAX_CNAME_CHAIN - cnameDepth, 1
    {
      var r: Outcome;
      ghost var validating := validate && !checkingDisabled;
      if resp.header.rcode == RCodeNameError {
        r := NameErrorOutcome(w, resp, qname, qtype, cnameDepth, validating, since);
        return Some(r);
      }
      if resp.header.rcode != RCodeSuccess {
        assert OtherError(Here(since), qname, qtype, resp);
        FailsHere(Here(since), validating, qname, qtype, cnameDepth, BadRCode);
        return Some(Failed(BadRCode));
      }
      var c := FollowAliases(resp.answers, qname, qtype, cnameDepth);
      if c.TooLong? {
        assert LongChain(Here(since), qname, qtype, cnameDepth, resp);
        FailsHere(Here(since), validating, qname, qtype, cnameDepth, ChainTooLong(qname));
        return Some(Failed(ChainTooLong(qname)));
      }
      if |c.answers| > 0 {
        r := AnswerOutcome(w, resp, qname, qtype, cnameDepth, validating, c, since);
        return Some(r);
      }
      if |c.chain| > 0 {
        var alias, inner := AliasOutcome(w, resp, qname, qtype, checkingDisabled, cnameDepth, glueDepth, c, since);
        assert JoinedToSome(Here(since), validating, qtype, cnameDepth + |c.chain|, c.chain, c.name, alias);
        return Some(alias);
      }
      NothingChased(resp.answers, qname, qtype, cnameDepth);
      return None;
    }

    /** The response to the full question: validation follows its signatures down
        before anything in it is read. */
    method FullResponse(w: Walk, resp: Message, qname: Name, qtype: U16, checkingDisabled: bool, cnameDepth: nat,
        glueDepth: nat, ghost since: nat)
        returns (v: Walk, o: Option<Outcome>)
      requires Valid() && cnameDepth < MAX_CNAME_CHAIN && glueDepth <= MAX_GLUE_LOOKUPS && since <= ticks
      requires WalkOk(Here(0), validate && !checkingDisabled, qname, w) && Received(Here(since), resp, qname, qtype)
      modifies this`ticks, this`stamp, keys, delegations
      ensures Valid() && old(ticks) <= ticks
      ensures o.Some? ==> Promised(Here(since), validate && !checkingDisabled, qname, qtype, cnameDepth, o.value)
      ensures o.None? ==>
              && WalkOk(Here(0), validate && !checkingDisabled, qname, v) && |w.zone| <= |v.zone|
              && v.fromCache == w.fromCache && Received(Here(since), resp, qname, qtype)
              && Unsettled(resp, qname, qtype)
      ensures Concluded(Here(since), validate && !checkingDisabled, qname, qtype, cnameDepth, w, v, resp, o)
      ensures Keyless(w.sec) ==> v == w && (o.Some? ==> o.value.Failed?)
      decreases MAX_GLUE_LOOKUPS - glueDepth, MAX_CNAME_CHAIN - cnameDepth, 2
    {
      ghost var begun := Here(since);
      var down := Descend(w, resp, qname, validate && !checkingDisabled, since);
      if down.None? {
        FailsHere(Here(since), true, qname, qtype, cnameDepth, NotValidated);
        return w, Some(Failed(NotValidated));
      }
      v := down.value;
      ReceivedLater(begun, Here(since), resp, qname, qtype);
      o := ReadResponse(v, resp, qname, qtype, checkingDisabled, cnameDepth, glueDepth, since);
    }

    /** One query: for the name one label below the zone as long as that is not yet
        the whole name and the server plays along, then for the name itself. */
    method Ask(w: Walk, qname: Name, qtype: U16, minimizeOff: bool, ghost since: nat)
        returns (reply: Reply, minimizing: bool)
      requires since <= ticks
      modifies this`ticks
      ensures old(ticks) <= ticks
      ensures minimizing ==> !minimizeOff && |w.zone| + 2 <= |qname|
      ensures minimizing <==> minimize && !minimizeOff && !EqualName(MinimizedQName(qname, w.zone), qname)
      ensures reply.Answered? ==>
                if minimizing then Received(Here(since), reply.msg, MinimizedQName(qname, w.zone), TypeA)
                else Received(Here(since), reply.msg, qname, qtype)
      ensures reply.NoReply? && !minimizing ==> SilentFrom(Here(since), w.servers, qname, qtype, old(ticks))
    {
      var askName, askType := qname, qtype;
      minimizing := false;
      if minimize && !minimizeOff {
        var m := MinimizedQName(qname, w.zone);
        if !EqualName(m, qname) {
          MinimizingFar(qname, w.zone);
          askName, askType, minimizing := m, TypeA, true;
        }
      }
      reply := QueryServers(w.servers, askName, askType, since);
    }

    /** Drops a cached delegation that no longer answers, and goes back to the root. */
    method StartOver(w: Walk, qname: Name, checkingDisabled: bool, ghost since: nat) returns (r: Option<Walk>)
      requires Valid() && since <= ticks
      modifies this`ticks, this`stamp, keys, delegations
      ensures Valid() && old(ticks) <= ticks
      ensures r.Some? ==> WalkOk(Here(0), validate && !checkingDisabled, qname, r.value) && AtRoot(env, r.value)
      ensures r.None? ==> validate && !checkingDisabled && NotValidatedMeans(Here(since), qname)
      ensures delegations.Contents() == Remove(old(delegations.Contents()), Canon(w.zone))
    {
      Forget(w.zone);
      r := Restart(qname, checkingDisabled, since);
    }

    method CollectGlue(additionals: seq<RR>, nsNames: set<Name>, zone: Name) returns (servers: seq<Bytes>)
      ensures servers == GlueIn(additionals, nsNames, zone, env.allowed)
    {
      servers := [];
      for k := 0 to |additionals|
        invariant servers == GlueIn(additionals[..k], nsNames, zone, env.allowed)
      {
        assert additionals[..k + 1][..k] == additionals[..k];
        var rr := additionals[k];
        if Canon(rr.name) !in nsNames || rr.rclass != ClassIN { continue; }
        if !IsSubdomainOrEqual(rr.name, zone) { continue; }
        if rr.rtype == TypeA && rr.a != [] && env.allowed(rr.a) {
          servers := servers + [rr.a];
        } else if rr.rtype == TypeAAAA && rr.aaaa != [] && env.allowed(rr.aaaa) {
          servers := servers + [rr.aaaa];
        }
      }
      assert additionals[..|additionals|] == additionals;
    }

    method CollectAddresses(answers: seq<RR>) returns (servers: seq<Bytes>)
      ensures servers == AddressesIn(answers, env.allowed)
      ensures forall i | 0 <= i < |servers| :: env.allowed(servers[i])
    {
      servers := [];
      for k := 0 to |answers|
        invariant servers == AddressesIn(answers[..k], env.allowed)
        invariant forall i | 0 <= i < |servers| :: env.allowed(servers[i])
      {
        assert answers[..k + 1][..k] == answers[..k];
        var rr := answers[k];
        if rr.rtype == TypeA && rr.a != [] && env.allowed(rr.a) { servers := servers + [rr.a]; }
      }
      assert answers[..|answers|] == answers;
    }

    /** The addresses in an answer about one of the servers a referral names. */
    ghost predicate LookedUp(e: Env, ref: Referral, checkingDisabled: bool, ns: Name, res: Result,
                             servers: seq<Bytes>) {
      && ns in ref.nsNames && Promised(e, validate && !checkingDisabled, ns, TypeA, 0, Resolved(res))
      && servers == AddressesIn(res.answers, env.allowed)
    }

    /** Looking up the server's addresses failed, or gave none that may be asked. */
    ghost predicate NoAddress(e: Env, checkingDisabled: bool, ns: Name) {
      exists o :: NoneIn(e, checkingDisabled, ns, o)
    }

    ghost predicate NoneIn(e: Env, checkingDisabled: bool, ns: Name, o: Outcome) {
      && Promised(e, validate && !checkingDisabled, ns, TypeA, 0, o)
      && (o.Resolved? ==> AddressesIn(o.result.answers, env.allowed) == [])
    }

    lemma NoAddressLater(e: Env, f: Env, checkingDisabled: bool, ns: Name)
      requires Wider(e, f) && NoAddress(e, checkingDisabled, ns)
      ensures NoAddress(f, checkingDisabled, ns)
    {
      var o :| NoneIn(e, checkingDisabled, ns, o);
      PromisedLater(e, f, validate && !checkingDisabled, ns, TypeA, 0, o);
      assert NoneIn(f, checkingDisabled, ns, o);
    }

    /** What the search for a delegation's servers came to: glue; or without any, the
        addresses of one of them looked up, if any had one. */
    ghost predicate ServersFound(e: Env, ref: Referral, glue: seq<Bytes>, checkingDisabled: bool, glueDepth: nat,
                                 servers: seq<Bytes>) {
      if glue != [] || glueDepth >= 6 then servers == glue
      else if servers == [] then forall ns | ns in ref.nsNames :: NoAddress(e, checkingDisabled, ns)
      else exists ns, res :: LookedUp(e, ref, checkingDisabled, ns, res, servers)
    }

    /** The addresses of a delegation's servers: glue, or else a lookup of one of
        their names, in any order. */
    method FindServers(ref: Referral, additionals: seq<RR>, zone: Name, checkingDisabled: bool, glueDepth: nat,
        ghost since: nat) returns (servers: seq<Bytes>)
      requires Valid() && glueDepth <= MAX_GLUE_LOOKUPS && since <= ticks
      modifies this`ticks, this`stamp, keys, delegations
      ensures Valid() && old(ticks) <= ticks
      ensures forall i | 0 <= i < |servers| :: env.allowed(servers[i])
      ensures ServersFound(Here(since), ref, GlueIn(additionals, ref.nsNames, zone, env.allowed), checkingDisabled,
                           glueDepth, servers)
      ensures GlueIn(additionals, ref.nsNames, zone, env.allowed) != [] ==>
                delegations.Contents() == old(delegations.Contents())
      decreases MAX_GLUE_LOOKUPS - glueDepth, 0, 0
    {
      servers := CollectGlue(additionals, ref.nsNames, zone);
      GlueAllowed(additionals, ref.nsNames, zone, env.allowed);
      if |servers| > 0 || glueDepth >= MAX_GLUE_LOOKUPS { return; }
      var pending := ref.nsNames;
      while pending != {}
        invariant Valid() && old(ticks) <= ticks && servers == [] && pending <= ref.nsNames
        invariant forall ns | ns in ref.nsNames - pending :: NoAddress(Here(since), checkingDisabled, ns)
        decreases |pending|
      {
        var ns :| ns in pending;
        ghost var before := Here(since);
        var o := Resolve(ns, TypeA, checkingDisabled, 0, glueDepth + 1, since);
        forall n | n in ref.nsNames - pending ensures NoAddress(Here(since), checkingDisabled, n) {
          NoAddressLater(before, Here(since), checkingDisabled, n);
        }
        pending := pending - {ns};
        if o.Resolved? {
          servers := CollectAddresses(o.result.answers);
          if |servers| > 0 {
            assert LookedUp(Here(since), ref, checkingDisabled, ns, o.result, servers);
            return;
          }
        }
        assert NoneIn(Here(since), checkingDisabled, ns, o);
      }
    }

    /** The question was the full one, or the one for the name one label below the zone. */
    ghost predicate AskedBy(e: Env, msg: Message, qname: Name, qtype: U16, zone: Name, minimizing: bool) {
      if minimizing then Received(e, msg, MinimizedQName(qname, zone), TypeA) else Received(e, msg, qname, qtype)
    }

    lemma AskedShown(e: Env, f: Env, msg: Message, qname: Name, qtype: U16, zone: Name, minimizing: bool)
      requires Wider(e, f) && AskedBy(e, msg, qname, qtype, zone, minimizing)
      ensures AskedBy(f, msg, qname, qtype, zone, minimizing) && Shown(f, msg.authorities)
    {
      if minimizing {
        ShownReply(e, f, msg, MinimizedQName(qname, zone), TypeA);
        ReceivedLater(e, f, msg, MinimizedQName(qname, zone), TypeA);
      } else {
        ShownReply(e, f, msg, qname, qtype);
        ReceivedLater(e, f, msg, qname, qtype);
      }
    }

    lemma NoGlueFails(e: Env, validating: bool, msg: Message, qname: Name, qtype: U16, cnameDepth: nat, zone: Name,
                      minimizing: bool, ref: Referral)
      requires AskedBy(e, msg, qname, qtype, zone, minimizing) && IsSubdomainOrEqual(qname, zone)
      requires ReferralIn(msg.authorities, qname, zone) == Some(ref) && cnameDepth < MAX_CNAME_CHAIN
      requires GlueIn(msg.additionals, ref.nsNames, zone, e.allowed) == []
      ensures FailsAt(e, validating, qname, qtype, cnameDepth, NoServers)
    {
      if minimizing {
        assert NoGlue(e, qname, qtype, zone, msg, MinimizedQName(qname, zone), TypeA, ref);
      } else {
        assert NoGlue(e, qname, qtype, zone, msg, qname, qtype, ref);
      }
    }

    /** The cache after a delegation was crossed into: it is remembered, unless the query
        asked not to be validated. */
    ghost predicate Noted(before: Delegated, after: Delegated, checkingDisabled: bool, next: Walk, ttl: U32) {
      if checkingDisabled then after == before
      else Remembered(before, after, next.zone, next.servers, ttl, next.sec.secure)
    }

    /** Into the delegated zone: its servers, the chain of trust across the cut, and
        a note of it for later walks. */
    method Refer(w: Walk, resp: Message, ref: Referral, qname: Name, ghost qtype: U16, ghost minimizing: bool,
        checkingDisabled: bool, ghost cnameDepth: nat, glueDepth: nat, ghost since: nat)
        returns (r: Option<Walk>, e: Error)
      requires Valid() && glueDepth <= MAX_GLUE_LOOKUPS && since <= ticks && cnameDepth < MAX_CNAME_CHAIN
      requires WalkOk(Here(0), validate && !checkingDisabled, qname, w)
      requires AskedBy(Here(since), resp, qname, qtype, w.zone, minimizing)
      requires ReferralIn(resp.authorities, qname, w.zone) == Some(ref)
      requires IsSubdomainOrEqual(qname, ref.zone) && IsProperSubdomain(ref.zone, w.zone)
      modifies this`ticks, this`stamp, keys, delegations
      ensures Valid() && old(ticks) <= ticks
      ensures r.None? ==> FailsAt(Here(since), validate && !checkingDisabled, qname, qtype, cnameDepth, e)
      ensures ReferredTo(env, validate && !checkingDisabled, ref, resp.additionals, w.zone,
                         if r.None? then Some(Failed(e)) else None, if r.None? then w else r.value, false)
      ensures r.Some? ==> WalkOk(Here(0), validate && !checkingDisabled, qname, r.value)
      ensures r.Some? ==> exists before :: Noted(before, delegations.Contents(), checkingDisabled, r.value, ref.ttl)
      ensures r.Some? && GlueIn(resp.additionals, ref.nsNames, w.zone, env.allowed) != [] ==>
                Noted(old(delegations.Contents()), delegations.Contents(), checkingDisabled, r.value, ref.ttl)
      ensures Keyless(w.sec) ==> r.None?
      decreases MAX_GLUE_LOOKUPS - glueDepth, 0, 1
    {
      e := NoServers;
      ghost var start, begun := Here(0), Here(since);
      var servers := FindServers(ref, resp.additionals, w.zone, checkingDisabled, glueDepth, since);
      AskedShown(begun, Here(since), resp, qname, qtype, w.zone, minimizing);
      if |servers| == 0 {
        NoGlueFails(Here(since), validate && !checkingDisabled, resp, qname, qtype, cnameDepth, w.zone, minimizing,
                    ref);
        return None, e;
      }
      StateLater(start, Here(0), validate && !checkingDisabled, w.zone, w.sec);
      r := Cross(w, resp.authorities, ref, servers, qname, checkingDisabled, since);
      if r.None? { e := NotValidated; }
    }

    /** Across the cut with the servers found, and a note of it. */
    method Cross(w: Walk, authorities: seq<RR>, ref: Referral, servers: seq<Bytes>, qname: Name,
        checkingDisabled: bool, ghost since: nat) returns (r: Option<Walk>)
      requires Valid() && since <= ticks && Shown(Here(since), authorities)
      requires WalkOk(Here(0), validate && !checkingDisabled, qname, w)
      requires IsSubdomainOrEqual(qname, ref.zone) && IsProperSubdomain(ref.zone, w.zone)
      requires servers != [] && forall i | 0 <= i < |servers| :: env.allowed(servers[i])
      modifies this`ticks, this`stamp, keys, delegations
      ensures Valid() && old(ticks) <= ticks
      ensures r.None? ==> validate && !checkingDisabled && NotValidatedMeans(Here(since), qname)
      ensures r.Some? ==>
                && WalkOk(Here(0), validate && !checkingDisabled, qname, r.value)
                && r.value == Walk(ref.zone, servers, r.value.sec, false)
                && Noted(old(delegations.Contents()), delegations.Contents(), checkingDisabled, r.value, ref.ttl)
      ensures Keyless(w.sec) ==> r.None?
    {
      var sec := w.sec;
      if validate {
        var crossed := CrossDelegation(w.sec, w.zone, validate && !checkingDisabled, authorities, ref.zone, servers,
                                       since);
        if crossed.None? {
          BreaksBelow(Here(since), qname, ref.zone);
          return None;
        }
        sec := crossed.value;
      }
      ghost var crossing := Here(0);
      Deeper(ref.zone, w.zone);
      if !checkingDisabled {
        StateJustified(Here(0), validate, ref.zone, sec);
        Remember(ref.zone, servers, ref.ttl, sec.secure);
      }
      StateLater(crossing, Here(0), validate && !checkingDisabled, ref.zone, sec);
      return Some(Walk(ref.zone, servers, sec, false));
    }

    method FindReferral(authorities: seq<RR>, qname: Name, zone: Name) returns (r: Option<Referral>)
      ensures r == ReferralIn(authorities, qname, zone)
      ensures r.Some? ==> IsSubdomainOrEqual(qname, r.value.zone) && IsProperSubdomain(r.value.zone, zone)
    {
      ReferralMeans(authorities, qname, zone);
      r := ScanReferral(authorities, qname, zone);
    }

    /** What a round leaves: an outcome that keeps its promise, or a walk with fewer
        rounds to go. With nothing to check by, a failure or a walk no better off. */
    ghost predicate RoundOk(qname: Name, qtype: U16, checkingDisabled: bool, cnameDepth: nat, since: nat, w: Walk,
        minimizeOff: bool, done: Option<Outcome>, next: Walk, off: bool)
      reads this`ticks
    {
      && (done.Some? ==> Promised(Here(since), validate && !checkingDisabled, qname, qtype, cnameDepth, done.value))
      && (done.None? ==>
            && WalkOk(Here(0), validate && !checkingDisabled, qname, next)
            && Fewer(qname, w, minimizeOff, next, off))
      && (Keyless(w.sec) ==> if done.Some? then done.value.Failed? else Keyless(next.sec))
    }

    /** No answer: the whole name next if the short one was asked, the root next if the
        start came from the cache, and otherwise a failure. */
    method GiveUp(w: Walk, minimizing: bool, minimizeOff: bool, qname: Name, qtype: U16, checkingDisabled: bool,
        cnameDepth: nat, ghost since: nat) returns (done: Option<Outcome>, next: Walk, off: bool)
      requires Valid() && WalkOk(Here(0), validate && !checkingDisabled, qname, w) && since <= ticks
      requires cnameDepth < MAX_CNAME_CHAIN
      requires if minimizing then !minimizeOff && |w.zone| + 2 <= |qname| else Unanswered(Here(since), qname, qtype)
      modifies this`ticks, this`stamp, keys, delegations
      ensures Valid() && old(ticks) <= ticks
      ensures RoundOk(qname, qtype, checkingDisabled, cnameDepth, since, w, minimizeOff, done, next, off)
      ensures GaveUp(Here(since), validate && !checkingDisabled, w, minimizing, minimizeOff, done, next, off)
    {
      next, off := w, minimizeOff;
      if minimizing {
        FewerWithoutMinimizing(qname, w);
        return None, w, true;
      }
      if !w.fromCache {
        FailsHere(Here(since), validate && !checkingDisabled, qname, qtype, cnameDepth, NoAnswer);
        return Some(Failed(NoAnswer)), w, off;
      }
      KeylessAtRoot(Here(0), validate && !checkingDisabled, qname, w);
      WalkEncloses(Here(0), validate && !checkingDisabled, qname, w);
      var again := StartOver(w, qname, checkingDisabled, since);
      if again.None? {
        FailsHere(Here(since), true, qname, qtype, cnameDepth, NotValidated);
        return Some(Failed(NotValidated)), w, off;
      }
      FewerFromRoot(qname, w, minimizeOff, again.value);
      return None, again.value, off;
    }

    /** A response that settled nothing and delegates nothing: the whole name next if
        the short one was asked, and otherwise an empty answer. */
    method Undelegated(w: Walk, v: Walk, resp: Message, minimizing: bool, minimizeOff: bool, qname: Name, qtype: U16,
        ghost checkingDisabled: bool, ghost cnameDepth: nat, ghost since: nat)
        returns (done: Option<Outcome>, next: Walk, off: bool)
      requires Valid() && cnameDepth < MAX_CNAME_CHAIN && since <= ticks
      requires WalkOk(Here(0), validate && !checkingDisabled, qname, v)
      requires if minimizing then v == w && !minimizeOff && |w.zone| + 2 <= |qname| else Keyless(w.sec) ==> v == w
      requires !minimizing ==> Received(Here(since), resp, qname, qtype) && Unsettled(resp, qname, qtype)
      requires ReferralIn(resp.authorities, qname, v.zone).None?
      modifies this`ticks
      ensures Valid() && old(ticks) <= ticks
      ensures RoundOk(qname, qtype, checkingDisabled, cnameDepth, since, w, minimizeOff, done, next, off)
      ensures NowhereElse(validate && !checkingDisabled, w, resp, minimizing, done, next, off)
    {
      if minimizing {
        FewerWithoutMinimizing(qname, w);
        return None, w, true;
      }
      var o := NoDataOutcome(v, resp, qname, qtype, cnameDepth, validate && !checkingDisabled, since);
      return Some(o), v, minimizeOff;
    }

    /** Below a response that settled nothing: into the zone it delegates to, or if it
        delegates nothing, the whole name next or an empty answer. */
    method Onward(w: Walk, v: Walk, resp: Message, minimizing: bool, minimizeOff: bool, qname: Name, qtype: U16,
        checkingDisabled: bool, cnameDepth: nat, glueDepth: nat, ghost since: nat)
        returns (done: Option<Outcome>, next: Walk, off: bool)
      requires Valid() && cnameDepth < MAX_CNAME_CHAIN && glueDepth <= MAX_GLUE_LOOKUPS && since <= ticks
      requires WalkOk(Here(0), validate && !checkingDisabled, qname, v) && |w.zone| <= |v.zone|
      requires if minimizing then v == w && !minimizeOff && |w.zone| + 2 <= |qname| else Keyless(w.sec) ==> v == w
      requires AskedBy(Here(since), resp, qname, qtype, v.zone, minimizing)
      requires !minimizing ==> Unsettled(resp, qname, qtype)
      modifies this`ticks, this`stamp, keys, delegations
      ensures Valid() && old(ticks) <= ticks
      ensures RoundOk(qname, qtype, checkingDisabled, cnameDepth, since, w, minimizeOff, done, next, off)
      ensures WentOn(Here(since), validate && !checkingDisabled, qname, w, v, resp, minimizing, done, next, off)
      decreases MAX_GLUE_LOOKUPS - glueDepth, MAX_CNAME_CHAIN - cnameDepth, 2
    {
      next, off := v, minimizeOff;
      var ref := FindReferral(resp.authorities, qname, v.zone);
      if ref.None? {
        done, next, off := Undelegated(w, v, resp, minimizing, minimizeOff, qname, qtype, checkingDisabled, cnameDepth,
                                       since);
        WentNowhere(Here(since), validate && !checkingDisabled, qname, w, v, resp, minimizing, done, next, off);
        return;
      }
      Deeper(ref.value.zone, v.zone);
      var below, e := Refer(v, resp, ref.value, qname, qtype, minimizing, checkingDisabled, cnameDepth, glueDepth,
                            since);
      if below.None? {
        FailsHere(Here(since), validate && !checkingDisabled, qname, qtype, cnameDepth, e);
        WentInto(env, Here(since), validate && !checkingDisabled, qname, w, v, resp, minimizing, ref.value,
                 Some(Failed(e)), v, v, off);
        return Some(Failed(e)), v, off;
      }
      WalkEncloses(Here(0), validate && !checkingDisabled, qname, below.value);
      FewerBelow(qname, w, minimizeOff, below.value);
      WentInto(env, Here(since), validate && !checkingDisabled, qname, w, v, resp, minimizing, ref.value, None,
               below.value, below.value, false);
      return None, below.value, false;
    }

    /** One round of the walk: a query, and what its answer or its absence leads to -
        an outcome, or a state with fewer rounds to go. */
    method Round(w: Walk, minimizeOff: bool, qname: Name, qtype: U16, checkingDisabled: bool, cnameDepth: nat,
        glueDepth: nat, ghost since: nat)
        returns (done: Option<Outcome>, next: Walk, off: bool, ghost reply: Reply, ghost short: bool, ghost v: Walk)
      requires Valid() && cnameDepth < MAX_CNAME_CHAIN && glueDepth <= MAX_GLUE_LOOKUPS && since <= ticks
      requires WalkOk(Here(0), validate && !checkingDisabled, qname, w)
      modifies this`ticks, this`stamp, keys, delegations
      ensures Valid() && old(ticks) <= ticks
      ensures RoundOk(qname, qtype, checkingDisabled, cnameDepth, since, w, minimizeOff, done, next, off)
      ensures short <==> minimize && !minimizeOff && !EqualName(MinimizedQName(qname, w.zone), qname)
      ensures reply.Answered? ==> AskedBy(Here(since), reply.msg, qname, qtype, w.zone, short)
      ensures RoundReads(Here(since), validate && !checkingDisabled, qname, qtype, cnameDepth, w, minimizeOff, reply,
                         short, v, done, next, off)
      decreases MAX_GLUE_LOOKUPS - glueDepth, MAX_CNAME_CHAIN - cnameDepth, 4
    {
      ghost var start, from := Here(0), ticks;
      var got, minimizing := Ask(w, qname, qtype, minimizeOff, since);
      reply, short, v := got, minimizing, w;
      StateLater(start, Here(0), validate && !checkingDisabled, w.zone, w.sec);
      if got.NoReply? || (minimizing && got.msg.header.rcode != RCodeSuccess) {
        if !minimizing { assert SilentServers(Here(since), qname, qtype, w.servers, from); }
        ghost var asked := Here(since);
        done, next, off := GiveUp(w, minimizing, minimizeOff, qname, qtype, checkingDisabled, cnameDepth, since);
        if got.Answered? { AskedShown(asked, Here(since), got.msg, qname, qtype, w.zone, minimizing); }
        return;
      }
      ghost var answered := Here(since);
      if minimizing {
        done, next, off := Onward(w, w, got.msg, true, minimizeOff, qname, qtype, checkingDisabled, cnameDepth,
                                  glueDepth, since);
      } else {
        done, next, off, v := FullRound(w, got.msg, minimizeOff, qname, qtype, checkingDisabled, cnameDepth, glueDepth,
                                        since);
      }
      AskedShown(answered, Here(since), got.msg, qname, qtype, w.zone, minimizing);
    }

    /** The round of the full question, once it is answered. */
    method FullRound(w: Walk, resp: Message, minimizeOff: bool, qname: Name, qtype: U16, checkingDisabled: bool,
        cnameDepth: nat, glueDepth: nat, ghost since: nat)
        returns (done: Option<Outcome>, next: Walk, off: bool, ghost v: Walk)
      requires Valid() && cnameDepth < MAX_CNAME_CHAIN && glueDepth <= MAX_GLUE_LOOKUPS && since <= ticks
      requires WalkOk(Here(0), validate && !checkingDisabled, qname, w) && Received(Here(since), resp, qname, qtype)
      modifies this`ticks, this`stamp, keys, delegations
      ensures Valid() && old(ticks) <= ticks
      ensures RoundOk(qname, qtype, checkingDisabled, cnameDepth, since, w, minimizeOff, done, next, off)
      ensures FullRead(Here(since), validate && !checkingDisabled, qname, qtype, cnameDepth, w, v, resp, done, next,
                       off)
      decreases MAX_GLUE_LOOKUPS - glueDepth, MAX_CNAME_CHAIN - cnameDepth, 3
    {
      off := minimizeOff;
      next, done := FullResponse(w, resp, qname, qtype, checkingDisabled, cnameDepth, glueDepth, since);
      v := next;
      ghost var validating, o, read := validate && !checkingDisabled, done, Here(since);
      if done.None? {
        done, next, off := Onward(w, next, resp, false, minimizeOff, qname, qtype, checkingDisabled, cnameDepth,
                                  glueDepth, since);
        NothingConcluded(read, Here(since), validating, qname, qtype, cnameDepth, w, v, resp);
      }
      assert FullReadBy(Here(since), validating, qname, qtype, cnameDepth, w, v, resp, o, done, next, off);
    }

    /** The rounds of a walk, until one ends it. It ends, whatever the servers say,
        without the referral limit ever being needed for names of at most 14 labels. A
        walk with nothing to check by ends in a failure. */
    method WalkFrom(start: Walk, qname: Name, qtype: U16, checkingDisabled: bool, cnameDepth: nat, glueDepth: nat,
        ghost since: nat) returns (o: Outcome, ghost rounds: nat)
      requires Valid() && cnameDepth < MAX_CNAME_CHAIN && glueDepth <= MAX_GLUE_LOOKUPS && since <= ticks
      requires WalkOk(Here(0), validate && !checkingDisabled, qname, start)
      modifies this`ticks, this`stamp, keys, delegations
      ensures Valid() && old(ticks) <= ticks
      ensures Promised(Here(since), validate && !checkingDisabled, qname, qtype, cnameDepth, o)
      ensures Keyless(start.sec) ==> o.Failed?
      ensures rounds <= 30 && (env.cancelled(old(ticks)) ==> o == Failed(Cancelled) && ticks == old(ticks))
      decreases MAX_GLUE_LOOKUPS - glueDepth, MAX_CNAME_CHAIN - cnameDepth, 5
    {
      var w := start;
      var minimizeOff := false;
      var referrals := 0;
      rounds := 0;
      WalkEncloses(Here(0), validate && !checkingDisabled, qname, w);
      while true
        invariant Valid() && old(ticks) <= ticks && rounds == referrals <= 30
        invariant WalkOk(Here(0), validate && !checkingDisabled, qname, w) && |w.zone| <= |qname|
        invariant referrals + RoundsLeft(|qname|, |qname| - |w.zone|, w.fromCache, minimizeOff) <= MaxRounds(|qname|)
        invariant Keyless(start.sec) ==> Keyless(w.sec)
        invariant env.cancelled(old(ticks)) ==> ticks == old(ticks)
        decreases RoundsLeft(|qname|, |qname| - |w.zone|, w.fromCache, minimizeOff)
      {
        if env.cancelled(ticks) {
          FailsHere(Here(since), validate && !checkingDisabled, qname, qtype, cnameDepth, Cancelled);
          return Failed(Cancelled), rounds;
        }
        if referrals >= MAX_REFERRALS {
          FailsHere(Here(since), validate && !checkingDisabled, qname, qtype, cnameDepth, TooManyReferrals(qname));
          return Failed(TooManyReferrals(qname)), rounds;
        }
        referrals, rounds := referrals + 1, rounds + 1;
        var done, next, off, _, _, _ := Round(w, minimizeOff, qname, qtype, checkingDisabled, cnameDepth, glueDepth,
                                              since);
        w, minimizeOff := next, off;
        if done.Some? { return done.value, rounds; }
        assert Opened(Door.Rounds, 0);
        WalkEncloses(Here(0), validate && !checkingDisabled, qname, w);
      }
    }

    /** Resolves a name, from wherever the caches allow to whatever the servers say. All
        that is promised rests on what happened since the query came in, and on what
        the caches held by then. */
    method Resolve(qname: Name, qtype: U16, checkingDisabled: bool, cnameDepth: nat, glueDepth: nat, ghost since: nat)
        returns (o: Outcome)
      requires Valid() && cnameDepth < MAX_CNAME_CHAIN && glueDepth <= MAX_GLUE_LOOKUPS && since <= ticks
      modifies this`ticks, this`stamp, keys, delegations
      ensures Valid() && old(ticks) <= ticks
      ensures Promised(Here(since), validate && !checkingDisabled, qname, qtype, cnameDepth, o)
      decreases MAX_GLUE_LOOKUPS - glueDepth, MAX_CNAME_CHAIN - cnameDepth, 6
    {
      var begun, _, _ := Begin(qname, checkingDisabled, since);
      if begun.None? {
        FailsHere(Here(since), true, qname, qtype, cnameDepth, NotValidated);
        return Failed(NotValidated);
      }
      var end, _ := WalkFrom(begun.value, qname, qtype, checkingDisabled, cnameDepth, glueDepth, since);
      return end;
    }

    /** One query: nothing in its outcome rests on a message or a signature check from
        before it, save what the caches keep. */
    method ResolveRR(qname: Name, qtype: U16, checkingDisabled: bool) returns (o: Outcome)
      requires Valid()
      modifies this`ticks, this`stamp, keys, delegations
      ensures Valid() && old(ticks) <= ticks
      ensures Promised(Over(old(ticks), ticks), validate && !checkingDisabled, qname, qtype, 0, o)
    {
      o := Resolve(qname, qtype, checkingDisabled, 0, 0, ticks);
    }
  }

  lemma AskableStep(env: Env, servers: seq<Bytes>, i: nat)
    requires i < |servers|
    ensures Askable(env, servers[..i + 1]) == Askable(env, servers[..i]) + if env.allowed(servers[i]) then 1 else 0
    ensures Askable(env, servers[..i + 1]) <= Askable(env, servers)
  {
    assert servers[..i + 1][..i] == servers[..i];
    AskableGrows(env, servers, i + 1);
  }

  lemma {:induction false} AskableGrows(env: Env, servers: seq<Bytes>, i: nat)
    requires i <= |servers|
    ensures Askable(env, servers[..i]) <= Askable(env, servers)
    decreases |servers|
  {
    if i == |servers| {
      assert servers[..i] == servers;
    } else {
      assert servers[..|servers| - 1][..i] == servers[..i];
      AskableGrows(env, servers[..|servers| - 1], i);
    }
  }

  lemma GlueAllowed(additionals: seq<RR>, nsNames: set<Name>, zone: Name, allowed: Bytes -> bool)
    ensures var glue := GlueIn(additionals, nsNames, zone, allowed); forall i | 0 <= i < |glue| :: allowed(glue[i])
  {
    var glue := GlueIn(additionals, nsNames, zone, allowed);
    forall i | 0 <= i < |glue| ensures allowed(glue[i]) { GlueMeans(additionals, nsNames, zone, allowed, glue[i]); }
  }

  /** A reply's authority section was shown, by now at the latest. */
  lemma ShownReply(e: Env, f: Env, msg: Message, name: Name, qtype: U16)
    requires Wider(e, f) && Received(e, msg, name, qtype)
    ensures Shown(f, msg.authorities)
  {
    ReceivedLater(e, f, msg, name, qtype);
    assert ShownBy(f, msg.authorities, msg, name, qtype);
  }

  // ---- what was kept and what was refused ----

  /** The set of one name and type is kept whole, or was refused. */
  ghost predicate SetKeptOrRefused(env: Env, section: seq<RR>, out: seq<RR>, name: Name, rtype: U16, ks: seq<DNSKEY>) {
    var rrset := RecordsOfType(section, rtype, name);
    InVain(env, rrset, section, ks) || forall rr | rr in rrset :: rr in out
  }

  lemma SetKeptLater(e: Env, f: Env, section: seq<RR>, out: seq<RR>, name: Name, rtype: U16, ks: seq<DNSKEY>)
    requires Wider(e, f) && SetKeptOrRefused(e, section, out, name, rtype, ks)
    ensures SetKeptOrRefused(f, section, out, name, rtype, ks)
  {
    var rrset := RecordsOfType(section, rtype, name);
    if InVain(e, rrset, section, ks) { InVainLater(e, f, rrset, section, ks); }
  }

  lemma KeptMeans(env: Env, section: seq<RR>, out: seq<RR>, rr: RR, ks: seq<DNSKEY>)
    requires rr in section && SetKeptOrRefused(env, section, out, Canon(rr.name), rr.rtype, ks)
    ensures KeptOrRefused(env, section, out, rr, ks)
  {
    CanonSame(rr.name);
    ScanUpToCase(section, rr.name, Canon(rr.name), rr.rtype);
    if rr.rclass == ClassIN { RecordsHold(section, rr); }
  }

  lemma VettedSet(env: Env, section: seq<RR>, rrset: seq<RR>, sig: RRSIG, ks: seq<DNSKEY>)
    requires Carries(section, rrset, sig) && SignedBy(env, rrset, sig, ks)
    ensures AllVetted(env, section, rrset, ks)
  {
    forall i | 0 <= i < |rrset| ensures Vetted(env, section, rrset[i], ks) {
      assert InVerifiedSet(env, section, rrset[i], rrset, sig, ks);
    }
  }

  lemma AllVettedConcat(env: Env, section: seq<RR>, a: seq<RR>, b: seq<RR>, ks: seq<DNSKEY>)
    requires AllVetted(env, section, a, ks) && AllVetted(env, section, b, ks)
    ensures AllVetted(env, section, a + b, ks)
  {}

  lemma CachedKeys(env: Env, entries: map<Name, KeyEntry>, zone: Name)
    requires KeysTrusted(env, entries) && Canon(zone) in entries
    ensures TrustedKeys(env, zone, entries[Canon(zone)].keys) && entries[Canon(zone)].keys != []
  {
    TrustedEntry(env, entries, Canon(zone));
    CanonIdempotent(zone);
    TrustedUpToCase(env, Canon(zone), zone, entries[Canon(zone)].keys);
    TrustedNotEmpty(env, zone, entries[Canon(zone)].keys);
  }

  /** The set of one name and type among records is verified, and if it came from a
      wildcard that is proved right. The name is given lowercased. */
  ghost predicate SetEarnedBy(env: Env, qname: Name, qtype: U16, zone: Name, ks: seq<DNSKEY>, msg: Message,
                              records: seq<RR>, name: Name, rtype: U16, sig: RRSIG, owner: Name) {
    && IsSubdomainOrEqual(qname, zone) && TrustedKeys(env, zone, ks) && Received(env, msg, qname, qtype)
    && Carries(msg.answers, RecordsOfType(records, rtype, name), sig)
    && SignedBy(env, RecordsOfType(records, rtype, name), sig, ks)
    && EqualName(owner, name)
    && (IsWildcardExpansion(owner, sig) ==> DecidedIn(env, msg.authorities, NothingCloser(owner), ks, Proven))
  }

  ghost predicate SetEarned(env: Env, qname: Name, qtype: U16, zone: Name, ks: seq<DNSKEY>, msg: Message,
                            records: seq<RR>, name: Name, rtype: U16) {
    forall j {:trigger Opened(Door.RecordSets, j)} | Opened(Door.RecordSets, j) ::
      exists sig, owner :: SetEarnedBy(env, qname, qtype, zone, ks, msg, records, name, rtype, sig, owner)
  }

  lemma SetEarnedLater(e: Env, f: Env, qname: Name, qtype: U16, zone: Name, ks: seq<DNSKEY>, msg: Message,
                       records: seq<RR>, name: Name, rtype: U16)
    requires Wider(e, f) && SetEarned(e, qname, qtype, zone, ks, msg, records, name, rtype)
    ensures SetEarned(f, qname, qtype, zone, ks, msg, records, name, rtype)
  {
    assert Opened(Door.RecordSets, 0);
    var sig, owner :| SetEarnedBy(e, qname, qtype, zone, ks, msg, records, name, rtype, sig, owner);
    TrustedLater(e, f, zone, ks);
    ReceivedLater(e, f, msg, qname, qtype);
    SignedLater(e, f, RecordsOfType(records, rtype, name), sig, ks);
    if IsWildcardExpansion(owner, sig) { DecidedLater(e, f, msg.authorities, NothingCloser(owner), ks, Proven); }
    assert SetEarnedBy(f, qname, qtype, zone, ks, msg, records, name, rtype, sig, owner);
  }

  lemma CanonSame(name: Name)
    ensures EqualName(name, Canon(name))
  {
    CanonIdempotent(name);
  }

  lemma SameLengthNames(a: Name, b: Name)
    requires EqualName(a, b)
    ensures |a| == |b|
  {
    assert |Canon(a)| == |Canon(b)|;
  }

  lemma SetIsEarned(env: Env, qname: Name, qtype: U16, zone: Name, ks: seq<DNSKEY>, msg: Message, records: seq<RR>,
                    rr: RR, sig: RRSIG)
    requires IsSubdomainOrEqual(qname, zone) && TrustedKeys(env, zone, ks) && Received(env, msg, qname, qtype)
    requires Carries(msg.answers, RecordsOfType(records, rr.rtype, rr.name), sig)
    requires SignedBy(env, RecordsOfType(records, rr.rtype, rr.name), sig, ks)
    requires IsWildcardExpansion(rr.name, sig) ==>
               DecidedIn(env, msg.authorities, NothingCloser(rr.name), ks, Proven)
    ensures SetEarned(env, qname, qtype, zone, ks, msg, records, Canon(rr.name), rr.rtype)
  {
    CanonSame(rr.name);
    ScanUpToCase(records, rr.name, Canon(rr.name), rr.rtype);
    assert SetEarnedBy(env, qname, qtype, zone, ks, msg, records, Canon(rr.name), rr.rtype, sig, rr.name);
  }

  lemma EarnFromSet(env: Env, qname: Name, qtype: U16, zone: Name, ks: seq<DNSKEY>, msg: Message, records: seq<RR>,
                    rr: RR)
    requires rr in records && rr.rclass == ClassIN
    requires SetEarned(env, qname, qtype, zone, ks, msg, records, Canon(rr.name), rr.rtype)
    ensures EarnedIn(env, qname, qtype, msg, rr)
  {
    assert Opened(Door.RecordSets, 0);
    var sig, owner :| SetEarnedBy(env, qname, qtype, zone, ks, msg, records, Canon(rr.name), rr.rtype, sig, owner);
    CanonSame(rr.name);
    ScanUpToCase(records, rr.name, Canon(rr.name), rr.rtype);
    RecordsHold(records, rr);
    SameLengthNames(owner, rr.name);
    assert IsWildcardExpansion(rr.name, sig) ==> ExpansionProved(env, msg.authorities, rr, owner, ks);
    assert EarnedBy(env, qname, qtype, rr, zone, ks, msg, RecordsOfType(records, rr.rtype, rr.name), sig);
  }

  /** The first k records are verified, and the sets already seen. */
  ghost predicate CheckedUpTo(env: Env, qname: Name, qtype: U16, zone: Name, ks: seq<DNSKEY>, msg: Message,
                              records: seq<RR>, k: nat, seen: set<(Name, U16)>) {
    forall i {:trigger Opened(Door.Seen, i)} | Opened(Door.Seen, i) ::
      && (forall j | 0 <= j < k <= |records| :: EarnedIn(env, qname, qtype, msg, records[j]))
      && (forall id | id in seen :: SetEarned(env, qname, qtype, zone, ks, msg, records, id.0, id.1))
      && (ks == [] ==> seen == {})
  }

  lemma CheckedNone(env: Env, qname: Name, qtype: U16, zone: Name, ks: seq<DNSKEY>, msg: Message, records: seq<RR>)
    ensures CheckedUpTo(env, qname, qtype, zone, ks, msg, records, 0, {})
  {}

  lemma CheckedLater(e: Env, f: Env, qname: Name, qtype: U16, zone: Name, ks: seq<DNSKEY>, msg: Message,
                     records: seq<RR>, k: nat, seen: set<(Name, U16)>)
    requires Wider(e, f) && CheckedUpTo(e, qname, qtype, zone, ks, msg, records, k, seen)
    ensures CheckedUpTo(f, qname, qtype, zone, ks, msg, records, k, seen)
  {
    assert Opened(Door.Seen, 0);
    forall j | 0 <= j < k <= |records| ensures EarnedIn(f, qname, qtype, msg, records[j]) {
      EarnedInLater(e, f, qname, qtype, msg, records[j]);
    }
    forall id | id in seen ensures SetEarned(f, qname, qtype, zone, ks, msg, records, id.0, id.1) {
      SetEarnedLater(e, f, qname, qtype, zone, ks, msg, records, id.0, id.1);
    }
  }

  lemma CheckedSet(env: Env, qname: Name, qtype: U16, zone: Name, ks: seq<DNSKEY>, msg: Message, records: seq<RR>,
                   k: nat, seen: set<(Name, U16)>, id: (Name, U16))
    requires CheckedUpTo(env, qname, qtype, zone, ks, msg, records, k, seen) && ks != []
    requires SetEarned(env, qname, qtype, zone, ks, msg, records, id.0, id.1)
    ensures CheckedUpTo(env, qname, qtype, zone, ks, msg, records, k, seen + {id})
  {
    assert Opened(Door.Seen, 0);
  }

  lemma CheckedStep(env: Env, qname: Name, qtype: U16, zone: Name, ks: seq<DNSKEY>, msg: Message, records: seq<RR>,
                    k: nat, seen: set<(Name, U16)>)
    requires CheckedUpTo(env, qname, qtype, zone, ks, msg, records, k, seen) && k < |records| && AllIn(records)
    requires (Canon(records[k].name), records[k].rtype) in seen
    ensures CheckedUpTo(env, qname, qtype, zone, ks, msg, records, k + 1, seen) && ks != []
  {
    assert Opened(Door.Seen, 0);
    var id := (Canon(records[k].name), records[k].rtype);
    assert SetEarned(env, qname, qtype, zone, ks, msg, records, id.0, id.1);
    EarnFromSet(env, qname, qtype, zone, ks, msg, records, records[k]);
  }

  lemma CheckedSoFar(env: Env, qname: Name, qtype: U16, zone: Name, ks: seq<DNSKEY>, msg: Message, records: seq<RR>,
                     k: nat, seen: set<(Name, U16)>)
    requires CheckedUpTo(env, qname, qtype, zone, ks, msg, records, k, seen) && k <= |records|
    ensures forall j | 0 <= j < k :: EarnedIn(env, qname, qtype, msg, records[j])
  {
    assert Opened(Door.Seen, 0);
  }

  lemma CheckedAll(env: Env, qname: Name, qtype: U16, zone: Name, ks: seq<DNSKEY>, msg: Message, records: seq<RR>,
                   seen: set<(Name, U16)>)
    requires CheckedUpTo(env, qname, qtype, zone, ks, msg, records, |records|, seen)
    ensures AllEarnedIn(env, qname, qtype, msg, records)
  {
    assert Opened(Door.Seen, 0);
  }

  lemma DoubtBySignature(env: Env, qname: Name, qtype: U16, zone: Name, sec: SecState, resp: Message,
                         records: seq<RR>, rr: RR)
    requires SecOk(env, zone, sec) && sec.secure && IsSubdomainOrEqual(qname, zone)
    requires rr in records && rr.rclass == ClassIN && Received(env, resp, qname, qtype)
    requires SomeUncheckable(env, RecordsOfType(records, rr.rtype, rr.name), resp.answers, sec.keys)
    ensures DoubtIn(env, qname, qtype, resp, rr)
  {
    var rrset := RecordsOfType(records, rr.rtype, rr.name);
    var sig, key, tick: nat :| UncheckableWith(env, rrset, resp.answers, sec.keys, sig, key, tick);
    RecordsHold(records, rr);
    assert UncheckedRecord(env, qname, qtype, rr, zone, sec.keys, resp, rrset, sig, key, tick);
  }

  lemma DoubtByProof(env: Env, qname: Name, qtype: U16, zone: Name, ks: seq<DNSKEY>, resp: Message, rr: RR)
    requires IsSubdomainOrEqual(qname, zone) && TrustedKeys(env, zone, ks) && Received(env, resp, qname, qtype)
    requires DecidedIn(env, resp.authorities, NothingCloser(rr.name), ks, Verdict.Unsupported)
    ensures DoubtIn(env, qname, qtype, resp, rr)
  {
    assert UncheckedProof(env, qname, qtype, rr, rr.name, zone, ks, resp);
  }

  // ---- why each end of a walk keeps its promise ----

  ghost predicate WalkOk(env: Env, validating: bool, qname: Name, w: Walk) {
    && IsSubdomainOrEqual(qname, w.zone) && StateOk(env, validating, w.zone, w.sec) && (w.fromCache ==> w.zone != [])
    && Usable(env, w.servers)
  }

  /** Only the root is ever without keys, and the root is never a cached start. */
  lemma KeylessAtRoot(env: Env, validating: bool, qname: Name, w: Walk)
    requires WalkOk(env, validating, qname, w)
    ensures Keyless(w.sec) ==> w.zone == [] && !w.fromCache
  {
    if Keyless(w.sec) && TrustedKeys(env, w.zone, w.sec.keys) { TrustedNotEmpty(env, w.zone, w.sec.keys); }
  }

  /** A chain a response gives leads to its end. */
  lemma ChaseLeads(env: Env, resp: Message, qname: Name, qtype: U16, cnameDepth: nat, c: Chased)
    requires cnameDepth < MAX_CNAME_CHAIN && Received(env, resp, qname, qtype)
    requires c == Chase(resp.answers, qname, qtype, cnameDepth) && c.Chased?
    ensures LeadsTo(env, qname, qtype, cnameDepth, c.chain, c.name)
  {
    ChaseIsChain(resp.answers, qname, qtype, cnameDepth);
    GivenHere(env, qname, qtype, c.chain, resp);
  }

  /** An error about the end of a chain is one about the name the chain starts from. */
  lemma FailedAlias(env: Env, validating: bool, resp: Message, qname: Name, qtype: U16, cnameDepth: nat, c: Chased,
                    o: Outcome)
    requires cnameDepth < MAX_CNAME_CHAIN && Received(env, resp, qname, qtype)
    requires c == Chase(resp.answers, qname, qtype, cnameDepth) && c.Chased? && c.chain != [] && o.Failed?
    requires Promised(env, validating, c.name, qtype, cnameDepth + |c.chain|, o)
    ensures Promised(env, validating, qname, qtype, cnameDepth, o)
  {
    ChaseLeads(env, resp, qname, qtype, cnameDepth, c);
    FailedFrom(env, validating, qname, qtype, cnameDepth, c.chain, c.name, o);
  }

  lemma FailedFrom(env: Env, validating: bool, qname: Name, qtype: U16, cnameDepth: nat, chain: seq<RR>, last: Name,
                   o: Outcome)
    requires LeadsTo(env, qname, qtype, cnameDepth, chain, last) && o.Failed?
    requires Promised(env, validating, last, qtype, cnameDepth + |chain|, o)
    ensures Promised(env, validating, qname, qtype, cnameDepth, o)
  {
    FailsFurther(env, validating, qname, qtype, cnameDepth, chain, last, o.error);
  }

  lemma ChainHeld(section: seq<RR>, name: Name, qtype: U16, used: nat)
    requires used < MAX_CNAME_CHAIN
    ensures var c := Chase(section, name, qtype, used);
            c.Chased? ==> AllIn(c.chain) && forall rr | rr in c.chain :: rr in section
  {
    ChaseIsChain(section, name, qtype, used);
  }

  lemma ChaseBound(section: seq<RR>, name: Name, qtype: U16, used: nat)
    requires used < MAX_CNAME_CHAIN
    ensures var c := Chase(section, name, qtype, used); c.Chased? ==> used + |c.chain| < MAX_CNAME_CHAIN
  {
    ChaseIsChain(section, name, qtype, used);
  }

  /** Nothing chased is nothing there: no record of the type, and no alias. */
  lemma NothingChased(section: seq<RR>, qname: Name, qtype: U16, cnameDepth: nat)
    requires cnameDepth < MAX_CNAME_CHAIN && Chase(section, qname, qtype, cnameDepth).Chased?
    requires Chase(section, qname, qtype, cnameDepth).chain == [] == Chase(section, qname, qtype, cnameDepth).answers
    ensures RecordsOfType(section, qtype, qname) == [] && LastAlias(section, qname, qtype) == None
  {}

  /** A response with nothing there chases nothing. */
  lemma UnsettledChased(msg: Message, qname: Name, qtype: U16, cnameDepth: nat)
    requires cnameDepth < MAX_CNAME_CHAIN && Unsettled(msg, qname, qtype)
    ensures Chase(msg.answers, qname, qtype, cnameDepth) == Chased([], qname, [])
  {}

  /** The chain of trust that breaks above a signer breaks above the names below it. */
  lemma BreaksAbove(env: Env, name: Name, zone: Name)
    requires NotValidatedMeans(env, zone) && IsSubdomainOrEqual(name, zone)
    ensures NotValidatedMeans(env, name)
  {
    assert Opened(Door.Failures, 0);
    var above :| BrokenAbove(env, zone, above);
    SuffixTrans(Canon(above), Canon(zone), Canon(name));
    BreaksBelow(env, name, above);
  }

  /** What a response holds was refused by the keys of the walk's zone. */
  ghost predicate HeldRefused(env: Env, qname: Name, qtype: U16, cnameDepth: nat, resp: Message, w: Walk)
    requires cnameDepth < MAX_CNAME_CHAIN
  {
    || (resp.header.rcode == 3 && Unproved(env, resp.authorities, NoSuchName(qname), w.sec.keys))
    || (resp.header.rcode == 0 && ReadRefused(env, qname, qtype, cnameDepth, resp, w.zone, w.sec.keys))
  }

  lemma BogusHere(env: Env, validating: bool, qname: Name, qtype: U16, cnameDepth: nat, resp: Message, w: Walk)
    requires cnameDepth < MAX_CNAME_CHAIN && Received(env, resp, qname, qtype) && IsSubdomainOrEqual(qname, w.zone)
    requires StateOk(env, validating, w.zone, w.sec) && w.sec.secure
    requires HeldRefused(env, qname, qtype, cnameDepth, resp, w)
    ensures validating && Promised(env, validating, qname, qtype, cnameDepth, Failed(Bogus))
  {
    assert BogusBy(env, qname, qtype, cnameDepth, resp, w.zone, w.sec.keys);
    FailsHere(env, validating, qname, qtype, cnameDepth, Bogus);
  }

  lemma AnswerEnds(env: Env, qname: Name, qtype: U16, cnameDepth: nat, resp: Message, c: Chased)
    requires cnameDepth < MAX_CNAME_CHAIN && resp.header.rcode == 0 && Received(env, resp, qname, qtype)
    requires c == Chase(resp.answers, qname, qtype, cnameDepth) && c.Chased? && c.answers != []
    ensures Ends(env, qname, qtype, c.chain + c.answers, [])
  {
    ChaseIsChain(resp.answers, qname, qtype, cnameDepth);
    FinalAnswers(resp.answers, c.name, qtype);
    ChainThen(qname, c.chain, c.name, qtype, c.answers);
    ChainEnd(qname, c.chain, c.name);
    var all := c.chain + c.answers;
    assert NameAfter(qname, all, |c.chain|) == NameAfter(qname, c.chain, |c.chain|);
    assert all[|c.chain|..] == c.answers;
    EndsHere(env, qname, qtype, all, resp);
  }

  lemma StateJustified(env: Env, validate: bool, zone: Name, sec: SecState)
    requires StateOk(env, validate, zone, sec) && zone != []
    ensures Justified(env, validate, zone, sec.secure)
  {}

  lemma WalkEncloses(env: Env, validating: bool, qname: Name, w: Walk)
    requires WalkOk(env, validating, qname, w)
    ensures |w.zone| <= |qname|
  {
    Enclosed(qname, w.zone);
  }

  /** Every round that does not end the walk leaves it fewer to go: the measure
      that ends it whatever the servers answer. */
  ghost predicate Fewer(qname: Name, w: Walk, minimizeOff: bool, next: Walk, off: bool) {
    forall j {:trigger Opened(Door.Rounds, j)} | Opened(Door.Rounds, j) ::
      && |w.zone| <= |qname| && |next.zone| <= |qname|
      && RoundsLeft(|qname|, |qname| - |next.zone|, next.fromCache, off)
         < RoundsLeft(|qname|, |qname| - |w.zone|, w.fromCache, minimizeOff)
  }

  lemma FewerWithoutMinimizing(qname: Name, w: Walk)
    requires |w.zone| + 2 <= |qname|
    ensures Fewer(qname, w, false, w, true)
  {}

  lemma FewerFromRoot(qname: Name, w: Walk, minimizeOff: bool, next: Walk)
    requires |w.zone| <= |qname| && w.fromCache && next.zone == [] && !next.fromCache
    ensures Fewer(qname, w, minimizeOff, next, minimizeOff)
  {}

  lemma FewerBelow(qname: Name, w: Walk, minimizeOff: bool, next: Walk)
    requires |w.zone| < |next.zone| <= |qname| && !next.fromCache
    ensures Fewer(qname, w, minimizeOff, next, false)
  {}

  lemma WalkExempt(env: Env, qname: Name, w: Walk)
    requires WalkOk(env, true, qname, w) && !w.sec.secure
    ensures Exempt(env, qname)
  {
    ExemptBelow(env, qname, w.zone);
  }

  lemma SettledHere(env: Env, zone: Name, sec: SecState, resp: Message, qname: Name, qtype: U16, claim: Claim,
                    v: Verdict)
    requires SecOk(env, zone, sec) && sec.secure && IsSubdomainOrEqual(qname, zone)
    requires Received(env, resp, qname, qtype)
    requires DecidedIn(env, resp.authorities, claim, sec.keys, v) && v != NoDenial
    ensures Settled(env, qname, qtype, claim, v)
  {
    NothingDecided(env, zone, sec, resp.authorities, claim, v);
    assert SettledBy(env, qname, qtype, claim, v, zone, sec.keys, resp);
  }

  lemma NameErrorGrounds(env: Env, zone: Name, sec: SecState, resp: Message, qname: Name, qtype: U16, v: Verdict)
    requires StateOk(env, true, zone, sec) && IsSubdomainOrEqual(qname, zone) && Received(env, resp, qname, qtype)
    requires sec.secure ==>
               DecidedIn(env, resp.authorities, NoSuchName(qname), sec.keys, v)
               && (v == Proven || v == Verdict.Unsupported)
    ensures NameErrorMeans(env, qname, qtype)
  {
    if sec.secure {
      SettledHere(env, zone, sec, resp, qname, qtype, NoSuchName(qname), v);
    } else {
      ExemptBelow(env, qname, zone);
    }
  }

  lemma NoDataGrounds(env: Env, validating: bool, w: Walk, resp: Message, qname: Name, qtype: U16, d: DenialCheck)
    requires WalkOk(env, validating, qname, w) && d != Refuted && Received(env, resp, qname, qtype)
    requires d == Proved ==> w.sec.secure
    requires w.sec.secure ==> DecidedIn(env, resp.authorities, NoSuchData(qname, qtype), w.sec.keys,
                                        if d == Proved then Proven else Verdict.Unsupported)
    ensures d == Proved ==> validating && SecureMeans(env, qname, qtype, [])
    ensures validating && d != Proved ==> Excused(env, qname, qtype, [])
    ensures AllGiven(env, qname, qtype, [])
  {
    if w.sec.secure {
      var v := if d == Proved then Proven else Verdict.Unsupported;
      SettledHere(env, w.zone, w.sec, resp, qname, qtype, NoSuchData(qname, qtype), v);
      if d == Proved { SecureEmpty(env, qname, qtype); } else { ExcusedByProof(env, qname, qtype); }
    } else if validating {
      WalkExempt(env, qname, w);
      ExcusedByCut(env, qname, qtype, []);
    }
  }

  lemma AnswerShape(section: seq<RR>, qname: Name, qtype: U16, cnameDepth: nat, c: Chased)
    requires cnameDepth < MAX_CNAME_CHAIN && c == Chase(section, qname, qtype, cnameDepth) && c.Chased?
        && c.answers != []
    ensures var all := c.chain + c.answers;
            && Follows(qname, qtype, all) && AllIn(all)
            && Links(qtype, all) == |c.chain| < |all| && cnameDepth + |c.chain| < MAX_CNAME_CHAIN
            && forall rr | rr in all :: rr in section
  {
    ChaseIsChain(section, qname, qtype, cnameDepth);
    RecordsOwned(section, qtype, c.name);
    FinalAnswers(section, c.name, qtype);
    ChainThen(qname, c.chain, c.name, qtype, c.answers);
  }

  lemma AnswerExcused(env: Env, w: Walk, qname: Name, qtype: U16, resp: Message, all: seq<RR>)
    requires WalkOk(env, true, qname, w)
    requires w.sec.secure ==> exists k: nat :: DoubtedFrom(env, qname, qtype, resp, all, k)
    ensures Excused(env, qname, qtype, all)
  {
    if w.sec.secure {
      var j: nat :| DoubtedFrom(env, qname, qtype, resp, all, j);
      ExcusedByRecord(env, qname, qtype, all, j);
    } else {
      WalkExempt(env, qname, w);
      ExcusedByCut(env, qname, qtype, all);
    }
  }

  lemma AliasPromised(env: Env, validating: bool, w: Walk, qname: Name, qtype: U16, cnameDepth: nat, c: Chased,
                      rest: Result, chainSecure: bool, doubted: nat)
    requires WalkOk(env, validating, qname, w) && c.Chased? && c.chain != [] && qtype != TypeCNAME
    requires IsChain(qname, c.chain, c.name) && AllIn(c.chain) && AllGiven(env, qname, qtype, c.chain)
    requires Promised(env, validating, c.name, qtype, cnameDepth + |c.chain|, Resolved(rest))
    requires chainSecure ==> w.sec.secure && AllEarned(env, qname, qtype, c.chain)
    requires validating && w.sec.secure && !chainSecure ==>
            && doubted < |c.chain|
            && RecordDoubt(env, qname, qtype, c.chain[doubted])
    ensures Promised(env, validating, qname, qtype, cnameDepth,
                     Resolved(Result(c.chain + rest.answers, rest.authority, rest.secure && chainSecure)))
  {
    var all := c.chain + rest.answers;
    ChainThen(qname, c.chain, c.name, qtype, rest.answers);
    GivenAfter(env, qname, c.chain, c.name, qtype, rest.answers);
    EndsAfter(env, qname, c.chain, c.name, qtype, rest.answers, rest.authority);
    if rest.secure && chainSecure {
      SecureAfter(env, qname, c.chain, c.name, qtype, rest.answers);
    } else if validating {
      if !rest.secure {
        ExcusedAfter(env, qname, c.chain, c.name, qtype, rest.answers);
      } else if w.sec.secure {
        assert all[doubted] == c.chain[doubted];
        ExcusedByRecord(env, qname, qtype, all, doubted);
      } else {
        WalkExempt(env, qname, w);
        ExcusedByCut(env, qname, qtype, all);
      }
    }
  }

  /** What checking the chain of aliases in a response came to. */
  ghost predicate ChainCheckedAs(env: Env, w: Walk, resp: Message, qname: Name, qtype: U16, chain: seq<RR>,
                                 secure: bool) {
    if secure then w.sec.secure && AllEarnedIn(env, qname, qtype, resp, chain)
    else w.sec.secure ==> exists k: nat :: DoubtedFrom(env, qname, qtype, resp, chain, k)
  }

  lemma AliasJoined(env: Env, validating: bool, w: Walk, resp: Message, qname: Name, qtype: U16, cnameDepth: nat,
                    c: Chased, inner: Outcome, chainSecure: bool)
    requires cnameDepth < MAX_CNAME_CHAIN && WalkOk(env, validating, qname, w) && Received(env, resp, qname, qtype)
    requires c == Chase(resp.answers, qname, qtype, cnameDepth) && c.Chased? && c.chain != [] && inner.Resolved?
    requires Promised(env, validating, c.name, qtype, cnameDepth + |c.chain|, inner)
    requires ChainCheckedAs(env, w, resp, qname, qtype, c.chain, chainSecure)
    ensures var rest := inner.result;
            Promised(env, validating, qname, qtype, cnameDepth,
                     Resolved(Result(c.chain + rest.answers, rest.authority, rest.secure && chainSecure)))
  {
    ChaseIsChain(resp.answers, qname, qtype, cnameDepth);
    GivenHere(env, qname, qtype, c.chain, resp);
    var doubted: nat := 0;
    if w.sec.secure && !chainSecure {
      doubted :| DoubtedFrom(env, qname, qtype, resp, c.chain, doubted);
    }
    if chainSecure { InOneIsEarned(env, qname, qtype, resp, c.chain); }
    AliasPromised(env, validating, w, qname, qtype, cnameDepth, c, inner.result, chainSecure, doubted);
  }
}

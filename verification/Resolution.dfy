/** The iterative walk from the root, or from a cached zone, down to the servers
    that answer, carrying the chain of trust along (resolver/resolver.go and
    resolver/validate.go). */
module Resolution {
  import opened Octets
  import opened Names
  import opened Messages
  import opened Nsec3
  import opened Denial
  import opened Signing
  import opened Times
  import opened Delegations
  import opened Trust
  import opened Aliases
  import opened Referrals
  import opened Refusals
  import opened Outcomes
  import opened Spans

  const MAX_REFERRALS := 30
  const MAX_GLUE_LOOKUPS := 6

  /** What a walk knows about the zone it is in. */
  datatype SecState = SecState(secure: bool, keys: seq<DNSKEY>)

  const INSECURE := SecState(false, [])

  datatype SetCheck = Covered(sig: RRSIG) | NotCovered | CannotCheck

  datatype DenialCheck = Proved | Unknown | Refuted

  datatype Walk = Walk(zone: Name, servers: seq<Bytes>, sec: SecState, fromCache: bool)

  // ---- what the caches and the walk keep ----

  ghost predicate KeysTrusted(env: Env, entries: map<Name, KeyEntry>) {
    forall j {:trigger Opened(Door.KeyCaches, j)} | Opened(Door.KeyCaches, j) ::
      forall z | z in entries :: TrustedKeys(env, z, entries[z].keys)
  }

  /** A delegation marked secure was reached by a chain of trust; one that is not
      lies below the end of one. */
  ghost predicate Justified(env: Env, validate: bool, zone: Name, secure: bool) {
    if secure then exists ks :: TrustedKeys(env, zone, ks) else validate ==> Exempt(env, zone)
  }

  ghost predicate AllJustified(env: Env, validate: bool, entries: map<Name, Delegation>) {
    forall j {:trigger Opened(Door.Delegated, j)} | Opened(Door.Delegated, j) ::
      forall z | z in entries :: Justified(env, validate, z, entries[z].secure) && Usable(env, entries[z].servers)
  }

  /** Secure means trusted keys for the zone, or none at all at the root, if no trust
      anchor's algorithm could be checked. */
  ghost predicate SecOk(env: Env, zone: Name, sec: SecState) {
    sec.secure ==> KeysFor(env, zone, sec.keys)
  }

  ghost predicate StateOk(env: Env, validating: bool, zone: Name, sec: SecState) {
    && SecOk(env, zone, sec)
    && (sec.secure ==> validating)
    && (validating && !sec.secure ==> Exempt(env, zone))
  }

  lemma JustifiedSubset(env: Env, validate: bool, entries: map<Name, Delegation>, fewer: map<Name, Delegation>)
    requires AllJustified(env, validate, entries)
    requires forall z | z in fewer :: z in entries && fewer[z] == entries[z]
    ensures AllJustified(env, validate, fewer)
  {
    assert Opened(Door.Delegated, 0);
  }

  lemma JustifiedEntry(env: Env, validate: bool, entries: map<Name, Delegation>, z: Name)
    requires AllJustified(env, validate, entries) && z in entries
    ensures Justified(env, validate, z, entries[z].secure) && Usable(env, entries[z].servers)
  {
    assert Opened(Door.Delegated, 0);
  }

  lemma JustifiedPut(env: Env, validate: bool, entries: map<Name, Delegation>, more: map<Name, Delegation>,
      zone: Name, d: Delegation)
    requires AllJustified(env, validate, entries) && Justified(env, validate, zone, d.secure) && Usable(env, d.servers)
    requires forall z | z in more && z != zone :: z in entries && more[z] == entries[z]
    requires zone in more ==> more[zone] == d
    ensures AllJustified(env, validate, more)
  {
    assert Opened(Door.Delegated, 0);
  }

  lemma JustifiedUpToCase(env: Env, validate: bool, zone: Name, other: Name, secure: bool)
    requires EqualName(zone, other) && Justified(env, validate, zone, secure)
    ensures Justified(env, validate, other, secure)
  {
    if secure {
      var ks :| TrustedKeys(env, zone, ks);
      TrustedUpToCase(env, zone, other, ks);
    } else if validate {
      ExemptBelow(env, other, zone);
    }
  }

  lemma TrustedEntry(env: Env, entries: map<Name, KeyEntry>, z: Name)
    requires KeysTrusted(env, entries) && z in entries
    ensures TrustedKeys(env, z, entries[z].keys)
  {
    assert Opened(Door.KeyCaches, 0);
  }

  lemma TrustedPut(env: Env, entries: map<Name, KeyEntry>, zone: Name, e: KeyEntry)
    requires KeysTrusted(env, entries) && TrustedKeys(env, zone, e.keys)
    ensures KeysTrusted(env, entries[Canon(zone) := e])
  {
    CanonIdempotent(zone);
    TrustedUpToCase(env, zone, Canon(zone), e.keys);
    assert Opened(Door.KeyCaches, 0);
  }

  // ---- as the span widens ----

  lemma KeysTrustedLater(e: Env, f: Env, entries: map<Name, KeyEntry>)
    requires Wider(e, f) && KeysTrusted(e, entries)
    ensures KeysTrusted(f, entries)
  {
    assert Opened(Door.KeyCaches, 0);
    forall z | z in entries ensures TrustedKeys(f, z, entries[z].keys) { TrustedLater(e, f, z, entries[z].keys); }
  }

  lemma JustifiedLater(e: Env, f: Env, validate: bool, zone: Name, secure: bool)
    requires Wider(Past(e), Past(f)) && Justified(e, validate, zone, secure)
    ensures Justified(f, validate, zone, secure)
  {
    if secure {
      var ks :| TrustedKeys(e, zone, ks);
      TrustedLater(e, f, zone, ks);
    } else if validate {
      ExemptLater(e, f, zone);
    }
  }

  lemma AllJustifiedLater(e: Env, f: Env, validate: bool, entries: map<Name, Delegation>)
    requires Wider(e, f) && AllJustified(e, validate, entries)
    ensures AllJustified(f, validate, entries)
  {
    assert Opened(Door.Delegated, 0);
    forall z | z in entries ensures Justified(f, validate, z, entries[z].secure) && Usable(f, entries[z].servers) {
      JustifiedLater(e, f, validate, z, entries[z].secure);
    }
  }

  lemma SecLater(e: Env, f: Env, zone: Name, sec: SecState)
    requires Wider(Past(e), Past(f)) && SecOk(e, zone, sec)
    ensures SecOk(f, zone, sec)
  {
    if sec.secure { KeysForLater(e, f, zone, sec.keys); }
  }

  lemma StateLater(e: Env, f: Env, validating: bool, zone: Name, sec: SecState)
    requires Wider(Past(e), Past(f)) && StateOk(e, validating, zone, sec)
    ensures StateOk(f, validating, zone, sec)
  {
    SecLater(e, f, zone, sec);
    if validating && !sec.secure { ExemptLater(e, f, zone); }
  }

  // ---- names on the way down ----

  lemma Enclosed(qname: Name, zone: Name)
    requires IsSubdomainOrEqual(qname, zone)
    ensures |zone| <= |qname| && (|zone| == |qname| ==> EqualName(qname, zone))
  {
    assert |Canon(qname)| == |qname| && |Canon(zone)| == |zone|;
    assert Canon(qname)[0..] == Canon(qname);
  }

  lemma Deeper(name: Name, zone: Name)
    requires IsProperSubdomain(name, zone)
    ensures |zone| < |name|
  {
    Enclosed(name, zone);
  }

  lemma EnclosedRoot(name: Name)
    ensures IsSubdomainOrEqual(name, [])
  {}

  /** The name one label below a zone, on the way down to another. */
  lemma OneLabelDown(to: Name, zone: Name)
    requires IsSubdomainOrEqual(to, zone) && !EqualName(to, zone)
    ensures var child := MinimizedQName(to, zone);
            |child| == |zone| + 1 && IsProperSubdomain(child, zone) && IsSubdomainOrEqual(to, child)
  {
    Enclosed(to, zone);
    var k := |to| - |zone| - 1;
    CanonSlice(to, k);
    assert Canon(to)[k..][1..] == Canon(to)[k + 1..];
  }

  /** A query is minimized only where two labels or more are still to go. */
  lemma MinimizingFar(qname: Name, zone: Name)
    requires !EqualName(MinimizedQName(qname, zone), qname)
    ensures |zone| + 2 <= |qname|
  {
    assert qname[0..] == qname;
  }

  lemma SearchedZone(z: Name, qname: Name)
    requires IsSuffix(z, Canon(qname))
    ensures IsSubdomainOrEqual(qname, z)
  {
    var k := |qname| - |z|;
    CanonIdempotent(qname);
    CanonSlice(Canon(qname), k);
    assert Canon(z) == Canon(Canon(qname))[k..] == z;
  }

  // ---- how many rounds a walk can take ----

  /** Rounds a walk can still take: depth labels left, and whether this server may
      still be asked the shorter name. */
  function RoundsFrom(depth: nat, minimizeOff: bool): nat {
    if depth <= 1 then depth + 1 else if minimizeOff then 2 * depth - 1 else 2 * depth
  }

  /** The same before a cached delegation has proved alive: it may still have to
      start over at the root. */
  function RoundsLeft(labels: nat, depth: nat, fromCache: bool, minimizeOff: bool): nat {
    if !fromCache then RoundsFrom(depth, minimizeOff)
    else if labels <= 1 then labels + 2
    else if minimizeOff then 2 * labels else 2 * labels + 1
  }

  function MaxRounds(labels: nat): nat {
    2 * labels + 2
  }

  // ---- the same while the clock stands still ----

  /** The clock reads the same second throughout. */
  ghost predicate Steady(env: Env, from: nat, to: nat, now: int) {
    forall j {:trigger Opened(Door.Clocks, j)} | Opened(Door.Clocks, j) ::
      forall t: nat | from <= t < to :: Unix(env, t) == now
  }

  lemma SteadyWithin(env: Env, from: nat, to: nat, a: nat, b: nat, now: int)
    requires Steady(env, from, to, now) && from <= a && b <= to
    ensures Steady(env, a, b, now)
  {
    assert Opened(Door.Clocks, 0);
  }

  ghost predicate SetHas(c: Crypto, rrset: seq<RR>, section: seq<RR>, ks: seq<DNSKEY>, now: int, v: Check) {
    exists sig, key :: SetHasBy(c, rrset, section, ks, now, v, sig, key)
  }

  /** The section holds a signature for the set that comes to this under one of keys. */
  predicate SetHasBy(c: Crypto, rrset: seq<RR>, section: seq<RR>, ks: seq<DNSKEY>, now: int, v: Check, sig: RRSIG,
                     key: DNSKEY) {
    && rrset != [] && sig in SigsFor(section, rrset[0].name, rrset[0].rtype) && key in ks
    && VerifyRRSet(c, rrset, sig, key, now) == v
  }

  lemma NoneHas(env: Env, from: nat, to: nat, now: int, rrset: seq<RR>, section: seq<RR>, ks: seq<DNSKEY>,
                blind: bool)
    requires Steady(env, from, to, now) && rrset != []
    requires var sigs := SigsFor(section, rrset[0].name, rrset[0].rtype);
             RefusedUpTo(env.(since := from, until := to), rrset, sigs, ks, |sigs|, 0, blind)
    ensures !SetHas(env.crypto, rrset, section, ks, now, Check.Valid)
    ensures !blind ==> !SetHas(env.crypto, rrset, section, ks, now, Check.Unsupported)
  {
    var sigs := SigsFor(section, rrset[0].name, rrset[0].rtype);
    forall sig, key | sig in sigs && key in ks
      ensures VerifyRRSet(env.crypto, rrset, sig, key, now) != Check.Valid
      ensures !blind ==> VerifyRRSet(env.crypto, rrset, sig, key, now) == Check.Invalid
    {
      var t :| 0 <= t < |sigs| && sigs[t] == sig;
      var j :| 0 <= j < |ks| && ks[j] == key;
      RefusedNow(env, from, to, now, rrset, sig, key, blind);
    }
  }

  lemma RefusedNow(env: Env, from: nat, to: nat, now: int, rrset: seq<RR>, sig: RRSIG, key: DNSKEY, blind: bool)
    requires Steady(env, from, to, now) && Refused(env.(since := from, until := to), rrset, sig, key, blind)
    ensures VerifyRRSet(env.crypto, rrset, sig, key, now) != Check.Valid
    ensures !blind ==> VerifyRRSet(env.crypto, rrset, sig, key, now) == Check.Invalid
  {
    var e := env.(since := from, until := to);
    if Tried(e, rrset, sig, key, Check.Invalid) {
      TriedNow(env, from, to, now, rrset, sig, key, Check.Invalid);
    } else {
      TriedNow(env, from, to, now, rrset, sig, key, Check.Unsupported);
    }
  }

  lemma TriedNow(env: Env, from: nat, to: nat, now: int, rrset: seq<RR>, sig: RRSIG, key: DNSKEY, c: Check)
    requires Steady(env, from, to, now) && Tried(env.(since := from, until := to), rrset, sig, key, c)
    ensures VerifyRRSet(env.crypto, rrset, sig, key, now) == c
  {
    var e := env.(since := from, until := to);
    var tick: nat :| During(e, tick) && VerdictAt(e, rrset, sig, key, tick, c);
    VerdictLater(e, env, rrset, sig, key, tick, c);
    VerdictNow(env, from, to, now, rrset, sig, key, tick, c);
  }

  lemma VerdictNow(env: Env, from: nat, to: nat, now: int, rrset: seq<RR>, sig: RRSIG, key: DNSKEY, tick: nat, c: Check)
    requires Steady(env, from, to, now) && from <= tick < to && VerdictAt(env, rrset, sig, key, tick, c)
    ensures VerifyRRSet(env.crypto, rrset, sig, key, now) == c
  {
    assert Opened(Door.Verdicts, 0);
    assert Opened(Door.Clocks, 0);
    assert Unix(env, tick) == now;
  }

  lemma OneHas(env: Env, from: nat, to: nat, now: int, rrset: seq<RR>, section: seq<RR>, ks: seq<DNSKEY>, sig: RRSIG,
               key: DNSKEY, tick: nat, c: Check)
    requires Steady(env, from, to, now) && rrset != [] && from <= tick < to && VerdictAt(env, rrset, sig, key, tick, c)
    requires sig in SigsFor(section, rrset[0].name, rrset[0].rtype) && key in ks
    ensures SetHas(env.crypto, rrset, section, ks, now, c)
  {
    VerdictNow(env, from, to, now, rrset, sig, key, tick, c);
    assert SetHasBy(env.crypto, rrset, section, ks, now, c, sig, key);
  }

  /** The set is validly signed under its own name: no valid signature the section
      holds for it was made for a wildcard. */
  ghost predicate PlainlySigned(c: Crypto, rrset: seq<RR>, section: seq<RR>, ks: seq<DNSKEY>, now: int) {
    forall j {:trigger Opened(Door.PlainSets, j)} | Opened(Door.PlainSets, j) ::
      && SetHas(c, rrset, section, ks, now, Check.Valid)
      && forall sig, key | SetHasBy(c, rrset, section, ks, now, Check.Valid, sig, key) ::
           !IsWildcardExpansion(rrset[0].name, sig)
  }

  ghost predicate AllPlainlySigned(c: Crypto, records: seq<RR>, section: seq<RR>, ks: seq<DNSKEY>, now: int) {
    forall j {:trigger Opened(Door.PlainSets, j)} | Opened(Door.PlainSets, j) ::
      forall rr | rr in records :: PlainlySigned(c, RecordsOfType(records, rr.rtype, rr.name), section, ks, now)
  }

  lemma OnePlain(c: Crypto, records: seq<RR>, section: seq<RR>, ks: seq<DNSKEY>, now: int, rr: RR)
    requires AllPlainlySigned(c, records, section, ks, now) && rr in records
    ensures PlainlySigned(c, RecordsOfType(records, rr.rtype, rr.name), section, ks, now)
  {
    assert Opened(Door.PlainSets, 0);
  }

  /** A key a digest vouches for, that signed the set. */
  ghost predicate PairGood(c: Crypto, zone: Name, section: seq<RR>, key: DNSKEY, ds: DS, now: int) {
    && VerifyDS(c, zone, key, ds) == Check.Valid
    && SetHas(c, RecordsOfType(section, TypeDNSKEY, zone), section, [key], now, Check.Valid)
  }

  /** A digest that cannot be checked, or a key it vouches for whose signature cannot. */
  ghost predicate PairBlind(c: Crypto, zone: Name, section: seq<RR>, key: DNSKEY, ds: DS, now: int) {
    || VerifyDS(c, zone, key, ds) == Check.Unsupported
    || (VerifyDS(c, zone, key, ds) == Check.Valid
        && SetHas(c, RecordsOfType(section, TypeDNSKEY, zone), section, [key], now, Check.Unsupported))
  }

  ghost predicate KeysGood(c: Crypto, zone: Name, section: seq<RR>, anchors: seq<DS>, now: int) {
    exists i, a | 0 <= i < |KeysIn(section, zone)| && 0 <= a < |anchors| ::
      PairGood(c, zone, section, KeysIn(section, zone)[i], anchors[a], now)
  }

  ghost predicate KeysBlind(c: Crypto, zone: Name, section: seq<RR>, anchors: seq<DS>, now: int) {
    exists i, a | 0 <= i < |KeysIn(section, zone)| && 0 <= a < |anchors| ::
      PairBlind(c, zone, section, KeysIn(section, zone)[i], anchors[a], now)
  }

  // ---- reading sections ----

  method CollectSigs(section: seq<RR>, name: Name, rtype: U16) returns (out: seq<RRSIG>)
    ensures out == SigsFor(section, name, rtype)
  {
    out := [];
    for k := 0 to |section|
      invariant out == SigsFor(section[..k], name, rtype)
    {
      assert section[..k + 1][..k] == section[..k];
      var rr := section[k];
      if rr.rtype != TypeRRSIG || !EqualName(rr.name, name) { continue; }
      var sig := AsRRSIG(rr);
      if sig.Some? && sig.value.typeCovered == rtype { out := out + [sig.value]; }
    }
    assert section[..|section|] == section;
  }

  method PickRecords(section: seq<RR>, rtype: U16, name: Name) returns (out: seq<RR>)
    ensures out == RecordsOfType(section, rtype, name)
  {
    out := [];
    for k := 0 to |section|
      invariant out == RecordsOfType(section[..k], rtype, name)
    {
      assert section[..k + 1][..k] == section[..k];
      var rr := section[k];
      if rr.rtype == rtype && rr.rclass == ClassIN && EqualName(rr.name, name) { out := out + [rr]; }
    }
    assert section[..|section|] == section;
  }

  method CollectKeys(keySet: seq<RR>) returns (ks: seq<DNSKEY>)
    ensures ks == KeysOf(keySet)
  {
    ks := [];
    for k := 0 to |keySet|
      invariant ks == KeysOf(keySet[..k])
    {
      assert keySet[..k + 1][..k] == keySet[..k];
      var key := AsDNSKEY(keySet[k]);
      if key.Some? { ks := ks + [key.value]; }
    }
    assert keySet[..|keySet|] == keySet;
  }

  method CollectDS(dsSet: seq<RR>) returns (out: seq<DS>)
    ensures out == DSOf(dsSet)
  {
    out := [];
    for k := 0 to |dsSet|
      invariant out == DSOf(dsSet[..k])
    {
      assert dsSet[..k + 1][..k] == dsSet[..k];
      var ds := AsDS(dsSet[k]);
      if ds.Some? { out := out + [ds.value]; }
    }
    assert dsSet[..|dsSet|] == dsSet;
  }

  method MinTTLOf(rrs: seq<RR>) returns (m: U32)
    requires rrs != []
    ensures (forall i | 0 <= i < |rrs| :: m <= rrs[i].ttl) && exists i | 0 <= i < |rrs| :: m == rrs[i].ttl
  {
    m := rrs[0].ttl;
    for k := 1 to |rrs|
      invariant (forall i | 0 <= i < k :: m <= rrs[i].ttl) && exists i | 0 <= i < k :: m == rrs[i].ttl
    {
      if rrs[k].ttl < m { m := rrs[k].ttl; }
    }
  }

  /** A record's signature names a signer below zone that is above qname. */
  predicate SignedBelow(rr: RR, zone: Name, qname: Name) {
    match AsRRSIG(rr)
    case None => false
    case Some(s) => IsProperSubdomain(s.signerName, zone) && IsSubdomainOrEqual(qname, s.signerName)
  }

  lemma NotDeeper(signer: Name, deepest: Name, qname: Name)
    requires IsSubdomainOrEqual(qname, signer) && IsSubdomainOrEqual(qname, deepest)
    requires !IsProperSubdomain(signer, deepest)
    ensures |signer| <= |deepest|
  {
    if |signer| > |deepest| { SuffixNested(Canon(deepest), Canon(signer), Canon(qname)); }
  }

  /** Signer names the signer of one of the records. */
  predicate SignerIn(sections: seq<RR>, zone: Name, qname: Name, signer: Name) {
    exists i | 0 <= i < |sections| ::
      SignedBelow(sections[i], zone, qname) && AsRRSIG(sections[i]).value.signerName == signer
  }

  /** Which zone below the current one a response was signed by, if any: the
      deepest signer that is still above the name. */
  method SignerBelow(sections: seq<RR>, zone: Name, qname: Name) returns (deepest: Option<Name>)
    ensures deepest.Some? ==> IsProperSubdomain(deepest.value, zone) && IsSubdomainOrEqual(qname, deepest.value)
    ensures deepest.Some? ==> SignerIn(sections, zone, qname, deepest.value)
    ensures forall i | 0 <= i < |sections| && SignedBelow(sections[i], zone, qname) ::
              deepest.Some? && |AsRRSIG(sections[i]).value.signerName| <= |deepest.value|
  {
    deepest := None;
    for k := 0 to |sections|
      invariant deepest.Some? ==> IsProperSubdomain(deepest.value, zone) && IsSubdomainOrEqual(qname, deepest.value)
      invariant deepest.Some? ==> SignerIn(sections, zone, qname, deepest.value)
      invariant forall i | 0 <= i < k && SignedBelow(sections[i], zone, qname) ::
                  deepest.Some? && |AsRRSIG(sections[i]).value.signerName| <= |deepest.value|
    {
      var sig := AsRRSIG(sections[k]);
      if sig.None? { continue; }
      var signer := sig.value.signerName;
      if !IsProperSubdomain(signer, zone) || !IsSubdomainOrEqual(qname, signer) { continue; }
      assert SignerIn(sections, zone, qname, signer) by { assert SignedBelow(sections[k], zone, qname); }
      if deepest.None? {
        deepest := Some(signer);
      } else if IsProperSubdomain(signer, deepest.value) {
        Deeper(signer, deepest.value);
        deepest := Some(signer);
      } else {
        NotDeeper(signer, deepest.value, qname);
      }
    }
  }

  // ---- what one round makes of a reply ----

  /** A walk from the root servers. */
  ghost predicate AtRoot(env: Env, w: Walk) {
    w.zone == [] && w.servers == env.roots && !w.fromCache
  }

  predicate IsAnswer(validating: bool, o: Outcome, answers: seq<RR>, authority: seq<RR>) {
    o.Resolved? && o.result.answers == answers && o.result.authority == authority && (o.result.secure ==> validating)
  }

  predicate IsBogus(validating: bool, o: Outcome) {
    validating && o == Failed(Bogus)
  }

  ghost predicate IsNameError(o: Outcome, qname: Name, authorities: seq<RR>) {
    o.Failed? && o.error.NXDomain? && o.error.name == qname && FirstSOA(authorities, o.error.soa)
  }

  /** The outcome for the end of a chain, if that fails; otherwise the chain in front of
      it, secure only if the end is. */
  predicate Joined(validating: bool, chain: seq<RR>, inner: Outcome, o: Outcome) {
    match inner
    case Failed(_) => o == inner
    case Resolved(rest) =>
      || IsBogus(validating, o)
      || (IsAnswer(validating, o, chain + rest.answers, rest.authority) && (o.result.secure ==> rest.secure))
  }

  ghost predicate JoinedTo(env: Env, validating: bool, qtype: U16, depth: nat, chain: seq<RR>, last: Name,
                           inner: Outcome, o: Outcome) {
    Promised(env, validating, last, qtype, depth, inner) && Joined(validating, chain, inner, o)
  }

  ghost predicate JoinedToSome(env: Env, validating: bool, qtype: U16, depth: nat, chain: seq<RR>, last: Name,
                               o: Outcome) {
    exists inner :: JoinedTo(env, validating, qtype, depth, chain, last, inner, o)
  }

  /** What the response to the full question says: a name error, any other error, an
      answer, an alias that leads elsewhere, or nothing that settles it. Only a
      validating resolution may refuse it. */
  ghost predicate ReadAs(env: Env, validating: bool, qname: Name, qtype: U16, cnameDepth: nat, msg: Message,
                         o: Option<Outcome>)
    requires cnameDepth < MAX_CNAME_CHAIN
  {
    if msg.header.rcode == 3 then
      o.Some? && (IsBogus(validating, o.value) || IsNameError(o.value, qname, msg.authorities))
    else if msg.header.rcode != 0 then o == Some(Failed(BadRCode))
    else
      match Chase(msg.answers, qname, qtype, cnameDepth)
      case TooLong => o == Some(Failed(ChainTooLong(qname)))
      case Chased(chain, last, answers) =>
        if answers != [] then
          o.Some? && (IsBogus(validating, o.value) || IsAnswer(validating, o.value, chain + answers, []))
        else if chain != [] then
          o.Some? && JoinedToSome(env, validating, qtype, cnameDepth + |chain|, chain, last, o.value)
        else o == None
  }

  /** A response without error, records of the type, or aliases. */
  predicate Unsettled(msg: Message, qname: Name, qtype: U16) {
    && msg.header.rcode == 0 && RecordsOfType(msg.answers, qtype, qname) == []
    && LastAlias(msg.answers, qname, qtype) == None
  }

  /** Validation has followed the signatures of a response down to the zone that made
      them: the deepest there is, if there is one below the walk's. */
  predicate FollowedDown(w: Walk, msg: Message, qname: Name, v: Walk) {
    var sections := msg.answers + msg.authorities;
    if !w.sec.secure || forall i | 0 <= i < |sections| :: !SignedBelow(sections[i], w.zone, qname) then v == w
    else
      && SignerIn(sections, w.zone, qname, v.zone) && v.servers == w.servers && v.fromCache == w.fromCache
      && forall i | 0 <= i < |sections| && SignedBelow(sections[i], w.zone, qname) ::
           |AsRRSIG(sections[i]).value.signerName| <= |v.zone|
  }

  /** Into the zone the response refers to, with the addresses it gives of its servers if
      it gives any; or a failure, if there are none or the chain of trust breaks. */
  predicate ReferredTo(env: Env, validating: bool, ref: Referral, additionals: seq<RR>, zone: Name,
                       done: Option<Outcome>, next: Walk, off: bool) {
    var glue := GlueIn(additionals, ref.nsNames, zone, env.allowed);
    if done.Some? then
      || (done.value == Failed(NoServers) && glue == [])
      || (validating && done.value == Failed(NotValidated))
    else
      && next.zone == ref.zone && !next.fromCache && !off
      && next.servers != [] && (glue != [] ==> next.servers == glue)
  }

  /** No answer: the whole name next if the short one was asked, the root next if the
      start came from the cache, and otherwise a failure. */
  ghost predicate GaveUp(env: Env, validating: bool, w: Walk, minimizing: bool, minimizeOff: bool,
                         done: Option<Outcome>, next: Walk, off: bool) {
    forall j {:trigger Opened(Door.Steps, j)} | Opened(Door.Steps, j) ::
      if minimizing then done == None && next == w && off
      else if !w.fromCache then done == Some(Failed(NoAnswer))
      else if done.Some? then validating && done.value == Failed(NotValidated)
      else AtRoot(env, next) && off == minimizeOff
  }

  /** A response that settles nothing and refers nowhere: the whole name next if the short
      one was asked, and otherwise there is no data. */
  ghost predicate NowhereElse(validating: bool, w: Walk, msg: Message, minimizing: bool, done: Option<Outcome>,
                              next: Walk, off: bool) {
    if minimizing then done == None && next == w && off
    else
      done.Some? && (IsBogus(validating, done.value)
                     || IsAnswer(validating, done.value, [], SOAAuthority(msg.authorities)))
  }

  ghost predicate WentOn(env: Env, validating: bool, qname: Name, w: Walk, v: Walk, msg: Message, minimizing: bool,
                         done: Option<Outcome>, next: Walk, off: bool) {
    forall j {:trigger Opened(Door.Steps, j)} | Opened(Door.Steps, j) ::
      match ReferralIn(msg.authorities, qname, v.zone)
      case None => NowhereElse(validating, w, msg, minimizing, done, next, off)
      case Some(ref) => ReferredTo(env, validating, ref, msg.additionals, v.zone, done, next, off)
  }

  lemma WentInto(e: Env, f: Env, validating: bool, qname: Name, w: Walk, v: Walk, msg: Message, minimizing: bool,
                 ref: Referral, done: Option<Outcome>, next: Walk, other: Walk, off: bool)
    requires ReferralIn(msg.authorities, qname, v.zone) == Some(ref) && e.allowed == f.allowed
    requires ReferredTo(e, validating, ref, msg.additionals, v.zone, done, next, false)
    requires if done.Some? then true else other == next && !off
    ensures WentOn(f, validating, qname, w, v, msg, minimizing, done, other, off)
  {}

  lemma WentNowhere(env: Env, validating: bool, qname: Name, w: Walk, v: Walk, msg: Message, minimizing: bool,
                    done: Option<Outcome>, next: Walk, off: bool)
    requires ReferralIn(msg.authorities, qname, v.zone).None?
    requires NowhereElse(validating, w, msg, minimizing, done, next, off)
    ensures WentOn(env, validating, qname, w, v, msg, minimizing, done, next, off)
  {}

  /** What the response to the full question settles, read once validation has followed
      its signatures down to v.zone; that may fail. */
  ghost predicate Concluded(env: Env, validating: bool, qname: Name, qtype: U16, cnameDepth: nat, w: Walk, v: Walk,
                            msg: Message, o: Option<Outcome>)
    requires cnameDepth < MAX_CNAME_CHAIN
  {
    forall j {:trigger Opened(Door.Steps, j)} | Opened(Door.Steps, j) ::
      || (validating && o == Some(Failed(NotValidated)))
      || (FollowedDown(w, msg, qname, v) && ReadAs(env, validating, qname, qtype, cnameDepth, msg, o))
  }

  /** If it settles nothing, the walk goes on from there. */
  ghost predicate FullReadBy(env: Env, validating: bool, qname: Name, qtype: U16, cnameDepth: nat, w: Walk, v: Walk,
                             msg: Message, o: Option<Outcome>, done: Option<Outcome>, next: Walk, off: bool)
    requires cnameDepth < MAX_CNAME_CHAIN
  {
    && Concluded(env, validating, qname, qtype, cnameDepth, w, v, msg, o)
    && if o.Some? then done == o else WentOn(env, validating, qname, w, v, msg, false, done, next, off)
  }

  ghost predicate FullRead(env: Env, validating: bool, qname: Name, qtype: U16, cnameDepth: nat, w: Walk, v: Walk,
                           msg: Message, done: Option<Outcome>, next: Walk, off: bool)
    requires cnameDepth < MAX_CNAME_CHAIN
  {
    exists o :: FullReadBy(env, validating, qname, qtype, cnameDepth, w, v, msg, o, done, next, off)
  }

  /** That a response settles nothing stays so. */
  lemma NothingConcluded(e: Env, f: Env, validating: bool, qname: Name, qtype: U16, cnameDepth: nat, w: Walk, v: Walk,
                         msg: Message)
    requires cnameDepth < MAX_CNAME_CHAIN && Concluded(e, validating, qname, qtype, cnameDepth, w, v, msg, None)
    ensures Concluded(f, validating, qname, qtype, cnameDepth, w, v, msg, None)
  {
    assert Opened(Door.Steps, 0);
  }

  /** One round: what the reply to its question came to. */
  ghost predicate RoundReads(env: Env, validating: bool, qname: Name, qtype: U16, cnameDepth: nat, w: Walk,
                             minimizeOff: bool, reply: Reply, minimizing: bool, v: Walk, done: Option<Outcome>,
                             next: Walk, off: bool)
    requires cnameDepth < MAX_CNAME_CHAIN
  {
    forall j {:trigger Opened(Door.Steps, j)} | Opened(Door.Steps, j) ::
      match reply
      case NoReply => GaveUp(env, validating, w, minimizing, minimizeOff, done, next, off)
      case Answered(msg) =>
        if minimizing && msg.header.rcode != 0 then
          GaveUp(env, validating, w, minimizing, minimizeOff, done, next, off)
        else if minimizing then WentOn(env, validating, qname, w, w, msg, true, done, next, off)
        else FullRead(env, validating, qname, qtype, cnameDepth, w, v, msg, done, next, off)
  }
}

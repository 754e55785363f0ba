/** Why a resolution may fail: what was asked and not answered, and what was checked and
    refused. A failure rests on evidence, like a success. */
module Refusals {
  import opened Octets
  import opened Names
  import opened Messages
  import opened Nsec3
  import opened Signing
  import opened Trust
  import opened Spans
  import opened Aliases
  import opened Referrals

  // ---- what trying every signature under every key comes to ----

  /** The check was made, with this result. */
  ghost predicate Tried(env: Env, rrset: seq<RR>, sig: RRSIG, key: DNSKEY, c: Check) {
    exists tick: nat {:trigger During(env, tick)} :: During(env, tick) && VerdictAt(env, rrset, sig, key, tick, c)
  }

  /** It was not valid; unless blind, it could be checked too. */
  ghost predicate Refused(env: Env, rrset: seq<RR>, sig: RRSIG, key: DNSKEY, blind: bool) {
    Tried(env, rrset, sig, key, Check.Invalid) || (blind && Tried(env, rrset, sig, key, Check.Unsupported))
  }

  lemma RefusedLater(e: Env, f: Env, rrset: seq<RR>, sig: RRSIG, key: DNSKEY, blind: bool, blinder: bool)
    requires Wider(e, f) && Refused(e, rrset, sig, key, blind) && (blind ==> blinder)
    ensures Refused(f, rrset, sig, key, blinder)
  {
    var c := if Tried(e, rrset, sig, key, Check.Invalid) then Check.Invalid else Check.Unsupported;
    var tick: nat :| During(e, tick) && VerdictAt(e, rrset, sig, key, tick, c);
    VerdictLater(e, f, rrset, sig, key, tick, c);
    assert During(f, tick);
  }

  /** So for the first s signatures, and the next one under the first i keys. */
  ghost predicate RefusedUpTo(env: Env, rrset: seq<RR>, sigs: seq<RRSIG>, ks: seq<DNSKEY>, s: nat, i: nat,
                               blind: bool) {
    forall t, j | 0 <= t < |sigs| && 0 <= j < |ks| && (t < s || (t == s && j < i)) ::
      Refused(env, rrset, sigs[t], ks[j], blind)
  }

  lemma RefusedStep(e: Env, f: Env, rrset: seq<RR>, sigs: seq<RRSIG>, ks: seq<DNSKEY>, s: nat, i: nat, blind: bool,
                    tick: nat, c: Check)
    requires Wider(e, f) && RefusedUpTo(e, rrset, sigs, ks, s, i, blind) && s < |sigs| && i < |ks|
    requires During(f, tick) && VerdictAt(f, rrset, sigs[s], ks[i], tick, c) && c != Check.Valid
    ensures RefusedUpTo(f, rrset, sigs, ks, s, i + 1, blind || c == Check.Unsupported)
  {
    var blinder := blind || c == Check.Unsupported;
    forall t, j | 0 <= t < |sigs| && 0 <= j < |ks| && (t < s || (t == s && j < i + 1))
      ensures Refused(f, rrset, sigs[t], ks[j], blinder)
    {
      if t == s && j == i {
        assert Tried(f, rrset, sigs[s], ks[i], c);
      } else {
        RefusedLater(e, f, rrset, sigs[t], ks[j], blind, blinder);
      }
    }
  }

  /** Every signature the section holds for the set was refused under every key. */
  ghost predicate InVain(env: Env, rrset: seq<RR>, section: seq<RR>, ks: seq<DNSKEY>) {
    rrset == [] || ks == [] ||
    var sigs := SigsFor(section, rrset[0].name, rrset[0].rtype);
    RefusedUpTo(env, rrset, sigs, ks, |sigs|, 0, true)
  }

  lemma InVainLater(e: Env, f: Env, rrset: seq<RR>, section: seq<RR>, ks: seq<DNSKEY>)
    requires Wider(e, f) && InVain(e, rrset, section, ks)
    ensures InVain(f, rrset, section, ks)
  {
    if rrset != [] && ks != [] {
      var sigs := SigsFor(section, rrset[0].name, rrset[0].rtype);
      forall t, j | 0 <= t < |sigs| && 0 <= j < |ks| ensures Refused(f, rrset, sigs[t], ks[j], true) {
        RefusedLater(e, f, rrset, sigs[t], ks[j], true, true);
      }
    }
  }

  ghost predicate SomeUncheckable(env: Env, rrset: seq<RR>, section: seq<RR>, ks: seq<DNSKEY>) {
    exists sig, key, tick: nat :: UncheckableWith(env, rrset, section, ks, sig, key, tick)
  }

  ghost predicate UncheckableWith(env: Env, rrset: seq<RR>, section: seq<RR>, ks: seq<DNSKEY>, sig: RRSIG,
      key: DNSKEY, tick: nat) {
    key in ks && UncheckedSig(env, rrset, section, sig, key, tick)
  }

  lemma SomeLater(e: Env, f: Env, rrset: seq<RR>, section: seq<RR>, ks: seq<DNSKEY>)
    requires Wider(e, f) && SomeUncheckable(e, rrset, section, ks)
    ensures SomeUncheckable(f, rrset, section, ks)
  {
    var sig, key, tick: nat :| UncheckableWith(e, rrset, section, ks, sig, key, tick);
    UncheckedSigLater(e, f, rrset, section, sig, key, tick);
    assert UncheckableWith(f, rrset, section, ks, sig, key, tick);
  }

  /** Each of them is invalid: none is of a kind that cannot be checked. */
  ghost predicate AllInvalid(env: Env, rrset: seq<RR>, section: seq<RR>, ks: seq<DNSKEY>) {
    rrset == [] || ks == [] ||
    var sigs := SigsFor(section, rrset[0].name, rrset[0].rtype);
    RefusedUpTo(env, rrset, sigs, ks, |sigs|, 0, false)
  }

  lemma AllInvalidLater(e: Env, f: Env, rrset: seq<RR>, section: seq<RR>, ks: seq<DNSKEY>)
    requires Wider(e, f) && AllInvalid(e, rrset, section, ks)
    ensures AllInvalid(f, rrset, section, ks)
  {
    if rrset != [] && ks != [] {
      var sigs := SigsFor(section, rrset[0].name, rrset[0].rtype);
      forall t, j | 0 <= t < |sigs| && 0 <= j < |ks| ensures Refused(f, rrset, sigs[t], ks[j], false) {
        RefusedLater(e, f, rrset, sigs[t], ks[j], false, false);
      }
    }
  }

  // ---- silence ----

  /** How many of the servers may be asked. */
  function Askable(env: Env, servers: seq<Bytes>): nat {
    if servers == [] then 0
    else Askable(env, servers[..|servers| - 1]) + if env.allowed(servers[|servers| - 1]) then 1 else 0
  }

  /** From a step on, as many queries as there are servers that may be asked went
      without an answer. */
  ghost predicate SilentFrom(env: Env, servers: seq<Bytes>, name: Name, qtype: U16, from: nat) {
    && env.since <= from && from + Askable(env, servers) <= env.until
    && forall k: nat | from <= k < from + Askable(env, servers) :: env.network(k, name, qtype) == NoReply
  }

  /** Servers to ask: the root's, or some that may all be asked. */
  ghost predicate Usable(env: Env, servers: seq<Bytes>) {
    servers == env.roots || (servers != [] && forall i | 0 <= i < |servers| :: env.allowed(servers[i]))
  }

  ghost predicate SilentServers(env: Env, name: Name, qtype: U16, servers: seq<Bytes>, from: nat) {
    Usable(env, servers) && SilentFrom(env, servers, name, qtype, from)
  }

  /** A zone's servers were asked about the name, each that may be, and none answered. */
  ghost predicate Unanswered(env: Env, name: Name, qtype: U16) {
    exists servers, from: nat :: SilentServers(env, name, qtype, servers, from)
  }

  lemma AskableSame(e: Env, f: Env, servers: seq<Bytes>)
    requires e.allowed == f.allowed
    ensures Askable(e, servers) == Askable(f, servers)
  {
    if servers != [] { AskableSame(e, f, servers[..|servers| - 1]); }
  }

  lemma UnansweredLater(e: Env, f: Env, name: Name, qtype: U16)
    requires Wider(e, f) && Unanswered(e, name, qtype)
    ensures Unanswered(f, name, qtype)
  {
    var servers, from: nat :| SilentServers(e, name, qtype, servers, from);
    AskableSame(e, f, servers);
    assert SilentServers(f, name, qtype, servers, from);
  }

  // ---- proofs that fail ----

  predicate IsDenial(rr: RR) {
    rr.rtype == TypeNSEC || rr.rtype == TypeNSEC3
  }

  ghost predicate KeptOrRefused(env: Env, section: seq<RR>, out: seq<RR>, rr: RR, ks: seq<DNSKEY>) {
    rr.rclass == ClassIN ==> rr in out || InVain(env, RecordsOfType(section, rr.rtype, rr.name), section, ks)
  }

  /** The denial records of a section that carry a valid signature, and no others. */
  ghost predicate KeptAll(env: Env, section: seq<RR>, out: seq<RR>, ks: seq<DNSKEY>) {
    && AllVetted(env, section, out, ks) && (forall rr | rr in out :: rr in section && IsDenial(rr))
    && forall i | 0 <= i < |section| && IsDenial(section[i]) :: KeptOrRefused(env, section, out, section[i], ks)
  }

  lemma KeptAllLater(e: Env, f: Env, section: seq<RR>, out: seq<RR>, ks: seq<DNSKEY>)
    requires Wider(e, f) && KeptAll(e, section, out, ks)
    ensures KeptAll(f, section, out, ks)
  {
    AllVettedLater(e, f, section, out, ks);
    forall i | 0 <= i < |section| && IsDenial(section[i]) ensures KeptOrRefused(f, section, out, section[i], ks) {
      var rr := section[i];
      var rrset := RecordsOfType(section, rr.rtype, rr.name);
      if InVain(e, rrset, section, ks) { InVainLater(e, f, rrset, section, ks); }
    }
  }

  ghost predicate DeniedOver(env: Env, section: seq<RR>, claim: Claim, ks: seq<DNSKEY>, v: Verdict,
                             records: seq<RR>) {
    KeptAll(env, section, records, ks) && Decides(env, claim, records, v)
  }

  /** The claim was decided so over all the section's denial records that keys vouch for. */
  ghost predicate Denied(env: Env, section: seq<RR>, claim: Claim, ks: seq<DNSKEY>, v: Verdict) {
    forall j {:trigger Opened(Door.Denials, j)} | Opened(Door.Denials, j) ::
      exists records :: DeniedOver(env, section, claim, ks, v, records)
  }

  lemma DeniedIsDecided(env: Env, section: seq<RR>, claim: Claim, ks: seq<DNSKEY>, v: Verdict)
    requires Denied(env, section, claim, ks, v)
    ensures DecidedIn(env, section, claim, ks, v)
  {
    assert Opened(Door.Denials, 0);
    var records :| DeniedOver(env, section, claim, ks, v, records);
    assert DecidedOver(env, section, claim, ks, v, records);
  }

  lemma DeniedLater(e: Env, f: Env, section: seq<RR>, claim: Claim, ks: seq<DNSKEY>, v: Verdict)
    requires Wider(e, f) && Denied(e, section, claim, ks, v)
    ensures Denied(f, section, claim, ks, v)
  {
    assert Opened(Door.Denials, 0);
    var records :| DeniedOver(e, section, claim, ks, v, records);
    KeptAllLater(e, f, section, records, ks);
    DecidesLater(e, f, claim, records, v);
    assert DeniedOver(f, section, claim, ks, v, records);
  }

  /** The proof the claim needs is not there: it fails, or has no meaning. */
  ghost predicate Unproved(env: Env, section: seq<RR>, claim: Claim, ks: seq<DNSKEY>) {
    Denied(env, section, claim, ks, NoDenial) || Denied(env, section, claim, ks, Malformed)
  }

  lemma UnprovedLater(e: Env, f: Env, section: seq<RR>, claim: Claim, ks: seq<DNSKEY>)
    requires Wider(e, f) && Unproved(e, section, claim, ks)
    ensures Unproved(f, section, claim, ks)
  {
    if Denied(e, section, claim, ks, NoDenial) {
      DeniedLater(e, f, section, claim, ks, NoDenial);
    } else {
      DeniedLater(e, f, section, claim, ks, Malformed);
    }
  }

  // ---- answers refused ----

  /** Keys to check by: trusted ones, or at the root none at all, if no trust anchor's
      algorithm could be checked. */
  ghost predicate KeysFor(env: Env, zone: Name, ks: seq<DNSKEY>) {
    TrustedKeys(env, zone, ks) || (zone == [] && ks == [] && UncheckedKeys(Past(env), [], env.anchors))
  }

  lemma KeysForLater(e: Env, f: Env, zone: Name, ks: seq<DNSKEY>)
    requires Wider(Past(e), Past(f)) && KeysFor(e, zone, ks)
    ensures KeysFor(f, zone, ks)
  {
    if TrustedKeys(e, zone, ks) {
      TrustedLater(e, f, zone, ks);
    } else {
      UncheckedKeysLater(Past(e), Past(f), [], e.anchors);
    }
  }

  /** A signature made for a wildcard verifies, and the proof it owes is not there. */
  ghost predicate ExpansionRefused(env: Env, resp: Message, rrset: seq<RR>, rr: RR, ks: seq<DNSKEY>, sig: RRSIG) {
    && Carries(resp.answers, rrset, sig) && SignedBy(env, rrset, sig, ks) && IsWildcardExpansion(rr.name, sig)
    && Unproved(env, resp.authorities, NothingCloser(rr.name), ks)
  }

  /** The set the record belongs to has no valid signature, nor one that cannot be checked;
      or one, made for a wildcard, that owes a proof. */
  ghost predicate RecordRefused(env: Env, resp: Message, records: seq<RR>, rr: RR, ks: seq<DNSKEY>) {
    var rrset := RecordsOfType(records, rr.rtype, rr.name);
    || AllInvalid(env, rrset, resp.answers, ks)
    || exists sig :: ExpansionRefused(env, resp, rrset, rr, ks, sig)
  }

  lemma RecordRefusedLater(e: Env, f: Env, resp: Message, records: seq<RR>, rr: RR, ks: seq<DNSKEY>)
    requires Wider(e, f) && RecordRefused(e, resp, records, rr, ks)
    ensures RecordRefused(f, resp, records, rr, ks)
  {
    var rrset := RecordsOfType(records, rr.rtype, rr.name);
    if AllInvalid(e, rrset, resp.answers, ks) {
      AllInvalidLater(e, f, rrset, resp.answers, ks);
    } else {
      var sig :| ExpansionRefused(e, resp, rrset, rr, ks, sig);
      SignedLater(e, f, rrset, sig, ks);
      UnprovedLater(e, f, resp.authorities, NothingCloser(rr.name), ks);
      assert ExpansionRefused(f, resp, rrset, rr, ks, sig);
    }
  }

  /** The records up to the k-th are verified, and that one is refused. */
  ghost predicate RefusedFrom(env: Env, qname: Name, qtype: U16, resp: Message, records: seq<RR>, ks: seq<DNSKEY>,
                              k: nat) {
    && k < |records| && (forall j | 0 <= j < k :: EarnedIn(env, qname, qtype, resp, records[j]))
    && RecordRefused(env, resp, records, records[k], ks)
  }

  ghost predicate AnswerRefused(env: Env, qname: Name, qtype: U16, resp: Message, records: seq<RR>, ks: seq<DNSKEY>) {
    exists k: nat :: RefusedFrom(env, qname, qtype, resp, records, ks, k)
  }

  lemma AnswerRefusedLater(e: Env, f: Env, qname: Name, qtype: U16, resp: Message, records: seq<RR>, ks: seq<DNSKEY>)
    requires Wider(e, f) && AnswerRefused(e, qname, qtype, resp, records, ks)
    ensures AnswerRefused(f, qname, qtype, resp, records, ks)
  {
    var k: nat :| RefusedFrom(e, qname, qtype, resp, records, ks, k);
    forall j | 0 <= j < k ensures EarnedIn(f, qname, qtype, resp, records[j]) {
      EarnedInLater(e, f, qname, qtype, resp, records[j]);
    }
    RecordRefusedLater(e, f, resp, records, records[k], ks);
    assert RefusedFrom(f, qname, qtype, resp, records, ks, k);
  }

  /** What a response without an error code says does not hold: an answer in it, or a
      chain of aliases, is refused, or the proof that there is none is not there. */
  ghost predicate ReadRefused(env: Env, name: Name, qtype: U16, depth: nat, msg: Message, zone: Name, ks: seq<DNSKEY>)
    requires depth < MAX_CNAME_CHAIN
  {
    match Chase(msg.answers, name, qtype, depth)
    case TooLong => false
    case Chased(chain, _, answers) =>
      if chain + answers != [] then AnswerRefused(env, name, qtype, msg, chain + answers, ks)
      else Unproved(env, msg.authorities, NoSuchData(name, qtype), ks) && ReferralIn(msg.authorities, name, zone).None?
  }

  ghost predicate BogusBy(env: Env, name: Name, qtype: U16, depth: nat, msg: Message, zone: Name, ks: seq<DNSKEY>)
    requires depth < MAX_CNAME_CHAIN
  {
    && Received(env, msg, name, qtype) && IsSubdomainOrEqual(name, zone) && KeysFor(env, zone, ks)
    && ((msg.header.rcode == 3 && Unproved(env, msg.authorities, NoSuchName(name), ks))
        || (msg.header.rcode == 0 && ReadRefused(env, name, qtype, depth, msg, zone, ks)))
  }

  /** A response about the name owes signatures or a proof, by keys of a zone that encloses
      it, and what it holds was refused. */
  ghost predicate BogusMeans(env: Env, name: Name, qtype: U16, depth: nat)
    requires depth < MAX_CNAME_CHAIN
  {
    forall j {:trigger Opened(Door.Failures, j)} | Opened(Door.Failures, j) ::
      exists msg, zone, ks :: BogusBy(env, name, qtype, depth, msg, zone, ks)
  }

  lemma BogusLater(e: Env, f: Env, name: Name, qtype: U16, depth: nat)
    requires Wider(e, f) && depth < MAX_CNAME_CHAIN && BogusMeans(e, name, qtype, depth)
    ensures BogusMeans(f, name, qtype, depth)
  {
    assert Opened(Door.Failures, 0);
    var msg, zone, ks :| BogusBy(e, name, qtype, depth, msg, zone, ks);
    ReceivedLater(e, f, msg, name, qtype);
    KeysForLater(e, f, zone, ks);
    if msg.header.rcode == 3 {
      UnprovedLater(e, f, msg.authorities, NoSuchName(name), ks);
    } else {
      var c := Chase(msg.answers, name, qtype, depth);
      if c.chain + c.answers != [] {
        AnswerRefusedLater(e, f, name, qtype, msg, c.chain + c.answers, ks);
      } else {
        UnprovedLater(e, f, msg.authorities, NoSuchData(name, qtype), ks);
      }
    }
    assert BogusBy(f, name, qtype, depth, msg, zone, ks);
  }

  // ---- cuts refused ----

  /** The digest is not of the key; or it is, and the key's signatures over the set are
      all invalid. */
  ghost predicate PairRefused(env: Env, zone: Name, section: seq<RR>, key: DNSKEY, ds: DS) {
    || MatchesDS(env, zone, key, ds, Check.Invalid)
    || (MatchesDS(env, zone, key, ds, Check.Valid)
        && AllInvalid(env, RecordsOfType(section, TypeDNSKEY, zone), section, [key]))
  }

  lemma PairRefusedLater(e: Env, f: Env, zone: Name, section: seq<RR>, key: DNSKEY, ds: DS)
    requires Wider(e, f) && PairRefused(e, zone, section, key, ds)
    ensures PairRefused(f, zone, section, key, ds)
  {
    if MatchesDS(e, zone, key, ds, Check.Invalid) {
      MatchLater(e, f, zone, key, ds, Check.Invalid);
    } else {
      MatchLater(e, f, zone, key, ds, Check.Valid);
      AllInvalidLater(e, f, RecordsOfType(section, TypeDNSKEY, zone), section, [key]);
    }
  }

  /** The first i keys under all digests, and the next one under the first a. */
  ghost predicate PairsRefused(env: Env, zone: Name, section: seq<RR>, anchors: seq<DS>, i: nat, a: nat) {
    var keys := KeysIn(section, zone);
    forall j, b | 0 <= j < |keys| && 0 <= b < |anchors| && (j < i || (j == i && b < a)) ::
      PairRefused(env, zone, section, keys[j], anchors[b])
  }

  lemma PairsRefusedLater(e: Env, f: Env, zone: Name, section: seq<RR>, anchors: seq<DS>, i: nat, a: nat)
    requires Wider(e, f) && PairsRefused(e, zone, section, anchors, i, a)
    ensures PairsRefused(f, zone, section, anchors, i, a)
  {
    var keys := KeysIn(section, zone);
    forall j, b | 0 <= j < |keys| && 0 <= b < |anchors| && (j < i || (j == i && b < a))
      ensures PairRefused(f, zone, section, keys[j], anchors[b])
    {
      PairRefusedLater(e, f, zone, section, keys[j], anchors[b]);
    }
  }

  ghost predicate KeyReplyRefused(env: Env, zone: Name, msg: Message, anchors: seq<DS>) {
    && Received(env, msg, zone, TypeDNSKEY)
    && PairsRefused(env, zone, msg.answers, anchors, |KeysIn(msg.answers, zone)|, 0)
  }

  /** Nobody gave the zone's keys, or none of those given is vouched for. */
  ghost predicate NoKeys(env: Env, zone: Name, anchors: seq<DS>) {
    Unanswered(env, zone, TypeDNSKEY) || exists msg :: KeyReplyRefused(env, zone, msg, anchors)
  }

  lemma NoKeysLater(e: Env, f: Env, zone: Name, anchors: seq<DS>)
    requires Wider(e, f) && NoKeys(e, zone, anchors)
    ensures NoKeys(f, zone, anchors)
  {
    if Unanswered(e, zone, TypeDNSKEY) {
      UnansweredLater(e, f, zone, TypeDNSKEY);
    } else {
      var msg :| KeyReplyRefused(e, zone, msg, anchors);
      ReceivedLater(e, f, msg, zone, TypeDNSKEY);
      PairsRefusedLater(e, f, zone, msg.answers, anchors, |KeysIn(msg.answers, zone)|, 0);
      assert KeyReplyRefused(f, zone, msg, anchors);
    }
  }

  /** The section neither proves that the zone has no digests, nor holds digests that the
      parent signed, or it does and the zone's keys could not be had. */
  ghost predicate EntryRefused(env: Env, zone: Name, ks: seq<DNSKEY>, section: seq<RR>) {
    var dsSet := RecordsOfType(section, TypeDS, zone);
    if dsSet == [] then Unproved(env, section, NoDSAt(zone), ks)
    else
      || InVain(env, dsSet, section, ks)
      || (Verified(env, section, dsSet, ks) && NoKeys(env, zone, DSIn(section, zone)))
  }

  lemma EntryRefusedLater(e: Env, f: Env, zone: Name, ks: seq<DNSKEY>, section: seq<RR>)
    requires Wider(e, f) && EntryRefused(e, zone, ks, section)
    ensures EntryRefused(f, zone, ks, section)
  {
    var dsSet := RecordsOfType(section, TypeDS, zone);
    if dsSet == [] {
      UnprovedLater(e, f, section, NoDSAt(zone), ks);
    } else if InVain(e, dsSet, section, ks) {
      InVainLater(e, f, dsSet, section, ks);
    } else {
      VerifiedLater(e, f, section, dsSet, ks);
      NoKeysLater(e, f, zone, DSIn(section, zone));
    }
  }

  /** So it is with the zone, in a section received, by the keys of one above. */
  ghost predicate CutRefused(env: Env, zone: Name, pzone: Name, ks: seq<DNSKEY>, section: seq<RR>) {
    && IsProperSubdomain(zone, pzone) && KeysFor(env, pzone, ks) && Shown(env, section)
    && EntryRefused(env, zone, ks, section)
  }

  /** The chain of trust breaks at the zone: nobody said what digests it has, or what
      was said was refused; or it is the root, and its keys could not be had. */
  ghost predicate Broken(env: Env, zone: Name) {
    || Unanswered(env, zone, TypeDS)
    || (zone == [] && NoKeys(env, [], env.anchors))
    || exists pzone, ks, section :: CutRefused(env, zone, pzone, ks, section)
  }

  lemma BrokenLater(e: Env, f: Env, zone: Name)
    requires Wider(e, f) && Broken(e, zone)
    ensures Broken(f, zone)
  {
    if Unanswered(e, zone, TypeDS) {
      UnansweredLater(e, f, zone, TypeDS);
    } else if zone == [] && NoKeys(e, [], e.anchors) {
      NoKeysLater(e, f, [], e.anchors);
    } else {
      var pzone, ks, section :| CutRefused(e, zone, pzone, ks, section);
      KeysForLater(e, f, pzone, ks);
      ShownLater(e, f, section);
      EntryRefusedLater(e, f, zone, ks, section);
      assert CutRefused(f, zone, pzone, ks, section);
    }
  }

  ghost predicate BrokenAbove(env: Env, name: Name, zone: Name) {
    IsSubdomainOrEqual(name, zone) && Broken(env, zone)
  }

  /** It breaks at a zone that encloses the name. */
  ghost predicate NotValidatedMeans(env: Env, name: Name) {
    forall j {:trigger Opened(Door.Failures, j)} | Opened(Door.Failures, j) ::
      exists zone :: BrokenAbove(env, name, zone)
  }

  lemma NotValidatedLater(e: Env, f: Env, name: Name)
    requires Wider(e, f) && NotValidatedMeans(e, name)
    ensures NotValidatedMeans(f, name)
  {
    assert Opened(Door.Failures, 0);
    var zone :| BrokenAbove(e, name, zone);
    BrokenLater(e, f, zone);
    assert BrokenAbove(f, name, zone);
  }

  lemma BreaksBelow(env: Env, name: Name, zone: Name)
    requires IsSubdomainOrEqual(name, zone) && Broken(env, zone)
    ensures NotValidatedMeans(env, name)
  {
    assert BrokenAbove(env, name, zone);
  }

  // ---- delegations without servers ----

  /** A response about the name, or about the one asked for on the way to it, refers to a
      zone, and gives none of its servers an address that may be asked. */
  ghost predicate NoGlue(env: Env, name: Name, qtype: U16, zone: Name, msg: Message, asked: Name, kind: U16,
                         ref: Referral) {
    && Received(env, msg, asked, kind)
    && ((asked == name && kind == qtype) || (asked == MinimizedQName(name, zone) && kind == TypeA))
    && IsSubdomainOrEqual(name, zone) && ReferralIn(msg.authorities, name, zone) == Some(ref)
    && GlueIn(msg.additionals, ref.nsNames, zone, env.allowed) == []
  }

  ghost predicate NoServersMeans(env: Env, name: Name, qtype: U16) {
    exists zone, msg, asked, kind, ref :: NoGlue(env, name, qtype, zone, msg, asked, kind, ref)
  }

  lemma NoServersLater(e: Env, f: Env, name: Name, qtype: U16)
    requires Wider(e, f) && NoServersMeans(e, name, qtype)
    ensures NoServersMeans(f, name, qtype)
  {
    var zone, msg, asked, kind, ref :| NoGlue(e, name, qtype, zone, msg, asked, kind, ref);
    ReceivedLater(e, f, msg, asked, kind);
    assert NoGlue(f, name, qtype, zone, msg, asked, kind, ref);
  }
}

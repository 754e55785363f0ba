/** What was so over a span of a run is so over every wider one. */
module Spans {
  import opened Octets
  import opened Names
  import opened Messages
  import opened Nsec3
  import opened Signing
  import opened Trust

  lemma ReceivedLater(e: Env, f: Env, msg: Message, name: Name, qtype: U16)
    requires Wider(e, f) && Received(e, msg, name, qtype)
    ensures Received(f, msg, name, qtype)
  {
    var k: nat :| During(e, k) && e.network(k, name, qtype) == Answered(msg);
    assert During(f, k);
  }

  lemma ShownLater(e: Env, f: Env, section: seq<RR>)
    requires Wider(e, f) && Shown(e, section)
    ensures Shown(f, section)
  {
    var msg, name, qtype :| ShownBy(e, section, msg, name, qtype);
    ReceivedLater(e, f, msg, name, qtype);
    assert ShownBy(f, section, msg, name, qtype);
  }

  /** The same environment, over any two spans. */
  ghost predicate SameBut(e: Env, f: Env) {
    f == e.(since := f.since, until := f.until)
  }

  lemma VerdictLater(e: Env, f: Env, rrset: seq<RR>, sig: RRSIG, key: DNSKEY, tick: nat, c: Check)
    requires SameBut(e, f) && VerdictAt(e, rrset, sig, key, tick, c)
    ensures VerdictAt(f, rrset, sig, key, tick, c)
  {
    assert Opened(Door.Verdicts, 0);
  }

  lemma SignedLater(e: Env, f: Env, rrset: seq<RR>, sig: RRSIG, keys: seq<DNSKEY>)
    requires Wider(e, f) && SignedBy(e, rrset, sig, keys)
    ensures SignedBy(f, rrset, sig, keys)
  {
    var i: nat, tick: nat :| SignsWith(e, rrset, sig, keys, i, tick);
    VerdictLater(e, f, rrset, sig, keys[i], tick, Check.Valid);
    assert SignsWith(f, rrset, sig, keys, i, tick);
  }

  lemma VerifiedLater(e: Env, f: Env, section: seq<RR>, rrset: seq<RR>, keys: seq<DNSKEY>)
    requires Wider(e, f) && Verified(e, section, rrset, keys)
    ensures Verified(f, section, rrset, keys)
  {
    var sig :| VerifiedBy(e, section, rrset, keys, sig);
    SignedLater(e, f, rrset, sig, keys);
    assert VerifiedBy(f, section, rrset, keys, sig);
  }

  lemma MatchLater(e: Env, f: Env, zone: Name, key: DNSKEY, ds: DS, c: Check)
    requires Wider(e, f) && MatchesDS(e, zone, key, ds, c)
    ensures MatchesDS(f, zone, key, ds, c)
  {
    assert Opened(Door.Verdicts, 0);
  }

  lemma VouchedLater(e: Env, f: Env, zone: Name, msg: Message, anchors: seq<DS>)
    requires Wider(e, f) && VouchedReply(e, zone, msg, anchors)
    ensures VouchedReply(f, zone, msg, anchors)
  {
    ReceivedLater(e, f, msg, zone, TypeDNSKEY);
    var i: nat, a: nat :| VouchedBy(e, zone, msg.answers, anchors, i, a);
    var key := KeysIn(msg.answers, zone)[i];
    MatchLater(e, f, zone, key, anchors[a], Check.Valid);
    VerifiedLater(e, f, msg.answers, RecordsOfType(msg.answers, TypeDNSKEY, zone), [key]);
    assert VouchedBy(f, zone, msg.answers, anchors, i, a);
  }

  lemma SignedCutLater(e: Env, f: Env, zone: Name, section: seq<RR>, keys: seq<DNSKEY>)
    requires Wider(e, f) && SignedCut(e, zone, section, keys)
    ensures SignedCut(f, zone, section, keys)
  {
    ShownLater(e, f, section);
    VerifiedLater(e, f, section, RecordsOfType(section, TypeDS, zone), keys);
  }

  lemma {:induction false} SoundLater(e: Env, f: Env, c: Chain)
    requires Wider(e, f) && Sound(e, c)
    ensures Sound(f, c)
  {
    match c
    case Anchor(reply) => VouchedLater(e, f, [], reply, e.anchors);
    case Link(parent, zone, section, reply) =>
      SoundLater(e, f, parent);
      SignedCutLater(e, f, zone, section, parent.Keys());
      VouchedLater(e, f, zone, reply, DSIn(section, zone));
  }

  lemma TrustedLater(e: Env, f: Env, zone: Name, keys: seq<DNSKEY>)
    requires Wider(Past(e), Past(f)) && TrustedKeys(e, zone, keys)
    ensures TrustedKeys(f, zone, keys)
  {
    assert Opened(Door.Keys, 0);
    var c :| Reaches(Past(e), c, zone, keys);
    SoundLater(Past(e), Past(f), c);
    assert Reaches(Past(f), c, zone, keys);
  }

  lemma BaseLater(e: Env, f: Env, base: Base, zone: Name, anchors: seq<DS>)
    requires Wider(e, f) && BaseOk(e, base, zone, anchors)
    ensures BaseOk(f, base, zone, anchors)
  {
    assert Opened(Door.Bases, 0);
    match base
    case RootBase =>
    case Below(parent, section) =>
      SoundLater(Past(e), Past(f), parent);
      SignedCutLater(Past(e), Past(f), zone, section, parent.Keys());
  }

  lemma InSetLater(e: Env, f: Env, section: seq<RR>, rr: RR, rrset: seq<RR>, sig: RRSIG, keys: seq<DNSKEY>)
    requires Wider(e, f) && InVerifiedSet(e, section, rr, rrset, sig, keys)
    ensures InVerifiedSet(f, section, rr, rrset, sig, keys)
  {
    SignedLater(e, f, rrset, sig, keys);
  }

  lemma AllVettedLater(e: Env, f: Env, section: seq<RR>, rrs: seq<RR>, keys: seq<DNSKEY>)
    requires Wider(e, f) && AllVetted(e, section, rrs, keys)
    ensures AllVetted(f, section, rrs, keys)
  {
    forall i | 0 <= i < |rrs| ensures Vetted(f, section, rrs[i], keys) {
      var rrset, sig :| InVerifiedSet(e, section, rrs[i], rrset, sig, keys);
      InSetLater(e, f, section, rrs[i], rrset, sig, keys);
    }
  }

  lemma DecidesLater(e: Env, f: Env, claim: Claim, records: seq<RR>, v: Verdict)
    requires SameBut(e, f) && Decides(e, claim, records, v)
    ensures Decides(f, claim, records, v)
  {
    assert Opened(Door.Verdicts, 0);
  }

  lemma DecidedLater(e: Env, f: Env, section: seq<RR>, claim: Claim, keys: seq<DNSKEY>, v: Verdict)
    requires Wider(e, f) && DecidedIn(e, section, claim, keys, v)
    ensures DecidedIn(f, section, claim, keys, v)
  {
    assert Opened(Door.Decisions, 0);
    var records :| DecidedOver(e, section, claim, keys, v, records);
    AllVettedLater(e, f, section, records, keys);
    DecidesLater(e, f, claim, records, v);
    assert DecidedOver(f, section, claim, keys, v, records);
  }

  lemma SettledByLater(e: Env, f: Env, name: Name, qtype: U16, claim: Claim, v: Verdict, zone: Name,
                       keys: seq<DNSKEY>, msg: Message)
    requires Wider(e, f) && SettledBy(e, name, qtype, claim, v, zone, keys, msg)
    ensures SettledBy(f, name, qtype, claim, v, zone, keys, msg)
  {
    TrustedLater(e, f, zone, keys);
    ReceivedLater(e, f, msg, name, qtype);
    DecidedLater(e, f, msg.authorities, claim, keys, v);
  }

  lemma SettledLater(e: Env, f: Env, name: Name, qtype: U16, claim: Claim, v: Verdict)
    requires Wider(e, f) && Settled(e, name, qtype, claim, v)
    ensures Settled(f, name, qtype, claim, v)
  {
    var zone, keys, msg :| SettledBy(e, name, qtype, claim, v, zone, keys, msg);
    SettledByLater(e, f, name, qtype, claim, v, zone, keys, msg);
  }

  lemma ExpansionLater(e: Env, f: Env, section: seq<RR>, rr: RR, owner: Name, keys: seq<DNSKEY>)
    requires Wider(e, f) && ExpansionProved(e, section, rr, owner, keys)
    ensures ExpansionProved(f, section, rr, owner, keys)
  {
    DecidedLater(e, f, section, NothingCloser(owner), keys, Proven);
  }

  lemma EarnedInLater(e: Env, f: Env, name: Name, qtype: U16, msg: Message, rr: RR)
    requires Wider(e, f) && EarnedIn(e, name, qtype, msg, rr)
    ensures EarnedIn(f, name, qtype, msg, rr)
  {
    assert Opened(Door.Earnings, 0);
    var zone, keys, rrset, sig :| EarnedBy(e, name, qtype, rr, zone, keys, msg, rrset, sig);
    TrustedLater(e, f, zone, keys);
    ReceivedLater(e, f, msg, name, qtype);
    InSetLater(e, f, msg.answers, rr, rrset, sig, keys);
    if IsWildcardExpansion(rr.name, sig) {
      var owner :| ExpansionProved(e, msg.authorities, rr, owner, keys);
      ExpansionLater(e, f, msg.authorities, rr, owner, keys);
    }
    assert EarnedBy(f, name, qtype, rr, zone, keys, msg, rrset, sig);
  }

  lemma EarnedLater(e: Env, f: Env, name: Name, qtype: U16, rr: RR)
    requires Wider(e, f) && Earned(e, name, qtype, rr)
    ensures Earned(f, name, qtype, rr)
  {
    var msg :| EarnedIn(e, name, qtype, msg, rr);
    EarnedInLater(e, f, name, qtype, msg, rr);
  }

  lemma UncheckedSigLater(e: Env, f: Env, rrset: seq<RR>, section: seq<RR>, sig: RRSIG, key: DNSKEY, tick: nat)
    requires Wider(e, f) && UncheckedSig(e, rrset, section, sig, key, tick)
    ensures UncheckedSig(f, rrset, section, sig, key, tick)
  {
    VerdictLater(e, f, rrset, sig, key, tick, Check.Unsupported);
  }

  lemma UncheckedInLater(e: Env, f: Env, zone: Name, section: seq<RR>, anchors: seq<DS>)
    requires Wider(e, f) && UncheckedIn(e, zone, section, anchors)
    ensures UncheckedIn(f, zone, section, anchors)
  {
    var key, a: nat :| UncheckedDS(e, zone, section, anchors, key, a);
    if MatchesDS(e, zone, key, anchors[a], Check.Unsupported) {
      MatchLater(e, f, zone, key, anchors[a], Check.Unsupported);
    } else {
      var keySet := RecordsOfType(section, TypeDNSKEY, zone);
      MatchLater(e, f, zone, key, anchors[a], Check.Valid);
      var sig, tick: nat :| UncheckedSig(e, keySet, section, sig, key, tick);
      UncheckedSigLater(e, f, keySet, section, sig, key, tick);
    }
    assert UncheckedDS(f, zone, section, anchors, key, a);
  }

  lemma UncheckedKeysLater(e: Env, f: Env, zone: Name, anchors: seq<DS>)
    requires Wider(e, f) && UncheckedKeys(e, zone, anchors)
    ensures UncheckedKeys(f, zone, anchors)
  {
    var msg :| UncheckedReply(e, zone, msg, anchors);
    ReceivedLater(e, f, msg, zone, TypeDNSKEY);
    UncheckedInLater(e, f, zone, msg.answers, anchors);
    assert UncheckedReply(f, zone, msg, anchors);
  }

  lemma UnsignedCutLater(e: Env, f: Env, cut: Name, parent: Name, keys: seq<DNSKEY>, section: seq<RR>, v: Verdict)
    requires Wider(e, f) && UnsignedCut(e, cut, parent, keys, section, v)
    ensures UnsignedCut(f, cut, parent, keys, section, v)
  {
    TrustedLater(e, f, parent, keys);
    ShownLater(e, f, section);
    DecidedLater(e, f, section, NoDSAt(cut), keys, v);
  }

  lemma UnsupportedCutLater(e: Env, f: Env, cut: Name, parent: Name, keys: seq<DNSKEY>, section: seq<RR>)
    requires Wider(e, f) && UnsupportedCut(e, cut, parent, keys, section)
    ensures UnsupportedCut(f, cut, parent, keys, section)
  {
    TrustedLater(e, f, parent, keys);
    SignedCutLater(e, f, cut, section, keys);
    UncheckedKeysLater(e, f, cut, DSIn(section, cut));
  }

  lemma OpenCutLater(e: Env, f: Env, cut: Name)
    requires Wider(Past(e), Past(f)) && OpenCut(e, cut)
    ensures OpenCut(f, cut)
  {
    assert Opened(Door.Cuts, 0);
    if parent, keys, section, v :| UnsignedCut(Past(e), cut, parent, keys, section, v) {
      UnsignedCutLater(Past(e), Past(f), cut, parent, keys, section, v);
    } else {
      var parent, keys, section :| UnsupportedCut(Past(e), cut, parent, keys, section);
      UnsupportedCutLater(Past(e), Past(f), cut, parent, keys, section);
    }
  }

  lemma ExemptLater(e: Env, f: Env, name: Name)
    requires Wider(Past(e), Past(f)) && Exempt(e, name)
    ensures Exempt(f, name)
  {
    var cut :| IsSubdomainOrEqual(name, cut) && OpenCut(e, cut);
    OpenCutLater(e, f, cut);
  }

  lemma DoubtInLater(e: Env, f: Env, name: Name, qtype: U16, msg: Message, rr: RR)
    requires Wider(e, f) && DoubtIn(e, name, qtype, msg, rr)
    ensures DoubtIn(f, name, qtype, msg, rr)
  {
    assert Opened(Door.Doubts, 0);
    if owner, zone, keys :| UncheckedProof(e, name, qtype, rr, owner, zone, keys, msg) {
      SettledByLater(e, f, name, qtype, NothingCloser(owner), Verdict.Unsupported, zone, keys, msg);
      assert UncheckedProof(f, name, qtype, rr, owner, zone, keys, msg);
    } else {
      var zone, keys, rrset, sig, key, tick: nat :|
        UncheckedRecord(e, name, qtype, rr, zone, keys, msg, rrset, sig, key, tick);
      TrustedLater(e, f, zone, keys);
      ReceivedLater(e, f, msg, name, qtype);
      UncheckedSigLater(e, f, rrset, msg.answers, sig, key, tick);
      assert UncheckedRecord(f, name, qtype, rr, zone, keys, msg, rrset, sig, key, tick);
    }
  }

  lemma DoubtLater(e: Env, f: Env, name: Name, qtype: U16, rr: RR)
    requires Wider(e, f) && RecordDoubt(e, name, qtype, rr)
    ensures RecordDoubt(f, name, qtype, rr)
  {
    var msg :| DoubtIn(e, name, qtype, msg, rr);
    DoubtInLater(e, f, name, qtype, msg, rr);
  }
}

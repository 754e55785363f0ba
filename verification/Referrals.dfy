/** What a response's authority and additional sections say about where to ask next. */
module Referrals {
  import opened Octets
  import opened Names
  import opened Messages

  datatype Referral = Referral(zone: Name, ttl: U32, nsNames: set<Name>)

  /** An NS record that delegates: strictly below the zone, to a zone qname is in. */
  predicate Delegates(rr: RR, qname: Name, zone: Name) {
    && rr.rtype == TypeNS && rr.rclass == ClassIN
    && IsSubdomainOrEqual(qname, rr.name) && IsProperSubdomain(rr.name, zone)
  }

  /** The servers a section names for one delegated zone. */
  function NamesFor(authorities: seq<RR>, qname: Name, zone: Name, cut: Name): set<Name> {
    set i | 0 <= i < |authorities| && Delegates(authorities[i], qname, zone) && EqualName(authorities[i].name, cut)
      :: Canon(authorities[i].ns)
  }

  /** The referral a section makes: the first zone delegated, with all its servers
      and the TTL they share. */
  function ReferralIn(authorities: seq<RR>, qname: Name, zone: Name): Option<Referral> {
    if authorities == [] then None
    else
      var n := |authorities| - 1;
      var r, rr := ReferralIn(authorities[..n], qname, zone), authorities[n];
      if !Delegates(rr, qname, zone) then r
      else
        match r
        case None => Some(Referral(rr.name, rr.ttl, {Canon(rr.ns)}))
        case Some(x) => if EqualName(rr.name, x.zone) then Some(Extended(x, rr)) else r
  }

  function Extended(r: Referral, rr: RR): Referral {
    Referral(r.zone, if r.ttl == 0 || rr.ttl < r.ttl then rr.ttl else r.ttl, r.nsNames + {Canon(rr.ns)})
  }

  method ScanReferral(authorities: seq<RR>, qname: Name, zone: Name) returns (r: Option<Referral>)
    ensures r == ReferralIn(authorities, qname, zone)
  {
    r := None;
    for k := 0 to |authorities|
      invariant r == ReferralIn(authorities[..k], qname, zone)
    {
      assert authorities[..k + 1][..k] == authorities[..k];
      var rr := authorities[k];
      if rr.rtype != TypeNS || rr.rclass != ClassIN { continue; }
      if !IsSubdomainOrEqual(qname, rr.name) || !IsProperSubdomain(rr.name, zone) { continue; }
      if r.None? {
        r := Some(Referral(rr.name, rr.ttl, {Canon(rr.ns)}));
      } else if EqualName(rr.name, r.value.zone) {
        var ttl := r.value.ttl;
        if ttl == 0 || rr.ttl < ttl { ttl := rr.ttl; }
        r := Some(Referral(r.value.zone, ttl, r.value.nsNames + {Canon(rr.ns)}));
      }
    }
    assert authorities[..|authorities|] == authorities;
  }

  /** The first zone a section delegates. */
  predicate FirstDelegated(authorities: seq<RR>, qname: Name, zone: Name, cut: Name) {
    exists i | 0 <= i < |authorities| ::
      && Delegates(authorities[i], qname, zone) && authorities[i].name == cut
      && forall j | 0 <= j < i :: !Delegates(authorities[j], qname, zone)
  }

  /** The record is one of those that delegate cut. */
  predicate DelegatesTo(rr: RR, qname: Name, zone: Name, cut: Name) {
    Delegates(rr, qname, zone) && EqualName(rr.name, cut)
  }

  /** A TTL that one of the zone's records has, and the least of them, unless one of
      them is zero: what came before a zero is forgotten. */
  predicate SharedTTL(authorities: seq<RR>, qname: Name, zone: Name, cut: Name, ttl: U32) {
    && (exists i | 0 <= i < |authorities| ::
        DelegatesTo(authorities[i], qname, zone, cut) && authorities[i].ttl == ttl)
    && ((forall i | 0 <= i < |authorities| && DelegatesTo(authorities[i], qname, zone, cut) :: authorities[i].ttl != 0)
        ==> forall i | 0 <= i < |authorities| && DelegatesTo(authorities[i], qname, zone, cut) ::
              ttl <= authorities[i].ttl)
  }

  /** A referral goes strictly down, towards the name, to the first zone the section
      delegates, and names every server it gives for that zone; there is none only if
      nothing delegates. */
  lemma {:induction false} ReferralMeans(authorities: seq<RR>, qname: Name, zone: Name)
    ensures match ReferralIn(authorities, qname, zone)
            case None => forall i | 0 <= i < |authorities| :: !Delegates(authorities[i], qname, zone)
            case Some(r) =>
              && IsSubdomainOrEqual(qname, r.zone) && IsProperSubdomain(r.zone, zone)
              && r.nsNames == NamesFor(authorities, qname, zone, r.zone)
              && FirstDelegated(authorities, qname, zone, r.zone)
    decreases |authorities|
  {
    if authorities != [] {
      var n := |authorities| - 1;
      ReferralMeans(authorities[..n], qname, zone);
      assert authorities[..n + 1] == authorities;
      match ReferralIn(authorities[..n], qname, zone)
      case Some(r) =>
        NamesSnoc(authorities, n, qname, zone, r.zone);
        FirstStays(authorities, n, qname, zone, r.zone);
      case None =>
        NamesSnoc(authorities, n, qname, zone, authorities[n].name);
        NothingDelegated(authorities[..n], qname, zone, authorities[n].name);
        forall i | 0 <= i < n ensures !Delegates(authorities[i], qname, zone) {
          assert authorities[..n][i] == authorities[i];
        }
    }
  }

  lemma FirstStays(authorities: seq<RR>, n: nat, qname: Name, zone: Name, cut: Name)
    requires n <= |authorities| && FirstDelegated(authorities[..n], qname, zone, cut)
    ensures FirstDelegated(authorities, qname, zone, cut)
  {
    var front := authorities[..n];
    var i :| 0 <= i < |front| && Delegates(front[i], qname, zone) && front[i].name == cut
        && forall j | 0 <= j < i :: !Delegates(front[j], qname, zone);
    assert front[i] == authorities[i];
    forall j | 0 <= j < i ensures !Delegates(authorities[j], qname, zone) { assert front[j] == authorities[j]; }
  }

  lemma SharedStays(authorities: seq<RR>, qname: Name, zone: Name, cut: Name, ttl: U32)
    requires authorities != [] && SharedTTL(authorities[..|authorities| - 1], qname, zone, cut, ttl)
    ensures var rr := authorities[|authorities| - 1];
            SharedTTL(authorities, qname, zone, cut,
                      if DelegatesTo(rr, qname, zone, cut) && (ttl == 0 || rr.ttl < ttl) then rr.ttl else ttl)
  {
    var n := |authorities| - 1;
    var front := authorities[..n];
    var i :| 0 <= i < |front| && DelegatesTo(front[i], qname, zone, cut) && front[i].ttl == ttl;
    assert forall j | 0 <= j < n :: front[j] == authorities[j];
    assert DelegatesTo(authorities[i], qname, zone, cut) && authorities[i].ttl == ttl;
  }

  lemma {:induction false} ReferralTTL(authorities: seq<RR>, qname: Name, zone: Name)
    ensures match ReferralIn(authorities, qname, zone)
            case None => true
            case Some(r) => SharedTTL(authorities, qname, zone, r.zone, r.ttl)
    decreases |authorities|
  {
    if authorities != [] {
      var n := |authorities| - 1;
      var rr := authorities[n];
      ReferralTTL(authorities[..n], qname, zone);
      ReferralMeans(authorities[..n], qname, zone);
      match ReferralIn(authorities[..n], qname, zone)
      case Some(r) => SharedStays(authorities, qname, zone, r.zone, r.ttl);
      case None =>
        if Delegates(rr, qname, zone) {
          assert DelegatesTo(rr, qname, zone, rr.name);
          forall j | 0 <= j < n ensures !DelegatesTo(authorities[j], qname, zone, rr.name) {
            assert authorities[..n][j] == authorities[j];
          }
        }
    }
  }

  lemma NothingDelegated(authorities: seq<RR>, qname: Name, zone: Name, cut: Name)
    requires forall i | 0 <= i < |authorities| :: !Delegates(authorities[i], qname, zone)
    ensures NamesFor(authorities, qname, zone, cut) == {}
  {}

  lemma NamesSnoc(authorities: seq<RR>, k: nat, qname: Name, zone: Name, cut: Name)
    requires k < |authorities|
    ensures var rr := authorities[k];
            NamesFor(authorities[..k + 1], qname, zone, cut) ==
              NamesFor(authorities[..k], qname, zone, cut)
              + if Delegates(rr, qname, zone) && EqualName(rr.name, cut) then {Canon(rr.ns)} else {}
  {
    var a, b := authorities[..k], authorities[..k + 1];
    assert b == a + [authorities[k]];
    forall x | x in NamesFor(b, qname, zone, cut)
      ensures x in NamesFor(a, qname, zone, cut) || (Delegates(b[k], qname, zone) && EqualName(b[k].name, cut)
          && x == Canon(b[k].ns))
    {
      var i :| 0 <= i < |b| && Delegates(b[i], qname, zone) && EqualName(b[i].name, cut) && Canon(b[i].ns) == x;
      if i < k { assert a[i] == b[i]; }
    }
    forall x | x in NamesFor(a, qname, zone, cut) ensures x in NamesFor(b, qname, zone, cut) {
      var i :| 0 <= i < |a| && Delegates(a[i], qname, zone) && EqualName(a[i].name, cut) && Canon(a[i].ns) == x;
      assert b[i] == a[i];
    }
    if Delegates(b[k], qname, zone) && EqualName(b[k].name, cut) {
      assert Canon(b[k].ns) in NamesFor(b, qname, zone, cut);
    }
  }

  /** An address that came along for one of the delegated servers, taken only for a
      name inside the responding zone. */
  function GlueIn(additionals: seq<RR>, nsNames: set<Name>, zone: Name, allowed: Bytes -> bool): seq<Bytes> {
    if additionals == [] then []
    else
      var n := |additionals| - 1;
      GlueIn(additionals[..n], nsNames, zone, allowed) + GlueOf(additionals[n], nsNames, zone, allowed)
  }

  function GlueOf(rr: RR, nsNames: set<Name>, zone: Name, allowed: Bytes -> bool): seq<Bytes> {
    if Canon(rr.name) !in nsNames || rr.rclass != ClassIN || !IsSubdomainOrEqual(rr.name, zone) then []
    else if rr.rtype == TypeA && rr.a != [] && allowed(rr.a) then [rr.a]
    else if rr.rtype == TypeAAAA && rr.aaaa != [] && allowed(rr.aaaa) then [rr.aaaa]
    else []
  }

  predicate GlueRecord(rr: RR, ip: Bytes, nsNames: set<Name>, zone: Name) {
    && Canon(rr.name) in nsNames && rr.rclass == ClassIN && IsSubdomainOrEqual(rr.name, zone)
    && ((rr.rtype == TypeA && rr.a == ip) || (rr.rtype == TypeAAAA && rr.aaaa == ip))
  }

  predicate GlueAmong(additionals: seq<RR>, ip: Bytes, nsNames: set<Name>, zone: Name) {
    exists k | 0 <= k < |additionals| :: GlueRecord(additionals[k], ip, nsNames, zone)
  }

  lemma GlueSnoc(additionals: seq<RR>, ip: Bytes, nsNames: set<Name>, zone: Name)
    requires additionals != []
    ensures var n := |additionals| - 1;
            GlueAmong(additionals, ip, nsNames, zone) <==>
              GlueAmong(additionals[..n], ip, nsNames, zone) || GlueRecord(additionals[n], ip, nsNames, zone)
  {
    var n := |additionals| - 1;
    if k :| 0 <= k < n && GlueRecord(additionals[..n][k], ip, nsNames, zone) {
      assert GlueRecord(additionals[k], ip, nsNames, zone);
    }
    if k :| 0 <= k < |additionals| && GlueRecord(additionals[k], ip, nsNames, zone) {
      if k < n { assert GlueRecord(additionals[..n][k], ip, nsNames, zone); }
    }
  }

  /** Glue is believed only about names inside the zone that answered, for servers it
      delegated to, at addresses that may be asked. */
  lemma {:induction false} GlueMeans(additionals: seq<RR>, nsNames: set<Name>, zone: Name, allowed: Bytes -> bool,
      ip: Bytes)
    ensures ip in GlueIn(additionals, nsNames, zone, allowed) <==>
              ip != [] && allowed(ip) && GlueAmong(additionals, ip, nsNames, zone)
    decreases |additionals|
  {
    if additionals != [] {
      var n := |additionals| - 1;
      GlueMeans(additionals[..n], nsNames, zone, allowed, ip);
      assert ip in GlueOf(additionals[n], nsNames, zone, allowed) <==>
               ip != [] && allowed(ip) && GlueRecord(additionals[n], ip, nsNames, zone);
      GlueSnoc(additionals, ip, nsNames, zone);
    }
  }

  function AddressesIn(answers: seq<RR>, allowed: Bytes -> bool): seq<Bytes> {
    if answers == [] then []
    else
      var n := |answers| - 1;
      AddressesIn(answers[..n], allowed)
      + if answers[n].rtype == TypeA && answers[n].a != [] && allowed(answers[n].a) then [answers[n].a] else []
  }

  predicate IsSOA(rr: RR) {
    rr.rtype == 6 && rr.soa.Some?
  }

  /** The first SOA record of a section, or none if there is none. */
  ghost predicate FirstSOA(authorities: seq<RR>, soa: Option<RR>) {
    match soa
    case None => forall i | 0 <= i < |authorities| :: !IsSOA(authorities[i])
    case Some(rr) =>
      exists i | 0 <= i < |authorities| ::
        IsSOA(authorities[i]) && authorities[i] == rr && forall j | 0 <= j < i :: !IsSOA(authorities[j])
  }

  function AsOption(rrs: seq<RR>): Option<RR> {
    if rrs == [] then None else Some(rrs[0])
  }

  lemma {:induction false} SOAIsFirst(authorities: seq<RR>)
    ensures |SOAAuthority(authorities)| <= 1 && FirstSOA(authorities, AsOption(SOAAuthority(authorities)))
  {
    if authorities != [] && !IsSOA(authorities[0]) {
      var rest := authorities[1..];
      SOAIsFirst(rest);
      assert forall i | 1 <= i < |authorities| :: authorities[i] == rest[i - 1];
      if SOAAuthority(rest) != [] {
        var i :| 0 <= i < |rest| && IsSOA(rest[i]) && rest[i] == SOAAuthority(rest)[0]
            && forall j | 0 <= j < i :: !IsSOA(rest[j]);
        assert authorities[i + 1] == rest[i];
        forall j | 0 <= j < i + 1 ensures !IsSOA(authorities[j]) {
          if j > 0 { assert authorities[j] == rest[j - 1]; }
        }
      }
    }
  }

  function SOAAuthority(authorities: seq<RR>): (r: seq<RR>)
    ensures |r| <= 1 && forall rr | rr in r :: rr in authorities && rr.rtype == TypeSOA && rr.soa.Some?
  {
    if authorities == [] then []
    else if authorities[0].rtype == TypeSOA && authorities[0].soa.Some? then [authorities[0]]
    else SOAAuthority(authorities[1..])
  }
}

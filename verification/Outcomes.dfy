/** What a resolution may end in, and what each end promises. */
module Outcomes {
  import opened Octets
  import opened Names
  import opened Messages
  import opened Nsec3
  import opened Trust
  import opened Aliases
  import opened Spans
  import opened Referrals
  import opened Refusals

  datatype Result = Result(answers: seq<RR>, authority: seq<RR>, secure: bool)

  datatype Error =
    | NXDomain(name: Name, soa: Option<RR>)
    | TooManyReferrals(name: Name)
    | ChainTooLong(name: Name)
    | Bogus | NotValidated | BadRCode | NoAnswer | NoServers | Cancelled

  datatype Outcome = Resolved(result: Result) | Failed(error: Error)

  /** Record j was verified with the keys of a zone enclosing one of the names
      being resolved when it arrived. */
  ghost predicate EarnedAt(env: Env, qname: Name, qtype: U16, recs: seq<RR>, j: nat)
    requires j < |recs|
  {
    exists i: nat :: EarnedFrom(env, qname, qtype, recs, j, i)
  }

  ghost predicate EarnedFrom(env: Env, qname: Name, qtype: U16, recs: seq<RR>, j: nat, i: nat)
    requires j < |recs|
  {
    i <= j && i <= Links(qtype, recs) && Earned(env, NameAfter(qname, recs, i), qtype, recs[j])
  }

  /** What Secure means: every record verified, and an empty end proved empty. */
  ghost predicate SecureMeans(env: Env, qname: Name, qtype: U16, recs: seq<RR>) {
    forall k {:trigger Opened(Door.Secured, k)} | Opened(Door.Secured, k) ::
      && (forall j: nat | j < |recs| :: EarnedAt(env, qname, qtype, recs, j))
      && (Links(qtype, recs) == |recs| ==>
            var target := Target(qname, qtype, recs); Settled(env, target, qtype, NoSuchData(target, qtype), Proven))
  }

  /** Why an answer may be given although it is not secure: a cut above one of the
      names on the way ends the chain of trust, a signature or proof is in a form
      that cannot be checked, or so is the proof that the end is empty. */
  ghost predicate Excused(env: Env, qname: Name, qtype: U16, recs: seq<RR>) {
    forall k {:trigger Opened(Door.Excuses, k)} | Opened(Door.Excuses, k) ::
      || (exists i: nat | i <= Links(qtype, recs) :: Exempt(env, NameAfter(qname, recs, i)))
      || (exists i: nat, j: nat | i <= Links(qtype, recs) && j < |recs| ::
          RecordDoubt(env, NameAfter(qname, recs, i), qtype, recs[j]))
      || (var target := Target(qname, qtype, recs);
          Settled(env, target, qtype, NoSuchData(target, qtype), Verdict.Unsupported))
  }

  ghost predicate AllEarned(env: Env, name: Name, qtype: U16, recs: seq<RR>) {
    forall j | 0 <= j < |recs| :: Earned(env, name, qtype, recs[j])
  }

  /** All of them in one response. */
  ghost predicate AllEarnedIn(env: Env, name: Name, qtype: U16, msg: Message, recs: seq<RR>) {
    forall j | 0 <= j < |recs| :: EarnedIn(env, name, qtype, msg, recs[j])
  }

  /** The records up to the k-th are verified, and that one cannot be checked. */
  ghost predicate DoubtedFrom(env: Env, name: Name, qtype: U16, msg: Message, recs: seq<RR>, k: nat) {
    && k < |recs| && (forall j | 0 <= j < k :: EarnedIn(env, name, qtype, msg, recs[j]))
    && DoubtIn(env, name, qtype, msg, recs[k])
  }

  lemma InOneIsEarned(env: Env, name: Name, qtype: U16, msg: Message, recs: seq<RR>)
    requires AllEarnedIn(env, name, qtype, msg, recs)
    ensures AllEarned(env, name, qtype, recs)
  {}

  lemma EarnedHere(env: Env, qname: Name, qtype: U16, recs: seq<RR>, j: nat)
    requires j < |recs| && Earned(env, qname, qtype, recs[j])
    ensures EarnedAt(env, qname, qtype, recs, j)
  {
    assert NameAfter(qname, recs, 0) == qname;
    assert EarnedFrom(env, qname, qtype, recs, j, 0);
  }

  /** Records that all came from the walk for qname, ending in some of the type. */
  lemma SecureHere(env: Env, qname: Name, qtype: U16, recs: seq<RR>)
    requires AllEarned(env, qname, qtype, recs) && Links(qtype, recs) < |recs|
    ensures SecureMeans(env, qname, qtype, recs)
  {
    forall j: nat | j < |recs| ensures EarnedAt(env, qname, qtype, recs, j) { EarnedHere(env, qname, qtype, recs, j); }
  }

  lemma SecureEmpty(env: Env, qname: Name, qtype: U16)
    requires Settled(env, qname, qtype, NoSuchData(qname, qtype), Proven)
    ensures SecureMeans(env, qname, qtype, [])
  {}

  lemma TargetAfter(name: Name, chain: seq<RR>, last: Name, qtype: U16, rest: seq<RR>)
    requires IsChain(name, chain, last) && Follows(last, qtype, rest) && (chain == [] || qtype != TypeCNAME)
    ensures Target(name, qtype, chain + rest) == Target(last, qtype, rest)
  {
    ChainThen(name, chain, last, qtype, rest);
    NameAfterChain(name, chain, last, rest, Links(qtype, rest));
  }

  lemma EarnedAfter(env: Env, name: Name, chain: seq<RR>, last: Name, qtype: U16, rest: seq<RR>, j: nat)
    requires IsChain(name, chain, last) && Links(qtype, chain + rest) == |chain| + Links(qtype, rest)
    requires j < |rest| && EarnedAt(env, last, qtype, rest, j)
    ensures EarnedAt(env, name, qtype, chain + rest, |chain| + j)
  {
    var i: nat :| EarnedFrom(env, last, qtype, rest, j, i);
    NameAfterChain(name, chain, last, rest, i);
    assert (chain + rest)[|chain| + j] == rest[j];
    assert EarnedFrom(env, name, qtype, chain + rest, |chain| + j, |chain| + i);
  }

  lemma EarnedFirst(env: Env, name: Name, chain: seq<RR>, qtype: U16, rest: seq<RR>, j: nat)
    requires AllEarned(env, name, qtype, chain) && j < |chain|
    ensures EarnedAt(env, name, qtype, chain + rest, j)
  {
    assert (chain + rest)[j] == chain[j];
    EarnedHere(env, name, qtype, chain + rest, j);
  }

  /** A verified chain in front of a secure answer for its end. */
  lemma SecureAfter(env: Env, name: Name, chain: seq<RR>, last: Name, qtype: U16, rest: seq<RR>)
    requires IsChain(name, chain, last) && Follows(last, qtype, rest) && (chain == [] || qtype != TypeCNAME)
    requires AllEarned(env, name, qtype, chain) && SecureMeans(env, last, qtype, rest)
    ensures SecureMeans(env, name, qtype, chain + rest)
  {
    assert Opened(Door.Secured, 0);
    ChainThen(name, chain, last, qtype, rest);
    TargetAfter(name, chain, last, qtype, rest);
    forall j: nat | j < |chain + rest| ensures EarnedAt(env, name, qtype, chain + rest, j) {
      if j < |chain| {
        EarnedFirst(env, name, chain, qtype, rest, j);
      } else {
        EarnedAfter(env, name, chain, last, qtype, rest, j - |chain|);
      }
    }
  }

  // ---- where records came from ----

  /** The network gave record j in answer to a question about one of the names being
      resolved when it arrived. */
  ghost predicate GivenAt(env: Env, qname: Name, qtype: U16, recs: seq<RR>, j: nat)
    requires j < |recs|
  {
    exists i: nat, msg :: GivenFrom(env, qname, qtype, recs, j, i, msg)
  }

  ghost predicate GivenFrom(env: Env, qname: Name, qtype: U16, recs: seq<RR>, j: nat, i: nat, msg: Message)
    requires j < |recs|
  {
    i <= j && i <= Links(qtype, recs) && Received(env, msg, NameAfter(qname, recs, i), qtype) && recs[j] in msg.answers
  }

  ghost predicate AllGiven(env: Env, qname: Name, qtype: U16, recs: seq<RR>) {
    forall k {:trigger Opened(Door.Given, k)} | Opened(Door.Given, k) ::
      forall j: nat | j < |recs| :: GivenAt(env, qname, qtype, recs, j)
  }

  lemma GivenHere(env: Env, qname: Name, qtype: U16, recs: seq<RR>, msg: Message)
    requires Received(env, msg, qname, qtype) && forall rr | rr in recs :: rr in msg.answers
    ensures AllGiven(env, qname, qtype, recs)
  {
    forall j: nat | j < |recs| ensures GivenAt(env, qname, qtype, recs, j) {
      assert recs[j] in msg.answers && NameAfter(qname, recs, 0) == qname;
      assert GivenFrom(env, qname, qtype, recs, j, 0, msg);
    }
  }

  lemma GivenFirst(env: Env, name: Name, qtype: U16, chain: seq<RR>, rest: seq<RR>, j: nat)
    requires j < |chain| && GivenAt(env, name, qtype, chain, j) && Links(qtype, chain) <= Links(qtype, chain + rest)
    ensures GivenAt(env, name, qtype, chain + rest, j)
  {
    var i: nat, msg :| GivenFrom(env, name, qtype, chain, j, i, msg);
    assert NameAfter(name, chain + rest, i) == NameAfter(name, chain, i) && (chain + rest)[j] == chain[j];
    assert GivenFrom(env, name, qtype, chain + rest, j, i, msg);
  }

  lemma GivenThen(env: Env, name: Name, chain: seq<RR>, last: Name, qtype: U16, rest: seq<RR>, j: nat)
    requires IsChain(name, chain, last) && Links(qtype, chain + rest) == |chain| + Links(qtype, rest)
    requires j < |rest| && GivenAt(env, last, qtype, rest, j)
    ensures GivenAt(env, name, qtype, chain + rest, |chain| + j)
  {
    var i: nat, msg :| GivenFrom(env, last, qtype, rest, j, i, msg);
    NameAfterChain(name, chain, last, rest, i);
    assert (chain + rest)[|chain| + j] == rest[j];
    assert GivenFrom(env, name, qtype, chain + rest, |chain| + j, |chain| + i, msg);
  }

  /** No record is made up: what was given for a chain and for its end was given for
      the whole. */
  lemma GivenAfter(env: Env, name: Name, chain: seq<RR>, last: Name, qtype: U16, rest: seq<RR>)
    requires IsChain(name, chain, last) && Follows(last, qtype, rest) && (chain == [] || qtype != TypeCNAME)
    requires AllGiven(env, name, qtype, chain) && AllGiven(env, last, qtype, rest)
    ensures AllGiven(env, name, qtype, chain + rest)
  {
    assert Opened(Door.Given, 0);
    ChainThen(name, chain, last, qtype, rest);
    forall j: nat | j < |chain + rest| ensures GivenAt(env, name, qtype, chain + rest, j) {
      if j < |chain| {
        GivenFirst(env, name, qtype, chain, rest, j);
      } else {
        GivenThen(env, name, chain, last, qtype, rest, j - |chain|);
      }
    }
  }

  // ---- what an answer ends in ----

  /** The message is without error, and the end of the answer is what it holds at the
      target: all the records of the type there; or, in answer to the question about the
      target itself, neither such a record nor an alias, and its first SOA. */
  ghost predicate EndsIn(env: Env, qname: Name, qtype: U16, recs: seq<RR>, authority: seq<RR>, i: nat, msg: Message) {
    var n, target := Links(qtype, recs), Target(qname, qtype, recs);
    && i <= n && msg.header.rcode == 0 && Received(env, msg, NameAfter(qname, recs, i), qtype)
    && recs[n..] == RecordsOfType(msg.answers, qtype, target)
    && if n < |recs| then authority == []
       else
         && i == n && LastAlias(msg.answers, target, qtype) == None
         && |authority| <= 1 && FirstSOA(msg.authorities, AsOption(authority))
  }

  ghost predicate Ends(env: Env, qname: Name, qtype: U16, recs: seq<RR>, authority: seq<RR>) {
    forall k {:trigger Opened(Door.Endings, k)} | Opened(Door.Endings, k) ::
      exists i: nat, msg :: EndsIn(env, qname, qtype, recs, authority, i, msg)
  }

  lemma EndsHere(env: Env, qname: Name, qtype: U16, recs: seq<RR>, msg: Message)
    requires msg.header.rcode == 0 && Received(env, msg, qname, qtype) && Links(qtype, recs) < |recs|
    requires recs[Links(qtype, recs)..] == RecordsOfType(msg.answers, qtype, Target(qname, qtype, recs))
    ensures Ends(env, qname, qtype, recs, [])
  {
    assert EndsIn(env, qname, qtype, recs, [], 0, msg);
  }

  lemma EndsEmpty(env: Env, qname: Name, qtype: U16, msg: Message)
    requires msg.header.rcode == 0 && Received(env, msg, qname, qtype)
    requires RecordsOfType(msg.answers, qtype, qname) == [] && LastAlias(msg.answers, qname, qtype) == None
    ensures Ends(env, qname, qtype, [], SOAAuthority(msg.authorities))
  {
    SOAIsFirst(msg.authorities);
    assert EndsIn(env, qname, qtype, [], SOAAuthority(msg.authorities), 0, msg);
  }

  lemma EndsInAfter(env: Env, name: Name, chain: seq<RR>, last: Name, qtype: U16, rest: seq<RR>, authority: seq<RR>,
                    i: nat, msg: Message)
    requires IsChain(name, chain, last) && Links(qtype, chain + rest) == |chain| + Links(qtype, rest)
    requires Target(name, qtype, chain + rest) == Target(last, qtype, rest)
    requires EndsIn(env, last, qtype, rest, authority, i, msg)
    ensures EndsIn(env, name, qtype, chain + rest, authority, |chain| + i, msg)
  {
    NameAfterChain(name, chain, last, rest, i);
    var n := Links(qtype, rest);
    assert (chain + rest)[|chain| + n..] == rest[n..];
  }

  /** An answer with a chain in front ends as it did. */
  lemma EndsAfter(env: Env, name: Name, chain: seq<RR>, last: Name, qtype: U16, rest: seq<RR>, authority: seq<RR>)
    requires IsChain(name, chain, last) && Follows(last, qtype, rest) && (chain == [] || qtype != TypeCNAME)
    requires Ends(env, last, qtype, rest, authority)
    ensures Ends(env, name, qtype, chain + rest, authority)
  {
    assert Opened(Door.Endings, 0);
    ChainThen(name, chain, last, qtype, rest);
    TargetAfter(name, chain, last, qtype, rest);
    var i: nat, msg :| EndsIn(env, last, qtype, rest, authority, i, msg);
    EndsInAfter(env, name, chain, last, qtype, rest, authority, i, msg);
  }

  lemma ExcusedByCut(env: Env, qname: Name, qtype: U16, recs: seq<RR>)
    requires Exempt(env, qname)
    ensures Excused(env, qname, qtype, recs)
  {
    assert Exempt(env, NameAfter(qname, recs, 0));
  }

  lemma ExcusedByRecord(env: Env, qname: Name, qtype: U16, recs: seq<RR>, j: nat)
    requires j < |recs| && RecordDoubt(env, qname, qtype, recs[j])
    ensures Excused(env, qname, qtype, recs)
  {
    assert RecordDoubt(env, NameAfter(qname, recs, 0), qtype, recs[j]);
  }

  lemma ExcusedByProof(env: Env, qname: Name, qtype: U16)
    requires Settled(env, qname, qtype, NoSuchData(qname, qtype), Verdict.Unsupported)
    ensures Excused(env, qname, qtype, [])
  {}

  /** What excuses the end of a chain excuses the whole. */
  lemma ExcusedAfter(env: Env, name: Name, chain: seq<RR>, last: Name, qtype: U16, rest: seq<RR>)
    requires IsChain(name, chain, last) && Follows(last, qtype, rest) && (chain == [] || qtype != TypeCNAME)
    requires Excused(env, last, qtype, rest)
    ensures Excused(env, name, qtype, chain + rest)
  {
    var recs := chain + rest;
    assert Opened(Door.Excuses, 0);
    ChainThen(name, chain, last, qtype, rest);
    TargetAfter(name, chain, last, qtype, rest);
    if i: nat :| i <= Links(qtype, rest) && Exempt(env, NameAfter(last, rest, i)) {
      NameAfterChain(name, chain, last, rest, i);
      assert Exempt(env, NameAfter(name, recs, |chain| + i));
    } else if i: nat, j: nat :|
              i <= Links(qtype, rest) && j < |rest| && RecordDoubt(env, NameAfter(last, rest, i), qtype, rest[j])
    {
      NameAfterChain(name, chain, last, rest, i);
      assert recs[|chain| + j] == rest[j];
      assert RecordDoubt(env, NameAfter(name, recs, |chain| + i), qtype, recs[|chain| + j]);
    }
  }

  /** A name error on a validated walk was proved, or could not be checked, or is
      below the end of the chain of trust. */
  ghost predicate NameErrorMeans(env: Env, name: Name, qtype: U16) {
    || Settled(env, name, qtype, NoSuchName(name), Proven)
    || Settled(env, name, qtype, NoSuchName(name), Verdict.Unsupported)
    || Exempt(env, name)
  }

  /** CNAMEs that the network gave lead from the name asked for to the one an error is
      about: few enough to follow. No signature of theirs is looked at. */
  ghost predicate LeadsTo(env: Env, qname: Name, qtype: U16, cnameDepth: nat, chain: seq<RR>, last: Name) {
    && IsChain(qname, chain, last) && AllIn(chain) && (chain == [] || qtype != TypeCNAME)
    && cnameDepth + |chain| < MAX_CNAME_CHAIN && AllGiven(env, qname, qtype, chain)
  }

  lemma LeadsNowhere(env: Env, qname: Name, qtype: U16, cnameDepth: nat)
    requires cnameDepth < MAX_CNAME_CHAIN
    ensures LeadsTo(env, qname, qtype, cnameDepth, [], qname)
  {}

  lemma LeadsFurther(env: Env, qname: Name, qtype: U16, cnameDepth: nat, chain: seq<RR>, mid: Name, rest: seq<RR>,
                     last: Name)
    requires LeadsTo(env, qname, qtype, cnameDepth, chain, mid)
    requires LeadsTo(env, mid, qtype, cnameDepth + |chain|, rest, last)
    ensures LeadsTo(env, qname, qtype, cnameDepth, chain + rest, last)
  {
    ChainJoined(qname, chain, mid, rest, last);
    ChainThen(mid, rest, last, qtype, []);
    assert rest + [] == rest;
    GivenAfter(env, qname, chain, mid, qtype, rest);
  }

  ghost predicate ErrorGiven(env: Env, name: Name, qtype: U16, soa: Option<RR>, msg: Message) {
    Received(env, msg, name, qtype) && msg.header.rcode == 3 && FirstSOA(msg.authorities, soa)
  }

  ghost predicate OtherError(env: Env, name: Name, qtype: U16, msg: Message) {
    Received(env, msg, name, qtype) && msg.header.rcode != 0 && msg.header.rcode != 3
  }

  ghost predicate LongChain(env: Env, name: Name, qtype: U16, depth: nat, msg: Message)
    requires depth < MAX_CNAME_CHAIN
  {
    Received(env, msg, name, qtype) && msg.header.rcode == 0 && Chase(msg.answers, name, qtype, depth) == TooLong
  }

  /** What an error says of the name a resolution came to: what was received about it,
      refused, or not received at all. */
  ghost predicate FailsAt(env: Env, validating: bool, name: Name, qtype: U16, depth: nat, e: Error)
    requires depth < MAX_CNAME_CHAIN
  {
    match e
    case NXDomain(n, soa) =>
      && n == name && (exists msg :: ErrorGiven(env, name, qtype, soa, msg))
      && (validating ==> NameErrorMeans(env, name, qtype))
    case TooManyReferrals(n) => n == name && |n| >= 15
    case ChainTooLong(n) => n == name && exists msg :: LongChain(env, name, qtype, depth, msg)
    case BadRCode => exists msg :: OtherError(env, name, qtype, msg)
    case Bogus => validating && BogusMeans(env, name, qtype, depth)
    case NotValidated => validating && NotValidatedMeans(env, name)
    case NoAnswer => Unanswered(env, name, qtype)
    case NoServers => NoServersMeans(env, name, qtype)
    case Cancelled => exists k: nat | env.since <= k <= env.until :: env.cancelled(k)
  }

  ghost predicate FailsVia(env: Env, validating: bool, qname: Name, qtype: U16, cnameDepth: nat, e: Error,
                           chain: seq<RR>, last: Name) {
    && LeadsTo(env, qname, qtype, cnameDepth, chain, last)
    && FailsAt(env, validating, last, qtype, cnameDepth + |chain|, e)
  }

  /** Why a resolution may fail: what CNAMEs lead to did. */
  ghost predicate Fails(env: Env, validating: bool, qname: Name, qtype: U16, cnameDepth: nat, e: Error) {
    forall j {:trigger Opened(Door.Failures, j)} | Opened(Door.Failures, j) ::
      exists chain, last :: FailsVia(env, validating, qname, qtype, cnameDepth, e, chain, last)
  }

  lemma FailsHere(env: Env, validating: bool, qname: Name, qtype: U16, cnameDepth: nat, e: Error)
    requires cnameDepth < MAX_CNAME_CHAIN && FailsAt(env, validating, qname, qtype, cnameDepth, e)
    ensures Fails(env, validating, qname, qtype, cnameDepth, e)
  {
    LeadsNowhere(env, qname, qtype, cnameDepth);
    assert FailsVia(env, validating, qname, qtype, cnameDepth, e, [], qname);
  }

  lemma FailsFurther(env: Env, validating: bool, qname: Name, qtype: U16, cnameDepth: nat, chain: seq<RR>, mid: Name,
                     e: Error)
    requires LeadsTo(env, qname, qtype, cnameDepth, chain, mid)
    requires Fails(env, validating, mid, qtype, cnameDepth + |chain|, e)
    ensures Fails(env, validating, qname, qtype, cnameDepth, e)
  {
    assert Opened(Door.Failures, 0);
    var rest, last :| FailsVia(env, validating, mid, qtype, cnameDepth + |chain|, e, rest, last);
    LeadsFurther(env, qname, qtype, cnameDepth, chain, mid, rest, last);
    assert cnameDepth + |chain + rest| == cnameDepth + |chain| + |rest|;
    assert FailsVia(env, validating, qname, qtype, cnameDepth, e, chain + rest, last);
  }

  /** The contract of a resolution; validating is that signatures are checked and
      this query did not ask otherwise. */
  ghost predicate Promised(env: Env, validating: bool, qname: Name, qtype: U16, cnameDepth: nat, o: Outcome) {
    match o
    case Resolved(res) =>
      && Follows(qname, qtype, res.answers) && AllIn(res.answers)
      && cnameDepth + Links(qtype, res.answers) < MAX_CNAME_CHAIN && AllGiven(env, qname, qtype, res.answers)
      && Ends(env, qname, qtype, res.answers, res.authority)
      && (res.secure ==> validating && SecureMeans(env, qname, qtype, res.answers))
      && (validating && !res.secure ==> Excused(env, qname, qtype, res.answers))
    case Failed(e) => Fails(env, validating, qname, qtype, cnameDepth, e)
  }

  // ---- as the span widens ----

  lemma EarnedAtLater(e: Env, f: Env, qname: Name, qtype: U16, recs: seq<RR>, j: nat)
    requires Wider(e, f) && j < |recs| && EarnedAt(e, qname, qtype, recs, j)
    ensures EarnedAt(f, qname, qtype, recs, j)
  {
    var i: nat :| EarnedFrom(e, qname, qtype, recs, j, i);
    EarnedLater(e, f, NameAfter(qname, recs, i), qtype, recs[j]);
    assert EarnedFrom(f, qname, qtype, recs, j, i);
  }

  lemma SecureLater(e: Env, f: Env, qname: Name, qtype: U16, recs: seq<RR>)
    requires Wider(e, f) && SecureMeans(e, qname, qtype, recs)
    ensures SecureMeans(f, qname, qtype, recs)
  {
    assert Opened(Door.Secured, 0);
    forall j: nat | j < |recs| ensures EarnedAt(f, qname, qtype, recs, j) {
      EarnedAtLater(e, f, qname, qtype, recs, j);
    }
    var target := Target(qname, qtype, recs);
    if Links(qtype, recs) == |recs| { SettledLater(e, f, target, qtype, NoSuchData(target, qtype), Proven); }
  }

  lemma ExcusedLater(e: Env, f: Env, qname: Name, qtype: U16, recs: seq<RR>)
    requires Wider(e, f) && Excused(e, qname, qtype, recs)
    ensures Excused(f, qname, qtype, recs)
  {
    assert Opened(Door.Excuses, 0);
    var target := Target(qname, qtype, recs);
    if i: nat :| i <= Links(qtype, recs) && Exempt(e, NameAfter(qname, recs, i)) {
      ExemptLater(e, f, NameAfter(qname, recs, i));
    } else if i: nat, j: nat :|
              i <= Links(qtype, recs) && j < |recs| && RecordDoubt(e, NameAfter(qname, recs, i), qtype, recs[j])
    {
      DoubtLater(e, f, NameAfter(qname, recs, i), qtype, recs[j]);
    } else {
      SettledLater(e, f, target, qtype, NoSuchData(target, qtype), Verdict.Unsupported);
    }
  }

  lemma GivenAtLater(e: Env, f: Env, qname: Name, qtype: U16, recs: seq<RR>, j: nat)
    requires Wider(e, f) && j < |recs| && GivenAt(e, qname, qtype, recs, j)
    ensures GivenAt(f, qname, qtype, recs, j)
  {
    var i: nat, msg :| GivenFrom(e, qname, qtype, recs, j, i, msg);
    ReceivedLater(e, f, msg, NameAfter(qname, recs, i), qtype);
    assert GivenFrom(f, qname, qtype, recs, j, i, msg);
  }

  lemma GivenLater(e: Env, f: Env, qname: Name, qtype: U16, recs: seq<RR>)
    requires Wider(e, f) && AllGiven(e, qname, qtype, recs)
    ensures AllGiven(f, qname, qtype, recs)
  {
    assert Opened(Door.Given, 0);
    forall j: nat | j < |recs| ensures GivenAt(f, qname, qtype, recs, j) { GivenAtLater(e, f, qname, qtype, recs, j); }
  }

  lemma NameErrorLater(e: Env, f: Env, name: Name, qtype: U16)
    requires Wider(e, f) && NameErrorMeans(e, name, qtype)
    ensures NameErrorMeans(f, name, qtype)
  {
    if Settled(e, name, qtype, NoSuchName(name), Proven) {
      SettledLater(e, f, name, qtype, NoSuchName(name), Proven);
    } else if Settled(e, name, qtype, NoSuchName(name), Verdict.Unsupported) {
      SettledLater(e, f, name, qtype, NoSuchName(name), Verdict.Unsupported);
    } else {
      ExemptLater(e, f, name);
    }
  }

  lemma EndsLater(e: Env, f: Env, qname: Name, qtype: U16, recs: seq<RR>, authority: seq<RR>)
    requires Wider(e, f) && Ends(e, qname, qtype, recs, authority)
    ensures Ends(f, qname, qtype, recs, authority)
  {
    assert Opened(Door.Endings, 0);
    var i: nat, msg :| EndsIn(e, qname, qtype, recs, authority, i, msg);
    ReceivedLater(e, f, msg, NameAfter(qname, recs, i), qtype);
    assert EndsIn(f, qname, qtype, recs, authority, i, msg);
  }

  lemma FailsAtLater(e: Env, f: Env, validating: bool, name: Name, qtype: U16, depth: nat, x: Error)
    requires Wider(e, f) && depth < MAX_CNAME_CHAIN && FailsAt(e, validating, name, qtype, depth, x)
    ensures FailsAt(f, validating, name, qtype, depth, x)
  {
    match x
    case NXDomain(n, soa) =>
      var msg :| ErrorGiven(e, name, qtype, soa, msg);
      ReceivedLater(e, f, msg, name, qtype);
      assert ErrorGiven(f, name, qtype, soa, msg);
      if validating { NameErrorLater(e, f, name, qtype); }
    case TooManyReferrals(n) =>
    case ChainTooLong(n) =>
      var msg :| LongChain(e, name, qtype, depth, msg);
      ReceivedLater(e, f, msg, name, qtype);
      assert LongChain(f, name, qtype, depth, msg);
    case BadRCode =>
      var msg :| OtherError(e, name, qtype, msg);
      ReceivedLater(e, f, msg, name, qtype);
      assert OtherError(f, name, qtype, msg);
    case Bogus => BogusLater(e, f, name, qtype, depth);
    case NotValidated => NotValidatedLater(e, f, name);
    case NoAnswer => UnansweredLater(e, f, name, qtype);
    case NoServers => NoServersLater(e, f, name, qtype);
    case Cancelled =>
  }

  lemma FailsLater(e: Env, f: Env, validating: bool, qname: Name, qtype: U16, cnameDepth: nat, x: Error)
    requires Wider(e, f) && Fails(e, validating, qname, qtype, cnameDepth, x)
    ensures Fails(f, validating, qname, qtype, cnameDepth, x)
  {
    assert Opened(Door.Failures, 0);
    var chain, last :| FailsVia(e, validating, qname, qtype, cnameDepth, x, chain, last);
    FailsViaLater(e, f, validating, qname, qtype, cnameDepth, x, chain, last);
  }

  lemma FailsViaLater(e: Env, f: Env, validating: bool, qname: Name, qtype: U16, cnameDepth: nat, x: Error,
                      chain: seq<RR>, last: Name)
    requires Wider(e, f) && FailsVia(e, validating, qname, qtype, cnameDepth, x, chain, last)
    ensures FailsVia(f, validating, qname, qtype, cnameDepth, x, chain, last)
  {
    LeadsLater(e, f, qname, qtype, cnameDepth, chain, last);
    FailsAtLater(e, f, validating, last, qtype, cnameDepth + |chain|, x);
  }

  lemma LeadsLater(e: Env, f: Env, qname: Name, qtype: U16, cnameDepth: nat, chain: seq<RR>, last: Name)
    requires Wider(e, f) && LeadsTo(e, qname, qtype, cnameDepth, chain, last)
    ensures LeadsTo(f, qname, qtype, cnameDepth, chain, last)
  {
    GivenLater(e, f, qname, qtype, chain);
  }

  /** An outcome that keeps its promise keeps it from then on. */
  lemma PromisedLater(e: Env, f: Env, validating: bool, qname: Name, qtype: U16, cnameDepth: nat, o: Outcome)
    requires Wider(e, f) && Promised(e, validating, qname, qtype, cnameDepth, o)
    ensures Promised(f, validating, qname, qtype, cnameDepth, o)
  {
    match o
    case Resolved(res) =>
      GivenLater(e, f, qname, qtype, res.answers);
      EndsLater(e, f, qname, qtype, res.answers, res.authority);
      if res.secure { SecureLater(e, f, qname, qtype, res.answers); }
      if validating && !res.secure { ExcusedLater(e, f, qname, qtype, res.answers); }
    case Failed(x) => FailsLater(e, f, validating, qname, qtype, cnameDepth, x);
  }
}

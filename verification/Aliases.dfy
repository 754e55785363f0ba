/** Following CNAME records: what one response says about a name, and what a
    client can follow. */
module Aliases {
  import opened Octets
  import opened Names
  import opened Messages
  import opened Trust

  const MAX_CNAME_CHAIN := 15

  // ---- answers a stub can follow ----

  predicate IsLink(rr: RR, name: Name) {
    rr.rtype == TypeCNAME && rr.rclass == ClassIN && EqualName(rr.name, name)
  }

  predicate AllFinal(name: Name, qtype: U16, recs: seq<RR>) {
    forall i | 0 <= i < |recs| :: IsOf(recs[i], qtype, name)
  }

  /** Each CNAME's target owns the next record, and all the rest are of the
      requested type at the last target. */
  predicate Follows(name: Name, qtype: U16, recs: seq<RR>)
    decreases |recs|
  {
    || AllFinal(name, qtype, recs)
    || (recs != [] && qtype != TypeCNAME && IsLink(recs[0], name) && Follows(recs[0].cname, qtype, recs[1..]))
  }

  /** CNAMEs leading from name to last. */
  predicate IsChain(name: Name, chain: seq<RR>, last: Name)
    decreases |chain|
  {
    if chain == [] then name == last else IsLink(chain[0], name) && IsChain(chain[0].cname, chain[1..], last)
  }

  /** How many CNAMEs an answer starts with. */
  function Links(qtype: U16, recs: seq<RR>): (n: nat)
    ensures n <= |recs|
  {
    if recs == [] || recs[0].rtype == qtype || recs[0].rtype != TypeCNAME then 0 else 1 + Links(qtype, recs[1..])
  }

  /** The name reached after following i records. */
  function NameAfter(name: Name, recs: seq<RR>, i: nat): Name
    requires i <= |recs|
  {
    if i == 0 then name else recs[i - 1].cname
  }

  function Target(name: Name, qtype: U16, recs: seq<RR>): Name {
    NameAfter(name, recs, Links(qtype, recs))
  }

  lemma {:induction false} ChainThen(name: Name, chain: seq<RR>, last: Name, qtype: U16, rest: seq<RR>)
    requires IsChain(name, chain, last) && Follows(last, qtype, rest) && (chain == [] || qtype != TypeCNAME)
    ensures Follows(name, qtype, chain + rest) && Links(qtype, chain + rest) == |chain| + Links(qtype, rest)
    decreases |chain|
  {
    if chain == [] {
      assert chain + rest == rest;
    } else {
      ChainThen(chain[0].cname, chain[1..], last, qtype, rest);
      assert (chain + rest)[1..] == chain[1..] + rest;
    }
  }

  lemma {:induction false} ChainJoined(name: Name, chain: seq<RR>, mid: Name, rest: seq<RR>, last: Name)
    requires IsChain(name, chain, mid) && IsChain(mid, rest, last)
    ensures IsChain(name, chain + rest, last)
    decreases |chain|
  {
    if chain == [] {
      assert chain + rest == rest;
    } else {
      ChainJoined(chain[0].cname, chain[1..], mid, rest, last);
      assert (chain + rest)[1..] == chain[1..] + rest;
    }
  }

  lemma {:induction false} ChainEnd(name: Name, chain: seq<RR>, last: Name)
    requires IsChain(name, chain, last)
    ensures NameAfter(name, chain, |chain|) == last
    decreases |chain|
  {
    if |chain| > 1 {
      ChainEnd(chain[0].cname, chain[1..], last);
    } else if |chain| == 1 {
      assert chain[1..] == [];
    }
  }

  lemma NameAfterChain(name: Name, chain: seq<RR>, last: Name, rest: seq<RR>, i: nat)
    requires IsChain(name, chain, last) && i <= |rest|
    ensures NameAfter(name, chain + rest, |chain| + i) == NameAfter(last, rest, i)
  {
    ChainEnd(name, chain, last);
  }

  // ---- one response ----

  /** The last CNAME at name, unless CNAME is what was asked for. */
  function LastAlias(section: seq<RR>, name: Name, qtype: U16): Option<RR> {
    if section == [] then None
    else
      var rr := section[|section| - 1];
      if IsLink(rr, name) && rr.rtype != qtype then Some(rr) else LastAlias(section[..|section| - 1], name, qtype)
  }

  datatype Chased = TooLong | Chased(chain: seq<RR>, name: Name, answers: seq<RR>)

  function Longer(chain: seq<RR>, c: Chased): Chased {
    match c case TooLong => TooLong case Chased(rest, n, a) => Chased(chain + rest, n, a)
  }

  /** The CNAMEs a response holds from name on, and the records where they end. */
  function Chase(section: seq<RR>, name: Name, qtype: U16, used: nat): Chased
    requires used < MAX_CNAME_CHAIN
    decreases MAX_CNAME_CHAIN - used
  {
    var answers := RecordsOfType(section, qtype, name);
    match LastAlias(section, name, qtype)
    case None => Chased([], name, answers)
    case Some(alias) =>
      if answers != [] then Chased([], name, answers)
      else if used + 1 >= MAX_CNAME_CHAIN then TooLong
      else Longer([alias], Chase(section, alias.cname, qtype, used + 1))
  }

  method ScanName(section: seq<RR>, name: Name, qtype: U16) returns (answers: seq<RR>, cname: Option<RR>)
    ensures answers == RecordsOfType(section, qtype, name) && cname == LastAlias(section, name, qtype)
  {
    answers, cname := [], None;
    for k := 0 to |section|
      invariant answers == RecordsOfType(section[..k], qtype, name) && cname == LastAlias(section[..k], name, qtype)
    {
      assert section[..k + 1][..k] == section[..k];
      var rr := section[k];
      if !EqualName(rr.name, name) || rr.rclass != ClassIN { continue; }
      if rr.rtype == qtype {
        answers := answers + [rr];
      } else if rr.rtype == TypeCNAME {
        cname := Some(rr);
      }
    }
    assert section[..|section|] == section;
  }

  lemma LongerTwice(a: seq<RR>, b: seq<RR>, c: Chased)
    ensures Longer(a, Longer(b, c)) == Longer(a + b, c)
  {
    if c.Chased? { assert a + (b + c.chain) == a + b + c.chain; }
  }

  lemma LongerNone(c: Chased)
    ensures Longer([], c) == c
  {
    if c.Chased? { assert [] + c.chain == c.chain; }
  }

  method FollowAliases(section: seq<RR>, qname: Name, qtype: U16, cnameDepth: nat) returns (r: Chased)
    requires cnameDepth < MAX_CNAME_CHAIN
    ensures r == Chase(section, qname, qtype, cnameDepth)
  {
    var name := qname;
    var chain: seq<RR> := [];
    LongerNone(Chase(section, name, qtype, cnameDepth));
    while true
      invariant cnameDepth + |chain| < MAX_CNAME_CHAIN
      invariant Chase(section, qname, qtype, cnameDepth) ==
                  Longer(chain, Chase(section, name, qtype, cnameDepth + |chain|))
      decreases MAX_CNAME_CHAIN - |chain|
    {
      var answers, cname := ScanName(section, name, qtype);
      if |answers| > 0 || cname.None? {
        assert chain + [] == chain;
        return Chased(chain, name, answers);
      }
      if cnameDepth + |chain| + 1 >= MAX_CNAME_CHAIN {
        return TooLong;
      }
      LongerTwice(chain, [cname.value], Chase(section, cname.value.cname, qtype, cnameDepth + |chain| + 1));
      chain := chain + [cname.value];
      name := cname.value.cname;
    }
  }

  lemma {:induction false} LastAliasIsLink(section: seq<RR>, name: Name, qtype: U16)
    ensures match LastAlias(section, name, qtype)
            case None => true
            case Some(rr) => rr in section && IsLink(rr, name) && qtype != TypeCNAME
    decreases |section|
  {
    if section != [] { LastAliasIsLink(section[..|section| - 1], name, qtype); }
  }

  predicate AllIn(rrs: seq<RR>) {
    forall i | 0 <= i < |rrs| :: rrs[i].rclass == ClassIN
  }

  /** What following a response gives is a chain from the name asked for, of
      bounded length, and the records of the type at its end. */
  lemma {:induction false} ChaseIsChain(section: seq<RR>, name: Name, qtype: U16, used: nat)
    requires used < MAX_CNAME_CHAIN
    ensures match Chase(section, name, qtype, used)
            case TooLong => true
            case Chased(chain, last, answers) =>
              && IsChain(name, chain, last) && used + |chain| < MAX_CNAME_CHAIN
              && (chain != [] ==> qtype != TypeCNAME) && AllIn(chain)
              && answers == RecordsOfType(section, qtype, last)
              && forall rr | rr in chain :: rr in section
    decreases MAX_CNAME_CHAIN - used
  {
    LastAliasIsLink(section, name, qtype);
    match LastAlias(section, name, qtype)
    case None =>
    case Some(alias) =>
      if RecordsOfType(section, qtype, name) == [] && used + 1 < MAX_CNAME_CHAIN {
        ChaseIsChain(section, alias.cname, qtype, used + 1);
        match Chase(section, alias.cname, qtype, used + 1)
        case TooLong =>
        case Chased(rest, last, answers) => assert ([alias] + rest)[1..] == rest;
      }
  }

  lemma FinalAnswers(section: seq<RR>, name: Name, qtype: U16)
    ensures var answers := RecordsOfType(section, qtype, name);
            AllFinal(name, qtype, answers) && AllIn(answers) && Links(qtype, answers) == 0
  {
    RecordsOwned(section, qtype, name);
  }

  // ---- loops ----

  lemma {:induction false} ScanUpToCase(section: seq<RR>, a: Name, b: Name, qtype: U16)
    requires EqualName(a, b)
    ensures RecordsOfType(section, qtype, a) == RecordsOfType(section, qtype, b)
    ensures LastAlias(section, a, qtype) == LastAlias(section, b, qtype)
    decreases |section|
  {
    if section != [] { ScanUpToCase(section[..|section| - 1], a, b, qtype); }
  }

  /** How far a response leads depends on the name alone. */
  lemma {:induction false} SameLength(section: seq<RR>, a: Name, b: Name, qtype: U16, i: nat, j: nat)
    requires EqualName(a, b) && i < MAX_CNAME_CHAIN && j < MAX_CNAME_CHAIN
    requires Chase(section, a, qtype, i).Chased? && Chase(section, b, qtype, j).Chased?
    ensures |Chase(section, a, qtype, i).chain| == |Chase(section, b, qtype, j).chain|
    decreases MAX_CNAME_CHAIN - i
  {
    ScanUpToCase(section, a, b, qtype);
    match LastAlias(section, a, qtype)
    case None =>
    case Some(alias) =>
      if RecordsOfType(section, qtype, a) == [] {
        SameLength(section, alias.cname, alias.cname, qtype, i + 1, j + 1);
      }
  }

  /** Always true, and to Leads what Opened is to other predicates: the solver looks
      inside only at the depths a proof names. */
  predicate Followed(used: nat, k: int) {
    true
  }

  /** Following name, used CNAMEs in, gives c. */
  ghost predicate Leads(section: seq<RR>, name: Name, qtype: U16, used: nat, c: Chased) {
    forall k {:trigger Followed(used, k)} | Followed(used, k) ::
      used < MAX_CNAME_CHAIN && Chase(section, name, qtype, used) == c && c.Chased?
  }

  lemma ChaseStep(section: seq<RR>, name: Name, qtype: U16, used: nat, c: Chased)
    requires Leads(section, name, qtype, used, c) && c.Chased? && c.chain != []
    ensures Leads(section, c.chain[0].cname, qtype, used + 1, Chased(c.chain[1..], c.name, c.answers))
  {
    assert Followed(used, 0);
    var alias := LastAlias(section, name, qtype).value;
    var d := Chase(section, alias.cname, qtype, used + 1);
    assert ([alias] + d.chain)[1..] == d.chain;
  }

  /** The chain from its i-th name on is what following that name gives. */
  lemma {:induction false} ChaseFrom(section: seq<RR>, name: Name, qtype: U16, used: nat, c: Chased, i: nat)
      returns (t: Chased)
    requires Leads(section, name, qtype, used, c) && c.Chased? && i <= |c.chain|
    ensures Leads(section, NameAfter(name, c.chain, i), qtype, used + i, t)
    ensures t.Chased? && |t.chain| == |c.chain| - i
    decreases i
  {
    t := c;
    if i > 0 {
      ChaseStep(section, name, qtype, used, c);
      var next := c.chain[0].cname;
      t := ChaseFrom(section, next, qtype, used + 1, Chased(c.chain[1..], c.name, c.answers), i - 1);
      assert NameAfter(name, c.chain, i) == NameAfter(next, c.chain[1..], i - 1);
    }
  }

  lemma LengthsDiffer(section: seq<RR>, a: Name, b: Name, qtype: U16, i: nat, j: nat, s: Chased, t: Chased)
    requires Leads(section, a, qtype, i, s) && Leads(section, b, qtype, j, t)
    requires s.Chased? && t.Chased? && |s.chain| != |t.chain|
    ensures !EqualName(a, b)
  {
    assert Followed(i, 0) && Followed(j, 0);
    if EqualName(a, b) { SameLength(section, a, b, qtype, i, j); }
  }

  /** A chain that was followed to its end never meets a name twice. */
  lemma NoLoop(section: seq<RR>, name: Name, qtype: U16, used: nat, c: Chased, i: nat, j: nat)
    requires Leads(section, name, qtype, used, c) && c.Chased? && i < j <= |c.chain|
    ensures !EqualName(NameAfter(name, c.chain, i), NameAfter(name, c.chain, j))
  {
    var s := ChaseFrom(section, name, qtype, used, c, i);
    var t := ChaseFrom(section, name, qtype, used, c, j);
    LengthsDiffer(section, NameAfter(name, c.chain, i), NameAfter(name, c.chain, j), qtype, used + i, used + j, s, t);
  }

  /** The response answers name a with nothing but a CNAME to b. */
  predicate Hop(section: seq<RR>, a: Name, b: Name, qtype: U16) {
    && RecordsOfType(section, qtype, a) == []
    && LastAlias(section, a, qtype).Some? && LastAlias(section, a, qtype).value.cname == b
  }

  ghost predicate AliasPath(section: seq<RR>, names: seq<Name>, qtype: U16) {
    forall i, j | 0 <= i < j < |names| && j == i + 1 :: Hop(section, names[i], names[j], qtype)
  }

  lemma HopTaken(section: seq<RR>, a: Name, b: Name, qtype: U16, used: nat, c: Chased)
    requires Hop(section, a, b, qtype) && Leads(section, a, qtype, used, c) && c.Chased?
    ensures c.chain != [] && c.chain[0].cname == b
  {
    assert Followed(used, 0);
  }

  lemma {:induction false} PathFollowed(section: seq<RR>, names: seq<Name>, qtype: U16, used: nat, c: Chased)
    requires names != [] && AliasPath(section, names, qtype) && Leads(section, names[0], qtype, used, c) && c.Chased?
    ensures |names| - 1 <= |c.chain| && NameAfter(names[0], c.chain, |names| - 1) == names[|names| - 1]
    decreases |names|
  {
    if |names| > 1 {
      HopTaken(section, names[0], names[1], qtype, used, c);
      ChaseStep(section, names[0], qtype, used, c);
      PathFollowed(section, names[1..], qtype, used + 1, Chased(c.chain[1..], c.name, c.answers));
    }
  }

  /** A CNAME loop within one response always ends in an error. */
  lemma LoopFails(section: seq<RR>, names: seq<Name>, qtype: U16, used: nat)
    requires |names| > 1 && AliasPath(section, names, qtype) && EqualName(names[0], names[|names| - 1])
    requires used < MAX_CNAME_CHAIN
    ensures Chase(section, names[0], qtype, used) == TooLong
  {
    var c := Chase(section, names[0], qtype, used);
    if c.Chased? {
      PathFollowed(section, names, qtype, used, c);
      NoLoop(section, names[0], qtype, used, c, 0, |names| - 1);
    }
  }

  lemma Prepended(section: seq<RR>, name: Name, qtype: U16, rest: seq<Name>)
    requires rest != [] && AliasPath(section, rest, qtype) && Hop(section, name, rest[0], qtype)
    ensures AliasPath(section, [name] + rest, qtype)
  {
    var names := [name] + rest;
    forall i, j | 0 <= i < j < |names| && j == i + 1 ensures Hop(section, names[i], names[j], qtype) {
      if i > 0 { assert Hop(section, rest[i - 1], rest[j - 1], qtype); }
    }
  }

  lemma {:induction false} TooLongPath(section: seq<RR>, name: Name, qtype: U16, used: nat) returns (names: seq<Name>)
    requires used < MAX_CNAME_CHAIN && Chase(section, name, qtype, used) == TooLong
    ensures |names| == 16 - used && names[0] == name && AliasPath(section, names, qtype)
    decreases MAX_CNAME_CHAIN - used
  {
    var alias := LastAlias(section, name, qtype).value;
    var rest := [alias.cname];
    assert Hop(section, name, alias.cname, qtype);
    if used + 1 < MAX_CNAME_CHAIN { rest := TooLongPath(section, alias.cname, qtype, used + 1); }
    Prepended(section, name, qtype, rest);
    names := [name] + rest;
  }

  /** Names the response leads through from one, by CNAMEs alone. */
  ghost predicate PathOf(section: seq<RR>, name: Name, qtype: U16, names: seq<Name>) {
    names != [] && names[0] == name && AliasPath(section, names, qtype)
  }

  /** The error comes exactly when a response leads fifteen CNAMEs from the name first
      asked for, those of earlier responses counted. */
  lemma TooLongExact(section: seq<RR>, name: Name, qtype: U16, used: nat)
    requires used < MAX_CNAME_CHAIN
    ensures Chase(section, name, qtype, used) == TooLong <==>
            exists names :: PathOf(section, name, qtype, names) && |names| == 16 - used
  {
    var c := Chase(section, name, qtype, used);
    if c.TooLong? {
      var names := TooLongPath(section, name, qtype, used);
      assert PathOf(section, name, qtype, names);
    } else {
      ChaseIsChain(section, name, qtype, used);
      forall names | PathOf(section, name, qtype, names) && |names| == 16 - used ensures false {
        PathFollowed(section, names, qtype, used, c);
      }
    }
  }
}

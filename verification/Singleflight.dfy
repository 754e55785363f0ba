/** Collapsing identical queries (middleware/singleflight/singleflight.go): any number
    of clients, interleaved in any order at the points where the program holds no
    lock. */
module Singleflight {
  import opened Octets
  import opened Names
  import opened Messages

  datatype Key = Key(name: Name, qtype: U16)

  /** A query with one question and the CD bit clear; others bypass all this. */
  datatype Request = Request(id: U16, rd: bool, question: Question)

  function KeyOf(r: Request): Key {
    Key(Canon(r.question.name), r.question.qtype)
  }

  /** Two queries share a key exactly if they ask for one name, up to case, and one type. */
  lemma KeysTell(a: Request, b: Request)
    ensures KeyOf(a) == KeyOf(b) <==>
              EqualName(a.question.name, b.question.name) && a.question.qtype == b.question.qtype
  {}

  /** One query in progress that later arrivals wait on. */
  datatype Call = Call(key: Key, msg: Option<Message>, done: bool)

  /** Where a client's goroutine is, and in which call. */
  datatype Phase =
    | Leading        // registered, the inner query running
    | Unregistered   // the key removed, the message not yet handed over
    | Recorded       // the message handed over, the channel not yet closed
    | Closed
    | Waiting
    | Answered
    | Silent         // the call produced nothing, or the client gave up

  /** written is what the inner query last wrote, and sent all this client was sent. */
  datatype Client = Client(req: Request, phase: Phase, call: nat, written: Option<Message>, sent: seq<Message>)

  datatype State = State(inFlight: map<Key, nat>, calls: seq<Call>, leaders: seq<nat>, clients: map<nat, Client>)

  const START := State(map[], [], [], map[])

  datatype Action =
    | Arrive(client: nat, req: Request)
    | Write(client: nat, msg: Message)
    | Unregister(client: nat)
    | Record(client: nat)
    | Close(client: nat)
    | Wake(client: nat)
    | GiveUp(client: nat)

  /** A waiter's copy of the leader's answer: its own ID, RD and question. */
  function CopyFor(m: Message, r: Request): Message {
    m.(header := m.header.(id := r.id, rd := r.rd), questions := [r.question])
  }

  predicate In(s: State, c: nat, p: Phase) {
    c in s.clients && s.clients[c].phase == p
  }

  /** What the program lets a client do next. */
  predicate Enabled(s: State, a: Action) {
    match a
    case Arrive(c, _) => c !in s.clients
    case Write(c, _) => In(s, c, Leading)
    case Unregister(c) => In(s, c, Leading)
    case Record(c) => In(s, c, Unregistered)
    case Close(c) => In(s, c, Recorded)
    case Wake(c) => In(s, c, Waiting) && s.clients[c].call < |s.calls| && s.calls[s.clients[c].call].done
    case GiveUp(c) => In(s, c, Waiting)
  }

  function At(s: State, c: nat, k: Client): State {
    s.(clients := s.clients[c := k])
  }

  /** One step. A step the program cannot take changes nothing. */
  function Next(s: State, a: Action): State {
    if !Enabled(s, a) then s
    else
      match a
      case Arrive(c, req) =>
        var k := KeyOf(req);
        if k in s.inFlight then At(s, c, Client(req, Waiting, s.inFlight[k], None, []))
        else
          State(s.inFlight[k := |s.calls|], s.calls + [Call(k, None, false)], s.leaders + [c],
                s.clients[c := Client(req, Leading, |s.calls|, None, [])])
      case Write(c, m) => At(s, c, s.clients[c].(written := Some(m), sent := s.clients[c].sent + [m]))
      case Unregister(c) =>
        At(s, c, s.clients[c].(phase := Unregistered)).(inFlight := s.inFlight - {KeyOf(s.clients[c].req)})
      case Record(c) =>
        var n := s.clients[c].call;
        if n >= |s.calls| then s
        else
          At(s, c, s.clients[c].(phase := Recorded)).(calls := s.calls[n := s.calls[n].(msg := s.clients[c].written)])
      case Close(c) =>
        var n := s.clients[c].call;
        if n >= |s.calls| then s
        else At(s, c, s.clients[c].(phase := Closed)).(calls := s.calls[n := s.calls[n].(done := true)])
      case Wake(c) =>
        (match s.calls[s.clients[c].call].msg
         case None => At(s, c, s.clients[c].(phase := Silent))
         case Some(m) =>
           At(s, c, s.clients[c].(phase := Answered, sent := s.clients[c].sent + [CopyFor(m, s.clients[c].req)])))
      case GiveUp(c) => At(s, c, s.clients[c].(phase := Silent))
  }

  /** The state after any interleaving of steps. */
  function Run(actions: seq<Action>): State {
    if actions == [] then START else Next(Run(actions[..|actions| - 1]), actions[|actions| - 1])
  }

  // ---- the invariant ----

  predicate IsLeader(p: Phase) {
    p == Leading || p == Unregistered || p == Recorded || p == Closed
  }

  /** A call and the one client that leads it: what each phase of the hand-off has
      done so far. */
  ghost predicate CallOk(s: State, n: nat) {
    && n < |s.calls| && n < |s.leaders| && s.leaders[n] in s.clients
    && var k := s.clients[s.leaders[n]];
    && IsLeader(k.phase) && k.call == n && KeyOf(k.req) == s.calls[n].key
    && (k.phase == Leading <==> s.calls[n].key in s.inFlight && s.inFlight[s.calls[n].key] == n)
    && (k.phase == Leading || k.phase == Unregistered ==> s.calls[n].msg == None)
    && (k.phase == Recorded || k.phase == Closed ==> s.calls[n].msg == k.written)
    && (s.calls[n].done <==> k.phase == Closed)
    && k.written == (if k.sent == [] then None else Some(k.sent[|k.sent| - 1]))
  }

  ghost predicate ClientOk(s: State, c: nat) {
    && c in s.clients
    && var k := s.clients[c];
    && k.call < |s.calls| && k.call < |s.leaders| && KeyOf(k.req) == s.calls[k.call].key
    && (IsLeader(k.phase) ==> s.leaders[k.call] == c)
    && (k.phase == Waiting || k.phase == Silent ==> k.sent == [])
    && (k.phase == Answered ==>
          s.calls[k.call].done && s.calls[k.call].msg.Some? && k.sent == [CopyFor(s.calls[k.call].msg.value, k.req)])
  }

  predicate Registered(s: State, k: Key) {
    k in s.inFlight
  }

  predicate Known(s: State, c: nat) {
    c in s.clients
  }

  predicate Numbered(s: State, n: nat) {
    n < |s.calls|
  }

  ghost predicate Inv(s: State) {
    forall j {:trigger Opened(Door.Flights, j)} | Opened(Door.Flights, j) ::
      && |s.leaders| == |s.calls|
      && (forall n: nat {:trigger Numbered(s, n)} | Numbered(s, n) :: CallOk(s, n))
      && (forall c: nat {:trigger Known(s, c)} | Known(s, c) :: ClientOk(s, c))
      && (forall k {:trigger Registered(s, k)} | Registered(s, k) ::
          s.inFlight[k] < |s.calls| && s.calls[s.inFlight[k]].key == k)
  }

  /** What the invariant says of the acting client and of one call or client. */
  lemma Facts(s: State, a: Action)
    requires Inv(s)
    ensures |s.leaders| == |s.calls|
    ensures a.client in s.clients ==>
              ClientOk(s, a.client) && CallOk(s, s.clients[a.client].call)
    ensures a.Arrive? && KeyOf(a.req) in s.inFlight ==>
              s.inFlight[KeyOf(a.req)] < |s.calls| && s.calls[s.inFlight[KeyOf(a.req)]].key == KeyOf(a.req)
  {
    assert Opened(Door.Flights, 0);
    if a.client in s.clients {
      assert Known(s, a.client);
      assert Numbered(s, s.clients[a.client].call);
    }
    if a.Arrive? && KeyOf(a.req) in s.inFlight { assert Registered(s, KeyOf(a.req)); }
  }

  lemma CallFact(s: State, n: nat)
    requires Inv(s) && n < |s.calls|
    ensures CallOk(s, n)
  {
    assert Opened(Door.Flights, 0);
    assert Numbered(s, n);
  }

  lemma ClientFact(s: State, c: nat)
    requires Inv(s) && c in s.clients
    ensures ClientOk(s, c) && CallOk(s, s.clients[c].call)
  {
    assert Opened(Door.Flights, 0);
    assert Known(s, c);
    assert Numbered(s, s.clients[c].call);
  }

  lemma KeyFact(s: State, k: Key)
    requires Inv(s) && k in s.inFlight
    ensures s.inFlight[k] < |s.calls| && s.calls[s.inFlight[k]].key == k && CallOk(s, s.inFlight[k])
  {
    assert Opened(Door.Flights, 0);
    assert Registered(s, k);
    assert Numbered(s, s.inFlight[k]);
  }

  lemma CallKept(s: State, a: Action, n: nat)
    requires Inv(s) && Enabled(s, a) && n < |Next(s, a).calls|
    ensures CallOk(Next(s, a), n)
  {
    Facts(s, a);
    if n < |s.calls| {
      CallFact(s, n);
      if a.client in s.clients && a.client == s.leaders[n] {
        LeaderStep(s, a, n);
      } else {
        if a.Unregister? { KeyOfLeader(s, a.client); }
      }
    }
  }

  /** A leader's own step moves its call along. */
  lemma LeaderStep(s: State, a: Action, n: nat)
    requires Inv(s) && Enabled(s, a) && n < |s.calls| && n < |s.leaders| && a.client == s.leaders[n]
        && a.client in s.clients
    ensures CallOk(Next(s, a), n)
  {
    CallFact(s, n);
    if a.Unregister? { KeyOfLeader(s, a.client); }
  }

  /** A leader's key is in the table, and stands for its own call: what it removes
      on the way out is never another's. */
  lemma KeyOfLeader(s: State, c: nat)
    requires Inv(s) && In(s, c, Leading)
    ensures var k := KeyOf(s.clients[c].req); k in s.inFlight && s.inFlight[k] == s.clients[c].call
  {
    ClientFact(s, c);
  }

  lemma ClientKept(s: State, a: Action, d: nat)
    requires Inv(s) && Enabled(s, a) && d in Next(s, a).clients
    ensures ClientOk(Next(s, a), d)
  {
    if d !in s.clients {
      NewClient(s, a, d);
    } else if d == a.client {
      ActingKept(s, a);
    } else {
      BystanderKept(s, a, d);
    }
  }

  lemma NewClient(s: State, a: Action, d: nat)
    requires Inv(s) && Enabled(s, a) && d !in s.clients && d in Next(s, a).clients
    ensures ClientOk(Next(s, a), d)
  {
    Facts(s, a);
  }

  lemma ActingKept(s: State, a: Action)
    requires Inv(s) && Enabled(s, a) && a.client in s.clients
    ensures ClientOk(Next(s, a), a.client)
  {
    Facts(s, a);
  }

  lemma BystanderKept(s: State, a: Action, d: nat)
    requires Inv(s) && Enabled(s, a) && d in s.clients && d != a.client
    ensures ClientOk(Next(s, a), d)
  {
    Facts(s, a);
    ClientFact(s, d);
  }

  lemma KeyKept(s: State, a: Action, k: Key)
    requires Inv(s) && Enabled(s, a) && k in Next(s, a).inFlight
    ensures var t := Next(s, a); t.inFlight[k] < |t.calls| && t.calls[t.inFlight[k]].key == k
  {
    Facts(s, a);
    if k in s.inFlight { KeyFact(s, k); }
  }

  lemma InvFromParts(t: State)
    requires |t.leaders| == |t.calls|
    requires forall n: nat {:trigger Numbered(t, n)} | Numbered(t, n) :: CallOk(t, n)
    requires forall c: nat {:trigger Known(t, c)} | Known(t, c) :: ClientOk(t, c)
    requires forall k {:trigger Registered(t, k)} | Registered(t, k) ::
        t.inFlight[k] < |t.calls| && t.calls[t.inFlight[k]].key == k
    ensures Inv(t)
  {}

  lemma InvKept(s: State, a: Action)
    requires Inv(s)
    ensures Inv(Next(s, a))
  {
    if Enabled(s, a) {
      var t := Next(s, a);
      Facts(s, a);
      forall n: nat {:trigger Numbered(t, n)} | Numbered(t, n) ensures CallOk(t, n) { CallKept(s, a, n); }
      forall c: nat {:trigger Known(t, c)} | Known(t, c) ensures ClientOk(t, c) { ClientKept(s, a, c); }
      forall k {:trigger Registered(t, k)} | Registered(t, k)
          ensures t.inFlight[k] < |t.calls| && t.calls[t.inFlight[k]].key == k {
        KeyKept(s, a, k);
      }
      InvFromParts(t);
    }
  }

  lemma {:induction false} InvAlways(actions: seq<Action>)
    ensures Inv(Run(actions))
    decreases |actions|
  {
    if actions == [] {
      InvFromParts(START);
    } else {
      InvAlways(actions[..|actions| - 1]);
      InvKept(Run(actions[..|actions| - 1]), actions[|actions| - 1]);
    }
  }

  // ---- what it means ----

  /** At most one inner query runs for a key, whatever the interleaving. */
  lemma OneQueryPerKey(actions: seq<Action>, c: nat, d: nat)
    requires var s := Run(actions);
             && In(s, c, Leading) && In(s, d, Leading)
             && KeyOf(s.clients[c].req) == KeyOf(s.clients[d].req)
    ensures c == d
  {
    var s := Run(actions);
    InvAlways(actions);
    KeyOfLeader(s, c);
    KeyOfLeader(s, d);
    ClientFact(s, c);
    ClientFact(s, d);
  }

  /** A call in the table has a leader still at work and an open channel. */
  lemma InFlightIsLive(actions: seq<Action>, k: Key)
    requires k in Run(actions).inFlight
    ensures var s := Run(actions);
            var n := s.inFlight[k];
            && n < |s.calls| && n < |s.leaders| && s.calls[n].key == k && !s.calls[n].done
                && In(s, s.leaders[n], Leading)
  {
    InvAlways(actions);
    KeyFact(Run(actions), k);
  }

  /** A leader removes exactly its own entry, and leaves every other key alone. */
  lemma DeletesOwn(actions: seq<Action>, c: nat)
    requires In(Run(actions), c, Leading)
    ensures var s := Run(actions);
            var t := Next(s, Unregister(c));
            var key := KeyOf(s.clients[c].req);
            && key in s.inFlight && s.inFlight[key] == s.clients[c].call && key !in t.inFlight
            && forall k | k in s.inFlight && k != key :: k in t.inFlight && t.inFlight[k] == s.inFlight[k]
  {
    InvAlways(actions);
    KeyOfLeader(Run(actions), c);
  }

  /** The channel is open whenever a leader comes to close it, and the message has
      been handed over: it is closed once, and never too early. */
  lemma ClosesOnce(actions: seq<Action>, c: nat)
    requires In(Run(actions), c, Recorded)
    ensures var s := Run(actions);
            var n := s.clients[c].call;
            n < |s.calls| && !s.calls[n].done && s.calls[n].msg == s.clients[c].written
  {
    InvAlways(actions);
    ClientFact(Run(actions), c);
  }

  /** Once closed, a call never changes again, however the run goes on. */
  lemma {:induction false} ClosedForGood(actions: seq<Action>, more: seq<Action>, n: nat)
    requires n < |Run(actions).calls| && Run(actions).calls[n].done
    ensures n < |Run(actions + more).calls| && Run(actions + more).calls[n] == Run(actions).calls[n]
    decreases |more|
  {
    if more == [] {
      assert actions + more == actions;
    } else {
      var front, a := more[..|more| - 1], more[|more| - 1];
      ClosedForGood(actions, front, n);
      assert (actions + more)[..|actions + more| - 1] == actions + front && (actions + more)[|actions + more| - 1] == a;
      InvAlways(actions + front);
      ClosedKept(Run(actions + front), a, n);
    }
  }

  lemma ClosedKept(s: State, a: Action, n: nat)
    requires Inv(s) && n < |s.calls| && s.calls[n].done
    ensures n < |Next(s, a).calls| && Next(s, a).calls[n] == s.calls[n]
  {
    if Enabled(s, a) {
      Facts(s, a);
      CallFact(s, n);
    }
  }

  /** The message with the ID, RD and question of a client, and otherwise m. */
  predicate SameAnswer(out: Message, m: Message, r: Request) {
    && out.header.id == r.id && out.header.rd == r.rd && out.questions == [r.question]
    && out.header.(id := m.header.id, rd := m.header.rd) == m.header
    && out.answers == m.answers && out.authorities == m.authorities && out.additionals == m.additionals
  }

  /** Every waiter that answers sends what its leader sent last, with its own ID, RD
      and question, once; and the two asked for the same name and type. */
  lemma WaitersAnswerAlike(actions: seq<Action>, c: nat)
    requires In(Run(actions), c, Answered)
    ensures var s := Run(actions);
            var w := s.clients[c];
            && w.call < |s.leaders| && s.leaders[w.call] in s.clients
            && var l := s.clients[s.leaders[w.call]];
            && l.phase == Closed && l.sent != [] && |w.sent| == 1
            && SameAnswer(w.sent[0], l.sent[|l.sent| - 1], w.req)
            && EqualName(l.req.question.name, w.req.question.name) && l.req.question.qtype == w.req.question.qtype
  {
    InvAlways(actions);
    ClientFact(Run(actions), c);
    var s := Run(actions);
    KeysTell(s.clients[s.leaders[s.clients[c].call]].req, s.clients[c].req);
  }

  /** The client leads a query for this name and type, and its answer is still out. */
  predicate AskingAlike(s: State, l: nat, req: Request) {
    && In(s, l, Leading) && EqualName(s.clients[l].req.question.name, req.question.name)
    && s.clients[l].req.question.qtype == req.question.qtype
  }

  /** A client that arrives with a question another is still asking waits for that one;
      any other starts a query of its own. */
  lemma ArrivalJoins(actions: seq<Action>, c: nat, req: Request)
    requires c !in Run(actions).clients
    ensures var s := Run(actions);
            var t := Next(s, Arrive(c, req));
            && c in t.clients
            && (t.clients[c].phase == Waiting <==> exists l :: AskingAlike(s, l, req))
            && (t.clients[c].phase == Waiting || t.clients[c].phase == Leading)
  {
    InvAlways(actions);
    var s := Run(actions);
    if KeyOf(req) in s.inFlight {
      InFlightIsLive(actions, KeyOf(req));
      KeyFact(s, KeyOf(req));
      var n := s.inFlight[KeyOf(req)];
      KeysTell(s.clients[s.leaders[n]].req, req);
      assert AskingAlike(s, s.leaders[n], req);
    }
    if l :| AskingAlike(s, l, req) {
      KeyOfLeader(s, l);
      KeysTell(s.clients[l].req, req);
    }
  }

  /** No waiter is forgotten: its call is closed, or its leader can still take the
      steps that close it. */
  lemma NoWaiterForgotten(actions: seq<Action>, c: nat)
    requires In(Run(actions), c, Waiting)
    ensures var s := Run(actions);
            var n := s.clients[c].call;
            && n < |s.leaders|
            && var l := s.leaders[n];
            Enabled(s, Wake(c)) || Enabled(s, Unregister(l)) || Enabled(s, Record(l)) || Enabled(s, Close(l))
  {
    InvAlways(actions);
    ClientFact(Run(actions), c);
  }

  /** And those steps do close it: three of its leader's own, from wherever it is. */
  lemma LeaderCloses(actions: seq<Action>, l: nat)
    requires l in Run(actions).clients && IsLeader(Run(actions).clients[l].phase)
    ensures var s := Run(actions);
            var t := Next(Next(Next(s, Unregister(l)), Record(l)), Close(l));
            var n := s.clients[l].call;
            && n < |t.calls| && t.calls[n].done && t.calls[n].msg == s.clients[l].written
            && (s.clients[l].phase == Leading ==> KeyOf(s.clients[l].req) !in t.inFlight)
  {
    InvAlways(actions);
    var s := Run(actions);
    ClientFact(s, l);
  }

  /** A waiter that wakes answers, if its leader sent anything, and is silent if not. */
  lemma WokenAnswers(actions: seq<Action>, c: nat)
    requires Enabled(Run(actions), Wake(c))
    ensures var s := Run(actions);
            var n := s.clients[c].call;
            && n < |s.leaders| && s.leaders[n] in s.clients
            && var t, l := Next(s, Wake(c)), s.clients[s.leaders[n]];
            && c in t.clients && t.clients[c].phase == (if l.sent == [] then Silent else Answered)
  {
    InvAlways(actions);
    ClientFact(Run(actions), c);
  }
}

/**
 The reconfiguration handshake.  A member opens one connection to the next rank, sends its request on it and
 reads the response from it; it accepts connections until one carries the request of the previous rank, and
 responds on that one.  Connections of attempts that failed stay in the listener's queue.  Foreign processes
 may connect, or stand at an address, and send any frame that does not carry both the uuid in question and
 the handle of a ring member.
 */
module GroupHandshake {
  import opened Arithmetic
  import opened Wrappers

  /** A decoded frame; a request has `outgoing`, a response has `incoming`. */
  datatype Frame = Frame(uuid: int, handle: nat, outgoing: Option<seq<nat>>, incoming: Option<seq<nat>>, buffers: nat)

  datatype Ring = Ring(
    n: nat,
    qps: nat,
    uuid: int,                              // the uuid whose ring is looked at
    inOrder: bool,                          // a listener accepts one member's connections in the order they were opened
    handle: nat -> nat,                     // the agreed ordered list
    outgoing: (nat, nat) -> seq<nat>,       // the fresh lanes of a member's k-th attempt
    incoming: (nat, nat) -> seq<nat>,
    buffers: nat -> nat)                    // registered once per group

  ghost predicate Wellformed(g: Ring) {
    && 2 <= g.n
    && (forall i, j | 0 <= i < j < g.n :: g.handle(i) != g.handle(j))
    && (forall r: nat, k: nat :: |g.outgoing(r, k)| == g.qps && |g.incoming(r, k)| == g.qps)
  }

  /** A connection between members, with the frames that went over it. */
  datatype Connection = Connection(
    opener: nat,
    attempt: nat,                           // of the opener
    listener: nat,                          // n and above: not a member
    frame: Frame,                           // the opener's request
    taken: bool,                            // accepted by the listener, whatever it carried
    acceptor: Option<nat>,                  // the listener's attempt that took it for its previous rank's
    answer: Option<Frame>)

  datatype Phase = Down | Started | Sent | Accepted | Responded | Up

  datatype Member = Member(
    attempt: nat,                           // how many attempts were begun, the current one included
    uuid: int,                              // of the current attempt
    prev: nat,                              // the neighbours' handles in the current attempt
    next: nat,
    phase: Phase,
    own: nat,                               // the connection opened to the next rank
    from: Option<nat>,                      // the accepted connection, unless a foreign process opened it
    request: Option<Frame>,                 // accepted from the previous rank
    response: Option<Frame>,                // received from the next rank
    used: set<int>,
    tries: nat,                             // attempts at the uuid in question
    latest: nat)                            // the latest of them

  datatype State = State(members: seq<Member>, connections: seq<Connection>)

  function Request(g: Ring, r: nat, k: nat, uuid: int): Frame {
    Frame(uuid, g.handle(r), Some(g.outgoing(r, k)), None, g.buffers(r))
  }

  function Response(g: Ring, r: nat, k: nat, uuid: int): Frame {
    Frame(uuid, g.handle(r), None, Some(g.incoming(r, k)), g.buffers(r))
  }

  datatype Action =
    | Begin(r: nat, uuid: int, prev: nat, next: nat)   // pass the checks, drop the old ring, create lanes
    | Ask(r: nat, listener: nat)                       // connect to the next rank and send the request
    | Accept(r: nat, c: nat)                           // take one waiting connection and read its frame
    | AcceptForeign(r: nat, frame: Frame)
    | Answer(r: nat)                                   // respond on the accepted connection
    | Finish(r: nat, frame: Frame)                     // read the response, connect the lanes, export
    | Fail(r: nat)                                     // a timeout, or any exception; also an abort after success

  /** What a foreign process can send. */
  ghost predicate Foreign(g: Ring, f: Frame) { f.uuid != g.uuid || forall j: nat | j < g.n :: f.handle != g.handle(j) }

  /** No later connection of the same opener was taken before this one. */
  predicate FirstInLine(s: State, c: nat)
    requires c < |s.connections|
  {
    forall d | c < d < |s.connections| && s.connections[d].opener == s.connections[c].opener
      && s.connections[d].listener == s.connections[c].listener :: !s.connections[d].taken
  }

  ghost predicate Enabled(g: Ring, s: State, act: Action)
    requires |s.members| == g.n
  {
    act.r < g.n &&
    var m := s.members[act.r];
    match act
    case Begin(r, uuid, prev, next) =>
      uuid !in m.used && (uuid == g.uuid ==> prev == g.handle(Prev(g.n, r)) && next == g.handle(Next(g.n, r)))
    case Ask(r, listener) =>
      m.phase == Started && (m.uuid == g.uuid ==> listener == Next(g.n, r) || g.n <= listener)
    case Accept(r, c) =>
      && m.phase == Sent && c < |s.connections| && s.connections[c].listener == r && !s.connections[c].taken
      && (g.inOrder ==> FirstInLine(s, c))
    case AcceptForeign(r, f) => m.phase == Sent && Foreign(g, f)
    case Answer(r) => m.phase == Accepted
    case Finish(r, f) =>
      && m.phase == Responded && m.own < |s.connections|
      && (Foreign(g, f) || s.connections[m.own].answer == Some(f))
    case Fail(r) => true
  }

  /** Only a complete response of the next rank, and an accepted request with as many lanes, finish the handshake. */
  predicate Acceptable(g: Ring, m: Member, f: Frame) {
    && f.uuid == m.uuid && f.handle == m.next
    && f.incoming.Some? && m.request.Some? && m.request.value.outgoing.Some?
    && |f.incoming.value| == g.qps && |m.request.value.outgoing.value| == g.qps
  }

  predicate FromPrevious(m: Member, f: Frame) { f.uuid == m.uuid && f.handle == m.prev }

  function Apply(g: Ring, s: State, act: Action): State
    requires |s.members| == g.n && act.r < g.n
  {
    var r := act.r;
    var m := s.members[r];
    match act
    case Begin(_, uuid, prev, next) =>
      var k := m.attempt + 1;
      s.(members := s.members[r := Member(k, uuid, prev, next, Started, m.own, None, None, None, m.used,
        if uuid == g.uuid then m.tries + 1 else m.tries, if uuid == g.uuid then k else m.latest)])
    case Ask(_, listener) =>
      State(s.members[r := m.(phase := Sent, own := |s.connections|)],
            s.connections + [Connection(r, m.attempt, listener, Request(g, r, m.attempt, m.uuid), false, None, None)])
    case Accept(_, c) =>
      if |s.connections| <= c then s
      else
        var k := s.connections[c];
        if FromPrevious(m, k.frame) then
          State(s.members[r := m.(phase := Accepted, request := Some(k.frame), from := Some(c))],
                s.connections[c := k.(taken := true, acceptor := Some(m.attempt))])
        else s.(connections := s.connections[c := k.(taken := true)])
    case AcceptForeign(_, f) =>
      if FromPrevious(m, f) then s.(members := s.members[r := m.(phase := Accepted, request := Some(f), from := None)])
      else s
    case Answer(_) =>
      var members := s.members[r := m.(phase := Responded)];
      if m.from.Some? && m.from.value < |s.connections| then
        var k := s.connections[m.from.value];
        State(members, s.connections[m.from.value := k.(answer := Some(Response(g, r, m.attempt, m.uuid)))])
      else s.(members := members)
    case Finish(_, f) =>
      if Acceptable(g, m, f) then
        s.(members := s.members[r := m.(phase := Up, response := Some(f), used := m.used + {m.uuid})])
      else s.(members := s.members[r := m.(phase := Down)])
    case Fail(_) => s.(members := s.members[r := m.(phase := Down)])
  }

  function Idle(): Member { Member(0, 0, 0, 0, Down, 0, None, None, None, {}, 0, 0) }

  predicate Init(g: Ring, s: State) {
    |s.members| == g.n && s.connections == [] && forall r | 0 <= r < g.n :: s.members[r] == Idle()
  }

  ghost predicate Run(g: Ring, run: seq<State>, acts: seq<Action>) {
    && |run| == |acts| + 1 && Init(g, run[0])
    && forall i | 0 <= i < |acts| ::
      |run[i].members| == g.n && Enabled(g, run[i], acts[i]) && run[i + 1] == Apply(g, run[i], acts[i])
  }

  // ---------------------------------------------------------------- the invariant

  /** The frames of a connection are the request and the response of the attempts at its ends. */
  ghost predicate Authentic(g: Ring, members: seq<Member>, k: Connection)
    requires |members| == g.n
  {
    && k.opener < g.n && k.attempt <= members[k.opener].attempt
    && k.frame == Request(g, k.opener, k.attempt, k.frame.uuid)
    && (k.frame.uuid == g.uuid ==>
      && (k.listener == Next(g.n, k.opener) || g.n <= k.listener)
      && 1 <= members[k.opener].tries && (members[k.opener].tries == 1 ==> k.attempt == members[k.opener].latest))
    && (k.acceptor.Some? ==>
      && k.taken && k.listener < g.n && k.acceptor.value <= members[k.listener].attempt
      && (k.frame.uuid == g.uuid ==>
        1 <= members[k.listener].tries
            && (members[k.listener].tries == 1 ==> k.acceptor.value == members[k.listener].latest)))
    && (k.answer.Some? ==>
      k.acceptor.Some? && k.answer.value == Response(g, k.listener, k.acceptor.value, k.frame.uuid))
  }

  /** Of two connections the one that was opened first has the earlier attempts, and they met different attempts. */
  ghost predicate Ordered(g: Ring, k: Connection, l: Connection) {
    && (k.opener == l.opener ==> k.attempt < l.attempt)
    && (k.listener == l.listener && k.acceptor.Some? && l.acceptor.Some? ==>
      && k.acceptor.value != l.acceptor.value
      && (g.inOrder && k.opener == l.opener ==> k.acceptor.value < l.acceptor.value))
  }

  ghost predicate MemberOk(g: Ring, s: State, r: nat)
    requires |s.members| == g.n && r < g.n
  {
    var m, cs := s.members[r], s.connections;
    && (m.phase == Started ==> forall c | 0 <= c < |cs| && cs[c].opener == r :: cs[c].attempt < m.attempt)
    && (m.phase == Started || m.phase == Sent ==>
      forall c | 0 <= c < |cs| && cs[c].listener == r :: cs[c].acceptor != Some(m.attempt))
    && (m.phase != Down && m.phase != Started ==>
      m.own < |cs| && cs[m.own].opener == r && cs[m.own].attempt == m.attempt && cs[m.own].frame.uuid == m.uuid)
    && (m.phase == Accepted || m.phase == Responded || m.phase == Up ==>
      && m.request.Some? && FromPrevious(m, m.request.value)
      && (if m.from.Some? then
            && m.from.value < |cs| && cs[m.from.value].listener == r
            && cs[m.from.value].acceptor == Some(m.attempt) && cs[m.from.value].frame == m.request.value
          else Foreign(g, m.request.value)))
    && (m.uuid == g.uuid && m.phase != Down ==>
      && m.latest == m.attempt && 1 <= m.tries
      && m.prev == g.handle(Prev(g.n, r)) && m.next == g.handle(Next(g.n, r)))
    && (m.phase == Up ==>
      && m.response.Some? && Acceptable(g, m, m.response.value) && m.uuid in m.used
      && (Foreign(g, m.response.value) || cs[m.own].answer == m.response))
  }

  ghost predicate Inv(g: Ring, s: State) {
    && |s.members| == g.n
    && (forall c | 0 <= c < |s.connections| :: Authentic(g, s.members, s.connections[c]))
    && (forall c, d | 0 <= c < d < |s.connections| :: Ordered(g, s.connections[c], s.connections[d]))
    && (forall r | 0 <= r < g.n :: MemberOk(g, s, r))
  }

  /** Attempts are only ever begun, and the latest one is the one that was just begun. */
  lemma AuthenticEnds(g: Ring, s: State, act: Action, k: Connection)
    requires Wellformed(g) && |s.members| == g.n && Enabled(g, s, act) && Authentic(g, s.members, k)
    ensures Authentic(g, Apply(g, s, act).members, k)
  {
    hide Request, Response, Acceptable, FromPrevious, FirstInLine, Foreign;
    var ms, ms' := s.members, Apply(g, s, act).members;
    assert forall r | 0 <= r < g.n && r != act.r :: ms'[r] == ms[r];
    assert !act.Begin? ==> ms'[act.r].attempt == ms[act.r].attempt && ms'[act.r].tries == ms[act.r].tries
                           && ms'[act.r].latest == ms[act.r].latest;
  }

  lemma StepKeepsAuthentic(g: Ring, s: State, act: Action, c: nat)
    requires Wellformed(g) && Inv(g, s) && Enabled(g, s, act) && c < |Apply(g, s, act).connections|
    ensures Authentic(g, Apply(g, s, act).members, Apply(g, s, act).connections[c])
  {
    assert MemberOk(g, s, act.r);
    if c < |s.connections| {
      AuthenticEnds(g, s, act, s.connections[c]);
    }
    hide Ordered;
  }

  lemma StepKeepsOrder(g: Ring, s: State, act: Action, c: nat, d: nat)
    requires Wellformed(g) && Inv(g, s) && Enabled(g, s, act) && c < d < |Apply(g, s, act).connections|
    ensures Ordered(g, Apply(g, s, act).connections[c], Apply(g, s, act).connections[d])
  {
    assert MemberOk(g, s, act.r);
    assert Authentic(g, s.members, s.connections[c]);
    if d < |s.connections| {
      assert Authentic(g, s.members, s.connections[d]) && Ordered(g, s.connections[c], s.connections[d]);
    }
  }

  /** What a step of member q can do to a connection that exists already. */
  ghost predicate Touched(g: Ring, s: State, q: nat, k: Connection, l: Connection)
    requires |s.members| == g.n && q < g.n
  {
    && l.opener == k.opener && l.attempt == k.attempt && l.listener == k.listener && l.frame == k.frame
    && (l.acceptor != k.acceptor ==> k.listener == q)
    && (k.answer.Some? ==> l.answer == k.answer)
  }

  lemma StepTouches(g: Ring, s: State, act: Action, c: nat)
    requires Wellformed(g) && Inv(g, s) && Enabled(g, s, act) && c < |s.connections|
    ensures c < |Apply(g, s, act).connections|
    ensures Touched(g, s, act.r, s.connections[c], Apply(g, s, act).connections[c])
  {
    if act.Accept? { assert Authentic(g, s.members, s.connections[act.c]); }
    if act.Answer? && s.members[act.r].from.Some? { AnswerOnce(g, s, act.r); }
    hide Authentic, Ordered, MemberOk, Request, Response, Acceptable;
  }

  /** A connection that a step of member q opens is its own. */
  lemma StepOpens(g: Ring, s: State, act: Action, c: nat)
    requires Wellformed(g) && |s.members| == g.n && Enabled(g, s, act)
    requires |s.connections| <= c < |Apply(g, s, act).connections|
    ensures Apply(g, s, act).connections[c].opener == act.r && Apply(g, s, act).connections[c].acceptor == None
  {
  }

  /** A step of another member changes the connections of r only at their other end. */
  lemma OtherKeepsMember(g: Ring, s: State, act: Action, r: nat)
    requires Wellformed(g) && Inv(g, s) && Enabled(g, s, act) && r < g.n && r != act.r
    ensures MemberOk(g, Apply(g, s, act), r)
  {
    var s' := Apply(g, s, act);
    forall c | 0 <= c < |s.connections|
      ensures c < |s'.connections| && Touched(g, s, act.r, s.connections[c], s'.connections[c])
    {
      StepTouches(g, s, act, c);
    }
    forall c | |s.connections| <= c < |s'.connections|
      ensures s'.connections[c].opener == act.r && s'.connections[c].acceptor == None
    {
      StepOpens(g, s, act, c);
    }
    assert MemberOk(g, s, r);
    assert s'.members[r] == s.members[r];
    hide Apply, Enabled, Inv, Ordered, Authentic, Acceptable, Foreign, FromPrevious;
  }

  /** A connection is answered by the attempt that took it, so answering it again would change nothing. */
  lemma AnswerOnce(g: Ring, s: State, r: nat)
    requires Inv(g, s) && r < g.n && s.members[r].phase == Accepted && s.members[r].from.Some?
    ensures var m := s.members[r];
      && m.from.value < |s.connections|
      && var k := s.connections[m.from.value];
         k.answer.Some? ==> k.answer == Some(Response(g, r, m.attempt, m.uuid))
  {
    assert MemberOk(g, s, r);
    assert Authentic(g, s.members, s.connections[s.members[r].from.value]);
  }

  lemma OwnStartKeepsMember(g: Ring, s: State, act: Action)
    requires Wellformed(g) && Inv(g, s) && Enabled(g, s, act) && (act.Begin? || act.Ask? || act.Fail?)
    ensures MemberOk(g, Apply(g, s, act), act.r)
  {
    assert MemberOk(g, s, act.r);
    forall c | 0 <= c < |s.connections|
      ensures s.connections[c].opener == act.r ==> s.connections[c].attempt <= s.members[act.r].attempt
      ensures s.connections[c].listener == act.r && s.connections[c].acceptor.Some? ==>
        s.connections[c].acceptor.value <= s.members[act.r].attempt
    {
      assert Authentic(g, s.members, s.connections[c]);
    }
    hide Ordered, Authentic, Response, Acceptable;
  }

  lemma OwnAcceptKeepsMember(g: Ring, s: State, act: Action)
    requires Wellformed(g) && Inv(g, s) && Enabled(g, s, act) && (act.Accept? || act.AcceptForeign?)
    ensures MemberOk(g, Apply(g, s, act), act.r)
  {
    assert MemberOk(g, s, act.r);
    hide Ordered, Authentic, Request, Response, Acceptable;
  }

  lemma OwnEndKeepsMember(g: Ring, s: State, act: Action)
    requires Wellformed(g) && Inv(g, s) && Enabled(g, s, act) && (act.Answer? || act.Finish?)
    ensures MemberOk(g, Apply(g, s, act), act.r)
  {
    assert MemberOk(g, s, act.r);
    hide Ordered, Authentic, Request, Response;
  }

  lemma StepKeepsMember(g: Ring, s: State, act: Action, r: nat)
    requires Wellformed(g) && Inv(g, s) && Enabled(g, s, act) && r < g.n
    ensures MemberOk(g, Apply(g, s, act), r)
  {
    hide MemberOk, Inv, Apply, Enabled;
    if r != act.r {
      OtherKeepsMember(g, s, act, r);
    } else if act.Begin? || act.Ask? || act.Fail? {
      OwnStartKeepsMember(g, s, act);
    } else if act.Accept? || act.AcceptForeign? {
      OwnAcceptKeepsMember(g, s, act);
    } else {
      OwnEndKeepsMember(g, s, act);
    }
  }

  lemma {:induction false} RunKeepsInv(g: Ring, run: seq<State>, acts: seq<Action>, i: nat)
    requires Wellformed(g) && Run(g, run, acts) && i < |run|
    ensures Inv(g, run[i])
  {
    if i > 0 {
      RunKeepsInv(g, run, acts, i - 1);
      var s, act := run[i - 1], acts[i - 1];
      var cs := run[i].connections;
      hide Authentic, Ordered, MemberOk;
      forall c | 0 <= c < |cs| ensures Authentic(g, run[i].members, cs[c]) { StepKeepsAuthentic(g, s, act, c); }
      forall c, d | 0 <= c < d < |cs| ensures Ordered(g, cs[c], cs[d]) { StepKeepsOrder(g, s, act, c, d); }
      forall r | 0 <= r < g.n ensures MemberOk(g, run[i], r) { StepKeepsMember(g, s, act, r); }
    }
  }

  // ---------------------------------------------------------------- the ring closes

  /** The member finished the handshake of this uuid. */
  predicate Joined(g: Ring, m: Member) { m.phase == Up && m.uuid == g.uuid }

  /** The queue pairs that lane i of a joined member was connected to. */
  function OutgoingPeer(m: Member, i: nat): Option<nat> {
    if m.response.Some? && m.response.value.incoming.Some? && i < |m.response.value.incoming.value|
    then Some(m.response.value.incoming.value[i]) else None
  }

  function IncomingPeer(m: Member, i: nat): Option<nat> {
    if m.request.Some? && m.request.value.outgoing.Some? && i < |m.request.value.outgoing.value|
    then Some(m.request.value.outgoing.value[i]) else None
  }

  /** Outgoing lane i of r and incoming lane i of the next rank are connected, and r writes into that rank's buffers. */
  ghost predicate Paired(g: Ring, s: State, r: nat)
    requires Wellformed(g) && |s.members| == g.n && r < g.n
  {
    var q := Next(g.n, r);
    var a, b := s.members[r], s.members[q];
    && a.response.Some? && a.response.value.buffers == g.buffers(q)
    && forall i: nat | i < g.qps ::
        && OutgoingPeer(a, i) == Some(g.incoming(q, b.attempt)[i])
        && IncomingPeer(b, i) == Some(g.outgoing(r, a.attempt)[i])
  }

  /** Two joined neighbours pair when the next rank took the very connection that the rank opened. */
  lemma SameConnectionPairs(g: Ring, s: State, r: nat)
    requires Wellformed(g) && Inv(g, s) && r < g.n
    requires Joined(g, s.members[r]) && Joined(g, s.members[Next(g.n, r)])
    requires s.members[Next(g.n, r)].from.Some? ==> s.members[Next(g.n, r)].from.value == s.members[r].own
    ensures Paired(g, s, r)
  {
    var q := Next(g.n, r);
    assert MemberOk(g, s, r) && MemberOk(g, s, q);
    assert Prev(g.n, q) == r;
    assert !Foreign(g, s.members[r].response.value) && !Foreign(g, s.members[q].request.value);
    assert Authentic(g, s.members, s.connections[s.members[r].own]);
  }

  /** What two joined neighbours know of each other: the connection one opened, and the one the other took. */
  lemma ConnectionsOfNeighbours(g: Ring, s: State, r: nat)
    requires Wellformed(g) && Inv(g, s) && r < g.n && Joined(g, s.members[r]) && Joined(g, s.members[Next(g.n, r)])
    ensures var q := Next(g.n, r); var a, b := s.members[r], s.members[q];
      && a.own < |s.connections| && b.from.Some? && b.from.value < |s.connections|
      && var k, l := s.connections[a.own], s.connections[b.from.value];
      && k.opener == l.opener == r && k.listener == l.listener == q
      && k.frame.uuid == l.frame.uuid == g.uuid && k.attempt == a.attempt
      && k.acceptor.Some? && k.acceptor.value <= b.attempt && l.acceptor == Some(b.attempt)
      && Authentic(g, s.members, k) && Authentic(g, s.members, l)
  {
    var q := Next(g.n, r);
    var a, b := s.members[r], s.members[q];
    assert MemberOk(g, s, r) && MemberOk(g, s, q);
    assert Prev(g.n, q) == r;
    assert !Foreign(g, a.response.value) && !Foreign(g, b.request.value);
    assert Authentic(g, s.members, s.connections[a.own]) && Authentic(g, s.members, s.connections[b.from.value]);
  }

  lemma OrderOf(g: Ring, s: State, c: nat, d: nat)
    requires Inv(g, s) && c < |s.connections| && d < |s.connections|
    ensures c < d ==> Ordered(g, s.connections[c], s.connections[d])
    ensures d < c ==> Ordered(g, s.connections[d], s.connections[c])
  {
  }

  /**
   Whatever else the listeners see, when two ring neighbours both joined they are connected to each other, if
   connections of one member are accepted in the order in which they were opened, or if at least one of the
   two attempted this uuid only once.
   */
  lemma NeighboursArePaired(g: Ring, run: seq<State>, acts: seq<Action>, i: nat, r: nat)
    requires Wellformed(g) && Run(g, run, acts) && i < |run| && r < g.n && |run[i].members| == g.n
    requires Joined(g, run[i].members[r]) && Joined(g, run[i].members[Next(g.n, r)])
    requires g.inOrder || run[i].members[r].tries <= 1 || run[i].members[Next(g.n, r)].tries <= 1
    ensures Paired(g, run[i], r)
  {
    RunKeepsInv(g, run, acts, i);
    var s, q := run[i], Next(g.n, r);
    ConnectionsOfNeighbours(g, s, r);
    var c, d := s.members[r].own, s.members[q].from.value;
    OrderOf(g, s, c, d);
    SameConnectionPairs(g, s, r);
  }
}

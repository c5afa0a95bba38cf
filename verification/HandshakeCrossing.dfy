/** When a repeated uuid can pair two neighbours wrongly: exactly when both retried and accepts are out of order. */
module HandshakeCrossing {
  import opened Arithmetic
  import opened Wrappers
  import opened GroupHandshake

  /** Every attempt of a member creates new queue pairs. */
  ghost predicate FreshLanes(g: Ring)
    requires Wellformed(g)
  {
    forall r: nat, k: nat, k': nat, i | k != k' && 0 <= i < g.qps :: g.incoming(r, k)[i] != g.incoming(r, k')[i]
  }

  /** A run after which r and the next rank joined in their t-th and u-th attempt at the uuid, but do not pair. */
  ghost predicate Mispaired(g: Ring, r: nat, t: nat, u: nat, run: seq<State>, acts: seq<Action>)
    requires Wellformed(g) && r < g.n
  {
    && Run(g, run, acts)
    && var s := run[|acts|];
       && |s.members| == g.n
       && Joined(g, s.members[r]) && s.members[r].tries == t
       && Joined(g, s.members[Next(g.n, r)]) && s.members[Next(g.n, r)].tries == u
       && !Paired(g, s, r)
  }

  ghost predicate Reachable(g: Ring, s: State) {
    |s.members| == g.n && exists run, acts :: Run(g, run, acts) && run[|acts|] == s
  }

  lemma Do(g: Ring, s: State, act: Action) returns (s': State)
    requires Reachable(g, s) && Enabled(g, s, act)
    ensures s' == Apply(g, s, act) && Reachable(g, s')
  {
    s' := Apply(g, s, act);
    hide Apply, Enabled;
    var run, acts :| Run(g, run, acts) && run[|acts|] == s;
    assert Run(g, run + [s'], acts + [act]) by {
      forall i | 0 <= i < |acts + [act]|
        ensures var run', acts' := run + [s'], acts + [act];
          |run'[i].members| == g.n && Enabled(g, run'[i], acts'[i]) && run'[i + 1] == Apply(g, run'[i], acts'[i])
      {
        if i < |acts| { assert (run + [s'])[i] == run[i] && (run + [s'])[i + 1] == run[i + 1]; }
      }
    }
    assert (run + [s'])[|acts + [act]|] == s';
  }

  // ---------------------------------------------------------------- members and connections of the run

  /** Member r at the start of its k-th attempt, when all were attempts at this uuid. */
  function Begun(g: Ring, r: nat, k: nat, own: nat): Member
    requires r < g.n
  {
    Member(k, g.uuid, g.handle(Prev(g.n, r)), g.handle(Next(g.n, r)), Started, own, None, None, None, {}, k, k)
  }

  /** Whatever became of its k attempts, none succeeded. */
  predicate Tried(m: Member, k: nat) { m.attempt == m.tries == k && m.used == {} }

  function Asked(g: Ring, r: nat, k: nat): Connection
    requires r < g.n
  {
    Connection(r, k, Next(g.n, r), Request(g, r, k, g.uuid), false, None, None)
  }

  function Taken(c: Connection, k: nat): Connection { c.(taken := true, acceptor := Some(k)) }

  function Answered(g: Ring, c: Connection, k: nat): Connection {
    Taken(c, k).(answer := Some(Response(g, c.listener, k, g.uuid)))
  }

  function BeginAt(g: Ring, r: nat): Action
    requires r < g.n
  {
    Begin(r, g.uuid, g.handle(Prev(g.n, r)), g.handle(Next(g.n, r)))
  }

  /** A reachable state of a ring that accepts in any order. */
  ghost predicate Ready(g: Ring, s: State) { Wellformed(g) && !g.inOrder && Reachable(g, s) }

  lemma ReadySize(g: Ring, s: State)
    requires Ready(g, s)
    ensures |s.members| == g.n >= 2
  {
  }

  lemma Starts(g: Ring) returns (s: State)
    requires Wellformed(g) && !g.inOrder
    ensures Ready(g, s) && s.connections == [] && s.members == seq(g.n, _ => Idle())
  {
    s := State(seq(g.n, _ => Idle()), []);
    var acts: seq<Action> := [];
    assert Run(g, [s], acts) && [s][|acts|] == s;
  }

  /** An attempt that gets as far as sending its request. */
  lemma Attempts(g: Ring, s: State, r: nat, k: nat) returns (s': State)
    requires Ready(g, s) && r < g.n == |s.members| && Tried(s.members[r], k)
    ensures Ready(g, s') && s' == Sending(g, s, r, k + 1)
  {
    s' := Do(g, s, BeginAt(g, r));
    s' := Do(g, s', Ask(r, Next(g.n, r)));
    assert s' == Sending(g, s, r, k + 1);
  }

  function Sending(g: Ring, s: State, r: nat, k: nat): State
    requires r < g.n == |s.members|
  {
    State(s.members[r := Begun(g, r, k, |s.connections|).(phase := Sent)], s.connections + [Asked(g, r, k)])
  }

  lemma Fails(g: Ring, s: State, r: nat) returns (s': State)
    requires Ready(g, s) && r < g.n == |s.members|
    ensures Ready(g, s') && s' == s.(members := s.members[r := s.members[r].(phase := Down)])
  {
    s' := Do(g, s, Fail(r));
  }

  /** Attempts that fail at once. */
  lemma {:induction false} Retries(g: Ring, s: State, r: nat, k: nat) returns (s': State)
    requires Ready(g, s) && r < g.n == |s.members| && s.members[r] == Idle()
    ensures Ready(g, s') && s' == s.(members := s.members[r := Retried(g, r, k)])
  {
    if k == 0 {
      s' := s;
      assert s.members[r := Idle()] == s.members;
    } else {
      s' := Retries(g, s, r, k - 1);
      s' := Do(g, s', BeginAt(g, r));
      s' := Fails(g, s', r);
    }
  }

  function Retried(g: Ring, r: nat, k: nat): (m: Member)
    requires r < g.n
    ensures Tried(m, k)
  {
    if k == 0 then Idle() else Begun(g, r, k, 0).(phase := Down)
  }

  /** Member q takes the waiting connection c of the previous rank and responds on it. */
  lemma Responds(g: Ring, s: State, q: nat, c: nat, k: nat) returns (s': State)
    requires Ready(g, s) && q < g.n == |s.members| && c < |s.connections|
    requires Listens(g, s.members[q], q) && s.connections[c] == Asked(g, Prev(g.n, q), k)
    ensures Ready(g, s') && s' == Responding(g, s, q, c)
  {
    s' := Do(g, s, Accept(q, c));
    s' := Do(g, s', Answer(q));
    assert s' == Responding(g, s, q, c);
  }

  predicate Listens(g: Ring, m: Member, q: nat)
    requires q < g.n
  {
    m.phase == Sent && m.uuid == g.uuid && m.prev == g.handle(Prev(g.n, q))
  }

  function Responding(g: Ring, s: State, q: nat, c: nat): State
    requires q < |s.members| && c < |s.connections|
  {
    var m, k := s.members[q], s.connections[c];
    State(s.members[q := m.(phase := Responded, request := Some(k.frame), from := Some(c))],
          s.connections[c := Answered(g, k, m.attempt)])
  }

  // ---------------------------------------------------------------- the two neighbours

  /** Both tried t and u times, and r's connections of its next two attempts wait at q. */
  lemma Waiting(g: Ring, r: nat, q: nat, t: nat, u: nat) returns (s: State)
    requires Wellformed(g) && !g.inOrder && r < g.n && q < g.n && q != r
    ensures Ready(g, s) && s.connections == [Asked(g, r, t + 1), Asked(g, r, t + 2)]
    ensures s.members == Idles(g.n)[q := Retried(g, q, u)][r := Begun(g, r, t + 2, 1).(phase := Sent)]
  {
    hide Wellformed, Ready, Begun, Asked;
    s := Starts(g);
    s := Retries(g, s, q, u);
    s := Retries(g, s, r, t);
    s := Attempts(g, s, r, t);
    var m := s.members[r];
    s := Fails(g, s, r);
    assert Tried(s.members[r], t + 1) by { BegunTried(g, r, t + 1, 0); }
    s := Attempts(g, s, r, t + 1);
  }

  lemma BegunTried(g: Ring, r: nat, k: nat, own: nat)
    requires r < g.n
    ensures Tried(Begun(g, r, k, own), k) && Listens(g, Begun(g, r, k, own).(phase := Sent), r)
  {
  }

  function Idles(n: nat): seq<Member> { seq(n, _ => Idle()) }

  /** The next attempt of q takes r's later connection, and fails. */
  lemma TakesLater(g: Ring, s0: State, r: nat, q: nat, t: nat, u: nat) returns (s: State)
    requires Ready(g, s0) && r < g.n == |s0.members| && q < g.n && Prev(g.n, q) == r
    requires s0.connections == [Asked(g, r, t + 1), Asked(g, r, t + 2)] && Tried(s0.members[q], u)
    ensures Ready(g, s) && |s.members| == g.n
    ensures s.members == s0.members[q := s.members[q]] && Tried(s.members[q], u + 1)
    ensures s.connections == [Asked(g, r, t + 1), Answered(g, Asked(g, r, t + 2), u + 1), Asked(g, q, u + 1)]
  {
    hide Ready, Asked, Answered;
    BegunTried(g, q, u + 1, 2);
    s := Attempts(g, s0, q, u);
    s := Responds(g, s, q, 1, t + 2);
    s := Fails(g, s, q);
    assert Tried(s.members[q], u + 1);
    assert s.members == s0.members[q := s.members[q]];
  }

  /** And the one after it the earlier connection: the two cross. */
  lemma TakesEarlier(g: Ring, s0: State, r: nat, q: nat, t: nat, u: nat) returns (s: State)
    requires Ready(g, s0) && r < g.n == |s0.members| && q < g.n && Prev(g.n, q) == r && Tried(s0.members[q], u + 1)
    requires s0.connections == [Asked(g, r, t + 1), Answered(g, Asked(g, r, t + 2), u + 1), Asked(g, q, u + 1)]
    ensures Ready(g, s) && s.members == s0.members[q := Listener(g, r, q, t + 1, u + 2)]
    ensures s.connections == CrossedConnections(g, r, q, t, u)
  {
    hide Ready, Answered;
    BegunTried(g, q, u + 2, 3);
    s := Attempts(g, s0, q, u + 1);
    s := Responds(g, s, q, 0, t + 1);
  }

  /** Member q in its u-th attempt, after it answered the k-th request of r. */
  function Listener(g: Ring, r: nat, q: nat, k: nat, u: nat): Member
    requires q < g.n
  {
    Begun(g, q, u, 3).(phase := Responded, request := Some(Request(g, r, k, g.uuid)), from := Some(0))
  }

  function CrossedConnections(g: Ring, r: nat, q: nat, t: nat, u: nat): seq<Connection>
    requires r < g.n && q < g.n
  {
    [Answered(g, Asked(g, r, t + 1), u + 2), Answered(g, Asked(g, r, t + 2), u + 1),
     Asked(g, q, u + 1), Asked(g, q, u + 2)]
  }

  lemma Cross(g: Ring, r: nat, q: nat, t: nat, u: nat) returns (s: State)
    requires Wellformed(g) && !g.inOrder && r < g.n && q < g.n && q != r && Prev(g.n, q) == r
    ensures Ready(g, s) && s.connections == CrossedConnections(g, r, q, t, u)
    ensures s.members
         == Idles(g.n)[q := Listener(g, r, q, t + 1, u + 2)][r := Begun(g, r, t + 2, 1).(phase := Sent)]
  {
    hide Ready, Wellformed, Answered, Asked, Begun, Tried, CrossedConnections, Listener;
    s := Waiting(g, r, q, t, u);
    s := TakesLater(g, s, r, q, t, u);
    s := TakesEarlier(g, s, r, q, t, u);
  }

  // ---------------------------------------------------------------- the rest of the ring

  /** Both neighbours have sent and accepted, and their responses wait on the connections they opened. */
  ghost predicate Crossed(g: Ring, s: State, r: nat, t: nat, u: nat)
    requires Wellformed(g) && r < g.n && |s.members| == g.n
  {
    var q := Next(g.n, r);
    && Ends(g, s.members[r], r, t + 2, 1) && Ends(g, s.members[q], q, u + 2, 3)
    && |s.connections| > 3
    && s.connections[1].answer == Some(Response(g, q, u + 1, g.uuid))
    && exists k :: s.connections[3].answer == Some(Response(g, Next(g.n, q), k, g.uuid))
  }

  /** The member waits for its response, having answered a request with enough lanes. */
  predicate Ends(g: Ring, m: Member, r: nat, k: nat, own: nat)
    requires r < g.n
  {
    && m.phase == Responded && m.uuid == g.uuid && m.used == {} && m.attempt == m.tries == k
    && m.next == g.handle(Next(g.n, r)) && m.own == own
    && m.request.Some? && m.request.value.outgoing.Some? && |m.request.value.outgoing.value| == g.qps
  }

  lemma ListenerEnds(g: Ring, r: nat, q: nat, k: nat, u: nat)
    requires Wellformed(g) && q < g.n
    ensures Ends(g, Listener(g, r, q, k, u), q, u, 3)
  {
  }

  lemma AskerEnds(g: Ring, r: nat, p: nat, k: nat, t: nat, c: nat)
    requires Wellformed(g) && r < g.n && p < g.n
    ensures var m := Begun(g, r, t, 1).(phase := Sent);
      Ends(g, m.(phase := Responded, request := Some(Asked(g, p, k).frame), from := Some(c)), r, t, 1)
  {
  }

  lemma CrossOfTwo(g: Ring, r: nat, t: nat, u: nat) returns (s: State)
    requires Wellformed(g) && !g.inOrder && r < g.n == 2
    ensures Ready(g, s) && |s.members| == g.n && Crossed(g, s, r, t, u)
  {
    var q := Next(g.n, r);
    s := Cross(g, r, q, t, u);
    BegunTried(g, r, t + 2, 1);
    s := Responds(g, s, r, 3, u + 2);
    ListenerEnds(g, r, q, t + 1, u + 2);
    AskerEnds(g, r, q, u + 2, t + 2, 3);
    assert s.connections[3].answer == Some(Response(g, r, t + 2, g.uuid));
    hide Ready, Wellformed, Begun, Listener, Request, Response, Ends;
  }

  /** The rank after the two answers the later one's connection. */
  lemma NextAnswers(g: Ring, s0: State, q: nat, u: nat) returns (s: State)
    requires Ready(g, s0) && |s0.members| == g.n && q < g.n && s0.members[Next(g.n, q)] == Idle()
    requires |s0.connections| == 4 && s0.connections[3] == Asked(g, q, u)
    ensures var z := Next(g.n, q);
      && Ready(g, s) && |s.members| == g.n && |s.connections| == 5
      && (forall p | 0 <= p < g.n && p != z :: s.members[p] == s0.members[p])
      && s.connections[1] == s0.connections[1] && s.connections[4] == Asked(g, z, 1)
      && s.connections[3].answer == Some(Response(g, z, 1, g.uuid))
  {
    var z := Next(g.n, q);
    assert Prev(g.n, z) == q;
    hide Ready;
    BegunTried(g, z, 1, 4);
    s := Attempts(g, s0, z, 0);
    s := Responds(g, s, z, 3, u);
  }

  /** The rank before the two opens its connection, unless it is the rank after them, which did. */
  lemma PreviousAsks(g: Ring, s0: State, p: nat, z: nat) returns (s: State)
    requires Ready(g, s0) && |s0.members| == g.n && p < g.n && z < g.n && |s0.connections| == 5
    requires if p == z then s0.connections[4] == Asked(g, z, 1) else s0.members[p] == Idle()
    ensures Ready(g, s) && |s.members| == g.n && |s0.connections| <= |s.connections|
    ensures forall r | 0 <= r < g.n && r != p :: s.members[r] == s0.members[r]
    ensures s.connections[1] == s0.connections[1] && s.connections[3] == s0.connections[3]
    ensures s.connections[|s.connections| - 1] == Asked(g, p, 1)
  {
    s := s0;
    if p != z { s := Attempts(g, s, p, 0); }
  }

  /** Everyone but r has answered, and the request of the rank before r waits at it. */
  lemma OthersAnswer(g: Ring, r: nat, q: nat, t: nat, u: nat) returns (s: State)
    requires Wellformed(g) && !g.inOrder && r < g.n && 2 < g.n && q == Next(g.n, r)
    ensures Ready(g, s) && |s.members| == g.n && 4 < |s.connections|
    ensures s.members[r] == Begun(g, r, t + 2, 1).(phase := Sent) && s.members[q] == Listener(g, r, q, t + 1, u + 2)
    ensures s.connections[1].answer == Some(Response(g, q, u + 1, g.uuid))
    ensures s.connections[3].answer == Some(Response(g, Next(g.n, q), 1, g.uuid))
    ensures s.connections[|s.connections| - 1] == Asked(g, Prev(g.n, r), 1)
  {
    var p, z := Prev(g.n, r), Next(g.n, q);
    assert q != r && z != r && z != q && p != q && p != r && Prev(g.n, q) == r;
    hide Ready, Wellformed, Begun, Listener, Response, Request;
    s := Cross(g, r, q, t, u);
    s := NextAnswers(g, s, q, u + 2);
    s := PreviousAsks(g, s, p, z);
  }

  lemma CrossOfMany(g: Ring, r: nat, t: nat, u: nat) returns (s: State)
    requires Wellformed(g) && !g.inOrder && r < g.n && 2 < g.n
    ensures Ready(g, s) && |s.members| == g.n && Crossed(g, s, r, t, u)
  {
    var q, p := Next(g.n, r), Prev(g.n, r);
    assert q != r;
    hide Ready, Wellformed, Begun, Listener, Response, Request, Ends;
    s := OthersAnswer(g, r, q, t, u);
    BegunTried(g, r, t + 2, 1);
    AskerEnds(g, r, p, 1, t + 2, |s.connections| - 1);
    ListenerEnds(g, r, q, t + 1, u + 2);
    s := Responds(g, s, r, |s.connections| - 1, 1);
  }

  lemma Joins(g: Ring, s0: State, r: nat, t: nat, u: nat) returns (s: State)
    requires Ready(g, s0) && FreshLanes(g) && 0 < g.qps && r < g.n == |s0.members| && Crossed(g, s0, r, t, u)
    ensures Reachable(g, s) && Joined(g, s.members[r]) && s.members[r].tries == t + 2
    ensures Joined(g, s.members[Next(g.n, r)]) && s.members[Next(g.n, r)].tries == u + 2 && !Paired(g, s, r)
  {
    var q := Next(g.n, r);
    var k :| s0.connections[3].answer == Some(Response(g, Next(g.n, q), k, g.uuid));
    s := Do(g, s0, Finish(r, Response(g, q, u + 1, g.uuid)));
    s := Do(g, s, Finish(q, Response(g, Next(g.n, q), k, g.uuid)));
    assert OutgoingPeer(s.members[r], 0) == Some(g.incoming(q, u + 1)[0]);
  }

  /**
   Two neighbours can join wrongly paired in their t-th and u-th attempts at one uuid exactly when a listener
   accepts one member's connections out of order and both tried before: whatever the size of the ring, the
   number of lanes, and the pair of neighbours.
   */
  lemma MispairsExactly(g: Ring, r: nat, t: nat, u: nat)
    requires Wellformed(g) && FreshLanes(g) && 0 < g.qps && r < g.n
    ensures (exists run, acts :: Mispaired(g, r, t, u, run, acts)) <==> !g.inOrder && 2 <= t && 2 <= u
  {
    if run, acts :| Mispaired(g, r, t, u, run, acts) {
      if g.inOrder || t <= 1 || u <= 1 { NeighboursArePaired(g, run, acts, |acts|, r); }
    }
    if !g.inOrder && 2 <= t && 2 <= u {
      var s;
      if g.n == 2 { s := CrossOfTwo(g, r, t - 2, u - 2); } else { s := CrossOfMany(g, r, t - 2, u - 2); }
      s := Joins(g, s, r, t - 2, u - 2);
      var run, acts :| Run(g, run, acts) && run[|acts|] == s;
      assert Mispaired(g, r, t, u, run, acts);
    }
  }

  /** A two-member ring with one lane per direction, whose listeners accept in any order. */
  function Pair(): Ring {
    Ring(2, 1, 7, false, j => j, (r, k) => [100 * r + k], (r, k) => [1000 + 100 * r + k], r => r)
  }

  /** The smallest case: two members, one lane, one retry each. */
  lemma CrossedRetriesMispair()
    ensures Wellformed(Pair()) && exists run, acts :: Mispaired(Pair(), 0, 2, 2, run, acts)
  {
    MispairsExactly(Pair(), 0, 2, 2);
  }
}

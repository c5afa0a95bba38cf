/** What a process group guarantees over every sequence of calls and every interleaving. */
module CollectivesTheorems {
  import opened Arithmetic
  import opened Ring
  import opened RingProof
  import opened RingTheorems
  import opened Collectives
  import opened CollectivesProof

  // ---------------------------------------------------------------- the result

  /**
   When rank r's kernel has passed an iteration of the last call, its real work buffer holds the fold of that
   call's inputs there, and keeps holding it until the rank starts its next call, whatever the others do: they
   may be in this call still or have started the next one.
   */
  lemma CallHoldsFold<E>(g: Group<E>, states: seq<System<E>>, acts: seq<Act>, j: nat, ch: nat, r: nat, a: Cell)
    requires Calls(g, states, acts) && j < |states| && ch < |g.rings| && r < g.n && Valid(g.rings[ch], a)
    requires 0 < states[j].hosts[r].started && InCall(g, ch, a.loop, states[j].hosts[r].started - 1)
    requires a.loop < states[j].channels[ch][r].loop
    ensures states[j].hosts[r].work(g.at(ch, a)) == Fold(g.rings[ch], a, g.n)
  {
    CallsKeepConsistent(g, states, acts, j);
    assert WorkAgrees(g, states[j], ch, r, a);
    PassedLoopHoldsFold(g.rings[ch], states[j].channels[ch], r, a);
  }

  lemma FinishedCallHoldsFold<E>(g: Group<E>, states: seq<System<E>>, acts: seq<Act>, j: nat, ch: nat, r: nat, a: Cell)
    requires Calls(g, states, acts) && j < |states| && ch < |g.rings| && r < g.n && Valid(g.rings[ch], a)
    requires 0 < states[j].hosts[r].started && InCall(g, ch, a.loop, states[j].hosts[r].started - 1)
    requires Idle(g, states[j], r)
    ensures states[j].hosts[r].work(g.at(ch, a)) == Fold(g.rings[ch], a, g.n)
  {
    CallHoldsFold(g, states, acts, j, ch, r, a);
  }

  // ---------------------------------------------------------------- no races between calls

  /**
   Between two calls a rank has its work buffer to itself: none of its own messages is in flight, and what its
   predecessor still or already sends goes to scratch.  So it may read the result and write the next input.
   */
  lemma IdleWorkIsPrivate<E>(g: Group<E>, states: seq<System<E>>, acts: seq<Act>, j: nat, ch: nat, r: nat)
    requires Calls(g, states, acts) && j < |states| && ch < |g.rings| && r < g.n && Idle(g, states[j], r)
    ensures g.rings[ch].n == g.n
    ensures var ring, c, p := g.rings[ch], states[j].channels[ch], Prev(g.n, r);
      !InFlight(ring, c[r]) && (InFlight(ring, c[p]) ==> c[p].step < g.n - 1)
  {
    CallsKeepConsistent(g, states, acts, j);
    var s, p := states[j], Prev(g.n, r);
    assert Gate(g, s, ch, r);
    if InFlight(g.rings[ch], s.channels[ch][p]) && g.n - 1 <= s.channels[ch][p].step {
      GatherSameCall(g, s, ch, p);
    }
  }

  /** Rank q has yet to reduce the scratch cell b of its last call. */
  predicate StillReduces<E>(g: Group<E>, s: System<E>, ch: nat, q: nat, b: Cell)
    requires 2 <= g.n && ch < |g.rings| == |s.channels| && q < g.n
    requires g.n == g.rings[ch].n == |s.channels[ch]| == |s.hosts|
  {
    && 0 < s.hosts[q].started && InCall(g, ch, b.loop, s.hosts[q].started - 1) && b.chunk < g.n
    && 2 <= Hops(g.n, q, b.chunk)
    && Time(g.rings[ch], s.channels[ch][q]) <= Base(g.n, b.loop) + Hops(g.n, q, b.chunk) - 2
  }

  /**
   A reduce-scatter message in flight targets bytes that no reduction still reads except its own: not those
   of any other channel, and not those of the call its receiver may still be in.
   */
  lemma ScratchTargetIsFree<E>(g: Group<E>, states: seq<System<E>>, acts: seq<Act>, j: nat, ch: nat, p: nat, i: nat,
                               ch': nat, b: Cell)
    requires Calls(g, states, acts) && j < |states| && ch < |g.rings| && ch' < |g.rings| && p < g.n
    requires g.rings[ch].n == g.n && InFlight(g.rings[ch], states[j].channels[ch][p])
    requires states[j].channels[ch][p].step < g.n - 1 && i < SendLength(g.rings[ch], p, states[j].channels[ch][p])
    requires Valid(g.rings[ch'], b) && StillReduces(g, states[j], ch', Next(g.n, p), b)
    requires !Apart(g.at(ch, Source(g.rings[ch], p, states[j].channels[ch][p], i)), g.at(ch', b))
    ensures ch' == ch && b == Source(g.rings[ch], p, states[j].channels[ch][p], i)
  {
    CallsKeepConsistent(g, states, acts, j);
    hide Agrees, Controlled, Calls, Consistent;
    var s, q := states[j], Next(g.n, p);
    var a := Source(g.rings[ch], p, s.channels[ch][p], i);
    SourceIsCell(g, s, ch, p, i);
    ReceiverInNoLaterCall(g, s, ch, p);
    if s.hosts[q].started < s.hosts[p].started {
      NothingLeftToReduce(g, s, ch', p, b);
    } else if ch != ch' || a != b {
      Disjoint(g, ch, a, ch', b, s.hosts[p].started - 1);
    }
  }

  lemma SourceIsCell<E>(g: Group<E>, s: System<E>, ch: nat, p: nat, i: nat)
    requires Consistent(g, s) && ch < |g.rings| && p < g.n && InFlight(g.rings[ch], s.channels[ch][p])
    requires i < SendLength(g.rings[ch], p, s.channels[ch][p])
    ensures var x := Source(g.rings[ch], p, s.channels[ch][p], i);
      Valid(g.rings[ch], x) && 0 < s.hosts[p].started && InCall(g, ch, x.loop, s.hosts[p].started - 1)
  {
    assert Gate(g, s, ch, p);
    Busy(g, s, ch, p);
    SendOwnerHops(g.n, p, s.channels[ch][p].step);
  }

  lemma ReceiverInNoLaterCall<E>(g: Group<E>, s: System<E>, ch: nat, p: nat)
    requires Consistent(g, s) && ch < |g.rings| && p < g.n && InFlight(g.rings[ch], s.channels[ch][p])
    ensures s.hosts[Next(g.n, p)].started <= s.hosts[p].started
  {
    var kp, kq := s.hosts[p].started, s.hosts[Next(g.n, p)].started;
    assert Gate(g, s, ch, p) && Gate(g, s, ch, Next(g.n, p));
    ReceiverIsNotAhead(g, s, ch, p);
    if kp < kq { FirstMonotone(g, ch, kp, kq - 1); }
  }

  /** A rank whose predecessor has started a later call has reduced everything of its own last call. */
  lemma NothingLeftToReduce<E>(g: Group<E>, s: System<E>, ch: nat, p: nat, b: Cell)
    requires Consistent(g, s) && ch < |g.rings| && p < g.n && s.hosts[Next(g.n, p)].started < s.hosts[p].started
    ensures g.rings[ch].n == g.n && !StillReduces(g, s, ch, Next(g.n, p), b)
  {
    var kp, kq := s.hosts[p].started, s.hosts[Next(g.n, p)].started;
    assert Gate(g, s, ch, p);
    FirstMonotone(g, ch, kq, kp - 1);
    if 0 < kq && InCall(g, ch, b.loop, kq - 1) { ReductionsOver(g, s, ch, p, b.loop); }
  }

  lemma ReceiverIsNotAhead<E>(g: Group<E>, s: System<E>, ch: nat, p: nat)
    requires Consistent(g, s) && ch < |g.rings| && p < g.n && InFlight(g.rings[ch], s.channels[ch][p])
    ensures s.channels[ch][Next(g.n, p)].loop <= s.channels[ch][p].loop
  {
    var c, q := s.channels[ch], Next(g.n, p);
    assert Control(g.rings[ch], c, p) && Control(g.rings[ch], c, q);
    if c[p].loop < c[q].loop { BaseMonotone(g.n, c[p].loop, c[q].loop); }
  }

  /** Once its predecessor has left iteration l, a rank has no reduction of l left. */
  lemma ReductionsOver<E>(g: Group<E>, s: System<E>, ch: nat, p: nat, l: nat)
    requires Consistent(g, s) && ch < |g.rings| && p < g.n && l < s.channels[ch][p].loop
    ensures Base(g.n, l) + Steps(g.n) - 1 <= Time(g.rings[ch], s.channels[ch][Next(g.n, p)])
  {
    Adjacent(g.rings[ch], s.channels[ch], p);
    BaseMonotone(g.n, l, s.channels[ch][p].loop);
  }

  /** An all-gather message in flight targets a rank in the same call, and overlaps no other cell of that call. */
  lemma WorkTargetIsOwnCell<E>(g: Group<E>, states: seq<System<E>>, acts: seq<Act>, j: nat, ch: nat, p: nat, i: nat,
                               ch': nat, b: Cell)
    requires Calls(g, states, acts) && j < |states| && ch < |g.rings| && ch' < |g.rings| && p < g.n
    requires g.rings[ch].n == g.n && InFlight(g.rings[ch], states[j].channels[ch][p])
    requires g.n - 1 <= states[j].channels[ch][p].step < Steps(g.n)
    requires i < SendLength(g.rings[ch], p, states[j].channels[ch][p])
    ensures var s, q := states[j], Next(g.n, p);
      && s.hosts[q].started == s.hosts[p].started > 0
      && (Valid(g.rings[ch'], b) && InCall(g, ch', b.loop, s.hosts[q].started - 1)
          && !Apart(g.at(ch, Source(g.rings[ch], p, s.channels[ch][p], i)), g.at(ch', b))
          ==> ch' == ch && b == Source(g.rings[ch], p, s.channels[ch][p], i))
  {
    CallsKeepConsistent(g, states, acts, j);
    var s := states[j];
    GatherSameCall(g, s, ch, p);
    SendOwnerHops(g.n, p, s.channels[ch][p].step);
    var a := Source(g.rings[ch], p, s.channels[ch][p], i);
    if Valid(g.rings[ch'], b) && InCall(g, ch', b.loop, s.hosts[p].started - 1) && (ch != ch' || a != b) {
      assert SameCall(g, ch, a, ch', b, s.hosts[p].started - 1);
    }
  }

  // ---------------------------------------------------------------- progress

  ghost predicate Useful<E>(g: Group<E>, s: System<E>, act: Act)
    requires Sound(g) && Shaped(g, s) && CanStep(g, s, act)
  {
    act.Micro? ==> !Retransmission(g.rings[act.ch], s.channels[act.ch], act.act) && FaultFree(act.act)
  }

  ghost predicate AllDone<E>(g: Group<E>, s: System<E>)
    requires Shaped(g, s)
  {
    forall r | 0 <= r < g.n :: s.hosts[r].started == g.calls && Idle(g, s, r)
  }

  ghost predicate Healthy<E>(g: Group<E>, s: System<E>)
    requires Shaped(g, s)
  {
    forall ch, r | 0 <= ch < |g.rings| && 0 <= r < g.n :: !s.channels[ch][r].failed
  }

  /** A host that has started fewest calls. */
  lemma {:induction false} LeastStarted<E>(hosts: seq<Host<E>>, k: nat) returns (r: nat)
    requires 1 <= k <= |hosts|
    ensures r < k && forall q | 0 <= q < k :: hosts[r].started <= hosts[q].started
  {
    if k == 1 { return 0; }
    r := LeastStarted(hosts, k - 1);
    if hosts[k - 1].started < hosts[r].started { r := k - 1; }
  }

  /** Calls cannot deadlock each other, although no rank waits for another before it starts its next call. */
  lemma CallsDoNotDeadlock<E>(g: Group<E>, states: seq<System<E>>, acts: seq<Act>, j: nat) returns (act: Act)
    requires Calls(g, states, acts) && j < |states| && Healthy(g, states[j]) && !AllDone(g, states[j])
    ensures CanStep(g, states[j], act) && Useful(g, states[j], act)
  {
    var s := states[j];
    CallsKeepConsistent(g, states, acts, j);
    var r0 := LeastStarted(s.hosts, g.n);
    var k := s.hosts[r0].started;
    assert Gate(g, s, 0, r0);
    if ch: nat, q: nat :| ch < |g.rings| && q < g.n && s.channels[ch][q].loop < g.first(ch, k) {
      act := ChannelMoves(g, s, ch, q, k);
    } else {
      assert Idle(g, s, r0) by {
        forall ch: nat | ch < |g.rings| ensures s.channels[ch][r0].loop == g.first(ch, k) { assert Gate(g, s, ch, r0); }
      }
      if k == g.calls { EveryoneIdle(g, s); }
      act := Start(r0);
    }
  }

  lemma EveryoneIdle<E>(g: Group<E>, s: System<E>)
    requires Consistent(g, s) && Healthy(g, s) && (forall r | 0 <= r < g.n :: g.calls <= s.hosts[r].started)
    requires forall ch: nat, q: nat | ch < |g.rings| && q < g.n :: g.first(ch, g.calls) <= s.channels[ch][q].loop
    ensures AllDone(g, s)
  {
    forall r: nat | r < g.n ensures s.hosts[r].started == g.calls && Idle(g, s, r) {
      assert Gate(g, s, 0, r);
      forall ch: nat | ch < |g.rings| ensures s.channels[ch][r].loop == g.first(ch, g.calls) {
        assert Gate(g, s, ch, r);
      }
    }
  }

  /** A channel in which someone is behind the least started call can move, and its receives are not held back. */
  lemma ChannelMoves<E>(g: Group<E>, s: System<E>, ch: nat, q: nat, k: nat) returns (act: Act)
    requires Consistent(g, s) && Healthy(g, s) && ch < |g.rings| && q < g.n
    requires forall r | 0 <= r < g.n :: k <= s.hosts[r].started
    requires s.channels[ch][q].loop < g.first(ch, k) && k <= g.calls
    ensures CanStep(g, s, act) && Useful(g, s, act)
  {
    var ring, c := g.rings[ch], s.channels[ch];
    FirstMonotone(g, ch, k, g.calls);
    assert !Finished(ring, c[q]);
    var micro := UsefulStep(ring, c);
    if micro.PostRecv? {
      var r := micro.r;
      assert Control(ring, c, q) && Control(ring, c, r) && Gate(g, s, ch, r);
      if c[q].loop < c[r].loop { BaseMonotone(g.n, c[q].loop, c[r].loop); }
      FirstMonotone(g, ch, k, s.hosts[r].started);
    }
    act := Micro(ch, micro);
  }

  // ---------------------------------------------------------------- every possible step has an outcome

  ghost function Reduction<E>(g: Group<E>, ch: nat, h: Host<E>, l: nat, c: nat): Loc -> E
    requires ch < |g.rings|
  {
    (y: Loc) => if exists i: nat :: i < g.rings[ch].len(l, c) && g.at(ch, Cell(l, c, i)) == y
                then g.rings[ch].f(h.work(y), h.scratch(y)) else h.work(y)
  }

  ghost predicate Holds<E>(g: Group<E>, k: nat, ch: nat, a: Cell, y: Loc) {
    ch < |g.rings| && Valid(g.rings[ch], a) && InCall(g, ch, a.loop, k) && g.at(ch, a) == y
  }

  ghost function InputAt<E>(g: Group<E>, r: nat, k: nat, work: Loc -> E, y: Loc): E {
    if exists ch: nat, a: Cell :: Holds(g, k, ch, a, y)
    then var ch: nat, a: Cell :| Holds(g, k, ch, a, y); g.rings[ch].input(r, a)
    else work(y)
  }

  lemma InputIsCopied<E>(g: Group<E>, r: nat, k: nat, work: Loc -> E)
    requires Sound(g)
    ensures CopiedIn(g, r, k, (y: Loc) => InputAt(g, r, k, work, y))
  {
    forall ch: nat, a | ch < |g.rings| && Valid(g.rings[ch], a) && InCall(g, ch, a.loop, k)
      ensures InputAt(g, r, k, work, g.at(ch, a)) == g.rings[ch].input(r, a)
    {
      var y := g.at(ch, a);
      assert Holds(g, k, ch, a, y);
      forall ch', a' | Holds(g, k, ch', a', y) ensures ch' == ch && a' == a {
        if ch' != ch || a' != a { assert SameCall(g, ch, a, ch', a', k); }
      }
    }
  }

  lemma ReductionReduces<E>(g: Group<E>, ch: nat, h: Host<E>, l: nat, c: nat)
    requires Sound(g) && ch < |g.rings| && l < g.rings[ch].loops && c < g.n
    ensures Reduced(g, ch, h, Reduction(g, ch, h, l, c), l, c)
  {
    var work' := Reduction(g, ch, h, l, c);
    forall a: Cell | a.loop == l && a.chunk == c && a.elem < g.rings[ch].len(l, c)
      ensures work'(g.at(ch, a)) == g.rings[ch].f(h.work(g.at(ch, a)), h.scratch(g.at(ch, a)))
    {
      assert a == Cell(l, c, a.elem);
    }
    forall y | ApartFrom(g, ch, l, c, y) ensures work'(y) == h.work(y) {
      forall i: nat | i < g.rings[ch].len(l, c) ensures g.at(ch, Cell(l, c, i)) != y {
        assert Apart(g.at(ch, Cell(l, c, i)), y) && Valid(g.rings[ch], Cell(l, c, i));
      }
    }
  }

  /** The rules for overlapping memory never contradict each other: what can happen has an outcome. */
  lemma StepHasOutcome<E>(g: Group<E>, s: System<E>, act: Act) returns (s': System<E>)
    requires Consistent(g, s) && CanStep(g, s, act)
    ensures Step(g, s, act, s')
  {
    match act
    case Start(r) =>
      var h := s.hosts[r];
      var work' := (y: Loc) => InputAt(g, r, h.started, h.work, y);
      InputIsCopied(g, r, h.started, h.work);
      s' := s.(hosts := s.hosts[r := h.(started := h.started + 1, work := work')]);
    case Micro(ch, micro) =>
      var hosts' := MovedMemory(g, s, ch, micro);
      s' := System(s.channels[ch := Apply(g.rings[ch], s.channels[ch], micro)], hosts');
  }

  lemma MovedMemory<E>(g: Group<E>, s: System<E>, ch: nat, act: Action) returns (hosts': seq<Host<E>>)
    requires Consistent(g, s) && CanStep(g, s, Micro(ch, act))
    ensures |hosts'| == g.n && (forall q | 0 <= q < g.n :: |hosts'[q].held| == |g.rings|)
    ensures Moves(g, s, hosts', ch, act)
  {
    var r := act.r;
    var q := Next(g.n, r);
    var m, h := s.channels[ch][r], s.hosts[r];
    match act
    case Fetch(_, i) =>
      var held: map<nat, E> := h.held[ch][i := h.work(g.at(ch, Source(g.rings[ch], r, m, i)))];
      hosts' := s.hosts[r := h.(held := h.held[ch := held])];
    case Place(_, i) =>
      var x, v := g.at(ch, Source(g.rings[ch], r, m, i)), h.held[ch][i];
      assert m.fetched == h.held[ch];
      PlacedCell(g, s, ch, r, i);
      if m.step < g.n - 1 {
        hosts' := s.hosts[q := s.hosts[q].(scratch := (y: Loc) => if y == x then v else s.hosts[q].scratch(y))];
      } else {
        hosts' := s.hosts[q := s.hosts[q].(work := (y: Loc) => if y == x then v else s.hosts[q].work(y))];
      }
    case Finish(_, _) =>
      var work' := h.work;
      if m.step < g.n - 1 {
        RecvOwnerHops(g.n, r, m.step);
        ReductionReduces(g, ch, h, m.loop, RecvOwner(g.n, r, m.step));
        work' := Reduction(g, ch, h, m.loop, RecvOwner(g.n, r, m.step));
      }
      hosts' := s.hosts[r := h.(held := h.held[ch := map[]], work := work')];
    case _ =>
      hosts' := s.hosts;
  }
}

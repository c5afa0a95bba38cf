/** What the ring guarantees over every interleaving. */
module RingTheorems {
  import opened Arithmetic
  import opened Ring
  import opened RingProof

  predicate Finished<E>(g: Ring<E>, m: Rank<E>) { !m.failed && m.loop == g.loops }

  // ---------------------------------------------------------------- the result

  /** A rank that has left a loop iteration holds the fold of all inputs in it, whatever the others still do. */
  lemma PassedLoopHoldsFold<E>(g: Ring<E>, s: State<E>, r: nat, a: Cell)
    requires Inv(g, s) && r < g.n && a.loop < s[r].loop && Valid(g, a)
    ensures s[r].work(a) == Fold(g, a, g.n)
  {
    var n, d := g.n, Hops(g.n, r, a.chunk);
    assert Control(g, s, r) && Memory(g, s, r, a);
    BaseMonotone(n, a.loop, s[r].loop);
    if d < n {
      SendOwnerHops(n, Prev(n, r), n + d - 2);
      LoggedMeansLanded(g, s, r, a.loop, n + d - 2, a.elem);
    }
  }

  /** So does, everywhere, a rank that finished with status 0. */
  lemma FinishedRankHoldsFold<E>(g: Ring<E>, states: seq<State<E>>, acts: seq<Action>, j: nat, r: nat, a: Cell)
    requires Run(g, states, acts) && j < |states| && r < g.n && Finished(g, states[j][r]) && Valid(g, a)
    ensures states[j][r].work(a) == Fold(g, a, g.n)
  {
    RunKeepsInv(g, states, acts, j);
    PassedLoopHoldsFold(g, states[j], r, a);
  }

  lemma FinishedRanksAgree<E>(g: Ring<E>, states: seq<State<E>>, acts: seq<Action>, j: nat, r: nat, r': nat, a: Cell)
    requires Run(g, states, acts) && j < |states| && r < g.n && r' < g.n && Valid(g, a)
    requires Finished(g, states[j][r]) && Finished(g, states[j][r'])
    ensures states[j][r].work(a) == states[j][r'].work(a)
  {
    FinishedRankHoldsFold(g, states, acts, j, r, a);
    FinishedRankHoldsFold(g, states, acts, j, r', a);
  }

  /** The fold counts the input of every rank exactly once. */
  lemma FoldUsesEveryInputOnce(g: Ring<multiset<nat>>, a: Cell, r: nat)
    requires Wellformed(g) && a.chunk < g.n && r < g.n
    requires forall v, w :: g.f(v, w) == v + w
    requires forall q: nat, b :: g.input(q, b) == multiset{q}
    ensures Fold(g, a, g.n)[r] == 1
  {
    FoldUses(g, a, g.n, r);
  }

  lemma {:induction false} FoldUses(g: Ring<multiset<nat>>, a: Cell, k: nat, r: nat)
    requires Wellformed(g) && a.chunk < g.n && r < g.n && 1 <= k <= g.n
    requires forall v, w :: g.f(v, w) == v + w
    requires forall q: nat, b :: g.input(q, b) == multiset{q}
    ensures Fold(g, a, k)[r] == if Hops(g.n, r, a.chunk) <= k then 1 else 0
  {
    ModSmall(a.chunk + k, g.n);
    if k > 1 { FoldUses(g, a, k - 1, r); }
  }

  // ---------------------------------------------------------------- links stay in lockstep

  lemma Lockstep<E>(g: Ring<E>, states: seq<State<E>>, acts: seq<Action>, j: nat, r: nat)
    requires Run(g, states, acts) && j < |states| && r < g.n
    ensures var m := states[j][r]; var q := states[j][Next(g.n, r)];
      && Time(g, m) - 1 <= Time(g, q) <= Time(g, m) + 1
      // the k-th receive of a link is consumed by the notification of the neighbour's k-th step,
      && (forall k | 0 <= k < |q.log| :: q.log[k] == k)
      // the receive a rank waits for is the one of its own current step, and at most one is open
      && (q.phase != Ready ==> q.ticket == Time(g, q))
      && q.posted - 1 <= |q.log| <= q.posted
  {
    RunKeepsInv(g, states, acts, j);
    Adjacent(g, states[j], r);
    assert Control(g, states[j], Next(g.n, r));
  }

  // ---------------------------------------------------------------- direct placement does not race

  /** The source of a message reads the same from the post until the notification. */
  lemma SourceUnchanged<E>(g: Ring<E>, states: seq<State<E>>, acts: seq<Action>, j: nat, j': nat, r: nat, i: nat)
    requires Run(g, states, acts) && j < |states| && j' < |states| && r < g.n
    requires var m := states[j][r]; var m' := states[j'][r];
      && InFlight(g, m) && InFlight(g, m') && m.loop == m'.loop && m.step == m'.step && i < SendLength(g, r, m)
    ensures var m := states[j][r]; states[j'][r].work(Source(g, r, m, i)) == m.work(Source(g, r, m, i))
  {
    RunKeepsInv(g, states, acts, j);
    RunKeepsInv(g, states, acts, j');
    SourceStable(g, states[j], r, i);
    SourceStable(g, states[j'], r, i);
  }

  /** In step k of loop l the network card of rank q reads its work chunk c until the message is consumed. */
  predicate CardMayRead<E>(g: Ring<E>, s: State<E>, q: nat, l: nat, k: nat, c: nat)
    requires Wellformed(g) && |s| == g.n && q < g.n && k < Steps(g.n)
  {
    c == SendOwner(g.n, q, k) && s[q].acked <= Base(g.n, l) + k
  }

  /** In step k of loop l rank q reduces scratch chunk c into work chunk c, and has not done so yet. */
  predicate ReductionMayRead<E>(g: Ring<E>, s: State<E>, q: nat, l: nat, k: nat, c: nat)
    requires Wellformed(g) && |s| == g.n && q < g.n && k < Steps(g.n)
  {
    k < g.n - 1 && c == RecvOwner(g.n, q, k) && Time(g, s[q]) <= Base(g.n, l) + k
  }

  /** A reduce-scatter message in flight targets scratch that only its own reduction will read. */
  lemma ScratchPlacementIsSafe<E>(g: Ring<E>, states: seq<State<E>>, acts: seq<Action>, j: nat, r: nat, k: nat)
    requires Run(g, states, acts) && j < |states| && r < g.n && k < Steps(g.n)
    requires InFlight(g, states[j][r]) && states[j][r].step < g.n - 1
    ensures var m := states[j][r];
      ReductionMayRead(g, states[j], Next(g.n, r), m.loop, k, SendOwner(g.n, r, m.step)) <==> k == m.step
  {
    var s, n, q := states[j], g.n, Next(g.n, r);
    RunKeepsInv(g, states, acts, j);
    assert Control(g, s, r) && Control(g, s, q);
    NeighboursAgreeOnChunk(n, r, s[r].step);
    RecvOwnerHops(n, q, s[r].step);
    if k < n - 1 { RecvOwnerHops(n, q, k); }
  }

  /** An all-gather message in flight targets a work chunk whose old contents are not read any more. */
  lemma WorkPlacementIsSafe<E>(g: Ring<E>, states: seq<State<E>>, acts: seq<Action>, j: nat, r: nat, k: nat)
    requires Run(g, states, acts) && j < |states| && r < g.n && k < Steps(g.n)
    requires InFlight(g, states[j][r]) && g.n - 1 <= states[j][r].step
    ensures var m := states[j][r]; var q := Next(g.n, r); var c := SendOwner(g.n, r, m.step);
      && !ReductionMayRead(g, states[j], q, m.loop, k, c)
      && (CardMayRead(g, states[j], q, m.loop, k, c) ==> k == m.step + 1)
  {
    var s, n, q := states[j], g.n, Next(g.n, r);
    RunKeepsInv(g, states, acts, j);
    assert Control(g, s, r) && Control(g, s, q);
    Adjacent(g, s, r);
    SendOwnerHops(n, r, s[r].step);
    SendOwnerHops(n, q, k);
    if k < n - 1 { RecvOwnerHops(n, q, k); }
    assert n == 2 ==> Next(n, q) == r;
  }

  // ---------------------------------------------------------------- progress

  predicate Retransmission<E>(g: Ring<E>, s: State<E>, act: Action)
    requires |s| == g.n && act.r < g.n
  {
    match act
    case Fetch(r, i) => i in s[r].fetched
    case Place(r, i) => i in s[r].placed
    case _ => false
  }

  predicate FaultFree(act: Action) { !act.Fail? && (act.Finish? ==> act.ok) }

  /** Where r's current message is not yet consumed, the message itself or its receiver can move. */
  lemma MessageMoves<E>(g: Ring<E>, s: State<E>, r: nat) returns (act: Action)
    requires Inv(g, s) && r < g.n && (forall q | 0 <= q < g.n :: !s[q].failed)
    requires s[r].loop < g.loops && s[r].acked == Time(g, s[r]) && Time(g, s[Next(g.n, r)]) >= Time(g, s[r])
    ensures Enabled(g, s, act) && !Retransmission(g, s, act) && FaultFree(act)
    ensures act.PostRecv? ==> Time(g, s[act.r]) == Time(g, s[r])
  {
    var m, q := s[r], Next(g.n, r);
    assert Control(g, s, r) && Control(g, s, q);
    if m.phase == Ready { return PostRecv(r); }
    if m.phase == RecvPosted { return PostSend(r); }
    if i: nat :| i < SendLength(g, r, m) && i !in m.placed {
      return if i in m.fetched then Place(r, i) else Fetch(r, i);
    }
    if s[q].phase == Ready {
      if s[q].loop == g.loops && m.loop < g.loops { BaseMonotone(g.n, m.loop, g.loops); }
      return PostRecv(q);
    }
    return Notify(r);
  }

  /** The ring cannot deadlock: without faults some useful micro-step is always possible. */
  lemma NoDeadlock<E>(g: Ring<E>, states: seq<State<E>>, acts: seq<Action>, j: nat) returns (act: Action)
    requires Run(g, states, acts) && j < |states|
    requires forall q | 0 <= q < g.n :: !states[j][q].failed
    requires exists q :: 0 <= q < g.n && !Finished(g, states[j][q])
    ensures Enabled(g, states[j], act) && !Retransmission(g, states[j], act) && FaultFree(act)
  {
    RunKeepsInv(g, states, acts, j);
    act := UsefulStep(g, states[j]);
  }

  /** And it never takes a receive posted by a rank that is ahead of another. */
  lemma UsefulStep<E>(g: Ring<E>, s: State<E>) returns (act: Action)
    requires Inv(g, s) && (forall q | 0 <= q < g.n :: !s[q].failed)
    requires exists q :: 0 <= q < g.n && !Finished(g, s[q])
    ensures Enabled(g, s, act) && !Retransmission(g, s, act) && FaultFree(act)
    ensures act.PostRecv? ==> forall q | 0 <= q < g.n :: Time(g, s[act.r]) <= Time(g, s[q])
  {
    var behind :| 0 <= behind < g.n && !Finished(g, s[behind]);
    assert Control(g, s, behind);
    var r := Slowest(g, s, g.n);
    var m, p := s[r], Prev(g.n, r);
    assert Control(g, s, r) && Control(g, s, p);
    if m.acked == Time(g, m) {
      act := MessageMoves(g, s, r);
    } else if m.phase == SendPosted {
      act := WaitSend(r);
    } else if m.phase == RecvDone {
      act := Finish(r, true);
    } else if m.ticket < |m.log| {
      act := WaitRecv(r);
    } else {
      PredecessorOwes(g, s, r);
      act := MessageMoves(g, s, p);
    }
  }

  /** A slowest rank that waits for a message waits for its predecessor's current one. */
  lemma PredecessorOwes<E>(g: Ring<E>, s: State<E>, r: nat)
    requires Inv(g, s) && r < g.n && s[r].phase == SendDone && |s[r].log| <= s[r].ticket && s[r].loop < g.loops
    requires Time(g, s[r]) <= Time(g, s[Prev(g.n, r)])
    ensures var p := Prev(g.n, r);
      && s[p].loop < g.loops && s[p].acked == Time(g, s[p]) == Time(g, s[r])
  {
    var p := Prev(g.n, r);
    assert Control(g, s, r) && Control(g, s, p);
    hide Control, Messages, Memory, Fold;
    if s[p].loop == g.loops { BaseMonotone(g.n, s[r].loop, g.loops); }
  }

  /** A rank that no other rank is behind. */
  lemma {:induction false} Slowest<E>(g: Ring<E>, s: State<E>, k: nat) returns (r: nat)
    requires Inv(g, s) && 1 <= k <= g.n
    ensures r < k && forall q | 0 <= q < k :: Time(g, s[r]) <= Time(g, s[q])
    ensures (exists q :: 0 <= q < k && s[q].loop < g.loops) ==> s[r].loop < g.loops
  {
    if k == 1 { return 0; }
    r := Slowest(g, s, k - 1);
    assert Control(g, s, r) && Control(g, s, k - 1);
    if s[k - 1].loop < s[r].loop { Position(g.n, s[k - 1].loop, s[k - 1].step, s[r].loop, s[r].step); }
    if s[r].loop < s[k - 1].loop { Position(g.n, s[r].loop, s[r].step, s[k - 1].loop, s[k - 1].step); }
    if Time(g, s[k - 1]) < Time(g, s[r]) { r := k - 1; }
  }

  // ---------------------------------------------------------------- every run is finite

  /** Micro-steps a step can take at most, when no chunk is longer than b. */
  function StepCost(b: nat): nat { 6 + 2 * b }

  function PhaseNumber(p: Phase): nat {
    match p case Ready => 0 case RecvPosted => 1 case SendPosted => 2 case SendDone => 3 case RecvDone => 4
  }

  /** Upper bound on the useful micro-steps left to one rank and its message. */
  function RankWork<E>(g: Ring<E>, b: nat, m: Rank<E>): int
    requires Wellformed(g)
  {
    (Base(g.n, g.loops) - Time(g, m)) * StepCost(b) + (if m.failed then 0 else 1)
    - PhaseNumber(m.phase) - |m.fetched| - |m.placed| - (m.acked - Time(g, m))
  }

  function Work<E>(g: Ring<E>, b: nat, s: State<E>, k: nat): int
    requires Wellformed(g) && k <= |s|
  {
    if k == 0 then 0 else Work(g, b, s, k - 1) + RankWork(g, b, s[k - 1])
  }

  ghost predicate Bounded<E>(g: Ring<E>, b: nat) {
    forall l: nat, c: nat | l < g.loops && c < g.n :: g.len(l, c) <= b
  }

  lemma {:induction false} InitialSegment(k: nat, s: set<nat>)
    requires forall i | i in s :: i < k
    ensures |s| <= k
  {
    if k == 0 {
      assert s == {};
    } else {
      InitialSegment(k - 1, s - {k - 1});
    }
  }

  lemma RankWorkNonNegative<E>(g: Ring<E>, b: nat, s: State<E>, r: nat)
    requires Inv(g, s) && Bounded(g, b) && r < g.n
    ensures 0 <= RankWork(g, b, s[r])
    ensures s[r].loop < g.loops ==> |s[r].fetched| <= b && |s[r].placed| <= b
    ensures s[r].loop < g.loops ==> Time(g, s[r]) < Base(g.n, g.loops)
  {
    var m := s[r];
    assert Control(g, s, r);
    if m.loop < g.loops {
      SendOwnerHops(g.n, r, m.step);
      InitialSegment(b, m.fetched.Keys);
      InitialSegment(b, m.placed);
      BaseMonotone(g.n, m.loop, g.loops);
      MulApart(StepCost(b), 0, Base(g.n, g.loops) - Time(g, m));
    }
  }

  lemma {:induction false} WorkNonNegative<E>(g: Ring<E>, b: nat, s: State<E>, k: nat)
    requires Inv(g, s) && Bounded(g, b) && k <= g.n
    ensures 0 <= Work(g, b, s, k)
  {
    if k > 0 {
      WorkNonNegative(g, b, s, k - 1);
      RankWorkNonNegative(g, b, s, k - 1);
    }
  }

  lemma {:induction false} WorkDrops<E>(g: Ring<E>, b: nat, s: State<E>, s': State<E>, k: nat, r: nat, drop: int)
    requires Wellformed(g) && |s| == |s'| && k <= |s| && r < |s|
    requires forall q | 0 <= q < |s| && q != r :: RankWork(g, b, s'[q]) == RankWork(g, b, s[q])
    requires RankWork(g, b, s'[r]) <= RankWork(g, b, s[r]) - drop
    ensures Work(g, b, s', k) <= Work(g, b, s, k) - if r < k then drop else 0
  {
    if k > 0 { WorkDrops(g, b, s, s', k - 1, r, drop); }
  }

  lemma FinishLowersWork<E>(g: Ring<E>, b: nat, s: State<E>, act: Action)
    requires Inv(g, s) && Bounded(g, b) && Enabled(g, s, act) && act.Finish?
    ensures RankWork(g, b, Advance(g, act.r, s[act.r], act.ok)) <= RankWork(g, b, s[act.r]) - 1
  {
    var m := s[act.r];
    RankWorkNonNegative(g, b, s, act.r);
    assert Control(g, s, act.r);
    AdvanceTime(g, act.r, m, act.ok);
    var left := Base(g.n, g.loops) - Time(g, m);
    assert left * StepCost(b) == (left - 1) * StepCost(b) + StepCost(b);
  }

  predicate SameStage<E>(g: Ring<E>, m: Rank<E>, m': Rank<E>)
    requires Wellformed(g)
  {
    Time(g, m') == Time(g, m) && m'.acked == m.acked && m'.phase == m.phase && m'.failed == m.failed
  }

  /** Reading or writing one more element, or the same one again. */
  lemma MoveGrows<E>(g: Ring<E>, s: State<E>, act: Action, q: nat)
    requires Wellformed(g) && |s| == g.n && Enabled(g, s, act) && (act.Fetch? || act.Place?) && q < g.n
    ensures var m, m' := s[q], Apply(g, s, act)[q];
      && SameStage(g, m, m')
      && m'.fetched.Keys == m.fetched.Keys + (if q == act.r && act.Fetch? then {act.i} else {})
      && m'.placed == m.placed + (if q == act.r && act.Place? then {act.i} else {})
  {
    hide Fold, Base;
  }

  lemma WorkOfStage<E>(g: Ring<E>, b: nat, m: Rank<E>, m': Rank<E>)
    requires Wellformed(g) && SameStage(g, m, m')
    ensures RankWork(g, b, m') == RankWork(g, b, m) + |m.fetched| + |m.placed| - |m'.fetched| - |m'.placed|
  {
    hide Base, StepCost;
    SameProduct(Base(g.n, g.loops) - Time(g, m), Base(g.n, g.loops) - Time(g, m'), StepCost(b));
  }

  lemma MoveLowersWork<E>(g: Ring<E>, b: nat, s: State<E>, act: Action)
    requires Inv(g, s) && Enabled(g, s, act) && (act.Fetch? || act.Place?)
    ensures RankWork(g, b, Apply(g, s, act)[act.r])
         <= RankWork(g, b, s[act.r]) - if Retransmission(g, s, act) then 0 else 1
    ensures forall q | 0 <= q < g.n && q != act.r :: RankWork(g, b, Apply(g, s, act)[q]) == RankWork(g, b, s[q])
  {
    var s' := Apply(g, s, act);
    assert act.r < g.n;
    hide Control, Messages, Memory, Apply, Enabled, RankWork, SameStage;
    forall q: nat | q < g.n
      ensures RankWork(g, b, s'[q])
           == RankWork(g, b, s[q]) - if q == act.r && !Retransmission(g, s, act) then 1 else 0
    {
      MoveGrows(g, s, act, q);
      WorkOfStage(g, b, s[q], s'[q]);
      KeysCount(s[q].fetched);
      KeysCount(s'[q].fetched);
      Grows(s[q].fetched.Keys, act.i);
      Grows(s[q].placed, act.i);
    }
  }

  lemma Grows(s: set<nat>, i: nat)
    ensures |s + {i}| == |s| + if i in s then 0 else 1
  {
    if i in s { assert s + {i} == s; }
  }

  lemma KeysCount<E>(m: map<nat, E>)
    ensures |m| == |m.Keys|
  {
  }

  lemma SameProduct(x: int, y: int, z: int)
    requires x == y
    ensures x * z == y * z
  {
  }

  lemma PhaseLowersWork<E>(g: Ring<E>, b: nat, s: State<E>, act: Action)
    requires Inv(g, s) && Enabled(g, s, act) && !act.Fetch? && !act.Place? && !act.Finish?
    ensures RankWork(g, b, Apply(g, s, act)[act.r])
         <= RankWork(g, b, s[act.r]) - if Retransmission(g, s, act) then 0 else 1
    ensures forall q | 0 <= q < g.n && q != act.r :: RankWork(g, b, Apply(g, s, act)[q]) == RankWork(g, b, s[q])
  {
    assert Control(g, s, act.r);
    hide Fold, Messages, Memory, Control;
  }

  /** Every micro-step that is not a retransmission lowers the remaining work. */
  lemma StepLowersWork<E>(g: Ring<E>, b: nat, s: State<E>, act: Action)
    requires Inv(g, s) && Bounded(g, b) && Enabled(g, s, act)
    ensures Work(g, b, Apply(g, s, act), g.n)
         <= Work(g, b, s, g.n) - if Retransmission(g, s, act) then 0 else 1
  {
    var s', r := Apply(g, s, act), act.r;
    hide RankWork, Control, Messages, Memory, Fold;
    if act.Finish? {
      FinishLowersWork(g, b, s, act);
    } else if act.Fetch? || act.Place? {
      MoveLowersWork(g, b, s, act);
    } else {
      PhaseLowersWork(g, b, s, act);
    }
    WorkDrops(g, b, s, s', g.n, r, if Retransmission(g, s, act) then 0 else 1);
  }

  /** Useful micro-steps among the first j of a run. */
  ghost function Useful<E>(g: Ring<E>, states: seq<State<E>>, acts: seq<Action>, j: nat): nat
    requires Run(g, states, acts) && j <= |acts|
  {
    if j == 0 then 0
    else Useful(g, states, acts, j - 1) + if Retransmission(g, states[j - 1], acts[j - 1]) then 0 else 1
  }

  lemma {:induction false} InitialWork<E>(g: Ring<E>, b: nat, s: State<E>, k: nat)
    requires Wellformed(g) && Init(g, s) && k <= g.n
    ensures Work(g, b, s, k) == k * (Base(g.n, g.loops) * StepCost(b) + 1)
  {
    if k > 0 {
      InitialWork(g, b, s, k - 1);
      var one := Base(g.n, g.loops) * StepCost(b) + 1;
      assert k * one == (k - 1) * one + one;
    }
  }

  /** No run takes more useful micro-steps than this bound, which only the configuration determines. */
  lemma {:induction false} RunsAreFinite<E>(g: Ring<E>, b: nat, states: seq<State<E>>, acts: seq<Action>)
    requires Run(g, states, acts) && Bounded(g, b)
    ensures Useful(g, states, acts, |acts|) <= g.n * (Base(g.n, g.loops) * StepCost(b) + 1)
  {
    var j := 0;
    InitialWork(g, b, states[0], g.n);
    while j < |acts|
      invariant j <= |acts|
      invariant Useful(g, states, acts, j) <= Work(g, b, states[0], g.n) - Work(g, b, states[j], g.n)
    {
      RunKeepsInv(g, states, acts, j);
      StepLowersWork(g, b, states[j], acts[j]);
      j := j + 1;
    }
    RunKeepsInv(g, states, acts, j);
    WorkNonNegative(g, b, states[j], g.n);
  }
}

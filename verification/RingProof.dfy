/** Every micro-step of the ring keeps its invariant. */
module RingProof {
  import opened Arithmetic
  import opened Ring

  lemma InitInv<E>(g: Ring<E>, s: State<E>)
    requires Wellformed(g) && Init(g, s)
    ensures Inv(g, s)
  {
    forall r, a | 0 <= r < g.n && Valid(g, a) ensures Memory(g, s, r, a) {
      var d := Hops(g.n, r, a.chunk);
      if a.loop > 0 { BaseMonotone(g.n, 0, a.loop); }
      if d == 1 { Own(g, r, a); }
    }
  }

  /** The last factor of Fold(a, Hops) is the rank's own contribution. */
  lemma Own<E>(g: Ring<E>, r: nat, a: Cell)
    requires Wellformed(g) && r < g.n && a.chunk < g.n
    ensures (a.chunk + Hops(g.n, r, a.chunk)) % g.n == r
    ensures Hops(g.n, r, a.chunk) == 1 ==> Fold(g, a, 1) == g.input(r, a)
  {
    ModSmall(a.chunk + Hops(g.n, r, a.chunk), g.n);
  }

  /** Once a message has consumed a receive, all of its elements are in place. */
  lemma LoggedMeansLanded<E>(g: Ring<E>, s: State<E>, r: nat, l: nat, k: nat, i: nat)
    requires Inv(g, s) && r < g.n && k < Steps(g.n) && |s[r].log| > Base(g.n, l) + k
    requires i < g.len(l, SendOwner(g.n, Prev(g.n, r), k))
    ensures Landed(g, s[Prev(g.n, r)], l, k, i)
  {
    var p := Prev(g.n, r);
    assert Control(g, s, p);
    if Time(g, s[p]) == Base(g.n, l) + k { Position(g.n, l, k, s[p].loop, s[p].step); }
  }

  /** Completed-step counts of neighbours differ by at most one. */
  lemma Adjacent<E>(g: Ring<E>, s: State<E>, r: nat)
    requires Inv(g, s) && r < g.n
    ensures Time(g, s[r]) - 1 <= Time(g, s[Next(g.n, r)]) <= Time(g, s[r]) + 1
    ensures s[r].acked == |s[Next(g.n, r)].log|
  {
    assert Control(g, s, r);
    assert Control(g, s, Next(g.n, r));
  }

  /** While a message is in flight its source elements do not change. */
  lemma SourceStable<E>(g: Ring<E>, s: State<E>, r: nat, i: nat)
    requires Inv(g, s) && r < g.n && InFlight(g, s[r]) && i < SendLength(g, r, s[r])
    ensures SendOwner(g.n, r, s[r].step) < g.n
    ensures s[r].work(Source(g, r, s[r], i)) == Fold(g, Source(g, r, s[r], i), Hop(g.n, s[r].step))
  {
    var m, n, p := s[r], g.n, Prev(g.n, r);
    var a := Source(g, r, m, i);
    var d := Hops(n, r, a.chunk);
    SendOwnerHops(n, r, m.step);
    assert Control(g, s, r);
    assert Memory(g, s, r, a);
    Adjacent(g, s, p);
    if m.step < n - 1 {
      // The all-gather write into this chunk comes n-2 steps later at the earliest; with two ranks
      // it can come next, but only after the present message was consumed.
      Adjacent(g, s, r);
      assert Control(g, s, p);
      assert !Landed(g, s[p], a.loop, n + d - 2, i);
      Own(g, r, a);
    } else if m.step >= n {
      SendOwnerHops(n, p, m.step - 1);
      HopsDetermine(n, r, p, a.chunk, SendOwner(n, p, m.step - 1), m.step);
      LoggedMeansLanded(g, s, r, m.loop, m.step - 1, i);
    }
  }

  lemma HopsDetermine(n: nat, r: nat, p: nat, c: nat, c': nat, k: nat)
    requires 2 <= n && r < n && p == Prev(n, r) && c < n && c' < n && n <= k < Steps(n)
    requires Hops(n, r, c) == k + 1 - n
    requires Hops(n, p, c') == if k - 1 < n then k else k - n
    ensures c == c'
  {
  }

  /** What the reduction of a reduce-scatter step reads. */
  lemma ReduceReads<E>(g: Ring<E>, s: State<E>, r: nat, i: nat)
    requires Inv(g, s) && r < g.n && s[r].phase == RecvDone && s[r].step < g.n - 1 && s[r].loop < g.loops
    requires i < g.len(s[r].loop, RecvOwner(g.n, r, s[r].step))
    ensures var a := Cell(s[r].loop, RecvOwner(g.n, r, s[r].step), i);
      && a.chunk < g.n && Hops(g.n, r, a.chunk) == s[r].step + 2
      && s[r].work(a) == g.input(r, a)
      && s[r].scratch(a) == Fold(g, a, s[r].step + 1)
      && g.f(s[r].work(a), s[r].scratch(a)) == Fold(g, a, s[r].step + 2)
  {
    var m, n, p := s[r], g.n, Prev(g.n, r);
    RecvOwnerHops(n, r, m.step);
    NeighboursAgreeOnChunk(n, p, m.step);
    var a := Cell(m.loop, RecvOwner(n, r, m.step), i);
    assert Control(g, s, r);
    assert Memory(g, s, r, a);
    Adjacent(g, s, p);
    LoggedMeansLanded(g, s, r, m.loop, m.step, i);
    Own(g, r, a);
  }

  // ---------------------------------------------------------------- preservation

  /** Steps that touch neither buffers, progress nor landed elements keep the memory invariant. */
  lemma MemoryFrame<E>(g: Ring<E>, s: State<E>, s': State<E>)
    requires Inv(g, s) && |s'| == g.n
    requires forall r | 0 <= r < g.n ::
      && s'[r].work == s[r].work && s'[r].scratch == s[r].scratch && s'[r].placed == s[r].placed
      && s'[r].loop == s[r].loop && s'[r].step == s[r].step
    ensures forall r, a | 0 <= r < g.n && Valid(g, a) :: Memory(g, s', r, a)
  {
    forall r, a | 0 <= r < g.n && Valid(g, a) ensures Memory(g, s', r, a) {
      assert Memory(g, s, r, a);
    }
  }

  predicate Posting(act: Action) { act.PostRecv? || act.PostSend? || act.WaitSend? || act.WaitRecv? || act.Fail? }

  lemma PostingKeepsControl<E>(g: Ring<E>, s: State<E>, act: Action, r: nat)
    requires Wellformed(g) && |s| == g.n && r < g.n && Posting(act) && Enabled(g, s, act)
    requires Control(g, s, r) && Control(g, s, Next(g.n, r))
    ensures Control(g, Apply(g, s, act), r)
  {
    hide Fold, SendOwner;
    var m := s[r];
    assert Apply(g, s, act)[Next(g.n, r)].log == s[Next(g.n, r)].log;
    if act.r == r {
      assert Time(g, Apply(g, s, act)[r]) == Time(g, m);
    }
  }

  lemma PostingKeepsMessages<E>(g: Ring<E>, s: State<E>, act: Action, r: nat)
    requires Wellformed(g) && |s| == g.n && r < g.n && Posting(act) && Enabled(g, s, act) && Messages(g, s, r)
    ensures Messages(g, Apply(g, s, act), r)
  {
    hide Fold, SendOwner;
  }

  lemma PostingKeepsInv<E>(g: Ring<E>, s: State<E>, act: Action)
    requires Inv(g, s) && Posting(act) && Enabled(g, s, act)
    ensures Inv(g, Apply(g, s, act))
  {
    var s' := Apply(g, s, act);
    MemoryFrame(g, s, s');
    hide Control, Messages, Memory, Apply, Enabled;
    forall r | 0 <= r < g.n ensures Control(g, s', r) { PostingKeepsControl(g, s, act, r); }
    forall r | 0 <= r < g.n ensures Messages(g, s', r) { PostingKeepsMessages(g, s, act, r); }
  }

  lemma FetchKeepsInv<E>(g: Ring<E>, s: State<E>, act: Action)
    requires Inv(g, s) && act.Fetch? && Enabled(g, s, act)
    ensures Inv(g, Apply(g, s, act))
  {
    var s' := Apply(g, s, act);
    MemoryFrame(g, s, s');
    SourceStable(g, s, act.r, act.i);
    forall r | 0 <= r < g.n ensures Control(g, s', r) && Messages(g, s', r) {
      assert Control(g, s, r) && Messages(g, s, r);
    }
  }

  lemma NotifyKeepsControl<E>(g: Ring<E>, s: State<E>, act: Action, r: nat)
    requires Wellformed(g) && |s| == g.n && r < g.n && act.Notify? && Enabled(g, s, act)
    requires Control(g, s, r) && Control(g, s, act.r) && Control(g, s, Next(g.n, act.r))
    ensures Control(g, Apply(g, s, act), r)
  {
    hide Fold, SendOwner;
    var s' := Apply(g, s, act);
    assert Time(g, s'[r]) == Time(g, s[r]);
    assert Next(g.n, r) == Next(g.n, act.r) <==> r == act.r;
  }

  lemma NotifyKeepsInv<E>(g: Ring<E>, s: State<E>, act: Action)
    requires Inv(g, s) && act.Notify? && Enabled(g, s, act)
    ensures Inv(g, Apply(g, s, act))
  {
    var s' := Apply(g, s, act);
    MemoryFrame(g, s, s');
    forall r | 0 <= r < g.n ensures Messages(g, s', r) {
      hide Fold, SendOwner, Control, Memory;
      assert Messages(g, s, r);
    }
    hide Control, Messages, Memory, Apply, Enabled;
    forall r | 0 <= r < g.n ensures Control(g, s', r) { NotifyKeepsControl(g, s, act, r); }
  }

  /** A placement lands exactly one element of the current message. */
  lemma PlaceLands<E>(g: Ring<E>, s: State<E>, act: Action, l: nat, k: nat, i: nat)
    requires Inv(g, s) && act.Place? && Enabled(g, s, act) && k < Steps(g.n)
    ensures Landed(g, Apply(g, s, act)[act.r], l, k, i)
        <==> Landed(g, s[act.r], l, k, i) || (l == s[act.r].loop && k == s[act.r].step && i == act.i)
  {
    Position(g.n, l, k, s[act.r].loop, s[act.r].step);
  }

  lemma PlaceKeepsMemory<E>(g: Ring<E>, s: State<E>, act: Action, r: nat, a: Cell)
    requires Inv(g, s) && act.Place? && Enabled(g, s, act) && r < g.n && Valid(g, a)
    ensures Memory(g, Apply(g, s, act), r, a)
  {
    var s' := Apply(g, s, act);
    if r == Next(g.n, act.r) {
      hide Fold, WorkHolds, ScratchHolds, Apply, Enabled;
      PlaceKeepsWork(g, s, act, a);
      PlaceKeepsScratch(g, s, act, a);
    } else {
      assert Memory(g, s, r, a);
      hide Fold, SendOwner, Control, Messages, Memory, Source;
      CellFrame(g, s, s', r, a);
    }
  }

  lemma CellFrame<E>(g: Ring<E>, s: State<E>, s': State<E>, r: nat, a: Cell)
    requires Wellformed(g) && |s| == |s'| == g.n && r < g.n && Valid(g, a) && Memory(g, s, r, a)
    requires s'[r].work == s[r].work && s'[r].scratch == s[r].scratch && Time(g, s'[r]) == Time(g, s[r])
    requires var p := Prev(g.n, r); Time(g, s'[p]) == Time(g, s[p]) && s'[p].placed == s[p].placed
    ensures Memory(g, s', r, a)
  {
  }

  /** In the all-gather the placed element is final: the whole fold. */
  lemma PlaceWritesFold<E>(g: Ring<E>, s: State<E>, act: Action)
    requires Inv(g, s) && act.Place? && Enabled(g, s, act) && s[act.r].step >= g.n - 1
    ensures var a := Source(g, act.r, s[act.r], act.i); var s' := Apply(g, s, act); var r := Next(g.n, act.r);
      a.chunk < g.n && s'[r].work(a) == Fold(g, a, g.n)
      && Landed(g, s'[act.r], a.loop, g.n + Hops(g.n, r, a.chunk) - 2, a.elem) && Hops(g.n, r, a.chunk) < g.n
  {
    var m := s[act.r];
    SendOwnerHops(g.n, act.r, m.step);
    assert Messages(g, s, act.r);
    hide Fold, Control, SendOwner, Memory;
  }

  /** Any other cell, and every cell in the reduce-scatter, is as it was, and nothing new landed in it. */
  lemma PlaceLeavesWork<E>(g: Ring<E>, s: State<E>, act: Action, a: Cell)
    requires Inv(g, s) && act.Place? && Enabled(g, s, act) && a.chunk < g.n
    requires s[act.r].step < g.n - 1 || a != Source(g, act.r, s[act.r], act.i)
    ensures var s' := Apply(g, s, act); var r := Next(g.n, act.r); var d := Hops(g.n, r, a.chunk);
      s'[r].work(a) == s[r].work(a)
      && (d < g.n ==>
          Landed(g, s'[act.r], a.loop, g.n + d - 2, a.elem)
          == Landed(g, s[act.r], a.loop, g.n + d - 2, a.elem))
  {
    var d := Hops(g.n, Next(g.n, act.r), a.chunk);
    SendOwnerHops(g.n, act.r, s[act.r].step);
    if d < g.n { PlaceLands(g, s, act, a.loop, g.n + d - 2, a.elem); }
    hide Fold, Control, SendOwner, Landed, Messages, Memory;
  }

  lemma PlaceKeepsWork<E>(g: Ring<E>, s: State<E>, act: Action, a: Cell)
    requires Inv(g, s) && act.Place? && Enabled(g, s, act) && Valid(g, a)
    ensures var s' := Apply(g, s, act); var r := Next(g.n, act.r);
      WorkHolds(g, s'[act.r], r, s'[r], a, s'[r].work(a))
  {
    var r, m := Next(g.n, act.r), s[act.r];
    assert Memory(g, s, r, a);
    assert Time(g, Apply(g, s, act)[r]) == Time(g, s[r]);
    hide Fold, Control, SendOwner, Landed, Messages;
    if m.step >= g.n - 1 && a == Source(g, act.r, m, act.i) {
      PlaceWritesFold(g, s, act);
    } else {
      PlaceLeavesWork(g, s, act, a);
    }
  }

  lemma PlaceKeepsScratch<E>(g: Ring<E>, s: State<E>, act: Action, a: Cell)
    requires Inv(g, s) && act.Place? && Enabled(g, s, act) && Valid(g, a)
    ensures var s' := Apply(g, s, act); var r := Next(g.n, act.r);
      ScratchHolds(g, s'[act.r], r, a, s'[r].scratch(a))
  {
    var r, m, n := Next(g.n, act.r), s[act.r], g.n;
    var d := Hops(n, r, a.chunk);
    assert Memory(g, s, r, a) && Messages(g, s, act.r);
    SendOwnerHops(n, act.r, m.step);
    if d >= 2 { PlaceLands(g, s, act, a.loop, d - 2, a.elem); }
    hide Fold, Control, SendOwner, Landed, Messages;
  }

  lemma PlaceKeepsControl<E>(g: Ring<E>, s: State<E>, act: Action, r: nat)
    requires Wellformed(g) && |s| == g.n && r < g.n && act.Place? && Enabled(g, s, act) && Control(g, s, r)
    ensures Control(g, Apply(g, s, act), r)
  {
    hide Fold, SendOwner, Source;
    var m, m' := s[r], Apply(g, s, act)[r];
    assert Time(g, m') == Time(g, m) && m'.log == m.log && m'.phase == m.phase && m'.fetched == m.fetched;
    assert Apply(g, s, act)[Next(g.n, r)].log == s[Next(g.n, r)].log;
    assert m'.placed == if r == act.r then m.placed + {act.i} else m.placed;
  }

  lemma PlaceKeepsMessages<E>(g: Ring<E>, s: State<E>, act: Action, r: nat)
    requires Wellformed(g) && |s| == g.n && r < g.n && act.Place? && Enabled(g, s, act) && Messages(g, s, r)
    ensures Messages(g, Apply(g, s, act), r)
  {
    hide Fold, SendOwner;
  }

  lemma PlaceKeepsInv<E>(g: Ring<E>, s: State<E>, act: Action)
    requires Inv(g, s) && act.Place? && Enabled(g, s, act)
    ensures Inv(g, Apply(g, s, act))
  {
    hide Control, Messages, Memory, Apply, Enabled;
    var s' := Apply(g, s, act);
    forall r, a | 0 <= r < g.n && Valid(g, a) ensures Memory(g, s', r, a) {
      PlaceKeepsMemory(g, s, act, r, a);
    }
    forall r | 0 <= r < g.n ensures Control(g, s', r) { PlaceKeepsControl(g, s, act, r); }
    forall r | 0 <= r < g.n ensures Messages(g, s', r) { PlaceKeepsMessages(g, s, act, r); }
  }

  /** Completing a step counts the whole message of that step as landed. */
  lemma FinishKeepsLanded<E>(g: Ring<E>, s: State<E>, act: Action, l: nat, k: nat, i: nat)
    requires Inv(g, s) && act.Finish? && Enabled(g, s, act) && k < Steps(g.n)
    requires i < g.len(l, SendOwner(g.n, act.r, k))
    ensures Landed(g, Apply(g, s, act)[act.r], l, k, i) == Landed(g, s[act.r], l, k, i)
  {
    assert Control(g, s, act.r);
    Position(g.n, l, k, s[act.r].loop, s[act.r].step);
  }

  lemma AdvanceTime<E>(g: Ring<E>, r: nat, m: Rank<E>, ok: bool)
    requires Wellformed(g) && r < g.n && m.step < Steps(g.n)
    ensures Time(g, Advance(g, r, m, ok)) == Time(g, m) + 1
  {
  }

  /** The successor of the finishing rank sees the same elements landed as before. */
  lemma FinishKeepsSuccessor<E>(g: Ring<E>, s: State<E>, act: Action, a: Cell)
    requires Inv(g, s) && act.Finish? && Enabled(g, s, act) && Valid(g, a)
    ensures Memory(g, Apply(g, s, act), Next(g.n, act.r), a)
  {
    var n, r := g.n, Next(g.n, act.r);
    var d := Hops(n, r, a.chunk);
    assert Memory(g, s, r, a);
    hide Fold, Control, Messages, Landed, SendOwner;
    if d >= 2 { FinishKeepsCell(g, s, act, a, d - 2); }
    if d < n { FinishKeepsCell(g, s, act, a, n + d - 2); }
    assert Apply(g, s, act)[r] == s[r] && Prev(n, r) == act.r;
  }

  lemma FinishKeepsCell<E>(g: Ring<E>, s: State<E>, act: Action, a: Cell, k: nat)
    requires Inv(g, s) && act.Finish? && Enabled(g, s, act) && Valid(g, a) && k < Steps(g.n)
    requires Hops(g.n, Next(g.n, act.r), a.chunk) == if k + 2 <= g.n then k + 2 else k + 2 - g.n
    ensures Landed(g, Apply(g, s, act)[act.r], a.loop, k, a.elem) == Landed(g, s[act.r], a.loop, k, a.elem)
  {
    SendOwnerHops(g.n, act.r, k);
    SameChunk(g.n, act.r, a.chunk, SendOwner(g.n, act.r, k));
    FinishKeepsLanded(g, s, act, a.loop, k, a.elem);
  }

  /** Hops determine the chunk. */
  lemma SameChunk(n: nat, r: nat, c: nat, c': nat)
    requires r < n && c < n && c' < n
    ensures Hops(n, r, c) == Hops(n, r, c') ==> c == c'
  {
  }

  /** The finishing rank itself: only the reduced chunk changes, and it gains one factor. */
  lemma FinishKeepsOwn<E>(g: Ring<E>, s: State<E>, act: Action, a: Cell)
    requires Inv(g, s) && act.Finish? && Enabled(g, s, act) && Valid(g, a)
    ensures Memory(g, Apply(g, s, act), act.r, a)
  {
    var r, m, n := act.r, s[act.r], g.n;
    if m.step < n - 1 && a.loop == m.loop && a.chunk == RecvOwner(n, r, m.step) {
      FinishReduces(g, s, act, a);
    } else {
      FinishLeaves(g, s, act, a);
    }
  }

  lemma FinishReduces<E>(g: Ring<E>, s: State<E>, act: Action, a: Cell)
    requires Inv(g, s) && act.Finish? && Enabled(g, s, act) && Valid(g, a)
    requires s[act.r].step < g.n - 1 && a.loop == s[act.r].loop && a.chunk == RecvOwner(g.n, act.r, s[act.r].step)
    ensures Memory(g, Apply(g, s, act), act.r, a)
  {
    var r, m, n := act.r, s[act.r], g.n;
    assert Memory(g, s, r, a) && Control(g, s, r);
    AdvanceTime(g, r, m, act.ok);
    ReduceReads(g, s, r, a.elem);
    Adjacent(g, s, Prev(n, r));
    hide Fold, Control, Messages, SendOwner, RecvOwner;
  }

  lemma FinishLeaves<E>(g: Ring<E>, s: State<E>, act: Action, a: Cell)
    requires Inv(g, s) && act.Finish? && Enabled(g, s, act) && Valid(g, a)
    requires s[act.r].step >= g.n - 1 || a.loop != s[act.r].loop || a.chunk != RecvOwner(g.n, act.r, s[act.r].step)
    ensures Memory(g, Apply(g, s, act), act.r, a)
  {
    var r, m, n := act.r, s[act.r], g.n;
    var d := Hops(n, r, a.chunk);
    assert Memory(g, s, r, a);
    AdvanceTime(g, r, m, act.ok);
    if d == 1 { Own(g, r, a); }
    hide Fold, Control, Messages, SendOwner;
    if m.step < n - 1 {
      RecvOwnerHops(n, r, m.step);
      SameChunk(n, r, a.chunk, RecvOwner(n, r, m.step));
    }
    if d >= 2 { Position(n, a.loop, d - 2, m.loop, m.step); }
  }

  lemma FinishKeepsMemory<E>(g: Ring<E>, s: State<E>, act: Action, r: nat, a: Cell)
    requires Inv(g, s) && act.Finish? && Enabled(g, s, act) && r < g.n && Valid(g, a)
    ensures Memory(g, Apply(g, s, act), r, a)
  {
    assert Memory(g, s, r, a);
    if r == Next(g.n, act.r) {
      FinishKeepsSuccessor(g, s, act, a);
    } else if r == act.r {
      FinishKeepsOwn(g, s, act, a);
    }
  }

  lemma FinishKeepsInv<E>(g: Ring<E>, s: State<E>, act: Action)
    requires Inv(g, s) && act.Finish? && Enabled(g, s, act)
    ensures Inv(g, Apply(g, s, act))
  {
    var s' := Apply(g, s, act);
    forall r, a | 0 <= r < g.n && Valid(g, a) ensures Memory(g, s', r, a) {
      FinishKeepsMemory(g, s, act, r, a);
    }
    AdvanceTime(g, act.r, s[act.r], act.ok);
    forall r | 0 <= r < g.n ensures Control(g, s', r) && Messages(g, s', r) {
      assert Control(g, s, r) && Messages(g, s, r);
    }
  }

  lemma StepKeepsInv<E>(g: Ring<E>, s: State<E>, act: Action)
    requires Inv(g, s) && Enabled(g, s, act)
    ensures Inv(g, Apply(g, s, act))
  {
    match act
    case Fetch(_, _) => FetchKeepsInv(g, s, act);
    case Place(_, _) => PlaceKeepsInv(g, s, act);
    case Notify(_) => NotifyKeepsInv(g, s, act);
    case Finish(_, _) => FinishKeepsInv(g, s, act);
    case _ => PostingKeepsInv(g, s, act);
  }

  lemma {:induction false} RunKeepsInv<E>(g: Ring<E>, states: seq<State<E>>, acts: seq<Action>, j: nat)
    requires Run(g, states, acts) && j < |states|
    ensures Inv(g, states[j])
  {
    if j == 0 {
      InitInv(g, states[0]);
    } else {
      RunKeepsInv(g, states, acts, j - 1);
      StepKeepsInv(g, states[j - 1], acts[j - 1]);
    }
  }
}

/** Reusing memory from call to call is invisible: real memory holds what rings with memory of their own hold. */
module CollectivesProof {
  import opened Arithmetic
  import opened Ring
  import opened RingProof
  import opened RingTheorems
  import opened Collectives

  // ---------------------------------------------------------------- calls and iterations

  lemma {:induction false} FirstMonotone<E>(g: Group<E>, ch: nat, k: nat, k': nat)
    requires Sound(g) && ch < |g.rings| && k <= k' <= g.calls
    ensures g.first(ch, k) <= g.first(ch, k')
  {
    if k < k' {
      FirstMonotone(g, ch, k, k' - 1);
      assert g.first(ch, k' - 1) <= g.first(ch, k' - 1 + 1);
    }
  }

  lemma OneCall<E>(g: Group<E>, ch: nat, l: nat, k: nat, k': nat)
    requires Sound(g) && ch < |g.rings| && InCall(g, ch, l, k) && InCall(g, ch, l, k')
    ensures k == k'
  {
    if k < k' { FirstMonotone(g, ch, k + 1, k'); }
    if k' < k { FirstMonotone(g, ch, k' + 1, k); }
  }

  /** A rank in the middle of an iteration works on its last call. */
  lemma Busy<E>(g: Group<E>, s: System<E>, ch: nat, r: nat)
    requires Sound(g) && Shaped(g, s) && ch < |g.rings| && r < g.n && Gate(g, s, ch, r)
    requires s.channels[ch][r].step > 0 || s.channels[ch][r].phase != Ready
    ensures 0 < s.hosts[r].started && InCall(g, ch, s.channels[ch][r].loop, s.hosts[r].started - 1)
  {
  }

  // ---------------------------------------------------------------- neighbours are in the same call when it matters

  /** The receiver of an all-gather message in flight is in the same iteration, and so in the same call. */
  lemma GatherSameCall<E>(g: Group<E>, s: System<E>, ch: nat, p: nat)
    requires Sound(g) && Shaped(g, s) && Controlled(g, s) && ch < |g.rings| && p < g.n
    requires InFlight(g.rings[ch], s.channels[ch][p]) && g.n - 1 <= s.channels[ch][p].step
    ensures var q := Next(g.n, p);
      && s.channels[ch][q].loop == s.channels[ch][p].loop
      && s.hosts[q].started == s.hosts[p].started > 0
      && InCall(g, ch, s.channels[ch][p].loop, s.hosts[p].started - 1)
  {
    var q, c := Next(g.n, p), s.channels[ch];
    assert Control(g.rings[ch], c, p) && Control(g.rings[ch], c, q);
    assert Gate(g, s, ch, p) && Gate(g, s, ch, q);
    if c[q].loop < c[p].loop { BaseMonotone(g.n, c[q].loop, c[p].loop); }
    if c[p].loop < c[q].loop { BaseMonotone(g.n, c[p].loop, c[q].loop); }
    Busy(g, s, ch, p);
    Busy(g, s, ch, q);
    OneCall(g, ch, c[p].loop, s.hosts[p].started - 1, s.hosts[q].started - 1);
  }

  /** The sender of a chunk that is about to be reduced has not left the iteration. */
  lemma ReduceSameCall<E>(g: Group<E>, s: System<E>, ch: nat, r: nat)
    requires Sound(g) && Shaped(g, s) && Controlled(g, s) && ch < |g.rings| && r < g.n
    requires s.channels[ch][r].phase == RecvDone && s.channels[ch][r].step < g.n - 1
    ensures var p, m := Prev(g.n, r), s.channels[ch][r];
      && 0 < s.hosts[p].started && InCall(g, ch, m.loop, s.hosts[p].started - 1)
      && 0 < s.hosts[r].started && InCall(g, ch, m.loop, s.hosts[r].started - 1)
  {
    var p, c := Prev(g.n, r), s.channels[ch];
    assert Control(g.rings[ch], c, p) && Control(g.rings[ch], c, r);
    assert Gate(g, s, ch, p) && Gate(g, s, ch, r);
    if c[r].loop < c[p].loop { BaseMonotone(g.n, c[r].loop, c[p].loop); }
    if c[p].loop < c[r].loop { BaseMonotone(g.n, c[p].loop, c[r].loop); }
    Busy(g, s, ch, p);
    Busy(g, s, ch, r);
  }

  // ---------------------------------------------------------------- starting a call

  /** Before an iteration begins, the ring still holds the rank's own input of it. */
  lemma UntouchedInput<E>(ring: Ring<E>, c: State<E>, r: nat, a: Cell)
    requires Inv(ring, c) && r < ring.n && Valid(ring, a)
    requires c[r].step == 0 && c[r].phase == Ready && c[r].loop <= a.loop
    ensures c[r].work(a) == ring.input(r, a)
  {
    var p, d := Prev(ring.n, r), Hops(ring.n, r, a.chunk);
    assert Control(ring, c, p) && Control(ring, c, r);
    assert Memory(ring, c, r, a);
    if c[r].loop < a.loop { BaseMonotone(ring.n, c[r].loop, a.loop); }
    Own(ring, r, a);
  }

  lemma NothingLanded<E>(ring: Ring<E>, c: State<E>, p: nat, l: nat, k: nat, i: nat)
    requires Inv(ring, c) && p < ring.n && c[p].step == 0 && c[p].phase == Ready && c[p].loop <= l
    ensures !Landed(ring, c[p], l, k, i)
  {
    assert Control(ring, c, p);
    if c[p].loop < l { BaseMonotone(ring.n, c[p].loop, l); }
  }

  lemma StartKeepsConsistent<E>(g: Group<E>, s: System<E>, act: Act, s': System<E>)
    requires Consistent(g, s) && act.Start? && Step(g, s, act, s')
    ensures Consistent(g, s')
  {
    var r := act.r;
    forall ch, q | 0 <= ch < |g.rings| && 0 <= q < g.n ensures Gate(g, s', ch, q) {
      assert Gate(g, s, ch, q) && Gate(g, s, ch, r);
      assert g.first(ch, s.hosts[r].started) <= g.first(ch, s.hosts[r].started + 1);
    }
    forall ch, q, a | 0 <= ch < |g.rings| && 0 <= q < g.n && Valid(g.rings[ch], a)
      ensures WorkAgrees(g, s', ch, q, a) && ScratchAgrees(g, s', ch, q, a)
    {
      StartKeepsCell(g, s, act, s', ch, q, a);
    }
  }

  lemma StartKeepsCell<E>(g: Group<E>, s: System<E>, act: Act, s': System<E>, ch: nat, q: nat, a: Cell)
    requires Consistent(g, s) && act.Start? && Step(g, s, act, s')
    requires ch < |g.rings| && q < g.n && Valid(g.rings[ch], a)
    ensures WorkAgrees(g, s', ch, q, a) && ScratchAgrees(g, s', ch, q, a)
  {
    var r := act.r;
    assert WorkAgrees(g, s, ch, q, a) && ScratchAgrees(g, s, ch, q, a);
    assert Inv(g.rings[ch], s.channels[ch]) && Gate(g, s, ch, r);
    if InCall(g, ch, a.loop, s.hosts[r].started) {
      UntouchedInput(g.rings[ch], s.channels[ch], r, a);
      var d := Hops(g.n, q, a.chunk);
      if 2 <= d { NothingLanded(g.rings[ch], s.channels[ch], r, a.loop, d - 2, a.elem); }
    }
  }

  // ---------------------------------------------------------------- micro-steps

  lemma MicroKeepsControlled<E>(g: Group<E>, s: System<E>, act: Act, s': System<E>)
    requires Consistent(g, s) && act.Micro? && Step(g, s, act, s')
    ensures Controlled(g, s')
  {
    hide Inv, Apply, Enabled, Agrees, Moves, Gate;
    var ch, micro := act.ch, act.act;
    assert Inv(g.rings[ch], s.channels[ch]);
    RingProof.StepKeepsInv(g.rings[ch], s.channels[ch], micro);
    forall c, r | 0 <= c < |g.rings| && 0 <= r < g.n
      ensures s'.hosts[r].started == s.hosts[r].started && (c != ch ==> s'.hosts[r].held[c] == s.hosts[r].held[c])
    {
      OthersKeep(g, s, act, s', c, r);
    }
    forall c, r | 0 <= c < |g.rings| && 0 <= r < g.n ensures Gate(g, s', c, r) {
      assert Gate(g, s, c, r);
      if c == ch { MicroKeepsGate(g, s, act, s', r); } else { SameGate(g, s, s', c, r); }
    }
    forall c, r | 0 <= c < |g.rings| && 0 <= r < g.n ensures s'.hosts[r].held[c] == s'.channels[c][r].fetched {
      assert s.hosts[r].held[c] == s.channels[c][r].fetched;
      if c == ch { MicroKeepsHeld(g, s, act, s', r); }
    }
  }

  /** A micro-step starts no call and leaves what the cards hold for other channels. */
  lemma OthersKeep<E>(g: Group<E>, s: System<E>, act: Act, s': System<E>, c: nat, r: nat)
    requires Sound(g) && Shaped(g, s) && act.Micro? && Step(g, s, act, s') && c < |g.rings| && r < g.n
    ensures s'.hosts[r].started == s.hosts[r].started
    ensures c != act.ch ==> s'.hosts[r].held[c] == s.hosts[r].held[c]
  {
    hide Sound, Stored, Reduced, Idle, Apply;
  }

  lemma SameGate<E>(g: Group<E>, s: System<E>, s': System<E>, c: nat, r: nat)
    requires Shaped(g, s) && Shaped(g, s') && c < |g.rings| && r < g.n && Gate(g, s, c, r)
    requires s'.hosts[r].started == s.hosts[r].started && s'.channels[c] == s.channels[c]
    ensures Gate(g, s', c, r)
  {
  }

  lemma MicroKeepsGate<E>(g: Group<E>, s: System<E>, act: Act, s': System<E>, r: nat)
    requires Consistent(g, s) && act.Micro? && Step(g, s, act, s') && r < g.n
    ensures Gate(g, s', act.ch, r)
  {
    assert Gate(g, s, act.ch, r);
    hide Sound, Controlled, Agrees, Moves, Apply;
    MicroPosition(g.rings[act.ch], s.channels[act.ch], act.act, r);
    OthersKeep(g, s, act, s', act.ch, r);
  }

  /** Only a posted receive leaves the start of a step, and only the end of a step moves on. */
  lemma MicroPosition<E>(ring: Ring<E>, c: State<E>, act: Action, r: nat)
    requires Wellformed(ring) && |c| == ring.n && Enabled(ring, c, act) && r < ring.n
    ensures var m, m' := c[r], Apply(ring, c, act)[r];
      if act.r == r && act.Finish? then
        m.phase == RecvDone && m'.phase == Ready && (m'.loop == m.loop || (m'.loop == m.loop + 1 && m'.step == 0))
      else
        && m'.loop == m.loop && m'.step == m.step
        && (m.phase == Ready && m'.phase != Ready ==> act.r == r && act.PostRecv?)
  {
    hide Fold, SendOwner, RecvOwner, Source, Reduce;
  }

  lemma MicroKeepsHeld<E>(g: Group<E>, s: System<E>, act: Act, s': System<E>, r: nat)
    requires Consistent(g, s) && act.Micro? && Step(g, s, act, s') && r < g.n
    ensures s'.hosts[r].held[act.ch] == s'.channels[act.ch][r].fetched
  {
    assert s.hosts[r].held[act.ch] == s.channels[act.ch][r].fetched;
    if act.act.Fetch? && act.act.r == r {
      CardReadsRight(g, s, act.ch, r, act.act.i);
    }
    hide Fold, SendOwner, RecvOwner, Controlled, Agrees, Stored, Reduced;
  }

  /** The card of r reads, at the source's address, the source's element. */
  lemma CardReadsRight<E>(g: Group<E>, s: System<E>, ch: nat, r: nat, i: nat)
    requires Consistent(g, s) && ch < |g.rings| && r < g.n && InFlight(g.rings[ch], s.channels[ch][r])
    requires i < SendLength(g.rings[ch], r, s.channels[ch][r])
    ensures var a := Source(g.rings[ch], r, s.channels[ch][r], i);
      s.hosts[r].work(g.at(ch, a)) == s.channels[ch][r].work(a)
  {
    var a := Source(g.rings[ch], r, s.channels[ch][r], i);
    assert Gate(g, s, ch, r);
    Busy(g, s, ch, r);
    SendOwnerHops(g.n, r, s.channels[ch][r].step);
    assert WorkAgrees(g, s, ch, r, a);
  }

  predicate SameProgress<E>(g: Group<E>, s: System<E>, s': System<E>, c: nat, q: nat)
    requires |s.channels| == |s'.channels| && |s.hosts| == |s'.hosts|
    requires c < |s.channels| && q < |s.hosts| && q < |s.channels[c]| && q < |s'.channels[c]|
  {
    && s'.hosts[q].started == s.hosts[q].started
    && s'.channels[c][q].loop == s.channels[c][q].loop && s'.channels[c][q].step == s.channels[c][q].step
    && s'.channels[c][q].placed == s.channels[c][q].placed
  }

  /** Steps that change neither landed elements nor buffers keep what a cell holds. */
  lemma WorkFrame<E>(g: Group<E>, s: System<E>, s': System<E>, c: nat, q: nat, a: Cell)
    requires Sound(g) && Shaped(g, s) && Shaped(g, s') && c < |g.rings| && q < g.n && a.chunk < g.n
    requires WorkAgrees(g, s, c, q, a) && s'.hosts[q].started == s.hosts[q].started
    requires s'.hosts[q].work == s.hosts[q].work && s'.channels[c][q].work == s.channels[c][q].work
    ensures WorkAgrees(g, s', c, q, a)
  {
  }

  lemma ScratchFrame<E>(g: Group<E>, s: System<E>, s': System<E>, c: nat, q: nat, a: Cell)
    requires Sound(g) && Shaped(g, s) && Shaped(g, s') && c < |g.rings| && q < g.n && a.chunk < g.n
    requires ScratchAgrees(g, s, c, q, a) && SameProgress(g, s, s', c, Prev(g.n, q))
    requires s'.hosts[q].scratch == s.hosts[q].scratch && s'.channels[c][q].scratch == s.channels[c][q].scratch
    ensures ScratchAgrees(g, s', c, q, a)
  {
  }

  predicate Quiet(act: Action) { !act.Place? && !act.Finish? }

  /** Micro-steps that neither place nor finish leave both memories and all landed elements alone. */
  lemma QuietFrame<E>(g: Group<E>, s: System<E>, act: Act, s': System<E>, c: nat, q: nat)
    requires Sound(g) && Shaped(g, s) && act.Micro? && Step(g, s, act, s') && Quiet(act.act)
    requires c < |g.rings| && q < g.n
    ensures SameProgress(g, s, s', c, q)
    ensures s'.hosts[q].work == s.hosts[q].work && s'.channels[c][q].work == s.channels[c][q].work
    ensures s'.hosts[q].scratch == s.hosts[q].scratch && s'.channels[c][q].scratch == s.channels[c][q].scratch
  {
    hide Fold, Sound, SendOwner, Idle;
  }

  lemma QuietKeepsCell<E>(g: Group<E>, s: System<E>, act: Act, s': System<E>, c: nat, q: nat, a: Cell)
    requires Consistent(g, s) && act.Micro? && Step(g, s, act, s') && Quiet(act.act)
    requires c < |g.rings| && q < g.n && Valid(g.rings[c], a)
    ensures WorkAgrees(g, s', c, q, a) && ScratchAgrees(g, s', c, q, a)
  {
    assert WorkAgrees(g, s, c, q, a) && ScratchAgrees(g, s, c, q, a);
    hide Controlled, Agrees, Moves, CanStep, Step, WorkAgrees, ScratchAgrees, SameProgress, Apply;
    QuietFrame(g, s, act, s', c, q);
    QuietFrame(g, s, act, s', c, Prev(g.n, q));
    WorkFrame(g, s, s', c, q, a);
    ScratchFrame(g, s, s', c, q, a);
  }

  lemma PlaceKeepsCellWork<E>(g: Group<E>, s: System<E>, act: Act, s': System<E>, c: nat, a: Cell)
    requires Consistent(g, s) && act.Micro? && Step(g, s, act, s') && act.act.Place?
    requires c < |g.rings| && Valid(g.rings[c], a)
    ensures WorkAgrees(g, s', c, Next(g.n, act.act.r), a)
  {
    var ch, r := act.ch, act.act.r;
    var m, q, i := s.channels[ch][r], Next(g.n, r), act.act.i;
    var x := Source(g.rings[ch], r, m, i);
    assert WorkAgrees(g, s, c, q, a);
    assert s.hosts[r].held[ch] == m.fetched;
    if g.n - 1 <= m.step && 0 < s.hosts[q].started && InCall(g, c, a.loop, s.hosts[q].started - 1) {
      GatherSameCall(g, s, ch, r);
      PlacedCell(g, s, ch, r, i);
      assert SameCall(g, ch, x, c, a, s.hosts[q].started - 1);
    }
    hide Fold, SendOwner, Controlled, Agrees, InCall, Inv;
  }

  /** The element the card writes is a cell of the call. */
  lemma PlacedCell<E>(g: Group<E>, s: System<E>, ch: nat, r: nat, i: nat)
    requires Sound(g) && Shaped(g, s) && Controlled(g, s) && ch < |g.rings| && r < g.n
    requires InFlight(g.rings[ch], s.channels[ch][r]) && i in s.channels[ch][r].fetched
    ensures var x := Source(g.rings[ch], r, s.channels[ch][r], i);
      Valid(g.rings[ch], x) && 0 < s.hosts[r].started && InCall(g, ch, x.loop, s.hosts[r].started - 1)
  {
    assert Control(g.rings[ch], s.channels[ch], r) && Gate(g, s, ch, r);
    SendOwnerHops(g.n, r, s.channels[ch][r].step);
    Busy(g, s, ch, r);
  }

  lemma PlaceKeepsCellScratch<E>(g: Group<E>, s: System<E>, act: Act, s': System<E>, c: nat, a: Cell)
    requires Consistent(g, s) && act.Micro? && Step(g, s, act, s') && act.act.Place?
    requires c < |g.rings| && Valid(g.rings[c], a)
    ensures ScratchAgrees(g, s', c, Next(g.n, act.act.r), a)
  {
    var ch, r, i := act.ch, act.act.r, act.act.i;
    assert s.hosts[r].held[ch] == s.channels[ch][r].fetched;
    PlacedCell(g, s, ch, r, i);
    PlaceStoresScratch(g, s, act, s', c);
    if c == ch && 2 <= Hops(g.n, Next(g.n, r), a.chunk) { PlaceLandsOnly(g, s, act, a); }
    assert ScratchAgrees(g, s, c, Next(g.n, r), a);
    hide Controlled, Agrees, Inv, Landed, Hops, Moves, CanStep, Apply, Stored, ScratchAgrees, InCall, Source;
    StoredAgrees(g, s, s', ch, r, i, c, a);
  }

  /** If only cell x lands, with the same value in real memory and in the ring, they agree afterwards. */
  lemma StoredAgrees<E>(g: Group<E>, s: System<E>, s': System<E>, ch: nat, r: nat, i: nat, c: nat, a: Cell)
    requires Sound(g) && Shaped(g, s) && Shaped(g, s') && ch < |g.rings| && c < |g.rings| && r < g.n
    requires Valid(g.rings[c], a) && ScratchAgrees(g, s, c, Next(g.n, r), a)
    requires s.channels[ch][r].step < Steps(g.n) && s'.hosts[r].started == s.hosts[r].started > 0
    requires var x := Source(g.rings[ch], r, s.channels[ch][r], i);
      Valid(g.rings[ch], x) && InCall(g, ch, x.loop, s.hosts[r].started - 1)
    requires i in s.channels[ch][r].fetched && s.hosts[r].held[ch] == s.channels[ch][r].fetched
    requires c != ch ==> s'.channels[c] == s.channels[c]
    requires StoresScratch(g, s, s', ch, r, i)
    requires c == ch && 2 <= Hops(g.n, Next(g.n, r), a.chunk) ==>
      LandsOnly(g, s, s'.channels[ch][r], ch, r, i, a, Hops(g.n, Next(g.n, r), a.chunk) - 2)
    ensures ScratchAgrees(g, s', c, Next(g.n, r), a)
  {
    hide Source, InCall, Hops, Landed, Fold, SendOwner, Steps, SameCall;
    var q, x := Next(g.n, r), Source(g.rings[ch], r, s.channels[ch][r], i);
    hide Sound;
    if InCall(g, c, a.loop, s.hosts[r].started - 1) && (c != ch || a != x) {
      Disjoint(g, ch, x, c, a, s.hosts[r].started - 1);
    }
  }

  /** What a placement does to the scratch buffer of the next rank, in real memory and in the ring. */
  ghost predicate StoresScratch<E>(g: Group<E>, s: System<E>, s': System<E>, ch: nat, r: nat, i: nat)
    requires Sound(g) && Shaped(g, s) && Shaped(g, s') && ch < |g.rings| && r < g.n
    requires s.channels[ch][r].step < Steps(g.n)
    requires i in s.channels[ch][r].fetched && s.hosts[r].held[ch] == s.channels[ch][r].fetched
  {
    var m, q := s.channels[ch][r], Next(g.n, r);
    var x := Source(g.rings[ch], r, m, i);
    var was, now := s.hosts[q].scratch, s'.hosts[q].scratch;
    if m.step < g.n - 1 then
      && s'.channels[ch][q].scratch == Write(s.channels[ch][q].scratch, x, m.fetched[i])
      && Stored(was, now, g.at(ch, x), s.hosts[r].held[ch][i])
    else
      s'.channels[ch][q].scratch == s.channels[ch][q].scratch && now == was
  }

  ghost predicate LandsOnly<E>(g: Group<E>, s: System<E>, m': Rank<E>, ch: nat, r: nat, i: nat, a: Cell, k: int)
    requires Sound(g) && Shaped(g, s) && ch < |g.rings| && r < g.n && s.channels[ch][r].step < Steps(g.n)
  {
    var ring, m := g.rings[ch], s.channels[ch][r];
    Landed(ring, m', a.loop, k, a.elem)
    ==> Landed(ring, m, a.loop, k, a.elem) || (m.step < g.n - 1 && a == Source(ring, r, m, i))
  }

  lemma PlaceStoresScratch<E>(g: Group<E>, s: System<E>, act: Act, s': System<E>, c: nat)
    requires Sound(g) && Shaped(g, s) && act.Micro? && Step(g, s, act, s') && act.act.Place? && c < |g.rings|
    requires s.channels[act.ch][act.act.r].fetched == s.hosts[act.act.r].held[act.ch]
    ensures StoresScratch(g, s, s', act.ch, act.act.r, act.act.i)
    ensures s'.hosts[act.act.r].started == s.hosts[act.act.r].started
    ensures c != act.ch ==> s'.channels[c] == s.channels[c]
  {
    hide Fold, Sound, SendOwner, Idle, Stored;
  }

  lemma Disjoint<E>(g: Group<E>, ch: nat, a: Cell, ch': nat, a': Cell, k: nat)
    requires Sound(g) && (ch != ch' || a != a')
    requires ch < |g.rings| && Valid(g.rings[ch], a) && InCall(g, ch, a.loop, k)
    requires ch' < |g.rings| && Valid(g.rings[ch'], a') && InCall(g, ch', a'.loop, k)
    ensures Apart(g.at(ch, a), g.at(ch', a'))
  {
    assert SameCall(g, ch, a, ch', a', k);
  }

  /** In a reduce-scatter step nothing but the placed element lands, and in an all-gather step nothing in scratch. */
  lemma PlaceLandsOnly<E>(g: Group<E>, s: System<E>, act: Act, a: Cell)
    requires Consistent(g, s) && act.Micro? && CanStep(g, s, act) && act.act.Place?
    requires Valid(g.rings[act.ch], a) && 2 <= Hops(g.n, Next(g.n, act.act.r), a.chunk)
    ensures var r, c' := act.act.r, Apply(g.rings[act.ch], s.channels[act.ch], act.act);
      LandsOnly(g, s, c'[r], act.ch, r, act.act.i, a, Hops(g.n, Next(g.n, r), a.chunk) - 2)
  {
    var ring, c, r := g.rings[act.ch], s.channels[act.ch], act.act.r;
    var d := Hops(g.n, Next(g.n, r), a.chunk);
    PlaceLands(ring, c, act.act, a.loop, d - 2, a.elem);
    SendOwnerHops(g.n, r, c[r].step);
    if d - 2 == c[r].step { SameChunk(g.n, Next(g.n, r), a.chunk, SendOwner(g.n, r, c[r].step)); }
  }

  lemma PlaceKeepsCell<E>(g: Group<E>, s: System<E>, act: Act, s': System<E>, c: nat, q: nat, a: Cell)
    requires Consistent(g, s) && act.Micro? && Step(g, s, act, s') && act.act.Place?
    requires c < |g.rings| && q < g.n && Valid(g.rings[c], a)
    ensures WorkAgrees(g, s', c, q, a) && ScratchAgrees(g, s', c, q, a)
  {
    assert act.act.r < g.n;
    hide Controlled, Moves, CanStep, Step, WorkAgrees, ScratchAgrees, SameProgress, Apply;
    if q == Next(g.n, act.act.r) {
      PlaceKeepsCellWork(g, s, act, s', c, a);
      PlaceKeepsCellScratch(g, s, act, s', c, a);
    } else {
      PlaceFrame(g, s, act, s', c, q);
      WorkFrame(g, s, s', c, q, a);
      ScratchFrame(g, s, s', c, q, a);
    }
  }

  /** A placement by r is seen by the next rank alone. */
  lemma PlaceFrame<E>(g: Group<E>, s: System<E>, act: Act, s': System<E>, c: nat, q: nat)
    requires Sound(g) && Shaped(g, s) && act.Micro? && Step(g, s, act, s') && act.act.Place?
    requires c < |g.rings| && q < g.n && q != Next(g.n, act.act.r)
    ensures Shaped(g, s') && SameProgress(g, s, s', c, Prev(g.n, q)) && s'.hosts[q].started == s.hosts[q].started
    ensures s'.hosts[q].work == s.hosts[q].work && s'.channels[c][q].work == s.channels[c][q].work
    ensures s'.hosts[q].scratch == s.hosts[q].scratch && s'.channels[c][q].scratch == s.channels[c][q].scratch
  {
    hide Fold, Sound, SendOwner, Idle, Stored;
  }

  /** The reduction computes from real memory what it computes from the ring's. */
  lemma FinishKeepsReduced<E>(g: Group<E>, s: System<E>, act: Act, s': System<E>, a: Cell)
    requires Consistent(g, s) && act.Micro? && Step(g, s, act, s') && act.act.Finish?
    requires Valid(g.rings[act.ch], a)
    requires var m := s.channels[act.ch][act.act.r];
      m.step < g.n - 1 && a.loop == m.loop && a.chunk == RecvOwner(g.n, act.act.r, m.step)
    ensures s'.hosts[act.act.r].work(g.at(act.ch, a)) == s'.channels[act.ch][act.act.r].work(a)
  {
    var ch, r := act.ch, act.act.r;
    var m, p, ring := s.channels[ch][r], Prev(g.n, r), g.rings[ch];
    ReduceSameCall(g, s, ch, r);
    RecvOwnerHops(g.n, r, m.step);
    NeighboursAgreeOnChunk(g.n, p, m.step);
    assert WorkAgrees(g, s, ch, r, a) && ScratchAgrees(g, s, ch, r, a);
    assert Control(ring, s.channels[ch], r);
    LoggedMeansLanded(ring, s.channels[ch], r, m.loop, m.step, a.elem);
    hide Fold, SendOwner, Controlled, Agrees, InCall, Inv, Hops, Landed, Control;
  }

  /** Only the reduced chunk changes. */
  lemma FinishLeavesRing<E>(ring: Ring<E>, c: State<E>, act: Action, q: nat, a: Cell)
    requires Wellformed(ring) && |c| == ring.n && Enabled(ring, c, act) && act.Finish? && q < ring.n
    requires var m := c[act.r];
      q != act.r || m.step >= ring.n - 1 || a.loop != m.loop || a.chunk != RecvOwner(ring.n, act.r, m.step)
    ensures Apply(ring, c, act)[q].work(a) == c[q].work(a)
    ensures Apply(ring, c, act)[q].scratch == c[q].scratch
  {
  }

  lemma FinishLeavesMemory<E>(g: Group<E>, s: System<E>, act: Act, s': System<E>, c: nat, a: Cell)
    requires Consistent(g, s) && act.Micro? && Step(g, s, act, s') && act.act.Finish?
    requires c < |g.rings| && Valid(g.rings[c], a)
    requires 0 < s.hosts[act.act.r].started && InCall(g, c, a.loop, s.hosts[act.act.r].started - 1)
    requires var m := s.channels[act.ch][act.act.r];
      c != act.ch || m.step >= g.n - 1 || a.loop != m.loop || a.chunk != RecvOwner(g.n, act.act.r, m.step)
    ensures s'.hosts[act.act.r].work(g.at(c, a)) == s.hosts[act.act.r].work(g.at(c, a))
  {
    var ch, r := act.ch, act.act.r;
    var m, ring := s.channels[ch][r], g.rings[ch];
    if m.step < g.n - 1 {
      ReduceSameCall(g, s, ch, r);
      RecvOwnerHops(g.n, r, m.step);
      var l, o := m.loop, RecvOwner(g.n, r, m.step);
      ApartFromChunk(g, ch, l, o, c, a, s.hosts[r].started - 1);
      hide Fold, SendOwner, RecvOwner, Controlled, Agrees, InCall, Inv, Hops, ApartFrom, Sound, Apply;
    }
  }

  lemma ApartFromChunk<E>(g: Group<E>, ch: nat, l: nat, o: nat, c: nat, a: Cell, k: nat)
    requires Sound(g) && ch < |g.rings| && c < |g.rings| && o < g.n && l < g.rings[ch].loops
    requires InCall(g, ch, l, k) && Valid(g.rings[c], a) && InCall(g, c, a.loop, k)
    requires c != ch || a.loop != l || a.chunk != o
    ensures ApartFrom(g, ch, l, o, g.at(c, a))
  {
    forall b: Cell | b.loop == l && b.chunk == o && b.elem < g.rings[ch].len(l, o)
      ensures Apart(g.at(ch, b), g.at(c, a))
    {
      assert SameCall(g, ch, b, c, a, k);
    }
  }

  lemma FinishKeepsWork<E>(g: Group<E>, s: System<E>, act: Act, s': System<E>, c: nat, q: nat, a: Cell)
    requires Consistent(g, s) && act.Micro? && Step(g, s, act, s') && act.act.Finish?
    requires c < |g.rings| && q < g.n && Valid(g.rings[c], a)
    ensures WorkAgrees(g, s', c, q, a)
  {
    var ch, r := act.ch, act.act.r;
    var m := s.channels[ch][r];
    assert WorkAgrees(g, s, c, q, a);
    if q == r && 0 < s.hosts[r].started && InCall(g, c, a.loop, s.hosts[r].started - 1) {
      if c == ch && m.step < g.n - 1 && a.loop == m.loop && a.chunk == RecvOwner(g.n, r, m.step) {
        FinishKeepsReduced(g, s, act, s', a);
      } else {
        FinishLeavesMemory(g, s, act, s', c, a);
        if c == ch { FinishLeavesRing(g.rings[ch], s.channels[ch], act.act, r, a); }
      }
      hide Fold, SendOwner, RecvOwner, Controlled, Agrees, InCall, Inv, Hops, Reduced, Sound, Apply;
    } else if c == ch && q != r {
      FinishLeavesRing(g.rings[ch], s.channels[ch], act.act, q, a);
    }
  }

  /** What has landed from a finishing rank stays what it was. */
  lemma FinishKeepsScratch<E>(g: Group<E>, s: System<E>, act: Act, s': System<E>, c: nat, q: nat, a: Cell)
    requires Consistent(g, s) && act.Micro? && Step(g, s, act, s') && act.act.Finish?
    requires c < |g.rings| && q < g.n && Valid(g.rings[c], a)
    ensures ScratchAgrees(g, s', c, q, a)
  {
    var ch, r, d := act.ch, act.act.r, Hops(g.n, q, a.chunk);
    FinishFrame(g, s, act, s', c, q);
    assert ScratchAgrees(g, s, c, q, a);
    if Prev(g.n, q) == r && c == ch && 2 <= d {
      RingProof.FinishKeepsCell(g.rings[ch], s.channels[ch], act.act, a, d - 2);
    }
    hide Fold, Controlled, Agrees, InCall, Inv, Hops, Landed, Sound, Apply, Moves, CanStep;
  }

  /** Finishing a step leaves the scratch buffers, and everything of the other ranks and channels. */
  lemma FinishFrame<E>(g: Group<E>, s: System<E>, act: Act, s': System<E>, c: nat, q: nat)
    requires Sound(g) && Shaped(g, s) && act.Micro? && Step(g, s, act, s') && act.act.Finish?
    requires c < |g.rings| && q < g.n
    ensures s'.hosts[q].scratch == s.hosts[q].scratch && s'.channels[c][q].scratch == s.channels[c][q].scratch
    ensures var p := Prev(g.n, q);
      && s'.hosts[p].started == s.hosts[p].started
      && (c != act.ch || p != act.act.r ==> s'.channels[c][p] == s.channels[c][p])
  {
    hide Fold, Sound, SendOwner, Idle, Reduced, Reduce;
  }

  lemma StepKeepsConsistent<E>(g: Group<E>, s: System<E>, act: Act, s': System<E>)
    requires Consistent(g, s) && Step(g, s, act, s')
    ensures Consistent(g, s')
  {
    if act.Start? {
      StartKeepsConsistent(g, s, act, s');
    } else {
      MicroKeepsControlled(g, s, act, s');
      forall c, q, a | 0 <= c < |g.rings| && 0 <= q < g.n && Valid(g.rings[c], a)
        ensures WorkAgrees(g, s', c, q, a) && ScratchAgrees(g, s', c, q, a)
      {
        match act.act
        case Place(_, _) => PlaceKeepsCell(g, s, act, s', c, q, a);
        case Finish(_, _) =>
          FinishKeepsWork(g, s, act, s', c, q, a);
          FinishKeepsScratch(g, s, act, s', c, q, a);
        case _ => QuietKeepsCell(g, s, act, s', c, q, a);
      }
    }
  }

  lemma BeginConsistent<E>(g: Group<E>, s: System<E>)
    requires Sound(g) && Begin(g, s)
    ensures Consistent(g, s)
  {
    forall ch | 0 <= ch < |g.rings| ensures Inv(g.rings[ch], s.channels[ch]) {
      InitInv(g.rings[ch], s.channels[ch]);
    }
  }

  lemma {:induction false} CallsKeepConsistent<E>(g: Group<E>, states: seq<System<E>>, acts: seq<Act>, j: nat)
    requires Calls(g, states, acts) && j < |states|
    ensures Consistent(g, states[j])
  {
    if j == 0 {
      BeginConsistent(g, states[0]);
    } else {
      CallsKeepConsistent(g, states, acts, j - 1);
      StepKeepsConsistent(g, states[j - 1], acts[j - 1], states[j]);
    }
  }
}

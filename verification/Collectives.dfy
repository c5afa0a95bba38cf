/**
 A sequence of collectives on one process group: every channel, one host per rank, and the memory that
 all calls reuse.  No barrier separates two calls; a rank starts the next one as soon as its own kernel
 has returned.
 */
module Collectives {
  import opened Arithmetic
  import opened Ring
  import opened RingProof
  import opened RingTheorems

  /** The bytes addr .. addr + size of a work or scratch buffer. */
  datatype Loc = Loc(addr: nat, size: nat)

  predicate Apart(x: Loc, y: Loc) { x.addr + x.size <= y.addr || y.addr + y.size <= x.addr }

  datatype Group<!E> = Group(
    n: nat,
    calls: nat,
    rings: seq<Ring<E>>,          // one per channel, with the loop iterations of all calls
    first: (nat, nat) -> nat,     // first(ch, k): the iteration with which call k begins on channel ch
    at: (nat, Cell) -> Loc)       // where a channel's cell lies in the work buffer and in the scratch buffer

  /** Loop iteration l of channel ch belongs to call k. */
  predicate InCall<E>(g: Group<E>, ch: nat, l: nat, k: nat) {
    k < g.calls && g.first(ch, k) <= l < g.first(ch, k + 1)
  }

  /** Calls follow each other, and the cells of one call do not overlap; those of different calls may. */
  ghost predicate Sound<E>(g: Group<E>) {
    && 2 <= g.n && 0 < |g.rings|
    && (forall ch | 0 <= ch < |g.rings| :: g.rings[ch].n == g.n)
    && (forall ch | 0 <= ch < |g.rings| :: g.first(ch, 0) == 0 && g.first(ch, g.calls) == g.rings[ch].loops)
    && (forall ch, k: nat | 0 <= ch < |g.rings| && k < g.calls :: g.first(ch, k) <= g.first(ch, k + 1))
    && (forall ch, a | 0 <= ch < |g.rings| && Valid(g.rings[ch], a) :: 0 < g.at(ch, a).size)
    && (forall ch, a, ch', a', k | SameCall(g, ch, a, ch', a', k) && (ch != ch' || a != a') ::
          Apart(g.at(ch, a), g.at(ch', a')))
  }

  predicate SameCall<E>(g: Group<E>, ch: nat, a: Cell, ch': nat, a': Cell, k: nat) {
    && ch < |g.rings| && Valid(g.rings[ch], a) && InCall(g, ch, a.loop, k)
    && ch' < |g.rings| && Valid(g.rings[ch'], a') && InCall(g, ch', a'.loop, k)
  }

  // ---------------------------------------------------------------- the machine

  /** One rank: the calls it has started, its registered memory, and what its card has read per channel. */
  datatype Host<!E> = Host(started: nat, work: Loc -> E, scratch: Loc -> E, held: seq<map<nat, E>>)

  /** The hosts are the real system.  Each channel also runs as a ring whose cells never share memory. */
  datatype System<!E> = System(channels: seq<State<E>>, hosts: seq<Host<E>>)

  datatype Act = Start(r: nat) | Micro(ch: nat, act: Action)

  ghost predicate Shaped<E>(g: Group<E>, s: System<E>) {
    && |s.channels| == |g.rings| && |s.hosts| == g.n
    && (forall ch | 0 <= ch < |g.rings| :: |s.channels[ch]| == g.n)
    && (forall r | 0 <= r < g.n :: |s.hosts[r].held| == |g.rings|)
  }

  /** The kernel of the rank's last call has returned with status 0 on every channel. */
  ghost predicate Idle<E>(g: Group<E>, s: System<E>, r: nat)
    requires Shaped(g, s) && r < g.n
  {
    forall ch: nat | ch < |g.rings| ::
      !s.channels[ch][r].failed && s.channels[ch][r].loop == g.first(ch, s.hosts[r].started)
  }

  /** A kernel runs the iterations of the calls its host has started, and no further ones. */
  ghost predicate CanStep<E>(g: Group<E>, s: System<E>, act: Act)
    requires Sound(g) && Shaped(g, s)
  {
    match act
    case Start(r) => r < g.n && s.hosts[r].started < g.calls && Idle(g, s, r)
    case Micro(ch, micro) =>
      && ch < |g.rings| && Enabled(g.rings[ch], s.channels[ch], micro)
      && (micro.PostRecv? ==> s.channels[ch][micro.r].loop < g.first(ch, s.hosts[micro.r].started))
      && (micro.Place? ==> micro.i in s.hosts[micro.r].held[ch])
  }

  /** One element is stored; whatever overlaps it may change as well. */
  ghost predicate Stored<E>(mem: Loc -> E, mem': Loc -> E, x: Loc, v: E) {
    mem'(x) == v && forall y | Apart(x, y) :: mem'(y) == mem(y)
  }

  /** Chunk c of iteration l is reduced from scratch into work. */
  ghost predicate Reduced<E>(g: Group<E>, ch: nat, h: Host<E>, work': Loc -> E, l: nat, c: nat)
    requires ch < |g.rings|
  {
    var ring := g.rings[ch];
    && (forall a: Cell | a.loop == l && a.chunk == c && a.elem < ring.len(l, c) ::
          work'(g.at(ch, a)) == ring.f(h.work(g.at(ch, a)), h.scratch(g.at(ch, a))))
    && (forall y | ApartFrom(g, ch, l, c, y) :: work'(y) == h.work(y))
  }

  ghost predicate ApartFrom<E>(g: Group<E>, ch: nat, l: nat, c: nat, y: Loc)
    requires ch < |g.rings|
  {
    forall a: Cell | a.loop == l && a.chunk == c && a.elem < g.rings[ch].len(l, c) :: Apart(g.at(ch, a), y)
  }

  /** The input of call k is in the work buffer; any other byte may have changed. */
  ghost predicate CopiedIn<E>(g: Group<E>, r: nat, k: nat, work': Loc -> E) {
    forall ch: nat, a | ch < |g.rings| && Valid(g.rings[ch], a) && InCall(g, ch, a.loop, k) ::
      work'(g.at(ch, a)) == g.rings[ch].input(r, a)
  }

  /** What a micro-step of channel ch does to the real memory; it reads that memory and the rank's position only. */
  ghost predicate Moves<E>(g: Group<E>, s: System<E>, hosts': seq<Host<E>>, ch: nat, act: Action)
    requires Sound(g) && Shaped(g, s) && CanStep(g, s, Micro(ch, act)) && |hosts'| == g.n
  {
    var r := act.r;
    var q := Next(g.n, r);
    var m, h := s.channels[ch][r], s.hosts[r];
    match act
    case Fetch(_, i) =>
      var v := h.work(g.at(ch, Source(g.rings[ch], r, m, i)));
      var held: map<nat, E> := h.held[ch][i := v];
      hosts' == s.hosts[r := h.(held := h.held[ch := held])]
    case Place(_, i) =>
      var x := g.at(ch, Source(g.rings[ch], r, m, i));
      if m.step < g.n - 1 then
        && hosts' == s.hosts[q := s.hosts[q].(scratch := hosts'[q].scratch)]
        && Stored(s.hosts[q].scratch, hosts'[q].scratch, x, h.held[ch][i])
      else
        && hosts' == s.hosts[q := s.hosts[q].(work := hosts'[q].work)]
        && Stored(s.hosts[q].work, hosts'[q].work, x, h.held[ch][i])
    case Finish(_, _) =>
      && hosts' == s.hosts[r := h.(held := h.held[ch := map[]], work := hosts'[r].work)]
      && (if m.step < g.n - 1 then Reduced(g, ch, h, hosts'[r].work, m.loop, RecvOwner(g.n, r, m.step))
          else hosts'[r].work == h.work)
    case _ => hosts' == s.hosts
  }

  ghost predicate Step<E>(g: Group<E>, s: System<E>, act: Act, s': System<E>)
    requires Sound(g) && Shaped(g, s)
  {
    && Shaped(g, s')
    && CanStep(g, s, act)
    && match act
       case Start(r) =>
         && s'.channels == s.channels
         && s'.hosts == s.hosts[r := s.hosts[r].(started := s.hosts[r].started + 1, work := s'.hosts[r].work)]
         && CopiedIn(g, r, s.hosts[r].started, s'.hosts[r].work)
       case Micro(ch, micro) =>
         && s'.channels == s.channels[ch := Apply(g.rings[ch], s.channels[ch], micro)]
         && Moves(g, s, s'.hosts, ch, micro)
  }

  ghost predicate Begin<E>(g: Group<E>, s: System<E>) {
    && Shaped(g, s)
    && (forall ch | 0 <= ch < |g.rings| :: Init(g.rings[ch], s.channels[ch]))
    && (forall r | 0 <= r < g.n :: s.hosts[r].started == 0)
    && (forall r, ch | 0 <= r < g.n && 0 <= ch < |g.rings| :: s.hosts[r].held[ch] == map[])
  }

  ghost predicate Calls<E>(g: Group<E>, states: seq<System<E>>, acts: seq<Act>) {
    && Sound(g)
    && |states| == |acts| + 1
    && Begin(g, states[0])
    && (forall i | 0 <= i < |states| :: Shaped(g, states[i]))
    && (forall i | 0 <= i < |acts| :: Step(g, states[i], acts[i], states[i + 1]))
  }

  // ---------------------------------------------------------------- invariant

  /** A channel stands in the iterations of the rank's last call, or at their end. */
  ghost predicate Gate<E>(g: Group<E>, s: System<E>, ch: nat, r: nat)
    requires Shaped(g, s) && ch < |g.rings| && r < g.n
  {
    var m, k := s.channels[ch][r], s.hosts[r].started;
    && k <= g.calls
    && m.loop <= g.first(ch, k)
    && (m.loop == g.first(ch, k) ==> m.step == 0 && m.phase == Ready)
    && (0 < k ==> g.first(ch, k - 1) <= m.loop)
  }

  /** The work buffer holds what the ring of its channel holds, for the cells of the rank's last call. */
  ghost predicate WorkAgrees<E>(g: Group<E>, s: System<E>, ch: nat, r: nat, a: Cell)
    requires Shaped(g, s) && ch < |g.rings| && r < g.n
  {
    0 < s.hosts[r].started && InCall(g, ch, a.loop, s.hosts[r].started - 1)
    ==> s.hosts[r].work(g.at(ch, a)) == s.channels[ch][r].work(a)
  }

  /** And the scratch buffer, for what has landed of the predecessor's last call. */
  ghost predicate ScratchAgrees<E>(g: Group<E>, s: System<E>, ch: nat, r: nat, a: Cell)
    requires Sound(g) && Shaped(g, s) && ch < |g.rings| && r < g.n && a.chunk < g.n
  {
    var p, d := Prev(g.n, r), Hops(g.n, r, a.chunk);
    && 0 < s.hosts[p].started && InCall(g, ch, a.loop, s.hosts[p].started - 1)
    && 2 <= d && Landed(g.rings[ch], s.channels[ch][p], a.loop, d - 2, a.elem)
    ==> s.hosts[r].scratch(g.at(ch, a)) == s.channels[ch][r].scratch(a)
  }

  ghost predicate Controlled<E>(g: Group<E>, s: System<E>)
    requires Sound(g) && Shaped(g, s)
  {
    && (forall ch | 0 <= ch < |g.rings| :: Inv(g.rings[ch], s.channels[ch]))
    && (forall ch, r | 0 <= ch < |g.rings| && 0 <= r < g.n :: Gate(g, s, ch, r))
    && (forall ch, r | 0 <= ch < |g.rings| && 0 <= r < g.n :: s.hosts[r].held[ch] == s.channels[ch][r].fetched)
  }

  ghost predicate Agrees<E>(g: Group<E>, s: System<E>)
    requires Sound(g) && Shaped(g, s)
  {
    forall ch, r, a | 0 <= ch < |g.rings| && 0 <= r < g.n && Valid(g.rings[ch], a) ::
      WorkAgrees(g, s, ch, r, a) && ScratchAgrees(g, s, ch, r, a)
  }

  ghost predicate Consistent<E>(g: Group<E>, s: System<E>) {
    Sound(g) && Shaped(g, s) && Controlled(g, s) && Agrees(g, s)
  }
}

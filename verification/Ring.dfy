/**
 The asynchronous ring all-reduce of one channel.

 A channel runs `loops` iterations; every iteration has n-1 reduce-scatter steps followed by
 n-1 all-gather steps.  Ranks and network cards take their micro-steps in any order; there is no
 barrier.  The network may copy a posted chunk element by element, at any time after posting, in
 any order, and may repeat a copy until the notification is consumed.
 */
module Ring {
  import opened Arithmetic

  datatype Phase = Ready | RecvPosted | SendPosted | SendDone | RecvDone

  /** An element position of the channel: loop iteration, owner chunk, element within the chunk. */
  datatype Cell = Cell(loop: nat, chunk: nat, elem: nat)

  /** What the ranks of one channel agree on, and what each of them contributes. */
  datatype Ring<!E> = Ring(
    n: nat,                      // world size
    loops: nat,                  // iterations of the channel loop
    len: (nat, nat) -> nat,      // elements of chunk c in loop l, zero for an empty chunk
    input: (nat, Cell) -> E,     // work buffer of rank r before the collective
    f: (E, E) -> E)              // own, incoming; nothing is assumed about it

  /** One rank with its outgoing queue pair. */
  datatype Rank<!E> = Rank(
    loop: nat,
    step: nat,                    // step within the loop: reduce-scatter first, then all-gather
    phase: Phase,
    failed: bool,                // status[channel] != 0
    posted: nat,                 // receives posted so far on the incoming queue pair
    ticket: nat,                 // index of the receive of this step
    log: seq<nat>,               // step number of the notification that consumed each receive
    acked: nat,                  // own messages that consumed a receive at the next rank
    fetched: map<nat, E>,        // elements of the current message read by the network card
    placed: set<nat>,            // elements of the current message written at the next rank
    work: Cell -> E,
    scratch: Cell -> E)

  type State<!E> = seq<Rank<E>>

  // ---------------------------------------------------------------- schedule

  predicate Wellformed<E>(g: Ring<E>) { 2 <= g.n }

  function Steps(n: nat): int { 2 * (n - 1) }

  /** The owner chunk that rank r sends in local step u. */
  function SendOwner(n: nat, r: nat, u: nat): nat
    requires r < n && u < Steps(n)
  {
    if u < n - 1 then (r - (u + 1) + n) % n      // reduce-scatter step u + 1
    else (r - (u - (n - 1)) + n) % n             // all-gather step u - (n - 1)
  }

  /** The owner chunk that rank r reduces in reduce-scatter step u + 1. */
  function RecvOwner(n: nat, r: nat, u: nat): nat
    requires r < n && u < n - 1
  {
    (r - (u + 1) - 1 + 2 * n) % n
  }

  /** Steps that precede loop l. */
  function Base(n: nat, l: nat): nat
    requires 2 <= n
  {
    if l == 0 then 0 else Base(n, l - 1) + Steps(n)
  }

  /** The number of steps a rank has completed. */
  function Time<E>(g: Ring<E>, m: Rank<E>): nat
    requires Wellformed(g)
  {
    Base(g.n, m.loop) + m.step
  }

  /** Hops from rank c to rank r going up the ring, in 1..n: the owner itself is n hops away. */
  function Hops(n: nat, r: nat, c: nat): nat
    requires r < n && c < n
  { if r > c then r - c else r + n - c }

  // ---------------------------------------------------------------- the result

  /** f(x_{c+k}, ... f(x_{c+2}, x_{c+1})) with ranks modulo n, for the element a of chunk c. */
  function Fold<E>(g: Ring<E>, a: Cell, k: nat): E
    requires Wellformed(g) && 1 <= k
  {
    var own := g.input((a.chunk + k) % g.n, a);
    if k == 1 then own else g.f(own, Fold(g, a, k - 1))
  }

  // ---------------------------------------------------------------- micro-steps

  datatype Action =
    | PostRecv(r: nat)
    | PostSend(r: nat)
    | Fetch(r: nat, i: nat)        // the network card reads one element of the source chunk
    | Place(r: nat, i: nat)        // and writes it into the next rank's memory
    | Notify(r: nat)               // the immediate (or the one-byte SEND) consumes a receive
    | WaitSend(r: nat)
    | WaitRecv(r: nat)
    | Finish(r: nat, ok: bool)     // reduce, if this is a reduce-scatter step, and go on
    | Fail(r: nat)                 // a wait or the reduction reports a non-zero status

  predicate Live<E>(g: Ring<E>, m: Rank<E>) { !m.failed && m.loop < g.loops }

  predicate Sent(p: Phase) { p != Ready && p != RecvPosted }

  /** The message of the current step is posted and has not consumed a receive yet. */
  predicate InFlight<E>(g: Ring<E>, m: Rank<E>)
    requires Wellformed(g)
  {
    m.loop < g.loops && m.step < Steps(g.n) && Sent(m.phase) && m.acked == Time(g, m)
  }

  function Source<E>(g: Ring<E>, r: nat, m: Rank<E>, i: nat): Cell
    requires r < g.n && m.step < Steps(g.n)
  {
    Cell(m.loop, SendOwner(g.n, r, m.step), i)
  }

  function SendLength<E>(g: Ring<E>, r: nat, m: Rank<E>): nat
    requires r < g.n && m.step < Steps(g.n)
  {
    g.len(m.loop, SendOwner(g.n, r, m.step))
  }

  predicate Enabled<E>(g: Ring<E>, s: State<E>, act: Action)
    requires Wellformed(g) && |s| == g.n
  {
    act.r < g.n &&
    var m := s[act.r];
    var q := s[Next(g.n, act.r)];
    match act
    case PostRecv(r) => Live(g, m) && m.phase == Ready
    case PostSend(r) => Live(g, m) && m.phase == RecvPosted
    case Fetch(r, i) => InFlight(g, m) && i < SendLength(g, r, m)
    case Place(r, i) => InFlight(g, m) && i in m.fetched
    case Notify(r) => InFlight(g, m) && (forall i | 0 <= i < SendLength(g, r, m) :: i in m.placed)
                      && |q.log| < q.posted
    case WaitSend(r) => Live(g, m) && m.phase == SendPosted && Time(g, m) < m.acked
    case WaitRecv(r) => Live(g, m) && m.phase == SendDone && m.ticket < |m.log|
    case Finish(r, ok) => Live(g, m) && m.phase == RecvDone && m.step < Steps(g.n)
    case Fail(r) => Live(g, m) && Sent(m.phase)
  }

  function Write<E>(mem: Cell -> E, a: Cell, v: E): Cell -> E {
    (b: Cell) => if b == a then v else mem(b)
  }

  /** The element-wise reduction of one chunk into the work buffer. */
  function Reduce<E>(g: Ring<E>, work: Cell -> E, scratch: Cell -> E, l: nat, c: nat): Cell -> E {
    (b: Cell) => if b.loop == l && b.chunk == c && b.elem < g.len(l, c) then g.f(work(b), scratch(b)) else work(b)
  }

  function Advance<E>(g: Ring<E>, r: nat, m: Rank<E>, ok: bool): Rank<E>
    requires Wellformed(g) && r < g.n && m.step < Steps(g.n)
  {
    var last := m.step + 1 == Steps(g.n);
    m.(phase := Ready,
       loop := if last then m.loop + 1 else m.loop,
       step := if last then 0 else m.step + 1,
       failed := !ok,
       fetched := map[], placed := {},
       work := if m.step < g.n - 1 then Reduce(g, m.work, m.scratch, m.loop, RecvOwner(g.n, r, m.step)) else m.work)
  }

  function Apply<E>(g: Ring<E>, s: State<E>, act: Action): (s': State<E>)
    requires Wellformed(g) && |s| == g.n && Enabled(g, s, act)
    ensures |s'| == g.n
  {
    var r := act.r;
    var m := s[r];
    var k := Next(g.n, r);
    var q := s[k];
    match act
    case PostRecv(_) => s[r := m.(phase := RecvPosted, posted := m.posted + 1, ticket := m.posted)]
    case PostSend(_) => s[r := m.(phase := SendPosted)]
    case Fetch(_, i) => s[r := m.(fetched := m.fetched[i := m.work(Source(g, r, m, i))])]
    case Place(_, i) =>
      var a := Source(g, r, m, i);
      s[r := m.(placed := m.placed + {i})]
       [k := if m.step < g.n - 1 then q.(scratch := Write(q.scratch, a, m.fetched[i]))
             else q.(work := Write(q.work, a, m.fetched[i]))]
    case Notify(_) => s[r := m.(acked := m.acked + 1)][k := q.(log := q.log + [Time(g, m)])]
    case WaitSend(_) => s[r := m.(phase := SendDone)]
    case WaitRecv(_) => s[r := m.(phase := RecvDone)]
    case Finish(_, ok) => s[r := Advance(g, r, m, ok)]
    case Fail(_) => s[r := m.(failed := true)]
  }

  ghost predicate Init<E>(g: Ring<E>, s: State<E>) {
    && |s| == g.n
    && forall r | 0 <= r < g.n ::
      && s[r] == Rank(0, 0, Ready, false, 0, 0, [], 0, map[], {}, s[r].work, s[r].scratch)
      && forall a :: s[r].work(a) == g.input(r, a)
  }

  /** A finite run: states and the micro-steps between them. */
  ghost predicate Run<E>(g: Ring<E>, states: seq<State<E>>, acts: seq<Action>) {
    && Wellformed(g)
    && |states| == |acts| + 1
    && Init(g, states[0])
    && (forall i | 0 <= i < |states| :: |states[i]| == g.n)
    && (forall i | 0 <= i < |acts| :: Enabled(g, states[i], acts[i]) && states[i + 1] == Apply(g, states[i], acts[i]))
  }

  // ---------------------------------------------------------------- invariant

  /** Bookkeeping of one rank and of its link to the next rank. */
  ghost predicate Control<E>(g: Ring<E>, s: State<E>, r: nat)
    requires Wellformed(g) && |s| == g.n && r < g.n
  {
    var m := s[r];
    var t := Time(g, m);
    && m.step < Steps(g.n)
    && m.loop <= g.loops
    && (m.loop == g.loops ==> m.step == 0 && m.phase == Ready)
    && m.posted == t + (if m.phase == Ready then 0 else 1)
    && (m.phase != Ready ==> m.ticket == t)
    && m.acked == |s[Next(g.n, r)].log|
    && t <= m.acked <= t + 1
    && (m.acked == t + 1 ==> Sent(m.phase))
    && (m.phase == SendDone || m.phase == RecvDone ==> m.acked == t + 1)
    && t <= |m.log| <= m.posted
    && (m.phase == RecvDone ==> |m.log| == t + 1)
    && (forall k | 0 <= k < |m.log| :: m.log[k] == k)
    && (!Sent(m.phase) ==> m.fetched == map[] && m.placed == {})
    && m.placed <= m.fetched.Keys
    && (forall i | i in m.fetched :: i < SendLength(g, r, m))
    && (m.acked == t + 1 ==> forall i | 0 <= i < SendLength(g, r, m) :: i in m.placed)
  }

  predicate Valid<E>(g: Ring<E>, a: Cell) {
    a.loop < g.loops && a.chunk < g.n && a.elem < g.len(a.loop, a.chunk)
  }

  /** Element i of p's message of step k in loop l has reached the memory of the next rank. */
  predicate Landed<E>(g: Ring<E>, p: Rank<E>, l: nat, k: int, i: nat)
    requires Wellformed(g)
  {
    Time(g, p) > Base(g.n, l) + k || (Time(g, p) == Base(g.n, l) + k && i in p.placed)
  }

  /** What the work buffer of rank r holds at a, given the progress of r and its predecessor. */
  ghost predicate WorkHolds<E>(g: Ring<E>, p: Rank<E>, r: nat, m: Rank<E>, a: Cell, v: E)
    requires Wellformed(g) && r < g.n && a.chunk < g.n
  {
    var d := Hops(g.n, r, a.chunk);
    if d < g.n && Landed(g, p, a.loop, g.n + d - 2, a.elem) then v == Fold(g, a, g.n)
    else if Time(g, m) > Base(g.n, a.loop) + d - 2 then v == Fold(g, a, d)
    else v == g.input(r, a)
  }

  /** And its scratch buffer: the predecessor's partial result, once that has landed. */
  ghost predicate ScratchHolds<E>(g: Ring<E>, p: Rank<E>, r: nat, a: Cell, v: E)
    requires Wellformed(g) && r < g.n && a.chunk < g.n
  {
    var d := Hops(g.n, r, a.chunk);
    d >= 2 && Landed(g, p, a.loop, d - 2, a.elem) ==> v == Fold(g, a, d - 1)
  }

  ghost predicate Memory<E>(g: Ring<E>, s: State<E>, r: nat, a: Cell)
    requires Wellformed(g) && |s| == g.n && r < g.n && Valid(g, a)
  {
    var p := s[Prev(g.n, r)];
    WorkHolds(g, p, r, s[r], a, s[r].work(a)) && ScratchHolds(g, p, r, a, s[r].scratch(a))
  }

  function Hop(n: nat, u: nat): nat { if u + 1 <= n then u + 1 else n }

  ghost predicate Messages<E>(g: Ring<E>, s: State<E>, r: nat)
    requires Wellformed(g) && |s| == g.n && r < g.n
  {
    && s[r].step < Steps(g.n)
    && forall i | i in s[r].fetched ::
      s[r].fetched[i] == Fold(g, Source(g, r, s[r], i), Hop(g.n, s[r].step))
  }

  ghost predicate Inv<E>(g: Ring<E>, s: State<E>) {
    && Wellformed(g)
    && |s| == g.n
    && (forall r | 0 <= r < g.n :: Control(g, s, r))
    && (forall r | 0 <= r < g.n :: Messages(g, s, r))
    && (forall r, a | 0 <= r < g.n && Valid(g, a) :: Memory(g, s, r, a))
  }

  // ---------------------------------------------------------------- arithmetic of the schedule

  /** The chunk sent in step u comes from Hops = u+1 (modulo n) ranks away ... */
  lemma SendOwnerHops(n: nat, r: nat, u: nat)
    requires 2 <= n && r < n && u < Steps(n)
    ensures SendOwner(n, r, u) < n
    ensures Hops(n, r, SendOwner(n, r, u)) == if u < n then u + 1 else u + 1 - n
  {
    if u < n - 1 { ModSmall(r - (u + 1) + n, n); } else { ModSmall(r - (u - (n - 1)) + n, n); }
  }

  lemma RecvOwnerHops(n: nat, r: nat, u: nat)
    requires 2 <= n && r < n && u < n - 1
    ensures RecvOwner(n, r, u) < n
    ensures Hops(n, r, RecvOwner(n, r, u)) == u + 2
  {
    ModSmall(r - (u + 1) - 1 + 2 * n, n);
  }

  /** Rank r+1 reduces exactly the chunk that rank r sends in the same step. */
  lemma NeighboursAgreeOnChunk(n: nat, r: nat, u: nat)
    requires 2 <= n && r < n && u < n - 1
    ensures SendOwner(n, r, u) == RecvOwner(n, Next(n, r), u)
  {
    SendOwnerHops(n, r, u);
    RecvOwnerHops(n, Next(n, r), u);
  }

  lemma BaseMonotone(n: nat, l: nat, l': nat)
    requires 2 <= n && l < l'
    ensures Base(n, l) + Steps(n) <= Base(n, l')
  {
    if l + 1 < l' { BaseMonotone(n, l, l' - 1); }
  }

  /** A step number determines loop and local step. */
  lemma Position(n: nat, l: nat, u: nat, l': nat, u': nat)
    requires 2 <= n && u < Steps(n) && u' < Steps(n)
    ensures Base(n, l) + u == Base(n, l') + u' <==> l == l' && u == u'
    ensures l < l' ==> Base(n, l) + u < Base(n, l') + u'
  {
    if l < l' { BaseMonotone(n, l, l'); }
    if l' < l { BaseMonotone(n, l', l); }
  }
}

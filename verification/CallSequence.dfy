/** The calls of one process group: tensors of any sizes and item sizes, one after the other. */
module CallSequence {
  import opened Arithmetic
  import opened ChannelLayout
  import R = Ring
  import C = Collectives
  import T = CollectivesTheorems
  import P = CollectivesProgress
  import A = AllReduce

  /** One call; tensor(r, j) is element j of rank r's tensor. */
  datatype Call<!E> = Call(count: int, itemsize: int, tensor: (nat, int) -> E)

  /** What the checks in front of the kernel let through, on a group of `world` ranks with `sms` lanes. */
  predicate Allowed<E>(call: Call<E>, sms: int, world: nat) {
    0 < sms && 2 <= world && 0 < call.count && ItemSize(call.itemsize)
  }

  predicate Admitted<E>(calls: seq<Call<E>>, sms: int, world: nat) {
    && 0 < sms && 2 <= world
    && forall k | 0 <= k < |calls| :: Allowed(calls[k], sms, world)
  }

  function Arguments<E>(call: Call<E>, sms: int, world: nat): (k: Geometry)
    requires Allowed(call, sms, world)
    ensures Sound(k) && k.channels <= sms
  {
    ArgumentsSound(call.count, call.itemsize, sms, world);
    KernelArguments(call.count, call.itemsize, sms, world)
  }

  /** The iterations that a call runs on channel ch: none on the channels it leaves out. */
  function CallLoops<E>(call: Call<E>, sms: int, world: nat, ch: nat): nat
    requires Allowed(call, sms, world)
  {
    var k := Arguments(call, sms, world);
    if ch < k.channels then Loops(k, ch) else 0
  }

  /** The iterations of channel ch before call k. */
  function First<E>(calls: seq<Call<E>>, sms: int, world: nat, ch: nat, k: nat): nat
    requires Admitted(calls, sms, world)
  {
    if k == 0 then 0
    else First(calls, sms, world, ch, k - 1) + if k <= |calls| then CallLoops(calls[k - 1], sms, world, ch) else 0
  }

  /** The call, among the first k, that iteration l belongs to; the first one if none. */
  function CallOf<E>(calls: seq<Call<E>>, sms: int, world: nat, ch: nat, l: nat, k: nat): (c: nat)
    requires Admitted(calls, sms, world) && 0 < k <= |calls|
    ensures c < k
  {
    if k == 1 || First(calls, sms, world, ch, k - 1) <= l then k - 1 else CallOf(calls, sms, world, ch, l, k - 1)
  }

  /** Where a cell of channel ch lies: in which call, and at which place of that call's schedule. */
  function PlaceOf<E>(calls: seq<Call<E>>, sms: int, world: nat, ch: nat, a: R.Cell): Place
    requires Admitted(calls, sms, world) && calls != []
  {
    var k := CallOf(calls, sms, world, ch, a.loop, |calls|);
    Place(ch, a.loop - First(calls, sms, world, ch, k), a.chunk, a.elem)
  }

  /** All iterations of all calls on one channel. */
  function ChannelRing<E>(calls: seq<Call<E>>, f: (E, E) -> E, sms: int, world: nat, ch: nat): R.Ring<E>
    requires Admitted(calls, sms, world) && calls != []
  {
    R.Ring(world, First(calls, sms, world, ch, |calls|),
      (l: nat, c: nat) =>
        var k := CallOf(calls, sms, world, ch, l, |calls|);
        Natural(Length(Arguments(calls[k], sms, world), ch, l - First(calls, sms, world, ch, k), c)),
      (r: nat, a: R.Cell) =>
        var call := calls[CallOf(calls, sms, world, ch, a.loop, |calls|)];
        call.tensor(r, Index(Arguments(call, sms, world), PlaceOf(calls, sms, world, ch, a))),
      f)
  }

  /** The process group that runs them in its one pair of buffers. */
  function GroupOf<E>(calls: seq<Call<E>>, f: (E, E) -> E, sms: int, world: nat): C.Group<E>
    requires Admitted(calls, sms, world) && calls != []
  {
    C.Group(world, |calls|,
      seq(sms, (ch: nat) => ChannelRing(calls, f, sms, world, ch)),
      (ch: nat, k: nat) => First(calls, sms, world, ch, k),
      (ch: nat, a: R.Cell) =>
        var call := calls[CallOf(calls, sms, world, ch, a.loop, |calls|)];
        var j := Index(Arguments(call, sms, world), PlaceOf(calls, sms, world, ch, a));
        C.Loc(Natural(j * call.itemsize), Natural(call.itemsize)))
  }

  // ---------------------------------------------------------------- the calls share memory soundly

  lemma {:induction false} FirstMonotone<E>(calls: seq<Call<E>>, sms: int, world: nat, ch: nat, k: nat, k': nat)
    requires Admitted(calls, sms, world) && k <= k'
    ensures First(calls, sms, world, ch, k) <= First(calls, sms, world, ch, k')
  {
    if k < k' { FirstMonotone(calls, sms, world, ch, k, k' - 1); }
  }

  lemma {:induction false} CallOfIteration<E>(calls: seq<Call<E>>, sms: int, world: nat, ch: nat, l: nat, c: nat,
                                              k: nat)
    requires Admitted(calls, sms, world) && c < k <= |calls|
    requires First(calls, sms, world, ch, c) <= l < First(calls, sms, world, ch, c + 1)
    ensures CallOf(calls, sms, world, ch, l, k) == c
  {
    if c < k - 1 {
      FirstMonotone(calls, sms, world, ch, c + 1, k - 1);
      CallOfIteration(calls, sms, world, ch, l, c, k - 1);
    }
  }

  /** A cell of call k is a valid place of that call's schedule. */
  lemma CellIsPlace<E>(calls: seq<Call<E>>, f: (E, E) -> E, sms: int, world: nat, ch: nat, a: R.Cell, k: nat)
    requires Admitted(calls, sms, world) && calls != [] && ch < sms
    requires R.Valid(ChannelRing(calls, f, sms, world, ch), a) && C.InCall(GroupOf(calls, f, sms, world), ch, a.loop, k)
    ensures CallOf(calls, sms, world, ch, a.loop, |calls|) == k
    ensures Valid(Arguments(calls[k], sms, world), PlaceOf(calls, sms, world, ch, a))
  {
    CallOfIteration(calls, sms, world, ch, a.loop, k, |calls|);
  }

  lemma ElementsApart(i: int, j: int, size: int)
    requires 0 <= i && 0 <= j && i != j && 0 < size
    ensures 0 <= i * size && 0 <= j * size
    ensures C.Apart(C.Loc(i * size, size), C.Loc(j * size, size))
  {
    MulMonotone(size, 0, i);
    MulMonotone(size, 0, j);
    if i < j { MulApart(size, i, j); } else { MulApart(size, j, i); }
  }

  lemma CellsApart<E>(calls: seq<Call<E>>, f: (E, E) -> E, sms: int, world: nat,
                      ch: nat, a: R.Cell, ch': nat, a': R.Cell, k: nat)
    requires Admitted(calls, sms, world) && calls != []
    requires C.SameCall(GroupOf(calls, f, sms, world), ch, a, ch', a', k) && (ch != ch' || a != a')
    ensures var g := GroupOf(calls, f, sms, world); C.Apart(g.at(ch, a), g.at(ch', a'))
  {
    CellIsPlace(calls, f, sms, world, ch, a, k);
    CellIsPlace(calls, f, sms, world, ch', a', k);
    var geometry := Arguments(calls[k], sms, world);
    var at, at' := PlaceOf(calls, sms, world, ch, a), PlaceOf(calls, sms, world, ch', a');
    IndexIsInjective(geometry, at);
    IndexIsInjective(geometry, at');
    ElementsApart(Index(geometry, at), Index(geometry, at'), calls[k].itemsize);
  }

  /** However the sizes of the calls differ, the group they form is one to which the theorems apply. */
  lemma GroupIsSound<E>(calls: seq<Call<E>>, f: (E, E) -> E, sms: int, world: nat)
    requires Admitted(calls, sms, world) && calls != []
    ensures C.Sound(GroupOf(calls, f, sms, world))
  {
    var g := GroupOf(calls, f, sms, world);
    forall ch, a, ch', a', k | C.SameCall(g, ch, a, ch', a', k) && (ch != ch' || a != a')
      ensures C.Apart(g.at(ch, a), g.at(ch', a'))
    {
      CellsApart(calls, f, sms, world, ch, a, ch', a', k);
    }
  }

  // ---------------------------------------------------------------- the tensor of a finished call

  /** The place of element j in the schedule of call k ... */
  function Spot<E>(calls: seq<Call<E>>, sms: int, world: nat, k: nat, j: int): (at: Place)
    requires Admitted(calls, sms, world) && k < |calls| && 0 <= j < calls[k].count
    ensures at == Locate(Arguments(calls[k], sms, world), j)
    ensures 0 <= at.channel < sms && 0 <= at.chunk < world && 0 <= at.loop && 0 <= at.elem
  {
    LocateIsValid(Arguments(calls[k], sms, world), j);
    Locate(Arguments(calls[k], sms, world), j)
  }

  /** ... and its cell. */
  function CellOf<E>(calls: seq<Call<E>>, sms: int, world: nat, k: nat, j: int): R.Cell
    requires Admitted(calls, sms, world) && k < |calls| && 0 <= j < calls[k].count
  {
    var at := Spot(calls, sms, world, k, j);
    R.Cell(First(calls, sms, world, at.channel, k) + at.loop, at.chunk, at.elem)
  }

  lemma CellOfElement<E>(calls: seq<Call<E>>, f: (E, E) -> E, sms: int, world: nat, k: nat, j: int)
    requires Admitted(calls, sms, world) && k < |calls| && 0 <= j < calls[k].count
    ensures var g, a := GroupOf(calls, f, sms, world), CellOf(calls, sms, world, k, j);
      var at := Spot(calls, sms, world, k, j);
      && a.chunk == at.chunk
      && CallOf(calls, sms, world, at.channel, a.loop, |calls|) == k
      && PlaceOf(calls, sms, world, at.channel, a) == at
      && C.InCall(g, at.channel, a.loop, k) && R.Valid(g.rings[at.channel], a)
  {
    var geometry := Arguments(calls[k], sms, world);
    var at, a := Spot(calls, sms, world, k, j), CellOf(calls, sms, world, k, j);
    LocateIsValid(geometry, j);
    CallOfIteration(calls, sms, world, at.channel, a.loop, k, |calls|);
    FirstMonotone(calls, sms, world, at.channel, k + 1, |calls|);
  }

  lemma {:induction false} FoldOfElement<E>(calls: seq<Call<E>>, f: (E, E) -> E, sms: int, world: nat,
                                            k: nat, j: int, m: nat)
    requires Admitted(calls, sms, world) && k < |calls| && 0 <= j < calls[k].count && 1 <= m
    ensures var at := Spot(calls, sms, world, k, j);
      R.Fold(ChannelRing(calls, f, sms, world, at.channel), CellOf(calls, sms, world, k, j), m)
         == A.OwnerFold(calls[k].tensor, f, world, at.chunk, j, m)
  {
    CellOfElement(calls, f, sms, world, k, j);
    LocateIsValid(Arguments(calls[k], sms, world), j);
    if m > 1 { FoldOfElement(calls, f, sms, world, k, j, m - 1); }
  }

  /** Element j of a call lies j elements into the buffer. */
  lemma AddressOfElement<E>(calls: seq<Call<E>>, f: (E, E) -> E, sms: int, world: nat, k: nat, j: int)
    requires Admitted(calls, sms, world) && k < |calls| && 0 <= j < calls[k].count
    ensures 0 <= j * calls[k].itemsize
    ensures GroupOf(calls, f, sms, world).at(Spot(calls, sms, world, k, j).channel, CellOf(calls, sms, world, k, j))
         == C.Loc(j * calls[k].itemsize, calls[k].itemsize)
  {
    MulMonotone(calls[k].itemsize, 0, j);
    LocateIsValid(Arguments(calls[k], sms, world), j);
    CellOfElement(calls, f, sms, world, k, j);
  }

  /** Memory is reused: the first elements of any two calls, different cells, lie on the same bytes. */
  lemma CallsShareBytes<E>(calls: seq<Call<E>>, f: (E, E) -> E, sms: int, world: nat, k: nat, k': nat)
    requires Admitted(calls, sms, world) && k < |calls| && k' < |calls| && k != k'
    ensures var g := GroupOf(calls, f, sms, world);
      var ch, ch' := Spot(calls, sms, world, k, 0).channel, Spot(calls, sms, world, k', 0).channel;
      var a, a' := CellOf(calls, sms, world, k, 0), CellOf(calls, sms, world, k', 0);
      && R.Valid(g.rings[ch], a) && C.InCall(g, ch, a.loop, k)
      && R.Valid(g.rings[ch'], a') && C.InCall(g, ch', a'.loop, k')
      && (ch != ch' || a != a') && !C.Apart(g.at(ch, a), g.at(ch', a'))
  {
    hide Spot, CellOf, CallOf, Arguments, R.Valid, C.InCall, GroupOf;
    FirstElement(calls, f, sms, world, k);
    FirstElement(calls, f, sms, world, k');
  }

  lemma FirstElement<E>(calls: seq<Call<E>>, f: (E, E) -> E, sms: int, world: nat, k: nat)
    requires Admitted(calls, sms, world) && k < |calls|
    ensures var g, ch := GroupOf(calls, f, sms, world), Spot(calls, sms, world, k, 0).channel;
      var a := CellOf(calls, sms, world, k, 0);
      && 0 < calls[k].itemsize && ch < |g.rings| && R.Valid(g.rings[ch], a) && C.InCall(g, ch, a.loop, k)
      && CallOf(calls, sms, world, ch, a.loop, |calls|) == k && g.at(ch, a) == C.Loc(0, calls[k].itemsize)
  {
    hide Spot, CellOf, CallOf, PlaceOf, Arguments, R.Valid;
    CellOfElement(calls, f, sms, world, k, 0);
    AddressOfElement(calls, f, sms, world, k, 0);
  }

  /** Element j of call k lies reduced over all ranks in this rank's work buffer. */
  ghost predicate HoldsResult<E>(calls: seq<Call<E>>, f: (E, E) -> E, sms: int, world: nat,
                                 h: C.Host<E>, k: nat, j: int)
    requires Admitted(calls, sms, world) && k < |calls| && 0 <= j < calls[k].count
  {
    ArgumentsSound(calls[k].count, calls[k].itemsize, sms, world);
    var geometry := KernelArguments(calls[k].count, calls[k].itemsize, sms, world);
    && 0 <= j * calls[k].itemsize && 0 < geometry.world * geometry.base
    && exists owner: nat, chunk: int ::
      && OwnedBy(geometry, j, owner, chunk)
      && h.work(C.Loc(j * calls[k].itemsize, calls[k].itemsize))
         == A.OwnerFold(calls[k].tensor, f, world, owner, j, world)
  }

  /**
   Any sequence of calls on one process group.  When the kernel of rank r's call k has returned with status 0,
   element j of that call lies reduced over all ranks in the work buffer, although other ranks may still be in
   this call or already in the next one, and although every call uses the same bytes differently.
   */
  lemma FinishedCallTensor<E>(calls: seq<Call<E>>, f: (E, E) -> E, sms: int, world: nat,
                              states: seq<C.System<E>>, acts: seq<C.Act>, i: nat, r: nat, k: nat, j: int)
    requires Admitted(calls, sms, world) && k < |calls| && 0 <= j < calls[k].count && r < world
    requires var g := GroupOf(calls, f, sms, world);
      && C.Calls(g, states, acts) && i < |states|
      && states[i].hosts[r].started == k + 1 && C.Idle(g, states[i], r)
    ensures HoldsResult(calls, f, sms, world, states[i].hosts[r], k, j)
  {
    var h := states[i].hosts[r];
    hide C.Calls, C.Idle, C.Sound, C.Shaped, FoldsAtSpot, HoldsResult;
    FinishedCallElement(calls, f, sms, world, states, acts, i, r, k, j);
    HoldsAt(calls, f, sms, world, h, k, j);
  }

  /** The same with the place that the schedule gives the element. */
  ghost predicate FoldsAtSpot<E>(calls: seq<Call<E>>, f: (E, E) -> E, sms: int, world: nat,
                                 h: C.Host<E>, k: nat, j: int)
    requires Admitted(calls, sms, world) && k < |calls| && 0 <= j < calls[k].count
  {
    && 0 <= j * calls[k].itemsize
    && h.work(C.Loc(j * calls[k].itemsize, calls[k].itemsize))
       == A.OwnerFold(calls[k].tensor, f, world, Spot(calls, sms, world, k, j).chunk, j, world)
  }

  lemma FinishedCallElement<E>(calls: seq<Call<E>>, f: (E, E) -> E, sms: int, world: nat,
                               states: seq<C.System<E>>, acts: seq<C.Act>, i: nat, r: nat, k: nat, j: int)
    requires Admitted(calls, sms, world) && k < |calls| && 0 <= j < calls[k].count && r < world
    requires var g := GroupOf(calls, f, sms, world);
      && C.Calls(g, states, acts) && i < |states|
      && states[i].hosts[r].started == k + 1 && C.Idle(g, states[i], r)
    ensures FoldsAtSpot(calls, f, sms, world, states[i].hosts[r], k, j)
  {
    hide Spot, CellOf, C.InCall, R.Valid, C.Idle, C.Calls, A.OwnerFold, R.Fold, Arguments;
    var g := GroupOf(calls, f, sms, world);
    var at, a := Spot(calls, sms, world, k, j), CellOf(calls, sms, world, k, j);
    AddressOfElement(calls, f, sms, world, k, j);
    CellOfElement(calls, f, sms, world, k, j);
    T.FinishedCallHoldsFold(g, states, acts, i, at.channel, r, a);
    FoldOfElement(calls, f, sms, world, k, j, world);
  }

  lemma SpotOwner<E>(calls: seq<Call<E>>, sms: int, world: nat, k: nat, j: int)
    requires Admitted(calls, sms, world) && k < |calls| && 0 <= j < calls[k].count
    ensures var geometry, at := Arguments(calls[k], sms, world), Spot(calls, sms, world, k, j);
      && 0 < geometry.world * geometry.base && j < geometry.count
      && OwnedBy(geometry, j, at.chunk, Chunk(geometry, at.channel, at.loop))
  {
    OwnerIs(Arguments(calls[k], sms, world), j);
  }

  lemma HoldsAt<E>(calls: seq<Call<E>>, f: (E, E) -> E, sms: int, world: nat, h: C.Host<E>, k: nat, j: int)
    requires Admitted(calls, sms, world) && k < |calls| && 0 <= j < calls[k].count
    requires FoldsAtSpot(calls, f, sms, world, h, k, j)
    ensures HoldsResult(calls, f, sms, world, h, k, j)
  {
    SpotOwner(calls, sms, world, k, j);
    assert Arguments(calls[k], sms, world) == KernelArguments(calls[k].count, calls[k].itemsize, sms, world);
    hide Spot, Arguments, KernelArguments, OwnedBy, A.OwnerFold;
  }

  /**
   Wherever a fault-free sequence of calls stands, it can be continued until every rank holds the result of the
   last call.
   */
  lemma CallsDeliver<E>(calls: seq<Call<E>>, f: (E, E) -> E, sms: int, world: nat,
                        states: seq<C.System<E>>, acts: seq<C.Act>)
    returns (states': seq<C.System<E>>, acts': seq<C.Act>)
    requires Admitted(calls, sms, world) && calls != [] && C.Calls(GroupOf(calls, f, sms, world), states, acts)
    requires T.Healthy(GroupOf(calls, f, sms, world), states[|acts|])
    ensures states <= states' && acts <= acts' && C.Calls(GroupOf(calls, f, sms, world), states', acts')
    ensures forall r: nat | r < world ::
      HoldsTensor(calls, f, sms, world, states'[|acts'|].hosts[r], |calls| - 1)
  {
    states', acts' := P.CallsComplete(GroupOf(calls, f, sms, world), states, acts);
    var k := |calls| - 1;
    forall r: nat | r < world ensures HoldsTensor(calls, f, sms, world, states'[|acts'|].hosts[r], k) {
      forall j | 0 <= j < calls[k].count ensures HoldsResult(calls, f, sms, world, states'[|acts'|].hosts[r], k, j) {
        FinishedCallTensor(calls, f, sms, world, states', acts', |acts'|, r, k, j);
      }
    }
  }

  ghost predicate HoldsTensor<E>(calls: seq<Call<E>>, f: (E, E) -> E, sms: int, world: nat, h: C.Host<E>, k: nat)
    requires Admitted(calls, sms, world) && k < |calls|
  {
    forall j | 0 <= j < calls[k].count :: HoldsResult(calls, f, sms, world, h, k, j)
  }
}

/** The whole collective: all channels of one call, read back as one tensor. */
module AllReduce {
  import opened ChannelLayout
  import R = Ring
  import T = RingTheorems

  /** f(x_c, f(x_{c-1}, ... f(x_{c+2}, x_{c+1}))) on element j, ranks modulo world. */
  function OwnerFold<E>(tensor: (nat, int) -> E, f: (E, E) -> E, world: nat, owner: nat, j: int, k: nat): E
    requires 0 < world && 1 <= k
  {
    var own := tensor((owner + k) % world, j);
    if k == 1 then own else f(own, OwnerFold(tensor, f, world, owner, j, k - 1))
  }

  /** The ring that channel ch runs on the tensors of all ranks. */
  function ChannelRing<E>(k: Geometry, tensor: (nat, int) -> E, f: (E, E) -> E, ch: int): R.Ring<E>
    requires Sound(k)
  {
    R.Ring(k.world, Loops(k, ch),
      (l: nat, c: nat) => if 0 < Length(k, ch, l, c) then Length(k, ch, l, c) else 0,
      (r: nat, a: R.Cell) => tensor(r, Index(k, Place(ch, a.loop, a.chunk, a.elem))),
      f)
  }

  /** The cell of its channel's ring that holds tensor element j. */
  function CellOf(k: Geometry, j: int): R.Cell
    requires Sound(k) && 0 <= j < k.count
  {
    LocateIsValid(k, j);
    var at := Locate(k, j);
    R.Cell(at.loop, at.chunk, at.elem)
  }

  lemma {:induction false} FoldOfElement<E>(k: Geometry, tensor: (nat, int) -> E, f: (E, E) -> E, j: int, m: nat)
    requires Sound(k) && 0 <= j < k.count && 1 <= m
    ensures R.Fold(ChannelRing(k, tensor, f, Locate(k, j).channel), CellOf(k, j), m)
         == OwnerFold(tensor, f, k.world, CellOf(k, j).chunk, j, m)
  {
    LocateIsValid(k, j);
    if m > 1 { FoldOfElement(k, tensor, f, j, m - 1); }
  }

  /**
   When every channel of rank r has finished with status 0, each element of its work buffer is the
   ring-ordered fold of that element over all ranks; the owner chunk fixes where the fold starts.
   */
  lemma FinishedTensor<E>(k: Geometry, tensor: (nat, int) -> E, f: (E, E) -> E,
                          states: seq<seq<R.State<E>>>, acts: seq<seq<R.Action>>, r: nat, j: int)
    requires Sound(k) && r < k.world && 0 <= j < k.count
    requires |states| == |acts| == k.channels
    requires forall ch | 0 <= ch < k.channels ::
      && R.Run(ChannelRing(k, tensor, f, ch), states[ch], acts[ch])
      && T.Finished(ChannelRing(k, tensor, f, ch), states[ch][|acts[ch]|][r])
    ensures var ch := Locate(k, j).channel;
      && 0 <= ch < k.channels
      && R.Run(ChannelRing(k, tensor, f, ch), states[ch], acts[ch])
      && states[ch][|acts[ch]|][r].work(CellOf(k, j))
         == OwnerFold(tensor, f, k.world, Locate(k, j).chunk, j, k.world)
    // the fold starts behind the rank that owns the element
    ensures 0 < k.world * k.base && 0 <= Locate(k, j).chunk
    ensures exists chunk :: OwnedBy(k, j, Locate(k, j).chunk, chunk)
  {
    OwnerIs(k, j);
    LocateIsValid(k, j);
    var ch := Locate(k, j).channel;
    T.FinishedRankHoldsFold(ChannelRing(k, tensor, f, ch), states[ch], acts[ch], |acts[ch]|, r, CellOf(k, j));
    FoldOfElement(k, tensor, f, j, k.world);
  }
}

/** How one all-reduce call is cut into channels, loop iterations and owner chunks. */
module ChannelLayout {
  import opened Arithmetic

  const CELL_BYTES := 16 * 1024
  const SIMPLE_CHANNEL_BYTES := 512 * 64
  const SIMPLE_CHUNK_BYTES := 2 * 1024 * 1024

  /** The arguments the host hands to the kernel; width is cells_per_channel * cell_elements. */
  datatype Geometry = Geometry(count: int, world: int, channels: int, width: int, base: int, align: int)

  predicate ItemSize(size: int) { size == 1 || size == 2 || size == 4 || size == 8 }

  function CellElements(itemsize: int): int
    requires ItemSize(itemsize)
  { Max(1, CELL_BYTES / itemsize) }

  function ActiveChannels(count: int, itemsize: int, sms: int): int
  { Min(sms, Max(1, count * itemsize / SIMPLE_CHANNEL_BYTES)) }

  function CellsPerChannel(count: int, itemsize: int, sms: int): int
    requires ItemSize(itemsize) && 0 < sms
  {
    CeilDiv(CeilDiv(count, CellElements(itemsize)), ActiveChannels(count, itemsize, sms))
  }

  function KernelArguments(count: int, itemsize: int, sms: int, world: int): Geometry
    requires ItemSize(itemsize) && 0 < sms
  {
    Geometry(count, world, ActiveChannels(count, itemsize, sms),
             CellsPerChannel(count, itemsize, sms) * CellElements(itemsize),
             Max(1, SIMPLE_CHUNK_BYTES / itemsize), Max(1, 16 / itemsize))
  }

  /** What the index arithmetic of the kernel relies on. */
  predicate Sound(k: Geometry) {
    && 0 < k.count && 2 <= k.world && 0 < k.channels && 0 < k.width && 0 < k.base && 0 < k.align
    && k.count <= k.channels * k.width
  }

  /** Enough channels of that width for every element: the roundings only ever go up. */
  lemma ArgumentsSound(count: int, itemsize: int, sms: int, world: int)
    requires ItemSize(itemsize) && 0 < count && 0 < sms && 2 <= world
    ensures Sound(KernelArguments(count, itemsize, sms, world))
  {
    WidthCovers(count, CellElements(itemsize), ActiveChannels(count, itemsize, sms));
  }

  /**
   The layout in numbers: as many channels as get 32768 bytes each, at most `sms` and at least one; a channel is
   the least number of 16 KiB cells that covers the tensor; a full chunk has 2 MiB and chunks are aligned to 16 bytes.
   */
  lemma ArgumentsExactly(count: int, itemsize: int, sms: int, world: int)
    requires ItemSize(itemsize) && 0 < count && 0 < sms
    ensures var k := KernelArguments(count, itemsize, sms, world);
      && k.count == count && k.world == world && k.base * itemsize == 2097152 && k.align * itemsize == 16
      && 1 <= k.channels <= sms && (k.channels == 1 || k.channels * 32768 <= count * itemsize)
      && (k.channels == sms || count * itemsize < (k.channels + 1) * 32768)
      && k.width % (16384 / itemsize) == 0
      && k.channels * (k.width - 16384 / itemsize) < count <= k.channels * k.width
  {
    var cell, active := CellElements(itemsize), ActiveChannels(count, itemsize, sms);
    var cells := CeilDiv(count, cell);
    var per := CeilDiv(cells, active);
    MulMonotone(itemsize, 1, count);
    DivMod(count * itemsize, 32768);
    ItemSizes(itemsize);
    WidthCovers(count, cell, active);
    WidthIsLeast(count, cell, active);
    DivModUnique(cell, per, 0);
  }

  lemma ItemSizes(itemsize: int)
    requires ItemSize(itemsize)
    ensures CellElements(itemsize) == 16384 / itemsize > 0
    ensures Max(1, SIMPLE_CHUNK_BYTES / itemsize) * itemsize == 2097152 && Max(1, 16 / itemsize) * itemsize == 16
  {
  }

  lemma WidthIsLeast(count: int, cell: int, active: int)
    requires 0 < count && 0 < cell && 0 < active
    ensures active * (CeilDiv(CeilDiv(count, cell), active) * cell - cell) < count
  {
    var cells := CeilDiv(count, cell);
    var per := CeilDiv(cells, active);
    CeilCovers(count, cell);
    CeilCovers(cells, active);
    Before(per, active);
    Before(cells, cell);
    MulMonotone(cell, (per - 1) * active, cells - 1);
    Associate(per - 1, active, cell);
    Before(per, cell);
  }

  lemma Before(x: int, y: int)
    ensures (x - 1) * y == x * y - y
  {
  }

  lemma WidthCovers(count: int, cell: int, active: int)
    requires 0 < count && 0 < cell && 0 < active
    ensures 0 < CeilDiv(CeilDiv(count, cell), active) * cell
    ensures count <= active * (CeilDiv(CeilDiv(count, cell), active) * cell)
  {
    var cells := CeilDiv(count, cell);
    var per := CeilDiv(cells, active);
    CeilCovers(count, cell);
    CeilCovers(cells, active);
    MulSign(cells, cell);
    MulSign(per, active);
    MulMonotone(cell, 1, per);
    MulMonotone(cell, cells, per * active);
    Associate(per, active, cell);
  }

  lemma Associate(x: int, y: int, z: int)
    ensures x * y * z == y * (x * z)
  {
  }

  // ---------------------------------------------------------------- the kernel's index arithmetic

  function LoopCount(k: Geometry): int { k.world * k.base }

  function ChannelCount(k: Geometry, ch: int): int { Min(k.count - ch * k.width, k.width) }

  /** Iterations of `for elem_offset in range(0, channel_count, loop_count)`. */
  function Loops(k: Geometry, ch: int): nat
    requires Sound(k)
  {
    LoopCountPositive(k);
    var count := ChannelCount(k, ch);
    if count <= 0 then 0
    else CeilCovers(count, LoopCount(k)); MulSign(CeilDiv(count, LoopCount(k)), LoopCount(k));
         CeilDiv(count, LoopCount(k))
  }

  function Remaining(k: Geometry, ch: int, l: int): int { ChannelCount(k, ch) - l * LoopCount(k) }

  function Chunk(k: Geometry, ch: int, l: int): int
    requires 0 < k.world && 0 < k.align
  {
    if Remaining(k, ch, l) < LoopCount(k)
    then CeilDiv(CeilDiv(Remaining(k, ch, l), k.world), k.align) * k.align
    else k.base
  }

  /** Elements of owner chunk c: what its sender sends and what its receiver reduces. */
  function Length(k: Geometry, ch: int, l: int, c: int): int
    requires 0 < k.world && 0 < k.align
  { Min(Chunk(k, ch, l), Max(0, Remaining(k, ch, l) - c * Chunk(k, ch, l))) }

  datatype Place = Place(channel: int, loop: int, chunk: int, elem: int)

  predicate Valid(k: Geometry, at: Place)
    requires Sound(k)
  {
    && 0 <= at.channel < k.channels
    && 0 <= at.loop < Loops(k, at.channel)
    && 0 <= at.chunk < k.world
    && 0 <= at.elem < Length(k, at.channel, at.loop, at.chunk)
  }

  /** Tensor index of a place. */
  function Index(k: Geometry, at: Place): int
    requires 0 < k.world && 0 < k.align
  {
    at.channel * k.width + (at.loop * LoopCount(k) + (at.chunk * Chunk(k, at.channel, at.loop) + at.elem))
  }

  /** The place of a tensor index. */
  function Locate(k: Geometry, j: int): Place
    requires Sound(k) && 0 <= j < k.count
  {
    LoopCountPositive(k);
    LocateDefined(k, j);
    var channel, inChannel := j / k.width, j % k.width;
    var loop, inLoop := inChannel / LoopCount(k), inChannel % LoopCount(k);
    var chunk := Chunk(k, channel, loop);
    Place(channel, loop, inLoop / chunk, inLoop % chunk)
  }

  // ---------------------------------------------------------------- the schedule tiles the tensor

  lemma LoopCountPositive(k: Geometry)
    requires Sound(k)
    ensures 0 < LoopCount(k)
  {
    MulMonotone(k.base, 2, k.world);
  }

  /** The remainder of the last loop fits into `world` rounded chunks. */
  lemma ChunkCovers(k: Geometry, ch: int, l: int)
    requires Sound(k) && 0 < Remaining(k, ch, l)
    ensures 0 < Chunk(k, ch, l)
    ensures Min(Remaining(k, ch, l), LoopCount(k)) <= k.world * Chunk(k, ch, l)
  {
    var r := Remaining(k, ch, l);
    if r < LoopCount(k) { RoundedChunkCovers(r, k.world, k.align); }
  }

  /**
   The chunk length, which fixes who owns an element: the full one while an iteration has a full one for every
   rank, and else the least aligned length of which `world` cover what is left.
   */
  lemma ChunkIsLeast(k: Geometry, ch: int, l: int)
    requires Sound(k) && 0 < Remaining(k, ch, l)
    ensures k.world * k.base <= Remaining(k, ch, l) ==> Chunk(k, ch, l) == k.base
    ensures Remaining(k, ch, l) < k.world * k.base ==>
      var chunk := Chunk(k, ch, l);
      && chunk % k.align == 0 && 0 < chunk
      && k.world * (chunk - k.align) < Remaining(k, ch, l) <= k.world * chunk
  {
    var r := Remaining(k, ch, l);
    if r < k.world * k.base {
      RoundedChunkCovers(r, k.world, k.align);
      WidthIsLeast(r, k.align, k.world);
      RoundingsCommute(r, k.world, k.align);
      DivModUnique(k.align, CeilDiv(CeilDiv(r, k.world), k.align), 0);
    }
  }

  /** Dividing among the ranks first or into aligned units first gives the same chunk. */
  lemma RoundingsCommute(r: int, world: int, align: int)
    requires 0 < r && 0 < world && 0 < align
    ensures CeilDiv(CeilDiv(r, world), align) == CeilDiv(CeilDiv(r, align), world)
  {
    var x, y := CeilDiv(CeilDiv(r, world), align), CeilDiv(CeilDiv(r, align), world);
    RoundedCovers(r, world, align);
    RoundedCovers(r, align, world);
    Associate(x, align, world);
    Associate(y, world, align);
    if x < y { MulMonotone(world, x, y - 1); MulMonotone(align, x * world, (y - 1) * world); }
    if y < x { MulMonotone(align, y, x - 1); MulMonotone(world, y * align, (x - 1) * align); }
  }

  /** ceil(ceil(r / x) / y) is the least q with q * y * x >= r. */
  lemma RoundedCovers(r: int, x: int, y: int)
    requires 0 < r && 0 < x && 0 < y
    ensures var q := CeilDiv(CeilDiv(r, x), y); (q - 1) * y * x < r <= q * y * x
  {
    var p := CeilDiv(r, x);
    var q := CeilDiv(p, y);
    CeilCovers(r, x);
    CeilCovers(p, y);
    MulMonotone(x, p, q * y);
    Before(q, y);
    MulMonotone(x, (q - 1) * y, p - 1);
    Before(p, x);
  }

  /**
   Rank `owner` owns element j, in chunks of this length: the iteration that holds j is cut into one chunk for each
   rank, full ones if it is full, and otherwise of the least aligned length that covers it.
   */
  predicate OwnedBy(k: Geometry, j: int, owner: nat, chunk: int)
    requires Sound(k) && 0 <= j < k.count && 0 < k.world * k.base
  {
    var full, x := k.world * k.base, j % k.width;
    var left := Min(k.count - j / k.width * k.width, k.width) - x / full * full;
    && (full <= left ==> chunk == k.base)
    && (left < full ==> chunk % k.align == 0 && k.world * (chunk - k.align) < left <= k.world * chunk)
    && 0 < chunk && owner * chunk <= x % full < owner * chunk + chunk
  }

  lemma OwnerIs(k: Geometry, j: int)
    requires Sound(k) && 0 <= j < k.count
    ensures var at := Locate(k, j);
      && 0 < k.world * k.base && 0 <= at.chunk < k.world
      && OwnedBy(k, j, at.chunk, Chunk(k, at.channel, at.loop))
  {
    LoopCountPositive(k);
    LocateIsValid(k, j);
    LocateDefined(k, j);
    var at := Locate(k, j);
    ChunkIsLeast(k, at.channel, at.loop);
    hide Chunk;
    DivMod(j % k.width % LoopCount(k), Chunk(k, at.channel, at.loop));
  }

  /** There is only one owner. */
  lemma OneOwner(k: Geometry, j: int, owner: nat, chunk: int, owner': nat, chunk': int)
    requires Sound(k) && 0 <= j < k.count && 0 < k.world * k.base
    requires OwnedBy(k, j, owner, chunk) && OwnedBy(k, j, owner', chunk')
    ensures owner == owner' && chunk == chunk'
  {
    var full, x := k.world * k.base, j % k.width;
    var left := Min(k.count - j / k.width * k.width, k.width) - x / full * full;
    if left < full {
      DivMod(chunk, k.align);
      DivMod(chunk', k.align);
      LeastMultiple(k.world, k.align, left, chunk / k.align, chunk' / k.align);
      LeastMultiple(k.world, k.align, left, chunk' / k.align, chunk / k.align);
    }
    QuotientUnique(chunk, owner, x % full - owner * chunk, owner', x % full - owner' * chunk);
  }

  lemma LeastMultiple(world: int, align: int, left: int, q: int, q': int)
    requires 0 < world && 0 < align && world * (q * align - align) < left && left <= world * (q' * align)
    ensures q <= q'
  {
    if q' < q {
      MulMonotone(align, q', q - 1);
      Before(q, align);
      MulMonotone(world, q' * align, q * align - align);
      Commuted(world, q' * align);
      Commuted(world, q * align - align);
    }
  }

  lemma Commuted(x: int, y: int)
    ensures x * y == y * x
  {
  }

  lemma RoundedChunkCovers(r: int, world: int, align: int)
    requires 0 < r && 0 < world && 0 < align
    ensures 0 < CeilDiv(CeilDiv(r, world), align) * align
    ensures r <= world * (CeilDiv(CeilDiv(r, world), align) * align)
  {
    var chunk := CeilDiv(r, world);
    CeilCovers(r, world);
    CeilCovers(chunk, align);
    MulSign(chunk, world);
    MulMonotone(world, chunk, CeilDiv(chunk, align) * align);
  }

  lemma LocateDefined(k: Geometry, j: int)
    requires Sound(k) && 0 <= j < k.count
    ensures 0 < LoopCount(k)
    ensures 0 < Chunk(k, j / k.width, j % k.width / LoopCount(k))
    ensures j % k.width < ChannelCount(k, j / k.width)
    ensures j % k.width % LoopCount(k) < Remaining(k, j / k.width, j % k.width / LoopCount(k))
  {
    LoopCountPositive(k);
    DivMod(j, k.width);
    DivMod(j % k.width, LoopCount(k));
    ChunkCovers(k, j / k.width, j % k.width / LoopCount(k));
  }

  /** Every element of the tensor has a place ... */
  lemma LocateIsValid(k: Geometry, j: int)
    requires Sound(k) && 0 <= j < k.count
    ensures Valid(k, Locate(k, j)) && Index(k, Locate(k, j)) == j
  {
    LocateDefined(k, j);
    var ch, x := j / k.width, j % k.width;
    var l, m := x / LoopCount(k), x % LoopCount(k);
    DivMod(j, k.width);
    DivMod(x, LoopCount(k));
    DivMod(m, Chunk(k, ch, l));
    QuotientBelow(j, k.width, k.channels);
    CeilCovers(ChannelCount(k, ch), LoopCount(k));
    QuotientBelow(x, LoopCount(k), Loops(k, ch));
    ChunkCovers(k, ch, l);
    QuotientBelow(m, Chunk(k, ch, l), k.world);
  }

  /** A valid place lies inside its loop iteration and its channel. */
  lemma InsideChannel(k: Geometry, at: Place)
    requires Sound(k) && Valid(k, at)
    ensures var inLoop := at.chunk * Chunk(k, at.channel, at.loop) + at.elem;
      && 0 <= inLoop < LoopCount(k)
      && 0 <= at.loop * LoopCount(k) + inLoop < ChannelCount(k, at.channel)
  {
    hide Chunk, CeilDiv, Loops, ChannelCount;
    var chunk, loopCount := Chunk(k, at.channel, at.loop), LoopCount(k);
    LoopCountPositive(k);
    InsideChunk(k, at);
    InsideLoop(k.world, chunk, at.chunk, at.elem);
    MulMonotone(loopCount, 0, at.loop);
  }

  lemma InsideChunk(k: Geometry, at: Place)
    requires Sound(k) && Valid(k, at)
    ensures var chunk, left := Chunk(k, at.channel, at.loop), Remaining(k, at.channel, at.loop);
      && at.elem < chunk && at.chunk * chunk + at.elem < left
      && (LoopCount(k) <= left ==> k.world * chunk == LoopCount(k))
  {
  }

  lemma InsideLoop(world: int, chunk: int, c: int, e: int)
    requires 0 <= c < world && 0 <= e < chunk
    ensures 0 <= c * chunk + e < world * chunk
  {
    MulMonotone(chunk, 0, c);
    MulMonotone(chunk, c + 1, world);
    assert (c + 1) * chunk == c * chunk + chunk;
  }

  /** ... and no two places share an element, so the schedule tiles [0, count) exactly once. */
  lemma IndexIsInjective(k: Geometry, at: Place)
    requires Sound(k) && Valid(k, at)
    ensures 0 <= Index(k, at) < k.count && Locate(k, Index(k, at)) == at
  {
    var chunk := Chunk(k, at.channel, at.loop);
    var inLoop := at.chunk * chunk + at.elem;
    var inChannel := at.loop * LoopCount(k) + inLoop;
    InsideChannel(k, at);
    MulMonotone(k.width, 0, at.channel);
    DivModUnique(k.width, at.channel, inChannel);
    DivModUnique(LoopCount(k), at.loop, inLoop);
    DivModUnique(chunk, at.chunk, at.elem);
  }

  // ---------------------------------------------------------------- alignment

  lemma Multiple(x: int, q: int)
    requires x % 16 == 0
    ensures q * x % 16 == 0
  {
    assert q * (16 * (x / 16)) == 16 * (q * (x / 16));
  }

  lemma ChunkAligned(k: Geometry, itemsize: int, ch: int, l: int)
    requires ItemSize(itemsize) && 0 < k.world
    requires k.base == Max(1, SIMPLE_CHUNK_BYTES / itemsize) && k.align == Max(1, 16 / itemsize)
    ensures Chunk(k, ch, l) * itemsize % 16 == 0
  {
    if Remaining(k, ch, l) < LoopCount(k) {
      var q := CeilDiv(CeilDiv(Remaining(k, ch, l), k.world), k.align);
      Associate(k.align, q, itemsize);
      Multiple(k.align * itemsize, q);
      assert q * k.align == k.align * q;
    }
  }

  lemma CellsAligned(itemsize: int)
    requires ItemSize(itemsize)
    ensures CellElements(itemsize) * itemsize % 16 == 0 && Max(1, SIMPLE_CHUNK_BYTES / itemsize) * itemsize % 16 == 0
  {
  }

  /** Every chunk starts on a 16-byte boundary of the 16-byte aligned work and scratch buffers. */
  lemma TransfersAligned(count: int, itemsize: int, sms: int, world: int, ch: int, l: int, c: int)
    requires ItemSize(itemsize) && 0 < count && 0 < sms && 2 <= world
    ensures Index(KernelArguments(count, itemsize, sms, world), Place(ch, l, c, 0)) * itemsize % 16 == 0
  {
    var k := KernelArguments(count, itemsize, sms, world);
    var chunk := Chunk(k, ch, l);
    CellsAligned(itemsize);
    ChunkAligned(k, itemsize, ch, l);
    hide Chunk, CellsPerChannel, CellElements, ActiveChannels;
    ThreeMultiples(itemsize, ch, CellsPerChannel(count, itemsize, sms), CellElements(itemsize),
                   l, world, k.base, c, chunk);
  }

  lemma ThreeMultiples(size: int, ch: int, per: int, cell: int, l: int, world: int, base: int, c: int, chunk: int)
    requires cell * size % 16 == 0 && base * size % 16 == 0 && chunk * size % 16 == 0
    ensures (ch * (per * cell) + (l * (world * base) + (c * chunk + 0))) * size % 16 == 0
  {
    var x, y, z := ch * (per * cell), l * (world * base), c * chunk;
    assert x * size % 16 == 0 by { Regroup(ch, per, cell, size); Multiple(cell * size, ch * per); }
    assert y * size % 16 == 0 by { Regroup(l, world, base, size); Multiple(base * size, l * world); }
    assert z * size % 16 == 0 by { Regroup(c, 1, chunk, size); Multiple(chunk * size, c); }
    Distribute(x, y, z, size);
    SumOfMultiples(x * size, y * size, z * size);
  }

  lemma SumOfMultiples(x: int, y: int, z: int)
    requires x % 16 == 0 && y % 16 == 0 && z % 16 == 0
    ensures (x + y + z) % 16 == 0
  {
  }

  lemma Regroup(x: int, y: int, z: int, w: int)
    ensures x * (y * z) * w == x * y * (z * w)
  {
  }

  lemma Distribute(x: int, y: int, z: int, w: int)
    ensures (x + (y + (z + 0))) * w == x * w + y * w + z * w
  {
  }
}

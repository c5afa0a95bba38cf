/** Splitting one namespace transfer into commands that respect the controller's limits. */
module NvmeTransfer {
  import opened Arithmetic
  import opened Bytes
  import opened Wrappers
  import opened NvmeCommand
  import NvmeQueue

  datatype Namespace = Namespace(nsid: nat, sizeLbas: nat, lbaSize: nat, maxTransfer: nat)

  /** What Identify and the transfer limit guarantee. */
  predicate Identified(ns: Namespace) {
    && 1 <= ns.nsid < 0x1_0000_0000 && ns.sizeLbas < 0x1_0000_0000_0000_0000
    && 0 < ns.lbaSize && ns.maxTransfer <= MAX_KEYED_SGL_LENGTH
  }

  /** The transfer limit: MDTS in units of the controller's page, zero meaning no limit. */
  function MaxTransferBytes(mpsMin: nat, mdts: nat): (r: nat)
    ensures r <= 0xFF_FFFF && (mdts != 0 ==> r <= PowerOfTwo(12 + mpsMin) * PowerOfTwo(mdts))
    ensures r == 0xFF_FFFF || (mdts != 0 && r == PowerOfTwo(12 + mpsMin) * PowerOfTwo(mdts))
  {
    if mdts == 0 then MAX_KEYED_SGL_LENGTH
    else if MAX_KEYED_SGL_LENGTH <= PowerOfTwo(12 + mpsMin) * PowerOfTwo(mdts) then MAX_KEYED_SGL_LENGTH
    else PowerOfTwo(12 + mpsMin) * PowerOfTwo(mdts)
  }

  /** A region that registration can hand out: its addresses and its key fit the descriptor. */
  predicate Registered(b: Buffer) {
    && 0 <= b.addr && 0 <= b.length && b.addr + b.length <= 0x1_0000_0000_0000_0000
    && 0 <= b.rkey < 0x1_0000_0000
  }

  // ---------------------------------------------------------------- the target

  /** Blocks in bytes. */
  function Size(ns: Namespace, blocks: nat): nat { blocks * ns.lbaSize }

  lemma SizeAdds(ns: Namespace, x: nat, y: nat)
    ensures Size(ns, x + y) == Size(ns, x) + Size(ns, y)
  {
  }

  datatype Store = Store(disk: seq<byte>, memory: seq<byte>)

  predicate Fits(ns: Namespace, s: Store, slba: nat, blocks: nat, addr: nat) {
    && slba + blocks <= ns.sizeLbas && |s.disk| == Size(ns, ns.sizeLbas)
    && addr + Size(ns, blocks) <= |s.memory|
    && Size(ns, slba) + Size(ns, blocks) <= |s.disk|
  }

  /** Move n bytes between the disk at `at` and the memory at `addr`. */
  function MoveBytes(opcode: int, s: Store, at: nat, n: nat, addr: nat): (r: Store)
    requires at + n <= |s.disk| && addr + n <= |s.memory|
    ensures |r.disk| == |s.disk| && |r.memory| == |s.memory|
    ensures opcode == 2 ==> r.disk == s.disk && r.memory[addr..addr + n] == s.disk[at..at + n]
    ensures opcode == 1 ==> r.memory == s.memory && r.disk[at..at + n] == s.memory[addr..addr + n]
  {
    if opcode == OPC_READ then s.(memory := Splice(s.memory, addr, s.disk[at..at + n]))
    else s.(disk := Splice(s.disk, at, s.memory[addr..addr + n]))
  }

  /** One transfer of a whole range. */
  function Move(opcode: int, ns: Namespace, s: Store, slba: nat, blocks: nat, addr: nat): Store
    requires Fits(ns, s, slba, blocks, addr)
  {
    MoveBytes(opcode, s, Size(ns, slba), Size(ns, blocks), addr)
  }

  /** The target moves what the command's own fields say, and nothing when they are inconsistent. */
  function Serve(ns: Namespace, s: Store, c: Command): Store {
    if c.nsid == ns.nsid && Fits(ns, s, c.slba, c.blocks, c.addr) && c.length == Size(ns, c.blocks)
    then Move(c.opcode, ns, s, c.slba, c.blocks, c.addr)
    else s
  }

  function ServeAll(ns: Namespace, s: Store, cs: seq<Command>): Store
    decreases cs
  {
    if cs == [] then s else ServeAll(ns, Serve(ns, s, cs[0]), cs[1..])
  }

  // ---------------------------------------------------------------- the split

  function MaxBlocks(ns: Namespace): nat
    requires 0 < ns.lbaSize
  {
    Min(65536, ns.maxTransfer / ns.lbaSize)
  }

  function Part(opcode: int, ns: Namespace, key: nat, slba: nat, count: nat, addr: nat): Command {
    Command(opcode, 0, ns.nsid, addr, Size(ns, count), key, slba, count)
  }

  function Plan(opcode: int, ns: Namespace, key: nat, slba: nat, blocks: nat, addr: nat, max: nat): seq<Command>
    requires 0 < max
    decreases blocks
  {
    if blocks == 0 then []
    else
      var count := Min(blocks, max);
      [Part(opcode, ns, key, slba, count, addr)]
      + Plan(opcode, ns, key, slba + count, blocks - count, addr + Size(ns, count), max)
  }

  /** A command takes as many blocks as the three limits allow. */
  lemma MaxBlocksIsLargest(ns: Namespace)
    requires 0 < ns.lbaSize
    ensures MaxBlocks(ns) <= 65536 && MaxBlocks(ns) * ns.lbaSize <= ns.maxTransfer
    ensures MaxBlocks(ns) == 65536 || ns.maxTransfer < (MaxBlocks(ns) + 1) * ns.lbaSize
  {
    DivMod(ns.maxTransfer, ns.lbaSize);
    MulMonotone(ns.lbaSize, MaxBlocks(ns), ns.maxTransfer / ns.lbaSize);
    OneMoreTime(ns.maxTransfer / ns.lbaSize, ns.lbaSize);
  }

  lemma OneMoreTime(x: int, y: int)
    ensures (x + 1) * y == x * y + y
  {
  }

  /** Every command but the last is full. */
  lemma {:induction false} FullExceptLast(opcode: int, ns: Namespace, key: nat, slba: nat, blocks: nat, addr: nat,
                                          max: nat, k: nat)
    requires 0 < max && k + 1 < |Plan(opcode, ns, key, slba, blocks, addr, max)|
    ensures Plan(opcode, ns, key, slba, blocks, addr, max)[k].blocks == max
    decreases blocks
  {
    var count := Min(blocks, max);
    if k > 0 { FullExceptLast(opcode, ns, key, slba + count, blocks - count, addr + Size(ns, count), max, k - 1); }
  }

  /** No command exceeds 65536 blocks, the controller's transfer limit or one descriptor, and none is empty. */
  lemma {:induction false} PlanWithinLimits(opcode: int, ns: Namespace, key: nat, slba: nat, blocks: nat, addr: nat,
                                            k: nat)
    requires Identified(ns) && 0 < MaxBlocks(ns)
    requires k < |Plan(opcode, ns, key, slba, blocks, addr, MaxBlocks(ns))|
    ensures var c := Plan(opcode, ns, key, slba, blocks, addr, MaxBlocks(ns))[k];
      1 <= c.blocks <= 65536 && 0 < c.length == Size(ns, c.blocks) <= ns.maxTransfer <= MAX_KEYED_SGL_LENGTH
    decreases blocks
  {
    var count := Min(blocks, MaxBlocks(ns));
    if k == 0 {
      DivMod(ns.maxTransfer, ns.lbaSize);
      MulMonotone(ns.lbaSize, count, ns.maxTransfer / ns.lbaSize);
      MulMonotone(ns.lbaSize, 1, count);
    } else {
      PlanWithinLimits(opcode, ns, key, slba + count, blocks - count, addr + Size(ns, count), k - 1);
    }
  }

  lemma FitsParts(ns: Namespace, s: Store, slba: nat, blocks: nat, addr: nat, count: nat)
    requires Fits(ns, s, slba, blocks, addr) && count <= blocks
    ensures Fits(ns, s, slba, count, addr)
    ensures Fits(ns, s, slba + count, blocks - count, addr + Size(ns, count))
    ensures Size(ns, slba + count) == Size(ns, slba) + Size(ns, count)
    ensures Size(ns, blocks) == Size(ns, count) + Size(ns, blocks - count)
  {
    hide Size;
    SizeAdds(ns, slba, count);
    SizeAdds(ns, count, blocks - count);
  }

  /** Moving a range in two parts, in order, is moving it at once. */
  lemma MoveInTwo(opcode: int, ns: Namespace, s: Store, slba: nat, blocks: nat, addr: nat, count: nat)
    requires Fits(ns, s, slba, blocks, addr) && count <= blocks
    ensures Fits(ns, s, slba, count, addr)
    ensures var s1 := Move(opcode, ns, s, slba, count, addr);
      && Fits(ns, s1, slba + count, blocks - count, addr + Size(ns, count))
      && Move(opcode, ns, s1, slba + count, blocks - count, addr + Size(ns, count))
          == Move(opcode, ns, s, slba, blocks, addr)
  {
    FitsParts(ns, s, slba, blocks, addr, count);
    hide Size, MoveBytes;
    TwoMoves(opcode, s, Size(ns, slba), Size(ns, count), Size(ns, blocks - count), addr);
  }

  lemma TwoMoves(opcode: int, s: Store, at: nat, n: nat, m: nat, addr: nat)
    requires at + n + m <= |s.disk| && addr + n + m <= |s.memory|
    ensures MoveBytes(opcode, MoveBytes(opcode, s, at, n, addr), at + n, m, addr + n)
        == MoveBytes(opcode, s, at, n + m, addr)
  {
    hide Splice;
    SpliceSlices(s.memory, addr, s.disk, at, n, m);
    SpliceSlices(s.disk, at, s.memory, addr, n, m);
  }

  /** How many of the blocks the first k commands carry. */
  function Carried(blocks: nat, max: nat, k: nat): nat { Min(k * max, blocks) }

  lemma CarriedStep(blocks: nat, max: nat, k: nat)
    requires 0 < max && 0 < k
    ensures var count := Min(blocks, max); Carried(blocks, max, k) == count + Carried(blocks - count, max, k - 1)
    ensures Carried(blocks, max, k) <= blocks
  {
    assert k * max == (k - 1) * max + max;
    MulMonotone(max, 0, k - 1);
  }

  /**
   Serving the first k commands of a plan, in order, is one transfer of the first k * max blocks: exactly
   those blocks, exactly the matching bytes of the buffer, and nothing else.
   */
  lemma {:induction false} PlanIsOneTransfer(opcode: int, ns: Namespace, key: nat, slba: nat, blocks: nat, addr: nat,
                                             max: nat, s: Store, k: nat)
    requires 0 < max && Fits(ns, s, slba, blocks, addr)
    requires k <= |Plan(opcode, ns, key, slba, blocks, addr, max)|
    ensures Fits(ns, s, slba, Carried(blocks, max, k), addr)
    ensures ServeAll(ns, s, Plan(opcode, ns, key, slba, blocks, addr, max)[..k])
         == Move(opcode, ns, s, slba, Carried(blocks, max, k), addr)
    decreases k
  {
    hide Size, Splice, Fits, Move, Plan, ServeAll, Carried;
    if k == 0 {
      PlanStart(opcode, ns, key, slba, blocks, addr, max, s);
    } else {
      var count, carried := Min(blocks, max), Carried(blocks, max, k);
      CarriedStep(blocks, max, k);
      FitsParts(ns, s, slba, blocks, addr, carried);
      MoveInTwo(opcode, ns, s, slba, blocks, addr, count);
      MoveInTwo(opcode, ns, s, slba, carried, addr, count);
      var s1 := Move(opcode, ns, s, slba, count, addr);
      PlanHead(opcode, ns, key, slba, blocks, addr, max, s, k);
      PlanIsOneTransfer(opcode, ns, key, slba + count, blocks - count, addr + Size(ns, count), max, s1, k - 1);
    }
  }

  lemma PlanHead(opcode: int, ns: Namespace, key: nat, slba: nat, blocks: nat, addr: nat, max: nat, s: Store, k: nat)
    requires 0 < max && 0 < k <= |Plan(opcode, ns, key, slba, blocks, addr, max)|
    requires Fits(ns, s, slba, Min(blocks, max), addr)
    ensures var count := Min(blocks, max);
      var rest := Plan(opcode, ns, key, slba + count, blocks - count, addr + Size(ns, count), max);
      && k - 1 <= |rest|
      && ServeAll(ns, s, Plan(opcode, ns, key, slba, blocks, addr, max)[..k])
         == ServeAll(ns, Move(opcode, ns, s, slba, count, addr), rest[..k - 1])
  {
    hide Size;
    var count := Min(blocks, max);
    var plan := Plan(opcode, ns, key, slba, blocks, addr, max);
    var rest := Plan(opcode, ns, key, slba + count, blocks - count, addr + Size(ns, count), max);
    assert plan == [Part(opcode, ns, key, slba, count, addr)] + rest;
    assert plan[..k][0] == plan[0] && plan[..k][1..] == rest[..k - 1];
    assert Serve(ns, s, plan[0]) == Move(opcode, ns, s, slba, count, addr);
  }

  lemma PlanStart(opcode: int, ns: Namespace, key: nat, slba: nat, blocks: nat, addr: nat, max: nat, s: Store)
    requires 0 < max && Fits(ns, s, slba, blocks, addr)
    ensures Carried(blocks, max, 0) == 0 && Fits(ns, s, slba, 0, addr)
    ensures ServeAll(ns, s, Plan(opcode, ns, key, slba, blocks, addr, max)[..0]) == s
        == Move(opcode, ns, s, slba, 0, addr)
  {
    FitsParts(ns, s, slba, blocks, addr, 0);
    assert Size(ns, 0) == 0 && Splice(s.memory, addr, []) == s.memory && Splice(s.disk, Size(ns, slba), []) == s.disk;
  }

  lemma {:induction false} PlanLength(opcode: int, ns: Namespace, key: nat, slba: nat, blocks: nat, addr: nat, max: nat)
    requires 0 < max
    ensures blocks <= |Plan(opcode, ns, key, slba, blocks, addr, max)| * max < blocks + max
    decreases blocks
  {
    if blocks > 0 {
      var count := Min(blocks, max);
      PlanLength(opcode, ns, key, slba + count, blocks - count, addr + Size(ns, count), max);
      var k := |Plan(opcode, ns, key, slba + count, blocks - count, addr + Size(ns, count), max)|;
      assert (k + 1) * max == k * max + max;
    }
  }

  /** Writing a range and reading it back, into any buffer, restores the data. */
  lemma WriteThenRead(ns: Namespace, key: nat, slba: nat, blocks: nat, max: nat, s: Store, from: nat, t: Store, to: nat)
    requires 0 < max && Fits(ns, s, slba, blocks, from)
    requires t.disk == ServeAll(ns, s, Plan(OPC_WRITE, ns, key, slba, blocks, from, max)).disk
    requires Fits(ns, t, slba, blocks, to)
    ensures var n := Size(ns, blocks);
      var u := ServeAll(ns, t, Plan(OPC_READ, ns, key, slba, blocks, to, max));
      u.disk == t.disk && u.memory == Splice(t.memory, to, s.memory[from..from + n])
  {
    hide Plan, ServeAll;
    var n, at := Size(ns, blocks), Size(ns, slba);
    WholePlan(OPC_WRITE, ns, key, slba, blocks, from, max, s);
    WholePlan(OPC_READ, ns, key, slba, blocks, to, max, t);
    SpliceReads(s.disk, at, s.memory[from..from + n]);
  }

  /** Serving a whole plan in order is one transfer of the whole range. */
  lemma WholePlan(opcode: int, ns: Namespace, key: nat, slba: nat, blocks: nat, addr: nat, max: nat, s: Store)
    requires 0 < max && Fits(ns, s, slba, blocks, addr)
    ensures ServeAll(ns, s, Plan(opcode, ns, key, slba, blocks, addr, max)) == Move(opcode, ns, s, slba, blocks, addr)
  {
    var plan := Plan(opcode, ns, key, slba, blocks, addr, max);
    PlanLength(opcode, ns, key, slba, blocks, addr, max);
    PlanIsOneTransfer(opcode, ns, key, slba, blocks, addr, max, s, |plan|);
    assert plan[..|plan|] == plan;
  }

  // ---------------------------------------------------------------- the loop

  datatype Reason = NotWholeBlocks | OutsideNamespace | OutsideBuffer | BlockTooLarge

  /** `execute` may raise, and so may building a command. */
  datatype Failure = Invalid(reason: Reason) | Refused(error: Error) | ExecuteRaised

  /** The number of blocks that are asked for: all that the rest of the buffer holds, unless it is given. */
  function Asked(ns: Namespace, buffer: Buffer, blocks: Option<int>, offset: int): int
    requires 0 < ns.lbaSize
  {
    if blocks.Some? then blocks.value else (buffer.length - offset) / ns.lbaSize
  }

  function Rejection(ns: Namespace, buffer: Buffer, slba: int, blocks: Option<int>, offset: int): Option<Reason>
    requires 0 < ns.lbaSize
  {
    var n := Asked(ns, buffer, blocks, offset);
    if blocks.None? && (buffer.length - offset) % ns.lbaSize != 0 then Some(NotWholeBlocks)
    else if n <= 0 || slba < 0 || slba + n > ns.sizeLbas then Some(OutsideNamespace)
    else if offset < 0 || n * ns.lbaSize > buffer.length - offset then Some(OutsideBuffer)
    else if MaxBlocks(ns) == 0 then Some(BlockTooLarge)
    else None
  }

  /** What the target decodes from the capsules. */
  ghost predicate Carries(capsules: seq<seq<byte>>, plan: seq<Command>) {
    && |capsules| <= |plan|
    && forall k | 0 <= k < |capsules| :: |capsules[k]| == 64 && Decode(capsules[k]) == Some(plan[k])
  }

  /** The commands of a transfer; what they carry where a field is too large cannot be sent. */
  function Planned(opcode: int, ns: Namespace, buffer: Buffer, lba: nat, remaining: nat, at: nat): seq<Command>
    requires 0 < ns.lbaSize && 0 < MaxBlocks(ns)
  {
    Plan(opcode, ns, Natural(buffer.rkey), lba, remaining, Natural(buffer.addr + at), MaxBlocks(ns))
  }

  /** The refusal of a command whose data starts `at` bytes into the buffer: its address or the key has no room. */
  function PartError(buffer: Buffer, at: nat): Option<Error> {
    if buffer.addr + at < 0 || buffer.addr + at >= 0x1_0000_0000_0000_0000 then Some(BadAddress)
    else if buffer.rkey < 0 || buffer.rkey >= 0x1_0000_0000 then Some(BadKey)
    else None
  }

  /** The k-th command's refusal. */
  function NthError(ns: Namespace, buffer: Buffer, offset: nat, k: nat): Option<Error>
    requires 0 < ns.lbaSize
  {
    PartError(buffer, offset + Size(ns, k * MaxBlocks(ns)))
  }

  method Transfer(opcode: int, ns: Namespace, buffer: Buffer, slba: int, blocks: Option<int>, offset: int,
                  executes: nat -> bool)
    returns (failure: Option<Failure>, issued: seq<seq<byte>>)
    requires Identified(ns) && (opcode == OPC_READ || opcode == OPC_WRITE)
    // the rejections, in order: a partial block, a range outside the namespace or the buffer, blocks too large to send
    ensures var room := buffer.length - offset;
      var whole := blocks.Some? || room % ns.lbaSize == 0;
      var n := if blocks.Some? then blocks.value else room / ns.lbaSize;
      var inNamespace := whole && 0 < n && 0 <= slba && slba + n <= ns.sizeLbas;
      var inBuffer := inNamespace && 0 <= offset && offset + n * ns.lbaSize <= buffer.length;
      && (failure == Some(Invalid(NotWholeBlocks)) <==> !whole)
      && (failure == Some(Invalid(OutsideNamespace)) <==> whole && !inNamespace)
      && (failure == Some(Invalid(OutsideBuffer)) <==> inNamespace && !inBuffer)
      && (failure == Some(Invalid(BlockTooLarge)) <==> inBuffer && ns.maxTransfer < ns.lbaSize)
      && (failure.Some? && failure.value.Invalid? ==> issued == [])
    ensures var reason := Rejection(ns, buffer, slba, blocks, offset);
      if reason.Some? then failure == Some(Invalid(reason.value)) && issued == []
      else Issued(Planned(opcode, ns, buffer, slba, Asked(ns, buffer, blocks, offset), offset),
                  ns, buffer, offset, failure, issued, executes)
  {
    issued := [];
    var available := buffer.length - offset;
    if blocks.None? && available % ns.lbaSize != 0 { return Some(Invalid(NotWholeBlocks)), []; }
    var n := if blocks.None? then available / ns.lbaSize else blocks.value;
    if n <= 0 || slba < 0 || slba + n > ns.sizeLbas { return Some(Invalid(OutsideNamespace)), []; }
    var total := n * ns.lbaSize;
    if offset < 0 || total > available { return Some(Invalid(OutsideBuffer)), []; }
    var max := Min(65536, ns.maxTransfer / ns.lbaSize);
    MaxBlocksIsLargest(ns);
    if max == 0 { return Some(Invalid(BlockTooLarge)), []; }
    MulMonotone(ns.lbaSize, 1, max);
    failure, issued := Issue(opcode, ns, buffer, slba, n, offset, max, executes);
  }

  /** The capsules carry a prefix of the plan, up to the first command that cannot be built or whose execute raises. */
  ghost predicate Issued(plan: seq<Command>, ns: Namespace, buffer: Buffer, offset: nat, failure: Option<Failure>,
                         issued: seq<seq<byte>>, executes: nat -> bool)
  {
    && 0 < ns.lbaSize
    && Carries(issued, plan)
    && (forall k | 0 <= k < |issued| :: NthError(ns, buffer, offset, k) == None)
    && (forall k | 0 <= k < |issued| - 1 :: executes(k))
    && match failure
       case None => |issued| == |plan| && (plan != [] ==> executes(|issued| - 1))
       case Some(ExecuteRaised) => issued != [] && !executes(|issued| - 1)
       case Some(Refused(error)) =>
         && |issued| < |plan| && (issued != [] ==> executes(|issued| - 1))
         && NthError(ns, buffer, offset, |issued|) == Some(error)
       case Some(Invalid(_)) => false
  }

  /** A buffer that registration handed out is never refused: only `execute` can end its transfer early. */
  lemma RegisteredIsNeverRefused(plan: seq<Command>, ns: Namespace, buffer: Buffer, slba: nat, blocks: nat, offset: nat,
                                 opcode: int, failure: Option<Failure>, issued: seq<seq<byte>>, executes: nat -> bool)
    requires Identified(ns) && 0 < MaxBlocks(ns) && Registered(buffer)
    requires offset + Size(ns, blocks) <= buffer.length && plan == Planned(opcode, ns, buffer, slba, blocks, offset)
    requires Issued(plan, ns, buffer, offset, failure, issued, executes)
    ensures failure == None || failure == Some(ExecuteRaised)
  {
    if failure.Some? && failure.value.Refused? {
      EveryPartFits(ns, buffer, slba, blocks, offset, opcode, |issued|);
    }
  }

  lemma EveryPartFits(ns: Namespace, buffer: Buffer, slba: nat, blocks: nat, offset: nat, opcode: int, k: nat)
    requires Identified(ns) && 0 < MaxBlocks(ns) && Registered(buffer)
    requires offset + Size(ns, blocks) <= buffer.length && k < |Planned(opcode, ns, buffer, slba, blocks, offset)|
    ensures NthError(ns, buffer, offset, k) == None
  {
    var n, max := |Planned(opcode, ns, buffer, slba, blocks, offset)|, MaxBlocks(ns);
    PlanLength(opcode, ns, buffer.rkey, slba, blocks, buffer.addr + offset, max);
    MulMonotone(max, k, n - 1);
    assert n * max == (n - 1) * max + max;
    MulMonotone(ns.lbaSize, k * max + 1, blocks);
    assert (k * max + 1) * ns.lbaSize == k * max * ns.lbaSize + ns.lbaSize;
  }

  /** The loop: the capsules so far carry a prefix of the plan, and the loop variables describe the rest. */
  ghost predicate OnPlan(plan: seq<Command>, issued: seq<seq<byte>>, opcode: int, ns: Namespace, buffer: Buffer,
                         offset: nat, lba: nat, remaining: nat, at: nat)
  {
    && 0 < ns.lbaSize && 0 < MaxBlocks(ns)
    && Carries(issued, plan)
    && plan[|issued|..] == Planned(opcode, ns, buffer, lba, remaining, at)
    && (0 < remaining ==> at == offset + Size(ns, |issued| * MaxBlocks(ns)))
    && (forall k | 0 <= k < |issued| :: NthError(ns, buffer, offset, k) == None)
  }

  /** Build the next command of a transfer. */
  method NextPart(opcode: int, ns: Namespace, buffer: Buffer, lba: nat, remaining: nat, at: nat, max: nat,
                  ghost plan: seq<Command>, ghost issued: seq<seq<byte>>, ghost offset: nat)
    returns (r: Result<seq<byte>, Error>, count: nat)
    requires Identified(ns) && (opcode == OPC_READ || opcode == OPC_WRITE)
    requires 0 < max == MaxBlocks(ns) && 0 < remaining && lba + remaining <= ns.sizeLbas
    requires at + Size(ns, remaining) <= buffer.length
    requires OnPlan(plan, issued, opcode, ns, buffer, offset, lba, remaining, at)
    ensures 1 <= count <= remaining && at + Size(ns, count) + Size(ns, remaining - count) <= buffer.length
    ensures r.Ok? ==>
      OnPlan(plan, issued + [r.value], opcode, ns, buffer, offset, lba + count, remaining - count, at + Size(ns, count))
    ensures r.Err? ==> |issued| < |plan| && NthError(ns, buffer, offset, |issued|) == Some(r.error)
  {
    count := Min(remaining, max);
    CountFits(ns, remaining, count);
    NextOnPlan(plan, issued, opcode, ns, buffer, offset, lba, remaining, at);
    hide Decode, Carries, OnPlan, Size, Plan, Planned, RwError, PartError, NthError;
    PartAccepted(opcode, ns, buffer, lba, count, at);
    r := RwCommand(opcode, ns.nsid, lba, count, buffer, ns.lbaSize, at);
    if r.Ok? {
      assert Size(ns, count) == count * ns.lbaSize by { SizeIs(ns, count); }
      OnPlanStep(plan, issued, opcode, ns, buffer, offset, lba, remaining, at, r.value);
    }
  }

  lemma SizeIs(ns: Namespace, count: nat)
    ensures Size(ns, count) == count * ns.lbaSize
  {
  }

  lemma NextOnPlan(plan: seq<Command>, issued: seq<seq<byte>>, opcode: int, ns: Namespace, buffer: Buffer,
                   offset: nat, lba: nat, remaining: nat, at: nat)
    requires 0 < remaining && OnPlan(plan, issued, opcode, ns, buffer, offset, lba, remaining, at)
    ensures |issued| < |plan| && NthError(ns, buffer, offset, |issued|) == PartError(buffer, at)
  {
    hide Decode, Size;
    assert plan[|issued|..] != [];
  }

  method Issue(opcode: int, ns: Namespace, buffer: Buffer, slba: nat, blocks: nat, offset: nat, max: nat,
               executes: nat -> bool)
    returns (failure: Option<Failure>, issued: seq<seq<byte>>)
    requires Identified(ns) && (opcode == OPC_READ || opcode == OPC_WRITE)
    requires 0 < max == MaxBlocks(ns) && slba + blocks <= ns.sizeLbas && offset + Size(ns, blocks) <= buffer.length
    ensures Issued(Planned(opcode, ns, buffer, slba, blocks, offset), ns, buffer, offset, failure, issued, executes)
    ensures failure.Some? ==> !failure.value.Invalid?
  {
    issued := [];
    var remaining: nat, at: nat, lba: nat := blocks, offset, slba;
    ghost var plan := Planned(opcode, ns, buffer, slba, blocks, offset);
    assert OnPlan(plan, issued, opcode, ns, buffer, offset, lba, remaining, at) by { assert plan[0..] == plan; }
    hide Decode, Carries, OnPlan, RwError, Identified, MaxBlocks, Size, Part, Plan, Planned, Issued, NthError;
    while remaining != 0
      invariant 0 <= remaining <= blocks && lba == slba + (blocks - remaining)
      invariant at + Size(ns, remaining) <= buffer.length
      invariant forall k | 0 <= k < |issued| :: executes(k)
      invariant OnPlan(plan, issued, opcode, ns, buffer, offset, lba, remaining, at)
      decreases remaining
    {
      var command, count := NextPart(opcode, ns, buffer, lba, remaining, at, max, plan, issued, offset);
      if command.Err? {
        failure := Some(Refused(command.error));
        OnPlanIssued(plan, issued, opcode, ns, buffer, offset, lba, remaining, at, failure, executes);
        return;
      }
      issued := issued + [command.value];
      lba := lba + count;
      at := at + Size(ns, count);
      remaining := remaining - count;
      if !executes(|issued| - 1) {
        failure := Some(ExecuteRaised);
        OnPlanIssued(plan, issued, opcode, ns, buffer, offset, lba, remaining, at, failure, executes);
        return;
      }
    }
    failure := None;
    OnPlanIssued(plan, issued, opcode, ns, buffer, offset, lba, remaining, at, failure, executes);
  }

  lemma OnPlanIssued(plan: seq<Command>, issued: seq<seq<byte>>, opcode: int, ns: Namespace, buffer: Buffer,
                     offset: nat, lba: nat, remaining: nat, at: nat, failure: Option<Failure>, executes: nat -> bool)
    requires OnPlan(plan, issued, opcode, ns, buffer, offset, lba, remaining, at)
    requires forall k | 0 <= k < |issued| - 1 :: executes(k)
    requires match failure
      case None => remaining == 0 && (issued != [] ==> executes(|issued| - 1))
      case Some(ExecuteRaised) => issued != [] && !executes(|issued| - 1)
      case Some(Refused(error)) =>
        && |issued| < |plan| && (issued != [] ==> executes(|issued| - 1))
        && NthError(ns, buffer, offset, |issued|) == Some(error)
      case Some(Invalid(_)) => false
    ensures Issued(plan, ns, buffer, offset, failure, issued, executes)
  {
    hide Decode, Size, NthError;
  }

  /** Within the namespace, the limits and the buffer, only the width of address and key can refuse a command. */
  lemma PartAccepted(opcode: int, ns: Namespace, buffer: Buffer, lba: nat, count: nat, at: nat)
    requires Identified(ns) && (opcode == OPC_READ || opcode == OPC_WRITE)
    requires 1 <= count <= 65536 && lba + count <= ns.sizeLbas
    requires 0 < Size(ns, count) <= ns.maxTransfer && at + Size(ns, count) <= buffer.length
    ensures RwError(opcode, ns.nsid, lba, count, buffer, ns.lbaSize, at) == PartError(buffer, at)
  {
  }

  lemma OnPlanStep(plan: seq<Command>, issued: seq<seq<byte>>, opcode: int, ns: Namespace, buffer: Buffer,
                   offset: nat, lba: nat, remaining: nat, at: nat, capsule: seq<byte>)
    requires 0 < remaining && OnPlan(plan, issued, opcode, ns, buffer, offset, lba, remaining, at)
    requires PartError(buffer, at) == None && |capsule| == 64
    requires Decode(capsule)
          == Some(Part(opcode, ns, buffer.rkey, lba, Min(remaining, MaxBlocks(ns)), buffer.addr + at))
    ensures var count := Min(remaining, MaxBlocks(ns));
      OnPlan(plan, issued + [capsule], opcode, ns, buffer, offset, lba + count, remaining - count, at + Size(ns, count))
  {
    var count, max := Min(remaining, MaxBlocks(ns)), MaxBlocks(ns);
    NextOnPlan(plan, issued, opcode, ns, buffer, offset, lba, remaining, at);
    assert remaining > count ==> Size(ns, (|issued| + 1) * max) == Size(ns, |issued| * max) + Size(ns, count) by {
      assert (|issued| + 1) * max == |issued| * max + max;
      SizeAdds(ns, |issued| * max, max);
    }
    hide Decode, Carries, Size, MaxBlocks;
    CarriesOneMore(issued, plan, capsule, Part(opcode, ns, buffer.rkey, lba, count, buffer.addr + at),
                   Planned(opcode, ns, buffer, lba + count, remaining - count, at + Size(ns, count)));
  }

  lemma CarriesOneMore(issued: seq<seq<byte>>, plan: seq<Command>, capsule: seq<byte>, c: Command, rest: seq<Command>)
    requires Carries(issued, plan) && plan[|issued|..] == [c] + rest
    requires |capsule| == 64 && Decode(capsule) == Some(c)
    ensures Carries(issued + [capsule], plan) && plan[|issued| + 1..] == rest
  {
    assert plan[|issued|..][0] == c;
    assert plan[|issued| + 1..] == plan[|issued|..][1..];
  }

  lemma CountFits(ns: Namespace, remaining: nat, count: nat)
    requires Identified(ns) && 0 < remaining && 0 < MaxBlocks(ns) && count == Min(remaining, MaxBlocks(ns))
    ensures 1 <= count <= 65536 && count <= remaining && 0 < Size(ns, count) <= ns.maxTransfer
    ensures Size(ns, remaining) == Size(ns, count) + Size(ns, remaining - count)
  {
    DivMod(ns.maxTransfer, ns.lbaSize);
    MulMonotone(ns.lbaSize, count, ns.maxTransfer / ns.lbaSize);
    MulMonotone(ns.lbaSize, 1, count);
    SizeAdds(ns, count, remaining - count);
  }

  /** The command id that the queue patches in does not disturb the transfer. */
  lemma PatchedCommand(bs: seq<byte>, cid: nat, ns: Namespace, s: Store)
    requires |bs| == 64 && Decode(bs).Some? && cid < 0x1_0000
    ensures var patched := Decode(NvmeQueue.Capsule(bs, cid));
      && patched == Some(Decode(bs).value.(cid := cid))
      && Serve(ns, s, patched.value) == Serve(ns, s, Decode(bs).value)
  {
    var p := NvmeQueue.Capsule(bs, cid);
    assert p[4..8] == bs[4..8] && p[24..32] == bs[24..32] && p[32..35] == bs[32..35] && p[35..39] == bs[35..39]
        && p[40..48] == bs[40..48] && p[48..50] == bs[48..50];
    assert p[2..4] == Little(cid, 2) by { assert Little(cid / 256, 1) == [(cid / 256) as byte] + []; }
    Widths();
    LittleRoundTrip(cid, 2);
  }
}

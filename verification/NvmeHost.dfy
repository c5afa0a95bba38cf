/** The host side of one NVMe/RDMA queue pair: command ids, pending requests, completions. */
module NvmeHost {
  import opened Wrappers

  /** A decoded completion entry. `origin` stands for the result and status, which identify the answered capsule. */
  datatype Answer = Answer(commandId: nat, origin: nat)

  /** What a pending request knows: which capsule it submitted and what has arrived for it. */
  datatype Entry = Entry(tag: nat, sent: bool, answer: Option<Answer>)

  datatype Finished = Finished(cid: nat, tag: nat, answer: Answer)

  datatype Host = Host(depth: nat, free: seq<nat>, pending: map<nat, Entry>, completed: seq<Finished>)

  /** Free and pending ids partition 0..depth-2. */
  ghost predicate Partition(h: Host) {
    && 2 <= h.depth
    && (forall i, j | 0 <= i < j < |h.free| :: h.free[i] != h.free[j])
    && (forall c :: c in h.free || c in h.pending <==> 0 <= c < h.depth - 1)
    && (forall c | c in h.free :: c !in h.pending)
  }

  function Submit(h: Host, tag: nat): Host
    requires h.free != []
  {
    h.(free := h.free[1..], pending := h.pending[h.free[0] := Entry(tag, false, None)])
  }

  /** A request finishes once its SEND completed and its answer arrived; only then is its id free again. */
  function Settle(h: Host, cid: nat): Host
    requires cid in h.pending
  {
    var e := h.pending[cid];
    if e.sent && e.answer.Some? then
      h.(free := h.free + [cid], pending := h.pending - {cid},
         completed := h.completed + [Finished(cid, e.tag, e.answer.value)])
    else h
  }

  function OnSend(h: Host, cid: nat): Option<Host> {
    if cid !in h.pending then None
    else Some(Settle(h.(pending := h.pending[cid := h.pending[cid].(sent := true)]), cid))
  }

  function OnAnswer(h: Host, a: Answer): Option<Host> {
    if a.commandId !in h.pending then None
    else Some(Settle(h.(pending := h.pending[a.commandId := h.pending[a.commandId].(answer := Some(a))]), a.commandId))
  }

  lemma InitialPartition(depth: nat)
    requires 2 <= depth
    ensures Partition(Host(depth, seq(depth - 1, i => i), map[], []))
  {
    var free := seq(depth - 1, i => i);
    forall c: nat ensures c in free <==> c < depth - 1 {
      if c < depth - 1 { assert free[c] == c; }
    }
  }

  lemma SubmitKeepsPartition(h: Host, tag: nat)
    requires Partition(h) && h.free != []
    ensures Partition(Submit(h, tag)) && h.free[0] !in h.pending
  {
    var h' := Submit(h, tag);
    assert h.free == [h.free[0]] + h.free[1..];
    forall c ensures c in h'.free || c in h'.pending <==> c in h.free || c in h.pending {
      if c in h.free && c != h.free[0] { assert c in h.free[1..]; }
    }
  }

  lemma SettleKeepsPartition(h: Host, cid: nat)
    requires Partition(h) && cid in h.pending
    ensures Partition(Settle(h, cid))
  {
  }

  lemma RetireKeepsPartition(depth: nat, free: seq<nat>, pending: map<nat, Entry>, cid: nat)
    requires Partition(Host(depth, free, pending, [])) && cid in pending
    ensures Partition(Host(depth, free + [cid], pending - {cid}, []))
  {
  }

  lemma EventsKeepPartition(h: Host, cid: nat, a: Answer)
    requires Partition(h)
    ensures OnSend(h, cid).Some? ==> Partition(OnSend(h, cid).value)
    ensures OnAnswer(h, a).Some? ==> Partition(OnAnswer(h, a).value)
  {
    if cid in h.pending {
      var h' := h.(pending := h.pending[cid := h.pending[cid].(sent := true)]);
      assert Partition(h');
      SettleKeepsPartition(h', cid);
    }
    if a.commandId in h.pending {
      var h' := h.(pending := h.pending[a.commandId := h.pending[a.commandId].(answer := Some(a))]);
      assert Partition(h');
      SettleKeepsPartition(h', a.commandId);
    }
  }

  // ---------------------------------------------------------------- polling

  const SEND_TAG: nat := 0x8000_0000_0000_0000
  const RECV_TAG: nat := 0x4000_0000_0000_0000
  const INDEX_SPAN: nat := 0x1_0000_0000

  datatype WorkCompletion = WorkCompletion(wrId: nat, byteLen: nat, success: bool)

  predicate IsSend(wc: WorkCompletion) { wc.wrId / SEND_TAG % 2 == 1 }

  predicate IsRecv(wc: WorkCompletion) { !IsSend(wc) && wc.wrId / RECV_TAG % 2 == 1 }

  function Index(wc: WorkCompletion): nat { wc.wrId % INDEX_SPAN }

  /** The ids that submit and the receive posts put on the wire are decoded back to their kind and index. */
  lemma WrIdRoundTrip(index: nat, byteLen: nat, success: bool)
    requires index < INDEX_SPAN
    ensures var wc := WorkCompletion(SEND_TAG + index, byteLen, success); IsSend(wc) && Index(wc) == index
    ensures var wc := WorkCompletion(RECV_TAG + index, byteLen, success); IsRecv(wc) && Index(wc) == index
  {
  }

  /** The network card: which receive slots it takes again, and what it writes into one as soon as it has it. */
  datatype Card = Card(takes: nat -> bool, lands: nat -> Answer)

  /** Outcome of handling one polled entry: the new host, the response buffer, and the slots that were posted again. */
  datatype Handled = Handled(host: Host, slots: seq<Answer>, reposted: seq<nat>, ok: bool)

  /** An answer is what its slot held before the slot was posted again. */
  function Handle(h: Host, slots: seq<Answer>, wc: WorkCompletion, card: Card): (r: Handled)
    requires |slots| == h.depth
    ensures r.host.depth == h.depth == |r.slots|
  {
    var slot := Index(wc);
    if !wc.success then Handled(h, slots, [], false)
    else if IsSend(wc) then
      match OnSend(h, slot)
      case None => Handled(h, slots, [], false)
      case Some(h') => Handled(h', slots, [], true)
    else if IsRecv(wc) then
      if wc.byteLen < 16 || slot >= h.depth || !card.takes(slot) then Handled(h, slots, [], false)
      else
        match OnAnswer(h, slots[slot])
        case None => Handled(h, slots[slot := card.lands(slot)], [slot], false)
        case Some(h') => Handled(h', slots[slot := card.lands(slot)], [slot], true)
    else Handled(h, slots, [], false)
  }

  /**
   Bit 63 of the id marks a SEND and bit 62 a receive, its low 32 bits are the command id or the slot.  An entry
   is handled exactly when it succeeded and names something pending; a slot is posted again before its answer
   is looked up, whether or not that names something pending.
   */
  lemma HandledExactly(h: Host, slots: seq<Answer>, wc: WorkCompletion, card: Card)
    requires |slots| == h.depth
    ensures var r, index := Handle(h, slots, wc, card), wc.wrId % 0x1_0000_0000;
      var send, receive := wc.wrId / 0x8000_0000_0000_0000 % 2 == 1, wc.wrId / 0x4000_0000_0000_0000 % 2 == 1;
      var arrived := wc.success && !send && receive && 16 <= wc.byteLen && index < h.depth && card.takes(index);
      && (r.ok <==>
          (wc.success && send && index in h.pending) || (arrived && slots[index].commandId in h.pending))
      && r.reposted == (if arrived then [index] else [])
      && r.slots == (if arrived then slots[index := card.lands(index)] else slots)
  {
  }

  /** What an event does to the request it names: both halves finish it, and its id becomes the last free one. */
  lemma EventExactly(h: Host, cid: nat, a: Answer)
    requires cid in h.pending && a.commandId == cid
    ensures var e := h.pending[cid];
      && OnSend(h, cid) == Some(
           if e.answer.Some? then
             Host(h.depth, h.free + [cid], h.pending - {cid}, h.completed + [Finished(cid, e.tag, e.answer.value)])
           else h.(pending := h.pending[cid := Entry(e.tag, true, None)]))
      && OnAnswer(h, a) == Some(
           if e.sent then Host(h.depth, h.free + [cid], h.pending - {cid}, h.completed + [Finished(cid, e.tag, a)])
           else h.(pending := h.pending[cid := Entry(e.tag, false, Some(a))]))
  {
    assert h.pending[cid := h.pending[cid].(sent := true)] - {cid} == h.pending - {cid};
    assert h.pending[cid := h.pending[cid].(answer := Some(a))] - {cid} == h.pending - {cid};
  }

  /** Entries are handled in order up to the first error; the rest of the polled batch is dropped. */
  function HandleAll(h: Host, slots: seq<Answer>, wcs: seq<WorkCompletion>, card: Card): (r: Handled)
    requires |slots| == h.depth
    ensures r.host.depth == h.depth == |r.slots|
  {
    if wcs == [] then Handled(h, slots, [], true)
    else
      var before := HandleAll(h, slots, wcs[..|wcs| - 1], card);
      if !before.ok then before
      else var last := Handle(before.host, before.slots, wcs[|wcs| - 1], card);
           last.(reposted := before.reposted + last.reposted)
  }

  lemma HandleAllStep(h: Host, slots: seq<Answer>, wcs: seq<WorkCompletion>, card: Card, i: nat)
    requires |slots| == h.depth && i < |wcs| && HandleAll(h, slots, wcs[..i], card).ok
    ensures var before := HandleAll(h, slots, wcs[..i], card);
      var last := Handle(before.host, before.slots, wcs[i], card);
      HandleAll(h, slots, wcs[..i + 1], card) == last.(reposted := before.reposted + last.reposted)
  {
    assert wcs[..i + 1][..i] == wcs[..i];
  }

  /** An error stops the batch: later entries are not looked at. */
  lemma {:induction false} HandleStops(h: Host, slots: seq<Answer>, wcs: seq<WorkCompletion>, card: Card, k: nat)
    requires |slots| == h.depth && k <= |wcs| && !HandleAll(h, slots, wcs[..k], card).ok
    ensures HandleAll(h, slots, wcs, card) == HandleAll(h, slots, wcs[..k], card)
  {
    if k == |wcs| {
      assert wcs[..k] == wcs;
    } else {
      assert wcs[..|wcs| - 1][..k] == wcs[..k];
      HandleStops(h, slots, wcs[..|wcs| - 1], card, k);
    }
  }
}

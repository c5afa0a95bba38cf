/**
 One NVMe/RDMA queue pair with its network card and its target.  Sends complete, the target answers,
 and the host polls in any order; entries may also be dropped by a poll that raises, receives may be
 flushed, and an answer slot may fail to be posted again.
 */
module NvmeSystem {
  import opened Sizes
  import opened Wrappers
  import opened NvmeHost

  /** What sits in the completion queue. A flushed receive carries no answer and has an error status. */
  datatype Cqe = SendDone(cid: nat) | Received(slot: nat) | Flushed(slot: nat)

  datatype System = System(
    host: Host,
    nextTag: nat,                // every submitted capsule gets a tag of its own
    sends: set<nat>,             // capsule SENDs posted and not completed
    target: map<nat, nat>,       // command id and tag of the capsules the target still has to answer
    posted: seq<nat>,            // receive slots, oldest first
    slots: seq<Answer>,          // the response buffer
    cq: seq<Cqe>,
    lost: set<Cqe>,              // entries a raising poll dropped or could not handle
    delivered: seq<Finished>)    // requests that polls have handed out

  datatype Action =
    | Post                       // the host submits a capsule
    | SendCompletes(cid: nat)
    | Respond(cid: nat)          // the target answers one capsule it has not answered before
    | FlushReceive
    | PollEntry(card: Card)      // the host handles the oldest entry
    | LoseEntry                  // an earlier entry of the same poll raised, or this one reports an error
    | HandOut                    // a poll returns the finished requests

  predicate Enabled(s: System, act: Action) {
    match act
    case Post => s.host.free != []
    case SendCompletes(cid) => cid in s.sends
    case Respond(cid) => cid in s.target && s.posted != []
    case FlushReceive => s.posted != []
    case PollEntry(_) => s.cq != [] && |s.slots| == s.host.depth
    case LoseEntry => s.cq != []
    case HandOut => true
  }

  function Completion(e: Cqe): WorkCompletion {
    match e
    case SendDone(cid) => WorkCompletion(SEND_TAG + cid, 0, true)
    case Received(slot) => WorkCompletion(RECV_TAG + slot, 16, true)
    case Flushed(slot) => WorkCompletion(RECV_TAG + slot, 0, false)
  }

  function PollOne(s: System, card: Card): System
    requires s.cq != [] && |s.slots| == s.host.depth
  {
    var r := Handle(s.host, s.slots, Completion(s.cq[0]), card);
    s.(host := r.host, slots := r.slots, posted := s.posted + r.reposted, cq := s.cq[1..],
       lost := if r.ok then s.lost else s.lost + {s.cq[0]})
  }

  function Apply(s: System, act: Action): System
    requires Enabled(s, act)
  {
    match act
    case Post =>
      var cid := s.host.free[0];
      s.(host := Submit(s.host, s.nextTag), nextTag := s.nextTag + 1, sends := s.sends + {cid},
         target := s.target[cid := s.nextTag])
    case SendCompletes(cid) => s.(sends := s.sends - {cid}, cq := s.cq + [SendDone(cid)])
    case Respond(cid) =>
      var slot := s.posted[0];
      s.(target := s.target - {cid}, posted := s.posted[1..], cq := s.cq + [Received(slot)],
         slots := if slot < |s.slots| then s.slots[slot := Answer(cid, s.target[cid])] else s.slots)
    case FlushReceive => s.(posted := s.posted[1..], cq := s.cq + [Flushed(s.posted[0])])
    case PollEntry(card) => PollOne(s, card)
    case LoseEntry => s.(cq := s.cq[1..], lost := s.lost + {s.cq[0]})
    case HandOut => s.(host := s.host.(completed := []), delivered := s.delivered + s.host.completed)
  }

  ghost predicate Init(s: System) {
    && 2 <= s.host.depth <= 256
    && s.host == Host(s.host.depth, seq(s.host.depth - 1, i => i), map[], [])
    && s.sends == {} && s.target == map[] && s.cq == [] && s.lost == {} && s.delivered == []
    && s.posted == seq(s.host.depth, i => i) && |s.slots| == s.host.depth
  }

  ghost predicate Run(run: seq<System>, acts: seq<Action>) {
    && |run| == |acts| + 1 && Init(run[0])
    && forall i | 0 <= i < |acts| :: Enabled(run[i], acts[i]) && run[i + 1] == Apply(run[i], acts[i])
  }

  // ---------------------------------------------------------------- the invariant

  type Pending = map<nat, Entry>

  /** Entries that exist and were not handled: still queued, or lost. */
  ghost function Seen(s: System): set<Cqe> { Members(s.cq) + s.lost }

  ghost predicate Entries(cq: seq<Cqe>, lost: set<Cqe>) {
    && (forall i, j | 0 <= i < j < |cq| :: cq[i] != cq[j])
    && (forall i | 0 <= i < |cq| :: cq[i] !in lost)
  }

  /** A SEND is outstanding, or its entry exists, or the request knows about it: never two of these. */
  ghost predicate Sends(pending: Pending, sends: set<nat>, seen: set<Cqe>) {
    && (forall c | c in sends :: c in pending && !pending[c].sent)
    && (forall c: nat | SendDone(c) in seen :: c in pending && !pending[c].sent && c !in sends)
    && (forall c | c in pending :: c in sends || SendDone(c) in seen || pending[c].sent)
  }

  /** A receive slot is posted, or its entry exists: never both, and never neither. */
  ghost predicate Slots(depth: nat, posted: seq<nat>, seen: set<Cqe>) {
    && (forall i, j | 0 <= i < j < |posted| :: posted[i] != posted[j])
    && (forall k | k in posted :: k < depth)
    && (forall k: nat | Received(k) in seen :: k < depth && k !in posted && Flushed(k) !in seen)
    && (forall k: nat | Flushed(k) in seen :: k < depth && k !in posted)
    && (forall k: nat | k < depth :: k in posted || Received(k) in seen || Flushed(k) in seen)
  }

  /** The slots whose answer was not handled. */
  ghost predicate Holds(depth: nat, seen: set<Cqe>, k: nat) { k < depth && Received(k) in seen }

  /** Capsules at the target, answers in unread slots and recorded answers carry the tag of the pending request. */
  ghost predicate Answers(pending: Pending, target: map<nat, nat>, slots: seq<Answer>, seen: set<Cqe>) {
    && (forall c | c in target :: c in pending && pending[c].answer == None && target[c] == pending[c].tag)
    && (forall k: nat | Holds(|slots|, seen, k) :: Unread(pending, target, slots[k]))
    && (forall k: nat, m: nat | Holds(|slots|, seen, k) && Holds(|slots|, seen, m) && k != m ::
          slots[k].commandId != slots[m].commandId)
    && (forall c | c in pending && pending[c].answer.Some? :: pending[c].answer == Some(Answer(c, pending[c].tag)))
  }

  ghost predicate Unread(pending: Pending, target: map<nat, nat>, a: Answer) {
    && a.commandId in pending && a.commandId !in target
    && pending[a.commandId].answer == None && pending[a.commandId].tag == a.origin
  }

  /** The answer to every pending request will come, is waiting in a slot, or was recorded. */
  ghost predicate Accounted(pending: Pending, target: map<nat, nat>, slots: seq<Answer>, seen: set<Cqe>) {
    forall c | c in pending :: c in target || pending[c].answer.Some? || AnswerWaits(slots, seen, c)
  }

  /** A request that has both halves does not stay pending. */
  ghost predicate Unfinished(pending: Pending) {
    forall c | c in pending :: !(pending[c].sent && pending[c].answer.Some?)
  }

  ghost predicate AnswerWaits(slots: seq<Answer>, seen: set<Cqe>, c: nat) {
    exists k: nat :: Holds(|slots|, seen, k) && slots[k].commandId == c
  }

  ghost predicate Tags(pending: Pending, nextTag: nat, fs: seq<Finished>) {
    && (forall c | c in pending :: pending[c].tag < nextTag)
    && (forall c, d | c in pending && d in pending && c != d :: pending[c].tag != pending[d].tag)
    && (forall i | 0 <= i < |fs| :: fs[i].tag < nextTag && fs[i].answer == Answer(fs[i].cid, fs[i].tag))
    && (forall i, c | 0 <= i < |fs| && c in pending :: fs[i].tag != pending[c].tag)
    && (forall i, j | 0 <= i < j < |fs| :: fs[i].tag != fs[j].tag)
  }

  function Finals(s: System): seq<Finished> { s.delivered + s.host.completed }

  ghost predicate Inv(s: System) {
    && s.host.depth <= 256 && Partition(s.host) && |s.slots| == s.host.depth
    && Entries(s.cq, s.lost)
    && Sends(s.host.pending, s.sends, Seen(s))
    && Slots(s.host.depth, s.posted, Seen(s))
    && Answers(s.host.pending, s.target, s.slots, Seen(s))
    && Accounted(s.host.pending, s.target, s.slots, Seen(s))
    && Unfinished(s.host.pending)
    && Tags(s.host.pending, s.nextTag, Finals(s))
  }

  // ---------------------------------------------------------------- every step keeps it

  lemma InitInv(s: System)
    requires Init(s)
    ensures Inv(s)
  {
    InitialPartition(s.host.depth);
    forall k: nat | k < s.host.depth ensures k in s.posted { assert s.posted[k] == k; }
  }

  lemma AnswersPost(pending: Pending, target: map<nat, nat>, slots: seq<Answer>, seen: set<Cqe>, cid: nat, tag: nat)
    requires Answers(pending, target, slots, seen) && Accounted(pending, target, slots, seen) && cid !in pending
    ensures var pending', target' := pending[cid := Entry(tag, false, None)], target[cid := tag];
      Answers(pending', target', slots, seen) && Accounted(pending', target', slots, seen)
  {
  }

  lemma PostKeepsInv(s: System)
    requires Inv(s) && Enabled(s, Post)
    ensures Inv(Apply(s, Post))
  {
    var s' := Apply(s, Post);
    var cid := s.host.free[0];
    SubmitKeepsPartition(s.host, s.nextTag);
    AnswersPost(s.host.pending, s.target, s.slots, Seen(s), cid, s.nextTag);
    assert Seen(s') == Seen(s) && Finals(s') == Finals(s);
    assert Sends(s'.host.pending, s'.sends, Seen(s'));
    assert Tags(s'.host.pending, s'.nextTag, Finals(s'));
  }

  /** Seeing more entries that hold no answer changes nothing about answers. */
  lemma AnswersMono(pending: Pending, target: map<nat, nat>, slots: seq<Answer>, seen: set<Cqe>, seen': set<Cqe>)
    requires Answers(pending, target, slots, seen) && Accounted(pending, target, slots, seen)
    requires forall k: nat :: Received(k) in seen <==> Received(k) in seen'
    ensures Answers(pending, target, slots, seen') && Accounted(pending, target, slots, seen')
  {
    forall k: nat ensures Holds(|slots|, seen, k) <==> Holds(|slots|, seen', k) {}
    forall c | AnswerWaits(slots, seen, c) ensures AnswerWaits(slots, seen', c) {
      var k: nat :| Holds(|slots|, seen, k) && slots[k].commandId == c;
      assert Holds(|slots|, seen', k);
    }
  }

  lemma SendCompletesKeepsInv(s: System, cid: nat)
    requires Inv(s) && Enabled(s, SendCompletes(cid))
    ensures Inv(Apply(s, SendCompletes(cid)))
  {
    var s' := Apply(s, SendCompletes(cid));
    assert Seen(s') == Seen(s) + {SendDone(cid)} && Finals(s') == Finals(s);
    assert Entries(s'.cq, s'.lost) by { assert SendDone(cid) !in Seen(s); }
    AnswersMono(s.host.pending, s.target, s.slots, Seen(s), Seen(s'));
    assert Sends(s'.host.pending, s'.sends, Seen(s'));
    assert Slots(s'.host.depth, s'.posted, Seen(s'));
  }

  /** The oldest posted slot leaves the queue of posted receives and its entry appears. */
  lemma TakeSlot(depth: nat, posted: seq<nat>, seen: set<Cqe>, e: Cqe)
    requires Slots(depth, posted, seen) && posted != [] && (e == Received(posted[0]) || e == Flushed(posted[0]))
    ensures Slots(depth, posted[1..], seen + {e}) && posted[0] < depth
    ensures Received(posted[0]) !in seen && Flushed(posted[0]) !in seen
  {
    assert posted[0] in posted;
    assert posted == [posted[0]] + posted[1..];
    assert posted[0] !in posted[1..];
    assert forall k | k in posted[1..] :: k in posted;
    forall k: nat | k < depth && k !in posted[1..] && k != posted[0] ensures Received(k) in seen || Flushed(k) in seen {
      assert k !in posted;
    }
  }

  lemma AnswersRespond(pending: Pending, target: map<nat, nat>, slots: seq<Answer>, seen: set<Cqe>, cid: nat, slot: nat)
    requires Answers(pending, target, slots, seen) && Accounted(pending, target, slots, seen)
    requires cid in target && slot < |slots| && Received(slot) !in seen
    ensures var target', slots', seen' := target - {cid}, slots[slot := Answer(cid, target[cid])],
        seen + {Received(slot)};
      Answers(pending, target', slots', seen') && Accounted(pending, target', slots', seen')
  {
    var target', slots', seen' := target - {cid}, slots[slot := Answer(cid, target[cid])], seen + {Received(slot)};
    forall k: nat ensures Holds(|slots'|, seen', k) <==> Holds(|slots|, seen, k) || k == slot {}
    forall c | c in pending && c !in target' && !pending[c].answer.Some? ensures AnswerWaits(slots', seen', c) {
      if c == cid {
        assert Holds(|slots'|, seen', slot);
      } else {
        var k: nat :| Holds(|slots|, seen, k) && slots[k].commandId == c;
        assert Holds(|slots'|, seen', k);
      }
    }
  }

  lemma SendsMono(pending: Pending, sends: set<nat>, seen: set<Cqe>, seen': set<Cqe>)
    requires Sends(pending, sends, seen)
    requires forall c: nat :: SendDone(c) in seen <==> SendDone(c) in seen'
    ensures Sends(pending, sends, seen')
  {
  }

  lemma RespondKeepsInv(s: System, cid: nat)
    requires Inv(s) && Enabled(s, Respond(cid))
    ensures Inv(Apply(s, Respond(cid)))
  {
    var s' := Apply(s, Respond(cid));
    var slot := s.posted[0];
    TakeSlot(s.host.depth, s.posted, Seen(s), Received(slot));
    assert Seen(s') == Seen(s) + {Received(slot)} && Finals(s') == Finals(s);
    AnswersRespond(s.host.pending, s.target, s.slots, Seen(s), cid, slot);
    hide Answers, Accounted, Tags, Sends, Partition, Slots;
    assert Entries(s'.cq, s'.lost);
    assert Sends(s'.host.pending, s'.sends, Seen(s')) by { SendsMono(s.host.pending, s.sends, Seen(s), Seen(s')); }
  }

  lemma FlushKeepsInv(s: System)
    requires Inv(s) && Enabled(s, FlushReceive)
    ensures Inv(Apply(s, FlushReceive))
  {
    var s' := Apply(s, FlushReceive);
    var slot := s.posted[0];
    TakeSlot(s.host.depth, s.posted, Seen(s), Flushed(slot));
    assert Seen(s') == Seen(s) + {Flushed(slot)} && Finals(s') == Finals(s);
    AnswersMono(s.host.pending, s.target, s.slots, Seen(s), Seen(s'));
    assert Entries(s'.cq, s'.lost);
  }

  lemma LoseKeepsInv(s: System)
    requires Inv(s) && Enabled(s, LoseEntry)
    ensures Inv(Apply(s, LoseEntry))
  {
    var s' := Apply(s, LoseEntry);
    assert s.cq == [s.cq[0]] + s.cq[1..];
    assert Seen(s') == Seen(s) && Finals(s') == Finals(s);
    assert Entries(s'.cq, s'.lost);
  }

  lemma HandOutKeepsInv(s: System)
    requires Inv(s)
    ensures Inv(Apply(s, HandOut))
  {
    assert Finals(Apply(s, HandOut)) == Finals(s) && Seen(Apply(s, HandOut)) == Seen(s);
  }

  // ---------------------------------------------------------------- polling

  lemma SettleHalves(h: Host, cid: nat, sends: set<nat>, target: map<nat, nat>, slots: seq<Answer>, seen: set<Cqe>)
    requires cid in h.pending && Sends(h.pending, sends, seen)
    requires Answers(h.pending, target, slots, seen) && Accounted(h.pending, target, slots, seen)
    requires forall c | c in h.pending && c != cid :: !(h.pending[c].sent && h.pending[c].answer.Some?)
    ensures var h' := Settle(h, cid);
      && Sends(h'.pending, sends, seen) && Unfinished(h'.pending)
      && Answers(h'.pending, target, slots, seen) && Accounted(h'.pending, target, slots, seen)
  {
  }

  lemma SettleTags(h: Host, cid: nat, nextTag: nat, delivered: seq<Finished>)
    requires cid in h.pending && Tags(h.pending, nextTag, delivered + h.completed)
    requires h.pending[cid].answer.Some? ==> h.pending[cid].answer == Some(Answer(cid, h.pending[cid].tag))
    ensures Tags(Settle(h, cid).pending, nextTag, delivered + Settle(h, cid).completed)
  {
    var h' := Settle(h, cid);
    var fs := delivered + h.completed;
    if h' != h {
      var f := Finished(cid, h.pending[cid].tag, h.pending[cid].answer.value);
      assert delivered + h'.completed == fs + [f];
    }
  }

  /** The request learns that its SEND completed; the entry is gone. */
  lemma MarkSent(pending: Pending, sends: set<nat>, target: map<nat, nat>, slots: seq<Answer>, seen: set<Cqe>, cid: nat)
    requires Sends(pending, sends, seen) && SendDone(cid) in seen
    requires Answers(pending, target, slots, seen) && Accounted(pending, target, slots, seen)
    ensures cid in pending && (pending[cid].answer.Some? ==> pending[cid].answer == Some(Answer(cid, pending[cid].tag)))
    ensures var pending', seen' := pending[cid := pending[cid].(sent := true)], seen - {SendDone(cid)};
      && Sends(pending', sends, seen')
      && Answers(pending', target, slots, seen') && Accounted(pending', target, slots, seen')
  {
    var pending', seen' := pending[cid := pending[cid].(sent := true)], seen - {SendDone(cid)};
    AnswersMono(pending, target, slots, seen, seen');
  }

  /** The request learns its answer; the entry is gone and the slot no longer counts. */
  lemma MarkAnswered(pending: Pending, sends: set<nat>, target: map<nat, nat>, slots: seq<Answer>, seen: set<Cqe>,
                     slot: nat, landed: Answer)
    requires Sends(pending, sends, seen) && Received(slot) in seen && slot < |slots|
    requires Answers(pending, target, slots, seen) && Accounted(pending, target, slots, seen)
    ensures slots[slot].commandId in pending && slots[slot].origin == pending[slots[slot].commandId].tag
    ensures var c := slots[slot].commandId;
      var pending', seen' := pending[c := pending[c].(answer := Some(slots[slot]))], seen - {Received(slot)};
      var slots' := slots[slot := landed];
      && Sends(pending', sends, seen')
      && Answers(pending', target, slots', seen') && Accounted(pending', target, slots', seen')
  {
    assert Holds(|slots|, seen, slot);
    var c := slots[slot].commandId;
    var pending', seen' := pending[c := pending[c].(answer := Some(slots[slot]))], seen - {Received(slot)};
    assert Unread(pending, target, slots[slot]);
    var slots' := slots[slot := landed];
    forall k: nat ensures Holds(|slots'|, seen', k) <==> Holds(|slots|, seen, k) && k != slot {}
    forall d | d in pending' && d != c && AnswerWaits(slots, seen, d) ensures AnswerWaits(slots', seen', d) {
      var k: nat :| Holds(|slots|, seen, k) && slots[k].commandId == d;
      assert Holds(|slots'|, seen', k);
    }
  }

  lemma ReturnSlot(depth: nat, posted: seq<nat>, seen: set<Cqe>, slot: nat)
    requires Slots(depth, posted, seen) && Received(slot) in seen
    ensures Slots(depth, posted + [slot], seen - {Received(slot)})
  {
    var posted', seen' := posted + [slot], seen - {Received(slot)};
    assert forall k | k in posted' :: k in posted || k == slot;
    assert forall k | k in posted :: k in posted';
    assert slot in posted';
  }

  lemma PendingBelowDepth(h: Host, cid: nat)
    requires Partition(h) && cid in h.pending
    ensures cid < h.depth - 1
  {
  }

  lemma SendEntry(s: System, card: Card)
    requires s.host.depth <= 256 && |s.slots| == s.host.depth && s.cq != [] && s.cq[0].SendDone?
    requires s.cq[0].cid in s.host.pending && s.cq[0].cid < s.host.depth
    ensures var cid := s.cq[0].cid;
      var h := s.host.(pending := s.host.pending[cid := s.host.pending[cid].(sent := true)]);
      OnSend(s.host, cid) == Some(Settle(h, cid)) && PollOne(s, card) == s.(host := Settle(h, cid), cq := s.cq[1..])
  {
    WrIdRoundTrip(s.cq[0].cid, 0, true);
  }

  lemma AnswerEntry(s: System, card: Card)
    requires s.host.depth <= 256 && |s.slots| == s.host.depth && s.cq != [] && s.cq[0].Received?
    requires s.cq[0].slot < s.host.depth && s.slots[s.cq[0].slot].commandId in s.host.pending
        && card.takes(s.cq[0].slot)
    ensures var slot := s.cq[0].slot;
      var a := s.slots[slot];
      var h := s.host.(pending := s.host.pending[a.commandId := s.host.pending[a.commandId].(answer := Some(a))]);
      && OnAnswer(s.host, a) == Some(Settle(h, a.commandId))
      && PollOne(s, card) == s.(host := Settle(h, a.commandId), slots := s.slots[slot := card.lands(slot)],
                                posted := s.posted + [slot], cq := s.cq[1..])
  {
    WrIdRoundTrip(s.cq[0].slot, 16, true);
  }

  /** A failed status, or a slot that cannot be posted again, loses the entry and nothing else. */
  lemma FailedEntry(s: System, card: Card)
    requires s.host.depth <= 256 && |s.slots| == s.host.depth && s.cq != []
    requires s.cq[0].Flushed? || (s.cq[0].Received? && !card.takes(s.cq[0].slot) && s.cq[0].slot < s.host.depth)
    ensures PollOne(s, card) == Apply(s, LoseEntry)
  {
    if s.cq[0].Received? { WrIdRoundTrip(s.cq[0].slot, 16, true); }
  }

  /**
   Handling an entry of an invariant state always finds its request: the two unknown-command-id errors cannot
   occur.
   */
  lemma PollSendKeepsInv(s: System, card: Card)
    requires Inv(s) && s.cq != [] && s.cq[0].SendDone?
    ensures Inv(PollOne(s, card)) && OnSend(s.host, s.cq[0].cid).Some?
  {
    hide Sends, Slots, Answers, Accounted, Tags, Entries, Partition;
    var s' := PollOne(s, card);
    var cid := s.cq[0].cid;
    assert SendDone(cid) in Seen(s);
    MarkSent(s.host.pending, s.sends, s.target, s.slots, Seen(s), cid);
    var h := s.host.(pending := s.host.pending[cid := s.host.pending[cid].(sent := true)]);
    assert cid < s.host.depth by { PendingBelowDepth(s.host, cid); }
    SendEntry(s, card);
    PopEntry(s, s');
    SettleHalves(h, cid, s.sends, s.target, s.slots, Seen(s'));
    EventsKeepPartition(s.host, cid, Answer(0, 0));
    MarkedTags(s.host.pending, h.pending, s.nextTag, Finals(s));
    SettleTags(h, cid, s.nextTag, s.delivered);
    SlotsMono(s.host.depth, s.posted, Seen(s), Seen(s'));
  }

  lemma MarkedTags(pending: Pending, pending': Pending, nextTag: nat, fs: seq<Finished>)
    requires Tags(pending, nextTag, fs) && pending'.Keys == pending.Keys
    requires forall c | c in pending :: pending'[c].tag == pending[c].tag
    ensures Tags(pending', nextTag, fs)
  {
  }

  lemma SlotsMono(depth: nat, posted: seq<nat>, seen: set<Cqe>, seen': set<Cqe>)
    requires Slots(depth, posted, seen)
    requires forall k: nat ::
      (Received(k) in seen <==> Received(k) in seen') && (Flushed(k) in seen <==> Flushed(k) in seen')
    ensures Slots(depth, posted, seen')
  {
  }

  lemma PopEntry(s: System, s': System)
    requires Entries(s.cq, s.lost) && s.cq != [] && s'.cq == s.cq[1..]
    ensures s'.lost == s.lost ==> Seen(s') == Seen(s) - {s.cq[0]} && Entries(s'.cq, s'.lost)
    ensures s'.lost == s.lost + {s.cq[0]} ==> Seen(s') == Seen(s) && Entries(s'.cq, s'.lost)
  {
    assert s.cq == [s.cq[0]] + s.cq[1..];
    assert s.cq[0] !in s.cq[1..];
  }

  lemma PollAnswerKeepsInv(s: System, card: Card)
    requires Inv(s) && s.cq != [] && s.cq[0].Received? && card.takes(s.cq[0].slot)
    ensures Inv(PollOne(s, card)) && s.cq[0].slot < |s.slots| && OnAnswer(s.host, s.slots[s.cq[0].slot]).Some?
  {
    var slot := s.cq[0].slot;
    assert Received(slot) in Seen(s) && slot < s.host.depth;
    hide Sends, Slots, Answers, Accounted, Tags, Entries, Partition;
    var s' := PollOne(s, card);
    MarkAnswered(s.host.pending, s.sends, s.target, s.slots, Seen(s), slot, card.lands(slot));
    var a := s.slots[slot];
    var cid := a.commandId;
    var h := s.host.(pending := s.host.pending[cid := s.host.pending[cid].(answer := Some(a))]);
    AnswerEntry(s, card);
    PopEntry(s, s');
    SettleHalves(h, cid, s.sends, s.target, s'.slots, Seen(s'));
    EventsKeepPartition(s.host, cid, a);
    MarkedTags(s.host.pending, h.pending, s.nextTag, Finals(s));
    SettleTags(h, cid, s.nextTag, s.delivered);
    ReturnSlot(s.host.depth, s.posted, Seen(s), slot);
  }

  lemma PollKeepsInv(s: System, card: Card)
    requires Inv(s) && Enabled(s, PollEntry(card))
    ensures Inv(Apply(s, PollEntry(card)))
  {
    var e := s.cq[0];
    assert e in Seen(s);
    if e.SendDone? {
      PollSendKeepsInv(s, card);
    } else if e.Received? && card.takes(e.slot) {
      PollAnswerKeepsInv(s, card);
    } else {
      FailedEntry(s, card);
      LoseKeepsInv(s);
    }
  }

  lemma StepKeepsInv(s: System, act: Action)
    requires Inv(s) && Enabled(s, act)
    ensures Inv(Apply(s, act))
  {
    match act
    case Post => PostKeepsInv(s);
    case SendCompletes(cid) => SendCompletesKeepsInv(s, cid);
    case Respond(cid) => RespondKeepsInv(s, cid);
    case FlushReceive => FlushKeepsInv(s);
    case PollEntry(card) => PollKeepsInv(s, card);
    case LoseEntry => LoseKeepsInv(s);
    case HandOut => HandOutKeepsInv(s);
  }

  lemma {:induction false} RunKeepsInv(run: seq<System>, acts: seq<Action>, i: nat)
    requires Run(run, acts) && i < |run|
    ensures Inv(run[i])
  {
    if i == 0 {
      InitInv(run[0]);
    } else {
      RunKeepsInv(run, acts, i - 1);
      StepKeepsInv(run[i - 1], acts[i - 1]);
    }
  }

  // ---------------------------------------------------------------- what holds in every run

  /**
   In every reachable state free and pending ids partition 0..depth-2, a finished request holds the answer
   to its own capsule, and no capsule is finished twice.
   */
  lemma ResponsesAreAttributed(run: seq<System>, acts: seq<Action>, i: nat)
    requires Run(run, acts) && i < |run|
    ensures Partition(run[i].host)
    ensures var fs := Finals(run[i]);
      && (forall k | 0 <= k < |fs| :: fs[k].answer == Answer(fs[k].cid, fs[k].tag))
      && (forall k, m | 0 <= k < m < |fs| :: fs[k].tag != fs[m].tag)
  {
    RunKeepsInv(run, acts, i);
  }

  /**
   A free id is quiet: no SEND of it is outstanding, the target owes it nothing, and no entry or unread
   answer names it.  So the next capsule with this id cannot meet anything left over from the previous one.
   */
  lemma FreeIdsAreQuiet(run: seq<System>, acts: seq<Action>, i: nat, cid: nat)
    requires Run(run, acts) && i < |run| && cid in run[i].host.free
    ensures var s := run[i];
      && cid !in s.sends && cid !in s.target && SendDone(cid) !in Seen(s)
      && forall k: nat | k < |s.slots| && Received(k) in Seen(s) :: s.slots[k].commandId != cid
  {
    RunKeepsInv(run, acts, i);
    var s := run[i];
    forall k: nat | k < |s.slots| && Received(k) in Seen(s) ensures s.slots[k].commandId != cid {
      assert Holds(|s.slots|, Seen(s), k);
    }
  }

  /** Polling raises for a bad status or a failed receive post, and never because a command id is unknown. */
  lemma PollNeverMeetsUnknownId(run: seq<System>, acts: seq<Action>, i: nat, card: Card)
    requires Run(run, acts) && i < |run| && run[i].cq != []
    ensures |run[i].slots| == run[i].host.depth
    ensures var e := run[i].cq[0];
      Handle(run[i].host, run[i].slots, Completion(e), card).ok
      <==> (e.SendDone? || (e.Received? && card.takes(e.slot)))
  {
    RunKeepsInv(run, acts, i);
    HandledExactlyWhen(run[i], card);
  }

  lemma HandledExactlyWhen(s: System, card: Card)
    requires Inv(s) && s.cq != []
    ensures var e := s.cq[0];
      Handle(s.host, s.slots, Completion(e), card).ok <==> (e.SendDone? || (e.Received? && card.takes(e.slot)))
  {
    var e := s.cq[0];
    assert e in Seen(s);
    assert e.Received? ==> e.slot < s.host.depth;
    assert e.SendDone? ==> e.cid in s.host.pending;
    hide Sends, Slots, Answers, Accounted, Tags, Entries, Partition;
    if e.SendDone? {
      PollSendKeepsInv(s, card);
      PendingBelowDepth(s.host, e.cid);
      SendHandled(s, card);
    } else if e.Received? {
      if card.takes(e.slot) { PollAnswerKeepsInv(s, card); }
      AnswerHandled(s, card);
    }
  }

  lemma SendHandled(s: System, card: Card)
    requires s.host.depth <= 256 && |s.slots| == s.host.depth && s.cq != [] && s.cq[0].SendDone?
        && s.cq[0].cid < s.host.depth
    ensures Handle(s.host, s.slots, Completion(s.cq[0]), card).ok <==> OnSend(s.host, s.cq[0].cid).Some?
  {
    WrIdRoundTrip(s.cq[0].cid, 0, true);
    hide OnSend, OnAnswer;
  }

  lemma AnswerHandled(s: System, card: Card)
    requires s.host.depth <= 256 && |s.slots| == s.host.depth && s.cq != [] && s.cq[0].Received?
        && s.cq[0].slot < s.host.depth
    ensures Handle(s.host, s.slots, Completion(s.cq[0]), card).ok
       <==> card.takes(s.cq[0].slot) && OnAnswer(s.host, s.slots[s.cq[0].slot]).Some?
  {
    WrIdRoundTrip(s.cq[0].slot, 16, true);
    hide OnSend, OnAnswer;
  }

  function Code(depth: nat, e: Cqe): nat {
    match e
    case SendDone(cid) => cid
    case Received(slot) => depth + slot
    case Flushed(slot) => depth + slot
  }

  /** What the entries of a completion queue look like. */
  ghost predicate InRange(depth: nat, entries: set<Cqe>, sends: set<nat>) {
    && (forall c | c in sends :: c < depth - 1 && SendDone(c) !in entries)
    && (forall c: nat | SendDone(c) in entries :: c < depth - 1)
    && (forall k: nat | Received(k) in entries :: k < depth && Flushed(k) !in entries)
    && (forall k: nat | Flushed(k) in entries :: k < depth)
  }

  lemma OpenEntries(depth: nat, entries: set<Cqe>, sends: set<nat>)
    requires 1 <= depth && InRange(depth, entries, sends)
    ensures |entries| + |sends| <= 2 * depth - 1
  {
    var waiting := set c | c in sends :: SendDone(c);
    SendEntries(sends);
    assert entries !! waiting;
    CodesFit(depth, entries + waiting);
  }

  /** Entries with ids below depth - 1 and slots below depth: there are not more than that. */
  lemma CodesFit(depth: nat, entries: set<Cqe>)
    requires 1 <= depth
    requires forall e | e in entries :: if e.SendDone? then e.cid < depth - 1 else e.slot < depth
    requires forall k: nat | Received(k) in entries :: Flushed(k) !in entries
    ensures |entries| <= 2 * depth - 1
  {
    var image := Naturals(2 * depth) - {depth - 1};
    var code := (e: Cqe) => Code(depth, e);
    forall e | e in entries ensures code(e) in image {}
    ImageSize(entries, code, image);
  }

  lemma QueueBound(s: System)
    requires Inv(s)
    ensures |s.cq| + |s.sends| <= 2 * s.host.depth - 1
  {
    hide Answers, Accounted, Tags;
    forall c | c in s.host.pending ensures c < s.host.depth - 1 { PendingBelowDepth(s.host, c); }
    assert forall e | e in Members(s.cq) :: e in Seen(s);
    assert InRange(s.host.depth, Members(s.cq), s.sends);
    OpenEntries(s.host.depth, Members(s.cq), s.sends);
    MembersSize(s.cq);
  }

  lemma {:induction false} SendEntries(sends: set<nat>)
    ensures |set c | c in sends :: SendDone(c)| == |sends|
    decreases sends
  {
    var entries := set c | c in sends :: SendDone(c);
    if sends == {} {
      assert entries == {};
    } else {
      var c :| c in sends;
      SendEntries(sends - {c});
      assert entries == (set d | d in sends - {c} :: SendDone(d)) + {SendDone(c)};
    }
  }

  /** Receive slots that came back with an error status. */
  ghost function FlushedSlots(s: System): set<nat> { set k | k in Naturals(s.host.depth) && Flushed(k) in Seen(s) }

  /** Slots with an unread answer answer different commands, none of which the target still has. */
  lemma AnswersFit(depth: nat, waiting: set<nat>, slots: seq<Answer>, target: set<nat>)
    requires 1 <= depth == |slots| && forall k | k in waiting :: k < depth
    requires forall c | c in target :: c < depth - 1
    requires forall k | k in waiting :: slots[k].commandId < depth - 1 && slots[k].commandId !in target
    requires forall k, m | k in waiting && m in waiting && k != m :: slots[k].commandId != slots[m].commandId
    ensures |waiting| + |target| <= depth - 1
  {
    var ids := (k: nat) => if k < |slots| then slots[k].commandId else 0;
    var rest := Naturals(depth - 1) - target;
    ImageSize(waiting, ids, rest);
    assert Naturals(depth - 1) == rest + target;
  }

  ghost function WaitingSlots(s: System): set<nat> { set k | k in Naturals(s.host.depth) && Received(k) in Seen(s) }

  lemma WaitingFits(s: System)
    requires Inv(s)
    ensures |WaitingSlots(s)| + |s.target| <= s.host.depth - 1
  {
    hide Sends, Slots, Accounted, Tags, Entries;
    forall c | c in s.host.pending ensures c < s.host.depth - 1 { PendingBelowDepth(s.host, c); }
    assert forall k | k in WaitingSlots(s) :: Holds(|s.slots|, Seen(s), k);
    AnswersFit(s.host.depth, WaitingSlots(s), s.slots, s.target.Keys);
  }

  lemma ReceiveBound(s: System)
    requires Inv(s)
    ensures |s.posted| + |FlushedSlots(s)| > |s.target|
  {
    WaitingFits(s);
    hide Sends, Answers, Accounted, Tags, Entries;
    assert Naturals(s.host.depth) == Members(s.posted) + WaitingSlots(s) + FlushedSlots(s);
    MembersSize(s.posted);
  }

  /**
   The queue sizes suffice in every reachable state: unpolled completions stay below the completion queue's
   2 * depth + 1, outstanding SENDs below the send queue's depth, and every unanswered command has a posted
   receive left unless receives were flushed.  A slot with an unread answer is not posted.
   */
  lemma QueueSizesSuffice(run: seq<System>, acts: seq<Action>, i: nat)
    requires Run(run, acts) && i < |run|
    ensures var s := run[i]; var depth := s.host.depth;
      && |s.cq| <= 2 * depth - 1 < 2 * depth + 1
      && |s.sends| <= depth - 1 && |s.posted| <= depth
      && |s.posted| + |FlushedSlots(s)| > |s.target|
      && forall k: nat | Received(k) in s.cq :: k !in s.posted
  {
    RunKeepsInv(run, acts, i);
    var s := run[i];
    QueueBound(s);
    ReceiveBound(s);
    SubsetSize(s.sends, Naturals(s.host.depth - 1));
    MembersSize(s.posted);
    SubsetSize(Members(s.posted), Naturals(s.host.depth));
    assert forall k: nat | Received(k) in s.cq :: Received(k) in Seen(s);
  }

  /**
   Nothing leaks: with no entry lost, a queue that has nothing outstanding has every id free and every slot
   posted.
   */
  lemma QuietQueueIsWhole(run: seq<System>, acts: seq<Action>, i: nat)
    requires Run(run, acts) && i < |run|
    requires run[i].lost == {} && run[i].cq == [] && run[i].sends == {} && run[i].target == map[]
    ensures run[i].host.pending == map[]
    ensures forall c: nat :: c in run[i].host.free <==> c < run[i].host.depth - 1
    ensures forall k: nat :: k in run[i].posted <==> k < run[i].host.depth
  {
    RunKeepsInv(run, acts, i);
    var s := run[i];
    assert Seen(s) == {};
    forall c ensures c !in s.host.pending {
      assert !AnswerWaits(s.slots, Seen(s), c);
    }
  }
}

/** The queue object itself: request objects, capsule memory, and the deque of free command ids. */
module NvmeQueue {
  import opened Bytes
  import opened Wrappers
  import opened NvmeHost

  class Request {
    const commandId: nat
    ghost const tag: nat          // which capsule this request submitted
    var sendComplete: bool
    var response: Option<Answer>
    var done: bool

    constructor (commandId: nat, ghost tag: nat)
      ensures this.commandId == commandId && this.tag == tag && !sendComplete && response == None && !done
    {
      this.commandId, this.tag := commandId, tag;
      sendComplete, response, done := false, None, false;
    }
  }

  datatype Refusal = Closed | BadLength | QueueFull | PostFailed

  /**
   One poll of `execute`: the entries it got, the response buffer it saw, and whether the deadline had passed
   after it.
   */
  datatype Round = Round(wcs: seq<WorkCompletion>, slots: seq<Answer>, late: bool)

  datatype Outcome = Answered(answer: Answer) | Refused(refusal: Refusal) | Raised | TimedOut

  /** The 64 bytes that go out: the caller's command with its command id patched in, little-endian. */
  function Capsule(command: seq<byte>, cid: nat): seq<byte>
    requires |command| == 64 && cid < 0x1_0000
  {
    command[2 := (cid % 256) as byte][3 := (cid / 256) as byte]
  }

  class RDMAQueue {
    const depth: nat
    const commands: array<byte>
    const responses: array<Answer>    // what the completion entries in the response buffer decode to
    var free: seq<nat>
    var pending: map<nat, Request>
    var completed: seq<Request>
    var closed: bool
    ghost var reposted: seq<nat>      // receive slots posted again since the queue was connected
    ghost var finished: seq<Finished> // what `completed` holds

    ghost predicate Valid()
      reads this, pending.Values, completed
    {
      && 2 <= depth <= 256
      && commands.Length == 64 * (depth - 1) && responses.Length == depth
      && (forall c | c in pending :: pending[c].commandId == c && !pending[c].done)
      && Partition(Host(depth, free, Views(), []))
      && |finished| == |completed|
      && (forall i | 0 <= i < |completed| ::
        var r := completed[i];
        r.done && r.response.Some? && finished[i] == Finished(r.commandId, r.tag, r.response.value))
    }

    ghost function Views(): map<nat, Entry>
      reads this, pending.Values
    {
      map c | c in pending :: Entry(pending[c].tag, pending[c].sendComplete, pending[c].response)
    }

    ghost function Abs(): Host
      reads this, pending.Values
    {
      Host(depth, free, Views(), finished)
    }

    constructor (depth: nat)
      requires 2 <= depth <= 256
      ensures Valid() && !closed && this.depth == depth && fresh(commands) && fresh(responses) && pending == map[]
      ensures Abs() == Host(depth, seq(depth - 1, i => i), map[], [])
    {
      this.depth := depth;
      commands := new byte[64 * (depth - 1)](_ => 0);
      responses := new Answer[depth](_ => Answer(0, 0));
      free := seq(depth - 1, i => i);
      pending, completed, finished, closed, reposted := map[], [], [], false, [];
      new;
      InitialPartition(depth);
      assert Views() == map[];
    }

    /** The slot of the capsule buffer that belongs to a command id. */
    ghost function Slot(cid: nat): seq<byte>
      requires commands.Length == 64 * (depth - 1) && cid < depth - 1
      reads commands
    {
      commands[64 * cid..64 * cid + 64]
    }

    method WriteCapsule(capsule: seq<byte>, cid: nat)
      requires commands.Length == 64 * (depth - 1) && cid < depth - 1 && |capsule| == 64
      modifies commands
      ensures Slot(cid) == capsule
      ensures forall c: nat | c < depth - 1 && c != cid :: Slot(c) == old(Slot(c))
    {
      forall i | 0 <= i < 64 {
        commands[64 * cid + i] := capsule[i];
      }
    }

    lemma PendingInRange()
      requires Valid()
      ensures forall c | c in pending :: c < depth - 1
    {
      assert forall c | c in pending :: c in Views();
    }

    /** The checks that precede any effect. */
    function Refusals(command: seq<byte>): Option<Refusal>
      reads this
    {
      if closed then Some(Closed)
      else if |command| != 64 then Some(BadLength)
      else if free == [] then Some(QueueFull)
      else None
    }

    method Submit(command: seq<byte>, posts: bool, ghost tag: nat) returns (request: Request?, refusal: Option<Refusal>)
      requires Valid()
      modifies this`free, this`pending, commands
      ensures Valid() && (request == null <==> refusal.Some?)
      ensures refusal ==
        if old(Refusals(command)).Some? then old(Refusals(command)) else if posts then None else Some(PostFailed)
      ensures && (refusal == Some(Closed) <==> closed)
              && (refusal == Some(BadLength) <==> !closed && |command| != 64)
              && (refusal == Some(QueueFull) <==> !closed && |command| == 64 && old(free) == [])
              && (refusal == Some(PostFailed) <==> !closed && |command| == 64 && old(free) != [] && !posts)
      // a refused command leaves every id and every pending request as they were
      ensures refusal.Some? ==> free == old(free) && pending == old(pending)
      ensures request != null ==> fresh(request) && Accepted(command, request, old(free), old(pending), tag)
      ensures request != null ==> Abs() == NvmeHost.Submit(old(Abs()), tag)
      ensures refusal.Some? ==> Abs() == old(Abs())
      // capsules in flight stay as they are, whatever happens to this one
      ensures forall c | c in old(pending) :: c < depth - 1 && Slot(c) == old(Slot(c))
    {
      PendingInRange();
      refusal := Refusals(command);
      request := null;
      if refusal == None {
        request, refusal := Enqueue(command, posts, tag);
      }
    }

    /** The next free id now belongs to the request, and its slot of the capsule buffer holds the patched command. */
    ghost predicate Accepted(command: seq<byte>, request: Request, wasFree: seq<nat>, wasPending: map<nat, Request>,
                             tag: nat)
      reads this, commands, request
    {
      && wasFree != [] && |command| == 64 && commands.Length == 64 * (depth - 1)
      && request.commandId == wasFree[0] < depth - 1 && request.tag == tag
      && !request.sendComplete && request.response == None && !request.done
      && free == wasFree[1..] && pending == wasPending[wasFree[0] := request] && wasFree[0] !in wasPending
      && depth <= 256 && Slot(wasFree[0]) == Capsule(command, wasFree[0])
      // the id is in bytes 2 and 3, little-endian; the rest of the capsule is the caller's command
      && Slot(wasFree[0])[2] as int == wasFree[0] % 256 && Slot(wasFree[0])[3] as int == wasFree[0] / 256
      && forall i | 0 <= i < 64 && i != 2 && i != 3 :: Slot(wasFree[0])[i] == command[i]
    }

    method Enqueue(command: seq<byte>, posts: bool, ghost tag: nat)
      returns (request: Request?, refusal: Option<Refusal>)
      requires Valid() && free != [] && |command| == 64
      modifies this`free, this`pending, commands
      ensures Valid() && (request == null <==> refusal.Some?) && refusal == if posts then None else Some(PostFailed)
      ensures !posts ==> free == old(free) && pending == old(pending)
      ensures request != null ==> fresh(request) && Accepted(command, request, old(free), old(pending), tag)
      ensures request != null ==> Abs() == NvmeHost.Submit(old(Abs()), tag)
      ensures refusal.Some? ==> Abs() == old(Abs())
      ensures forall c: nat | c < depth - 1 && c != old(free)[0] :: Slot(c) == old(Slot(c))
      ensures old(free)[0] !in old(pending)
    {
      ghost var wasFree, wasPending, h := free, pending, Abs();
      request := Claim(tag);
      var cid := request.commandId;
      WriteCapsule(Capsule(command, cid), cid);
      if posts {
        refusal := None;
      } else {
        Unclaim(request, wasFree, wasPending, h);
        request, refusal := null, Some(PostFailed);
      }
    }

    /** Posting failed: the id goes back to the front of the free ids. */
    method Unclaim(request: Request, ghost wasFree: seq<nat>, ghost wasPending: map<nat, Request>, ghost h: Host)
      requires Valid() && wasFree != [] && request.commandId == wasFree[0] && wasFree[0] !in wasPending
      requires free == wasFree[1..] && pending == wasPending[wasFree[0] := request]
      requires h.depth == depth && h.free == wasFree && h.completed == finished && Partition(h)
      requires Views() == h.pending[wasFree[0] := Entry(request.tag, request.sendComplete, request.response)]
      requires h.pending.Keys == wasPending.Keys
      modifies this`free, this`pending
      ensures Valid() && free == wasFree && pending == wasPending && Abs() == h
    {
      assert Partition(Host(depth, wasFree, h.pending, []));
      hide Partition;
      var cid := request.commandId;
      pending := pending - {cid};
      free := [cid] + free;
      assert free == wasFree && pending == wasPending;
      assert Views() == h.pending;
    }

    /** Take the next free command id for a new pending request. */
    method Claim(ghost tag: nat) returns (request: Request)
      requires Valid() && free != []
      modifies this`free, this`pending
      ensures Valid() && fresh(request) && request.tag == tag && request.commandId == old(free)[0] < depth - 1
      ensures !request.sendComplete && request.response == None && !request.done
      ensures old(free)[0] !in old(pending) && free == old(free)[1..]
          && pending == old(pending)[old(free)[0] := request]
      ensures Abs() == NvmeHost.Submit(old(Abs()), tag)
    {
      SubmitKeepsPartition(Host(depth, free, Views(), []), tag);
      var cid := free[0];
      ghost var views := Views();
      assert cid in free;
      free := free[1..];
      request := new Request(cid, tag);
      pending := pending[cid := request];
      assert Views() == views[cid := Entry(tag, false, None)];
    }

    /** A request that was pending still is, or it is done, holds its answer, and gave its id back. */
    ghost predicate Tracked(r: Request)
      reads this, r
    {
      if r.done then r.response.Some? && r.commandId !in pending
      else r.commandId in pending && pending[r.commandId] == r
    }

    method FinishIfReady(request: Request)
      requires Valid() && request.commandId in pending && pending[request.commandId] == request
      modifies this`free, this`pending, this`completed, this`finished, request`done
      ensures Valid() && Abs() == Settle(old(Abs()), request.commandId)
      // with both halves the request is done and its id becomes the last free one; otherwise nothing changes
      ensures var cid := request.commandId;
        if request.sendComplete && request.response.Some? then
          && request.done && completed == old(completed) + [request]
          && free == old(free) + [cid] && pending == old(pending) - {cid}
        else
          && request.done == old(request.done) && completed == old(completed)
          && free == old(free) && pending == old(pending)
      ensures pending.Values <= old(pending.Values) && pending.Keys <= old(pending.Keys)
      ensures forall r | r in old(pending.Values) :: Tracked(r)
    {
      hide Partition;
      var cid := request.commandId;
      ghost var h := Abs();
      if request.sendComplete && request.response.Some? {
        RetireKeepsPartition(depth, free, h.pending, cid);
        request.done := true;
        pending := pending - {cid};
        free := free + [cid];
        completed := completed + [request];
        finished := finished + [Finished(cid, request.tag, request.response.value)];
        assert Views() == h.pending - {cid};
      }
    }

    /** Record that the SEND of a pending request completed. */
    method MarkSent(request: Request)
      requires Valid() && request.commandId in pending && pending[request.commandId] == request
      modifies request`sendComplete
      ensures Valid()
      ensures var cid := request.commandId; Views() == old(Views())[cid := old(Views())[cid].(sent := true)]
    {
      var cid := request.commandId;
      ghost var views := Views();
      NotCompleted(cid);
      request.sendComplete := true;
      assert Views() == views[cid := views[cid].(sent := true)];
    }

    /** Record the answer to a pending request. */
    method MarkAnswered(request: Request, a: Answer)
      requires Valid() && request.commandId in pending && pending[request.commandId] == request
      modifies request`response
      ensures Valid()
      ensures var cid := request.commandId; Views() == old(Views())[cid := old(Views())[cid].(answer := Some(a))]
    {
      var cid := request.commandId;
      ghost var views := Views();
      NotCompleted(cid);
      request.response := Some(a);
      assert Views() == views[cid := views[cid].(answer := Some(a))];
    }

    /** Completed requests are done, pending ones are not, so they are different objects. */
    lemma NotCompleted(cid: nat)
      requires Valid() && cid in pending
      ensures pending[cid] !in completed
    {
    }

    /** The SEND of a capsule completed. */
    method HandleSend(cid: nat) returns (ok: bool)
      requires Valid()
      modifies this`free, this`pending, this`completed, this`finished, pending.Values
      ensures Valid()
      ensures ok == OnSend(old(Abs()), cid).Some? && Abs() == if ok then OnSend(old(Abs()), cid).value else old(Abs())
      ensures ok <==> cid in old(pending)
      ensures ok ==>
        var request := old(pending)[cid];
        && request.sendComplete && request.response == old(pending[cid].response)
        && (request.done <==> request.response.Some?)
        && free == if request.done then old(free) + [cid] else old(free)
      ensures pending.Values <= old(pending.Values) && pending.Keys <= old(pending.Keys)
      ensures forall r | r in old(pending.Values) :: Tracked(r)
    {
      ghost var h := Abs();
      assert cid in h.pending <==> cid in pending;
      if cid !in pending { return false; }
      var request := pending[cid];
      MarkSent(request);
      assert Abs() == h.(pending := h.pending[cid := h.pending[cid].(sent := true)]);
      FinishIfReady(request);
      return true;
    }

    /** The answer to some pending command was read from its receive slot. */
    method HandleAnswer(a: Answer) returns (ok: bool)
      requires Valid()
      modifies this`free, this`pending, this`completed, this`finished, pending.Values
      ensures Valid()
      ensures ok == OnAnswer(old(Abs()), a).Some? && Abs() == if ok then OnAnswer(old(Abs()), a).value else old(Abs())
      ensures ok <==> a.commandId in old(pending)
      ensures ok ==>
        var request := old(pending)[a.commandId];
        && request.response == Some(a) && request.sendComplete == old(pending[a.commandId].sendComplete)
        && (request.done <==> request.sendComplete)
        && free == if request.done then old(free) + [a.commandId] else old(free)
      ensures pending.Values <= old(pending.Values) && pending.Keys <= old(pending.Keys)
      ensures forall r | r in old(pending.Values) :: Tracked(r)
    {
      ghost var h := Abs();
      var cid := a.commandId;
      assert cid in h.pending <==> cid in pending;
      if cid !in pending { return false; }
      var request := pending[cid];
      MarkAnswered(request, a);
      assert Abs() == h.(pending := h.pending[cid := h.pending[cid].(answer := Some(a))]);
      FinishIfReady(request);
      return true;
    }

    /** The queue and its response buffer are as this outcome says; `was` was posted again before. */
    ghost predicate Shows(r: Handled, was: seq<nat>)
      reads this, pending.Values, responses
    {
      Abs() == r.host && responses[..] == r.slots && reposted == was + r.reposted
    }

    /** The card has the slot again, and may write into it at once. */
    method PostReceive(slot: nat, card: Card) returns (ok: bool)
      requires slot < responses.Length
      modifies this`reposted, responses
      ensures ok == card.takes(slot)
      ensures reposted == if ok then old(reposted) + [slot] else old(reposted)
      ensures responses[..] == if ok then old(responses[..])[slot := card.lands(slot)] else old(responses[..])
    {
      ok := card.takes(slot);
      if ok {
        responses[slot] := card.lands(slot);
        reposted := reposted + [slot];
      }
    }

    method HandleOne(wc: WorkCompletion, card: Card) returns (ok: bool)
      requires Valid()
      modifies this`free, this`pending, this`completed, this`finished, this`reposted, responses, pending.Values
      ensures Valid() && Abs().depth == old(Abs()).depth == responses.Length
      ensures var r := Handle(old(Abs()), old(responses[..]), wc, card); Shows(r, old(reposted)) && ok == r.ok
      ensures pending.Values <= old(pending.Values) && pending.Keys <= old(pending.Keys)
      ensures forall r | r in old(pending.Values) :: Tracked(r)
    {
      if !wc.success { return false; }
      if IsSend(wc) {
        ok := HandleSend(Index(wc));
        return;
      }
      if !IsRecv(wc) { return false; }
      var slot := Index(wc);
      if wc.byteLen < 16 || slot >= depth { return false; }
      var answer := responses[slot];
      ok := PostReceive(slot, card);
      if !ok { return; }
      assert Valid() && Abs() == old(Abs());
      ok := HandleAnswer(answer);
    }

    lemma BatchStart(wcs: seq<WorkCompletion>, card: Card)
      requires Valid()
      ensures Abs().depth == depth == responses.Length
      ensures HandleAll(Abs(), responses[..], wcs[..0], card) == Handled(Abs(), responses[..], [], true)
      ensures forall r | r in pending.Values :: Tracked(r)
    {
      assert wcs[..0] == [];
    }

    /** Handle a polled batch in order, up to its first error. */
    method HandleBatch(wcs: seq<WorkCompletion>, card: Card) returns (ok: bool)
      requires Valid()
      modifies this`free, this`pending, this`completed, this`finished, this`reposted, responses, pending.Values
      ensures Valid() && old(Abs()).depth == responses.Length
      ensures var r := HandleAll(old(Abs()), old(responses[..]), wcs, card); Shows(r, old(reposted)) && ok == r.ok
      ensures pending.Values <= old(pending.Values) && pending.Keys <= old(pending.Keys)
      ensures forall r | r in old(pending.Values) :: Tracked(r)
    {
      hide Valid, Abs, Views, Handle, HandleAll, Partition;
      ghost var h, slots := Abs(), responses[..];
      ghost var r := Handled(h, slots, [], true);
      var i := 0;
      BatchStart(wcs, card);
      assert reposted + [] == reposted;
      while i < |wcs|
        invariant i <= |wcs| && Valid() && h.depth == |slots| && r.ok
        invariant HandleAll(h, slots, wcs[..i], card) == r && Shows(r, old(reposted))
        invariant pending.Values <= old(pending.Values) && pending.Keys <= old(pending.Keys)
        invariant forall r | r in old(pending.Values) :: Tracked(r)
      {
        HandleAllStep(h, slots, wcs, card, i);
        ghost var last := Handle(r.host, r.slots, wcs[i], card);
        ok := HandleOne(wcs[i], card);
        assert old(reposted) + (r.reposted + last.reposted) == old(reposted) + r.reposted + last.reposted;
        r := last.(reposted := r.reposted + last.reposted);
        if !ok {
          HandleStops(h, slots, wcs, card, i + 1);
          return;
        }
        i := i + 1;
      }
      assert wcs[..i] == wcs;
      ok := true;
    }

    /** Poll the queue; finished requests are handed out only when the whole batch was in order. */
    method Poll(wcs: seq<WorkCompletion>, card: Card) returns (ok: bool, done: seq<Request>)
      requires Valid()
      modifies this`free, this`pending, this`completed, this`finished, this`reposted, responses, pending.Values
      ensures Valid() && old(Abs()).depth == responses.Length
      ensures closed ==> ok && done == [] && Abs() == old(Abs()) && responses[..] == old(responses[..])
      ensures !closed ==>
        var r := HandleAll(old(Abs()), old(responses[..]), wcs, card);
        && ok == r.ok && Shows(if ok then r.(host := r.host.(completed := [])) else r, old(reposted))
        && (ok ==> HandsOut(done, r.host.completed))
      ensures pending.Values <= old(pending.Values) && pending.Keys <= old(pending.Keys)
      ensures forall r | r in old(pending.Values) :: Tracked(r)
    {
      hide Abs, Views, Handle, HandleAll, Partition, HandsOut, Valid;
      BatchStart(wcs, card);
      if closed { return true, []; }
      ok := HandleBatch(wcs, card);
      if !ok { return false, []; }
      done := HandOut();
    }

    method HandOut() returns (done: seq<Request>)
      requires Valid()
      modifies this`completed, this`finished
      ensures Valid() && Abs() == old(Abs()).(completed := []) && HandsOut(done, old(Abs()).completed)
    {
      assert HandsOut(completed, finished);
      done := completed;
      completed, finished := [], [];
    }

    /** The poll of round i, when the rounds before it were in order. */
    static ghost function PollOf(h: Host, rounds: seq<Round>, i: nat, card: Card): (r: Handled)
      requires i < |rounds| && forall round | round in rounds :: |round.slots| == h.depth
      ensures r.host.depth == h.depth
      decreases i, 1
    {
      HandleAll(AfterRounds(h, rounds, i, card), rounds[i].slots, rounds[i].wcs, card)
    }

    /** The queue after the first k rounds. */
    static ghost function AfterRounds(h: Host, rounds: seq<Round>, k: nat, card: Card): (r: Host)
      requires k <= |rounds| && forall round | round in rounds :: |round.slots| == h.depth
      ensures r.depth == h.depth
      decreases k, 0
    {
      if k == 0 then h
      else
        var r := PollOf(h, rounds, k - 1, card);
        if r.ok then r.host.(completed := []) else r.host
    }

    /**
     How a call of `execute` ends after so many polls.  Every earlier poll was in order, not late, and left the
     command waiting.  The last one raised, or ended past the deadline (whether or not it finished the command),
     or finished it in time.
     */
    static ghost predicate Ends(h: Host, cid: nat, rounds: seq<Round>, polls: nat, card: Card, outcome: Outcome)
      requires forall round | round in rounds :: |round.slots| == h.depth
    {
      && 0 < polls <= |rounds|
      && (forall i: nat | i < polls :: cid in AfterRounds(h, rounds, i, card).pending)
      && (forall i: nat | i < polls - 1 :: PollOf(h, rounds, i, card).ok && !rounds[i].late)
      && var last := PollOf(h, rounds, polls - 1, card);
         && (outcome == Raised <==> !last.ok)
         && (outcome == TimedOut <==> last.ok && rounds[polls - 1].late)
         && (outcome.Answered? <==> last.ok && !rounds[polls - 1].late)
         && (outcome.Answered? ==> cid !in AfterRounds(h, rounds, polls, card).pending)
    }

    /** Every poll so far was in order and in time, and left the command waiting, the last one perhaps excepted. */
    static ghost predicate Going(h: Host, cid: nat, rounds: seq<Round>, polls: nat, card: Card)
      requires forall round | round in rounds :: |round.slots| == h.depth
    {
      && polls <= |rounds|
      && (forall i: nat | i < polls :: cid in AfterRounds(h, rounds, i, card).pending)
      && (forall i: nat | i < polls :: PollOf(h, rounds, i, card).ok && !rounds[i].late)
    }

    static lemma GoingEnds(h: Host, cid: nat, rounds: seq<Round>, polls: nat, card: Card, outcome: Outcome)
      requires forall round | round in rounds :: |round.slots| == h.depth
      requires polls < |rounds| && Going(h, cid, rounds, polls, card)
          && cid in AfterRounds(h, rounds, polls, card).pending
      ensures !PollOf(h, rounds, polls, card).ok ==> Ends(h, cid, rounds, polls + 1, card, Raised)
      ensures PollOf(h, rounds, polls, card).ok && rounds[polls].late
          ==> Ends(h, cid, rounds, polls + 1, card, TimedOut)
      ensures PollOf(h, rounds, polls, card).ok && !rounds[polls].late ==>
        && Going(h, cid, rounds, polls + 1, card)
        && (cid !in AfterRounds(h, rounds, polls + 1, card).pending && outcome.Answered? ==>
          Ends(h, cid, rounds, polls + 1, card, outcome))
    {
    }

    /**
     Submit a command and poll until it is done or a round ends past the deadline.  A command that is
     done in a late round times out all the same, and a command that times out unfinished keeps its id.
     */
    method Execute(command: seq<byte>, posts: bool, rounds: seq<Round>, card: Card, ghost tag: nat)
      returns (outcome: Outcome, request: Request?, polls: nat)
      requires Valid() && rounds != [] && rounds[|rounds| - 1].late
      requires forall round | round in rounds :: |round.slots| == depth
      modifies this`free, this`pending, this`completed, this`finished, this`reposted, responses, commands,
          pending.Values
      ensures Valid() && (request == null <==> outcome.Refused?)
      ensures outcome.Refused? <==> old(Refusals(command)).Some? || !posts
      ensures outcome.Refused? ==>
        && Abs() == old(Abs())
        && outcome.refusal == if old(Refusals(command)).Some? then old(Refusals(command)).value else PostFailed
      ensures request != null ==>
        var h := NvmeHost.Submit(old(Abs()), tag);
        && request.tag == tag && request.commandId == old(free)[0] && h.depth == depth
        && Ends(h, request.commandId, rounds, polls, card, outcome)
        && Abs() == AfterRounds(h, rounds, polls, card)
        && (request.done <==> request.commandId !in Abs().pending)
      ensures outcome.Answered? ==> request.done && request.response == Some(outcome.answer)
      ensures outcome == TimedOut && !request.done
          ==> request.commandId in pending && pending[request.commandId] == request
    {
      var refusal;
      request, refusal := Submit(command, posts, tag);
      if request == null {
        return Refused(refusal.value), null, 0;
      }
      hide Partition, Slot, Capsule, HandleAll, Ends, AfterRounds;
      AbsDepth();
      outcome, polls := Await(request, rounds, card);
    }

    lemma AbsDepth()
      ensures Abs().depth == depth
      ensures forall c :: c in Abs().pending <==> c in pending
    {
    }

    /** The card's answers are in the response buffer when the round is polled. */
    method PollRound(ghost h: Host, rounds: seq<Round>, i: nat, card: Card) returns (ok: bool)
      requires Valid() && !closed && i < |rounds| && h.depth == depth
      requires forall round | round in rounds :: |round.slots| == depth
      requires Abs() == AfterRounds(h, rounds, i, card)
      modifies this`free, this`pending, this`completed, this`finished, this`reposted, responses, pending.Values
      ensures Valid() && ok == PollOf(h, rounds, i, card).ok && Abs() == AfterRounds(h, rounds, i + 1, card)
      ensures pending.Values <= old(pending.Values) && pending.Keys <= old(pending.Keys)
      ensures forall r | r in old(pending.Values) :: Tracked(r)
    {
      hide Partition, Handle, HandleAll, HandsOut, Views;
      var slots := rounds[i].slots;
      assert responses.Length == depth;
      forall k | 0 <= k < depth { responses[k] := slots[k]; }
      assert responses[..] == slots && Valid() && Abs() == old(Abs());
      hide Valid, Abs;
      var done;
      ok, done := Poll(rounds[i].wcs, card);
    }

    /** One turn of the polling loop; it returns how the loop ends if it raises. */
    method Turn(request: Request, ghost h: Host, rounds: seq<Round>, polls: nat, card: Card)
      returns (raised: Option<Outcome>)
      requires Valid() && !closed && Tracked(request) && !request.done && polls < |rounds| && h.depth == depth
      requires forall round | round in rounds :: |round.slots| == depth
      requires Abs() == AfterRounds(h, rounds, polls, card) && Going(h, request.commandId, rounds, polls, card)
      modifies this`free, this`pending, this`completed, this`finished, this`reposted, responses, pending.Values
      ensures Valid() && Tracked(request) && Abs() == AfterRounds(h, rounds, polls + 1, card)
      ensures pending.Values <= old(pending.Values) && (request.done <==> request.commandId !in Abs().pending)
      ensures raised.Some? ==> !raised.value.Refused? && !raised.value.Answered?
      ensures raised.Some? ==> Ends(h, request.commandId, rounds, polls + 1, card, raised.value)
      ensures raised.None? && request.done ==>
        Ends(h, request.commandId, rounds, polls + 1, card, Answered(request.response.value))
      ensures raised.None? && !request.done
          ==> Going(h, request.commandId, rounds, polls + 1, card) && !rounds[polls].late
    {
      hide Valid, Abs, Views, Partition, Handle, HandleAll, HandsOut, PollOf, AfterRounds, Going, Ends;
      AbsDepth();
      assert request in pending.Values;
      GoingEnds(h, request.commandId, rounds, polls, card, Raised);
      var ok := PollRound(h, rounds, polls, card);
      AbsDepth();
      if !ok { return Some(Raised); }
      if rounds[polls].late { return Some(TimedOut); }
      if request.done {
        GoingEnds(h, request.commandId, rounds, polls, card, Answered(request.response.value));
      }
      return None;
    }

    /** The polling loop of Execute. */
    method Await(request: Request, rounds: seq<Round>, card: Card) returns (outcome: Outcome, polls: nat)
      requires Valid() && !closed && Tracked(request) && !request.done
      requires rounds != [] && rounds[|rounds| - 1].late
      requires forall round | round in rounds :: |round.slots| == depth
      modifies this`free, this`pending, this`completed, this`finished, this`reposted, responses, pending.Values
      ensures Valid() && Tracked(request) && old(Abs()).depth == depth && !outcome.Refused?
      ensures Ends(old(Abs()), request.commandId, rounds, polls, card, outcome)
      ensures Abs() == AfterRounds(old(Abs()), rounds, polls, card)
      ensures request.done <==> request.commandId !in Abs().pending
      ensures outcome.Answered? ==> request.done && request.response == Some(outcome.answer)
    {
      hide Valid, Abs, Views, Partition, Handle, HandleAll, HandsOut, PollOf, AfterRounds, Going, Ends;
      polls := 0;
      ghost var h, cid := Abs(), request.commandId;
      AbsDepth();
      AwaitStarts(h, cid, rounds, card);
      while !request.done
        invariant Valid() && !closed && Tracked(request) && pending.Values <= old(pending.Values)
        invariant polls <= |rounds| && Abs() == AfterRounds(h, rounds, polls, card)
            && (request.done <==> cid !in Abs().pending)
        invariant !request.done ==> polls < |rounds| && Going(h, cid, rounds, polls, card)
        invariant request.done ==> Ends(h, cid, rounds, polls, card, Answered(request.response.value))
        decreases |rounds| - polls
      {
        var raised := Turn(request, h, rounds, polls, card);
        polls := polls + 1;
        if raised.Some? { return raised.value, polls; }
      }
      outcome := Answered(request.response.value);
    }

    static lemma AwaitStarts(h: Host, cid: nat, rounds: seq<Round>, card: Card)
      requires forall round | round in rounds :: |round.slots| == h.depth
      ensures Going(h, cid, rounds, 0, card) && AfterRounds(h, rounds, 0, card) == h
    {
    }

    /** The returned requests are exactly the finished ones, in the order in which they finished. */
    ghost predicate HandsOut(done: seq<Request>, finished: seq<Finished>)
      reads done
    {
      && |done| == |finished|
      && forall i | 0 <= i < |done| ::
        var r := done[i];
        r.done && r.response.Some? && finished[i] == Finished(r.commandId, r.tag, r.response.value)
    }
  }

  /** One poll, past the deadline, that finds both halves of command 0. */
  function LateRound(): Round {
    Round([WorkCompletion(SEND_TAG + 0, 0, true), WorkCompletion(RECV_TAG + 0, 16, true)],
          [Answer(0, 9), Answer(0, 0)], true)
  }

  function OneCommand(): Host { NvmeHost.Submit(Host(2, [0], map[], []), 9) }

  lemma LatePollFinishes(card: Card)
    requires card.takes(0)
    ensures var r := HandleAll(OneCommand(), LateRound().slots, LateRound().wcs, card);
      r.ok && r.host.pending == map[] && r.host.completed == [Finished(0, 9, Answer(0, 9))]
  {
    var h, round := OneCommand(), LateRound();
    WrIdRoundTrip(0, 0, true);
    WrIdRoundTrip(0, 16, true);
    assert round.wcs[..0] == [] && round.wcs[..2] == round.wcs;
    HandleAllStep(h, round.slots, round.wcs, card, 0);
    HandleAllStep(h, round.slots, round.wcs, card, 1);
    assert OnSend(h, 0).value.pending == map[0 := Entry(9, true, None)];
  }

  /** A command that is answered in a poll that ends past the deadline still times out. */
  lemma LateAnswerTimesOut(card: Card)
    requires card.takes(0)
    ensures RDMAQueue.Ends(OneCommand(), 0, [LateRound()], 1, card, TimedOut)
    ensures 0 !in RDMAQueue.AfterRounds(OneCommand(), [LateRound()], 1, card).pending
  {
    LatePollFinishes(card);
    assert RDMAQueue.AfterRounds(OneCommand(), [LateRound()], 0, card) == OneCommand();
  }

  method TimeOutAfterAnswer() returns (outcome: Outcome, request: Request?)
    ensures outcome == TimedOut && request != null && request.done
  {
    var card := Card(_ => true, k => Answer(0, 0));
    var queue := new RDMAQueue(2);
    assert queue.Abs() == Host(2, [0], map[], []);
    var polls;
    outcome, request, polls := queue.Execute(seq(64, _ => 0), true, [LateRound()], card, 9);
    LateAnswerTimesOut(card);
  }
}

/** The caller-driven scheduler that pipelines the chunks of one batch over several queue pairs. */
module ReadScheduler {
  import opened Arithmetic
  import opened Wrappers
  import opened ReadRequests
  import opened ReadLedger
  import opened WrIds

  datatype Failure =
    | Closed | Poisoned | Busy               // refused before anything happened
    | NotOwner | NotActive                   // the batch of another scheduler, or one that was dropped
    | Transport                              // posting or completion failed, the queue pairs are unsafe
    | Timeout
    | Callback                               // on_complete raised
    | ClosedInFlight

  datatype Outcome = Returned(count: nat) | Raised(error: Failure)

  /** What the verbs layer does: which scatter-gather entries and posts it accepts. */
  datatype Provider = Provider(acceptsChunk: Chunk -> bool, acceptsPost: nat -> bool)

  /** A work completion as polled; any id may turn up. */
  datatype Completion = Completion(id: nat, success: bool)

  /** What polling one completion queue yields: its completions, or an exception. */
  type Poll = Option<seq<Completion>>

  function Got(poll: Poll): seq<Completion> { if poll.Some? then poll.value else [] }

  /** One turn of `wait`: what the polls yield, given what is pending, and whether the deadline has passed. */
  datatype Round = Round(polls: map<nat, Pending> -> seq<Poll>, expired: bool)

  /** The verbs layer takes all of these chunks, and every post. */
  ghost predicate Accepting(env: Provider, cs: seq<Chunk>, n: nat) {
    (forall i | 0 <= i < |cs| :: env.acceptsChunk(cs[i])) && (forall q: nat | q < n :: env.acceptsPost(q))
  }

  /** The first k completions of queue q are successes of different requests that are pending on it. */
  predicate Routable(pending: map<nat, Pending>, wcs: seq<Completion>, q: nat, k: nat)
    requires k <= |wcs|
  {
    && (forall i | 0 <= i < k :: wcs[i].success && wcs[i].id in pending && pending[wcs[i].id].qp == q)
    && (forall i, j | 0 <= i < j < k :: wcs[i].id != wcs[j].id)
  }

  /** Every pending request is on one of n queue pairs. */
  predicate OnLanes(p: map<nat, Pending>, n: nat) { forall id | id in p :: p[id].qp < n }

  /** Whatever is pending, this round polls completions that are due. */
  ghost predicate HonestRound(round: Round, n: nat) {
    forall p: map<nat, Pending> | OnLanes(p, n) :: Due(p, round.polls(p), n)
  }

  predicate Due(p: map<nat, Pending>, polled: seq<Poll>, n: nat) {
    |polled| == n && forall q: nat | q < n :: polled[q].Some? && Routable(p, Got(polled[q]), q, |Got(polled[q])|)
  }

  /** And at least one, if anything is pending. */
  ghost predicate ProductiveRound(round: Round, n: nat) {
    forall p: map<nat, Pending> | p != map[] && OnLanes(p, n) :: Any(round.polls(p))
  }

  predicate Any(polled: seq<Poll>) { exists q :: 0 <= q < |polled| && Got(polled[q]) != [] }

  /** The slowest round that is productive: one pending request completes. */
  ghost function OneByOne(n: nat): Round {
    Round((p: map<nat, Pending>) => CompleteOne(p, n), false)
  }

  ghost function CompleteOne(p: map<nat, Pending>, n: nat): seq<Poll> {
    if p == map[] then seq(n, _ => Some([]))
    else seq(n, q => Some(if q == p[PickOne(p)].qp then [Completion(PickOne(p), true)] else []))
  }

  ghost function PickOne(p: map<nat, Pending>): (id: nat)
    requires p != map[]
    ensures id in p
  {
    var id :| id in p; id
  }

  /** Honest productive rounds exist for any number of queue pairs. */
  lemma OneByOneIsProductive(n: nat)
    ensures HonestRound(OneByOne(n), n) && ProductiveRound(OneByOne(n), n) && !OneByOne(n).expired
    ensures forall p :: |OneByOne(n).polls(p)| == n
  {
    forall p: map<nat, Pending> | OnLanes(p, n) ensures Due(p, OneByOne(n).polls(p), n) {
      var polled := OneByOne(n).polls(p);
      forall q: nat | q < n ensures polled[q].Some? && Routable(p, Got(polled[q]), q, |Got(polled[q])|) {
        if p != map[] {
          assert Got(polled[q]) == if q == p[PickOne(p)].qp then [Completion(PickOne(p), true)] else [];
        }
      }
    }
    forall p: map<nat, Pending> | p != map[] && OnLanes(p, n) ensures Any(OneByOne(n).polls(p)) {
      var q := p[PickOne(p)].qp;
      assert Got(CompleteOne(p, n)[q]) == [Completion(PickOne(p), true)];
    }
  }

  class RdmaReadBatch {
    const owner: RdmaReadScheduler
    const requests: seq<Request>
    const totalChunks: int
    const totalBytes: int
    const hasCallback: bool
    const callbackRaises: bool
    var completedChunks: int
    var completedBytes: int
    var error: Option<Failure>
    var callbackCalled: bool
    var done: bool
    ghost var callbackRuns: nat

    constructor (owner: RdmaReadScheduler, requests: seq<Request>, totalChunks: int, hasCallback: bool,
                 callbackRaises: bool)
      ensures this.owner == owner && this.requests == requests && this.totalChunks == totalChunks
          && totalBytes == TotalBytes(requests)
      ensures this.hasCallback == hasCallback && this.callbackRaises == callbackRaises
      ensures completedChunks == completedBytes == 0 && error == None && !done && !callbackCalled && callbackRuns == 0
    {
      this.owner, this.requests, this.totalChunks := owner, requests, totalChunks;
      this.totalBytes := TotalBytes(requests);
      this.hasCallback, this.callbackRaises := hasCallback, callbackRaises;
      completedChunks, completedBytes, error, callbackCalled, done, callbackRuns := 0, 0, None, false, false, 0;
    }

    /** Every chunk completed, and the callback ran once if there is one. */
    ghost predicate Succeeded()
      reads this
    {
      && done && completedChunks == totalChunks && completedBytes == totalBytes
      && callbackRuns == (if hasCallback then 1 else 0)
      && error == if hasCallback && callbackRaises then Some(Callback) else None
    }
  }

  /** Fresh entries drawn from `start` on and queued by lane, without exceeding the depth of any lane. */
  ghost predicate Queued(keys: set<nat>, outstanding: seq<nat>, depth: nat, start: nat, next: nat,
                         posts: seq<seq<Entry>>, drawn: seq<Entry>)
  {
    && |posts| == |outstanding|
    && 1 <= next <= MAX_WR_ID
    && ScanMany(MAX_WR_ID, start, keys, |drawn|) == Some(Batch(IdsOf(drawn), next))
    && Fresh(IdsOf(drawn), keys)
    && (forall i | 0 <= i < |drawn| :: !drawn[i].done && drawn[i].qp < |posts| && 1 <= drawn[i].id <= MAX_WR_ID)
    && (forall q | 0 <= q < |posts| :: posts[q] == OnLane(drawn, q) && outstanding[q] + |posts[q]| <= depth)
  }

  predicate AtDepth(outstanding: seq<nat>, depth: nat, posts: seq<seq<Entry>>, k: nat)
    requires k <= |outstanding| && k <= |posts|
  {
    forall q | 0 <= q < k :: outstanding[q] + |posts[q]| == depth
  }

  /** How many chunks each lane has room for. */
  function Room(outstanding: seq<nat>, depth: nat): seq<int> {
    seq(|outstanding|, q requires 0 <= q < |outstanding| => depth - outstanding[q])
  }

  /** Every lane got j chunks, those before lane `at` one more, and a lane without so much room what it has room for. */
  predicate Dealt(room: seq<int>, drawn: seq<Entry>, j: nat, at: nat) {
    forall q | 0 <= q < |room| :: |OnLane(drawn, q)| == Min(room[q], if q < at then j + 1 else j)
  }

  /**
   Round robin: an entry goes to a lane with room when every lane with room for as many got as many chunks as
   this one, and those before it one more.  This fixes the lane of every entry.
   */
  predicate RoundRobin(room: seq<int>, drawn: seq<Entry>) { forall i | 0 <= i < |drawn| :: Turn(room, drawn, i) }

  predicate Turn(room: seq<int>, drawn: seq<Entry>, i: nat)
    requires i < |drawn|
  {
    var before, q := drawn[..i], drawn[i].qp;
    && q < |room| && |OnLane(before, q)| < room[q]
    && Dealt(room, before, |OnLane(before, q)|, q)
  }

  lemma NothingDealt(room: seq<int>)
    requires forall q | 0 <= q < |room| :: 0 <= room[q]
    ensures Dealt(room, [], 0, 0) && RoundRobin(room, [])
  {
  }

  lemma DealOneMore(room: seq<int>, drawn: seq<Entry>, j: nat, e: Entry)
    requires e.qp < |room| && RoundRobin(room, drawn)
    requires Dealt(room, drawn, j, e.qp) && |OnLane(drawn, e.qp)| < room[e.qp]
    ensures RoundRobin(room, drawn + [e]) && Dealt(room, drawn + [e], j, e.qp + 1)
  {
    var all := drawn + [e];
    assert all[..|drawn|] == drawn;
    forall i | 0 <= i < |all| ensures Turn(room, all, i) {
      if i < |drawn| {
        assert all[..i] == drawn[..i];
        assert Turn(room, drawn, i);
      }
    }
  }

  lemma DealNone(room: seq<int>, drawn: seq<Entry>, j: nat, q: nat)
    requires q < |room| && Dealt(room, drawn, j, q) && room[q] <= |OnLane(drawn, q)|
    ensures Dealt(room, drawn, j, q + 1)
  {
  }

  lemma NextPass(room: seq<int>, drawn: seq<Entry>, j: nat)
    requires Dealt(room, drawn, j, |room|)
    ensures Dealt(room, drawn, j + 1, 0)
  {
  }

  /** The state of the deal after any number of entries. */
  lemma DealtNow(room: seq<int>, drawn: seq<Entry>) returns (j: nat, at: nat)
    requires RoundRobin(room, drawn) && forall q | 0 <= q < |room| :: 0 <= room[q]
    ensures Dealt(room, drawn, j, at)
  {
    if drawn == [] {
      NothingDealt(room);
      return 0, 0;
    }
    var n := |drawn| - 1;
    assert Turn(room, drawn, n);
    j, at := |OnLane(drawn[..n], drawn[n].qp)|, drawn[n].qp + 1;
  }

  /** So lanes that are not filled up get the same number of chunks, an earlier one possibly one more. */
  lemma DealIsEven(room: seq<int>, drawn: seq<Entry>, p: nat, q: nat)
    requires RoundRobin(room, drawn) && (forall r | 0 <= r < |room| :: 0 <= room[r]) && p < q < |room|
    requires |OnLane(drawn, p)| < room[p] && |OnLane(drawn, q)| < room[q]
    ensures |OnLane(drawn, q)| <= |OnLane(drawn, p)| <= |OnLane(drawn, q)| + 1
  {
    var j, at := DealtNow(room, drawn);
  }

  /** While a lane has room, one more id fits beside those in flight and those already drawn. */
  lemma QueuedFits(l: seq<Entry>, pending: map<nat, Pending>, outstanding: seq<nat>, depth: nat, start: nat, next: nat,
                   posts: seq<seq<Entry>>, drawn: seq<Entry>, q: nat, wire: seq<seq<SendWR>>)
    requires Queued(pending.Keys, outstanding, depth, start, next, posts, drawn)
    requires Routed(l, pending) && Counted(l, outstanding, wire)
    requires |outstanding| * depth <= MAX_WR_ID && q < |outstanding| && outstanding[q] + |posts[q]| < depth
    requires 1 <= start <= MAX_WR_ID
    ensures var r := ScanMany(MAX_WR_ID, start, pending.Keys, |drawn| + 1); r.Some? && Fresh(r.value.ids, pending.Keys)
  {
    forall p: nat | p < |outstanding| ensures OpenOn(l + drawn, p) == outstanding[p] + |posts[p]| {
      AppendCounts(l, drawn, p);
    }
    AppendCounts(l, drawn, q);
    RoomForOneMore(l + drawn, |outstanding|, depth, q);
    OpenIdsSize(l);
    FreshExactlyWhenTheyFit(MAX_WR_ID, start, pending.Keys, |drawn| + 1);
  }

  lemma QueueOneMore(keys: set<nat>, outstanding: seq<nat>, depth: nat, start: nat, next: nat, next': nat,
                     posts: seq<seq<Entry>>, drawn: seq<Entry>, e: Entry)
    requires Queued(keys, outstanding, depth, start, next, posts, drawn)
    requires !e.done && e.qp < |posts| && outstanding[e.qp] + |posts[e.qp]| < depth && 1 <= start <= MAX_WR_ID
    requires Scan(MAX_WR_ID, next, keys, MAX_WR_ID) == Some(Found(e.id, next'))
    requires var r := ScanMany(MAX_WR_ID, start, keys, |drawn| + 1); r.Some? && Fresh(r.value.ids, keys)
    ensures Queued(keys, outstanding, depth, start, next', posts[e.qp := posts[e.qp] + [e]], drawn + [e])
  {
    var drawn' := drawn + [e];
    ScanManyInRange(MAX_WR_ID, start, keys, |drawn| + 1);
    assert drawn'[..|drawn|] == drawn;
    assert IdsOf(drawn') == IdsOf(drawn) + [e.id];
    assert IdsOf(drawn')[|drawn|] == e.id;
  }

  /** What posting changes. */
  datatype Books = Books(pending: map<nat, Pending>, outstanding: seq<nat>, wire: seq<seq<SendWR>>)

  /** The lists of the first `registered` lanes are in the pending map, and those of the first k were posted. */
  ghost predicate Posted(k: nat, registered: nat, posts: seq<seq<Entry>>, env: Provider, was: Books, now: Books) {
    && k <= registered <= |posts| == |now.outstanding| == |now.wire| == |was.outstanding| == |was.wire|
    && (forall p: nat | p < k && posts[p] != [] :: env.acceptsPost(p))
    && now.pending == Register(was.pending, Flat(posts, registered))
    && (forall p: nat | p < k :: now.outstanding[p] == was.outstanding[p] + |posts[p]|)
    && (forall p: nat | p < k :: now.wire[p] == was.wire[p] + Wires(posts[p]))
    && (forall p: nat | k <= p < |posts| :: now.outstanding[p] == was.outstanding[p] && now.wire[p] == was.wire[p])
  }

  lemma RegisterStep(q: nat, posts: seq<seq<Entry>>, env: Provider, was: Books, now: Books)
    requires q < |posts| && Posted(q, q, posts, env, was, now)
    ensures Posted(q, q + 1, posts, env, was, now.(pending := Register(now.pending, posts[q])))
    ensures q < |now.outstanding| == |now.wire|
  {
    RegisterAppend(was.pending, Flat(posts, q), posts[q]);
    hide Register, Wires;
  }

  lemma PostStep(q: nat, posts: seq<seq<Entry>>, env: Provider, was: Books, now: Books)
    requires q < |posts| && Posted(q, q + 1, posts, env, was, now) && env.acceptsPost(q)
    ensures Posted(q + 1, q + 1, posts, env, was,
      now.(wire := now.wire[q := now.wire[q] + Wires(posts[q])],
           outstanding := now.outstanding[q := now.outstanding[q] + |posts[q]|]))
  {
    hide Register, Flat, Wires;
  }

  lemma EmptyStep(q: nat, posts: seq<seq<Entry>>, env: Provider, was: Books, now: Books)
    requires q < |posts| && Posted(q, q, posts, env, was, now) && posts[q] == []
    ensures Posted(q + 1, q + 1, posts, env, was, now)
  {
    hide Register;
    assert Flat(posts, q + 1) == Flat(posts, q) && Wires([]) == [];
  }

  class RdmaReadScheduler {
    const qpCount: nat
    const queueDepth: nat
    const chunkSize: nat
    const pollBatch: nat
    var active: RdmaReadBatch?
    var iterIndex: nat               // the suspended chunk iterator: request ...
    var iterOffset: nat              // ... and byte offset
    var inputExhausted: bool
    var pending: map<nat, Pending>
    var outstanding: seq<nat>
    var nextWrId: nat
    var closed: bool
    var poisoned: bool
    var ownsResources: bool
    ghost var ledger: seq<Entry>           // of the latest batch
    ghost var wire: seq<seq<SendWR>>       // posted so far for the latest batch, per queue pair

    ghost predicate Configured()
    {
      && 0 < qpCount && 0 < queueDepth && 0 < chunkSize <= MAX_SGE_LENGTH && 0 < pollBatch
      && qpCount * queueDepth <= MAX_WR_ID
    }

    /** What the suspended iterator still yields. */
    ghost function NotIssued(batch: RdmaReadBatch): seq<Chunk>
      requires 0 < chunkSize
      reads this`iterIndex, this`iterOffset
    {
      Rest(batch.requests, chunkSize, iterIndex, iterOffset)
    }

    /** The verbs layer takes every chunk of the batch and every post. */
    ghost predicate Accepts(env: Provider, batch: RdmaReadBatch)
      requires 0 < chunkSize
    {
      Accepting(env, Chunks(batch.requests, chunkSize), qpCount)
    }

    /** Bookkeeping of an unfinished batch. */
    ghost predicate Core(batch: RdmaReadBatch)
      reads this, batch
    {
      && Configured()
      && |outstanding| == qpCount
      && 1 <= nextWrId <= MAX_WR_ID
      && batch.owner == this && AllAccepted(batch.requests)
      && batch.totalChunks == TotalChunks(batch.requests, chunkSize)
      && batch.totalBytes == TotalBytes(batch.requests)
      && Balanced(Chunks(batch.requests, chunkSize), queueDepth, ledger, pending, outstanding, wire, NotIssued(batch),
                  batch.completedChunks, batch.completedBytes)
      && (inputExhausted ==> NotIssued(batch) == [])
      && !batch.done && batch.error == None && !batch.callbackCalled && batch.callbackRuns == 0
    }

    /** Work conservation: nothing left to issue, or every queue pair at its depth. */
    ghost predicate Full()
      reads this
    {
      inputExhausted || (|outstanding| == qpCount && forall q | 0 <= q < qpCount :: outstanding[q] == queueDepth)
    }

    /** Holds between calls. */
    ghost predicate Valid()
      reads this, if active == null then {} else {active}
    {
      && Configured()
      && |outstanding| == qpCount
      && 1 <= nextWrId <= MAX_WR_ID
      && (active == null ==> pending == map[] && forall q | 0 <= q < qpCount :: outstanding[q] == 0)
      && (active != null ==> !closed && !poisoned && Core(active) && Full() && pending != map[])
    }

    constructor (qpCount: nat, queueDepth: nat, chunkSize: nat, pollBatch: nat, ownsResources: bool)
      requires 0 < qpCount && 0 < queueDepth && 0 < chunkSize <= MAX_SGE_LENGTH && 0 < pollBatch
      requires qpCount * queueDepth <= MAX_WR_ID
      ensures Valid() && active == null && !closed && !poisoned
      ensures this.qpCount == qpCount && this.queueDepth == queueDepth && this.chunkSize == chunkSize
      ensures this.pollBatch == pollBatch && this.ownsResources == ownsResources
    {
      this.qpCount, this.queueDepth, this.chunkSize, this.pollBatch := qpCount, queueDepth, chunkSize, pollBatch;
      active, iterIndex, iterOffset, inputExhausted := null, 0, 0, true;
      pending, outstanding, nextWrId := map[], seq(qpCount, _ => 0), 1;
      closed, poisoned, this.ownsResources := false, false, ownsResources;
      ledger, wire := [], [];
    }

    // -------------------------------------------------------------- conservation

    /** completed + pending + not yet issued is the total, in chunks and in bytes. */
    lemma Conservation(batch: RdmaReadBatch)
      requires Core(batch)
      ensures batch.completedChunks + |pending| + |NotIssued(batch)| == batch.totalChunks
      ensures batch.completedBytes + PendingBytes(ledger) + Bytes(NotIssued(batch)) == batch.totalBytes
      ensures |pending| == OpenBelow(ledger, qpCount) == Open(ledger)
    {
      ChunkTotals(batch.requests, chunkSize);
      BalancedTotals(Chunks(batch.requests, chunkSize), queueDepth, ledger, pending, outstanding, wire,
                     NotIssued(batch),
                     batch.completedChunks, batch.completedBytes);
    }

    // -------------------------------------------------------------- the chunk iterator

    method NextChunk(rs: seq<Request>) returns (c: Option<Chunk>)
      requires 0 < chunkSize && AllAccepted(rs)
      modifies this`iterIndex, this`iterOffset
      ensures old(Rest(rs, chunkSize, iterIndex, iterOffset))
           == (if c == None then [] else [c.value]) + Rest(rs, chunkSize, iterIndex, iterOffset)
      ensures c == None ==> Rest(rs, chunkSize, iterIndex, iterOffset) == []
    {
      if iterIndex < |rs| && rs[iterIndex].length <= iterOffset {
        RestSkips(rs, chunkSize, iterIndex, iterOffset);
        iterIndex, iterOffset := iterIndex + 1, 0;
      }
      if |rs| <= iterIndex {
        return None;
      }
      RestYields(rs, chunkSize, iterIndex, iterOffset);
      var r := rs[iterIndex];
      c := Some(Chunk(iterIndex, r, iterOffset, Min(chunkSize, r.length - iterOffset)));
      iterOffset := iterOffset + chunkSize;
    }

    method AllocateWrId() returns (id: Option<nat>)
      requires 1 <= nextWrId <= MAX_WR_ID
      modifies this`nextWrId
      ensures var found := Scan(MAX_WR_ID, old(nextWrId), pending.Keys, MAX_WR_ID);
        if found.None? then id == None else id == Some(found.value.id) && nextWrId == found.value.next
      ensures 1 <= nextWrId <= MAX_WR_ID
      // an id from 1 to 2^64 - 1 that is not pending, and the next one to look at, after the last one the first
      ensures id.Some? ==>
        && 1 <= id.value <= 0xFFFF_FFFF_FFFF_FFFF && id.value !in pending
        && nextWrId == if id.value == 0xFFFF_FFFF_FFFF_FFFF then 1 else id.value + 1
    {
      var tries := 0;
      while tries < MAX_WR_ID
        invariant tries <= MAX_WR_ID && 1 <= nextWrId <= MAX_WR_ID
        invariant Scan(MAX_WR_ID, old(nextWrId), pending.Keys, MAX_WR_ID)
               == Scan(MAX_WR_ID, nextWrId, pending.Keys, MAX_WR_ID - tries)
      {
        var candidate := nextWrId;
        nextWrId := if candidate == MAX_WR_ID then 1 else candidate + 1;
        if candidate !in pending {
          return Some(candidate);
        }
        tries := tries + 1;
      }
      return None;
    }

    // -------------------------------------------------------------- refill

    /** The entries drawn so far in this refill hold the next chunks of the batch. */
    ghost predicate Drawn(rs: seq<Request>, drawn: seq<Entry>)
      requires 0 < chunkSize
      reads this`ledger, this`iterIndex, this`iterOffset, this`inputExhausted
    {
      && ChunksOf(ledger) + ChunksOf(drawn) + Rest(rs, chunkSize, iterIndex, iterOffset) == Chunks(rs, chunkSize)
      && (inputExhausted ==> Rest(rs, chunkSize, iterIndex, iterOffset) == [])
    }

    /** One visit of a lane with room: draw the next chunk and an id for it. */
    method Draw(rs: seq<Request>, env: Provider, q: nat, ghost start: nat, posts: seq<seq<Entry>>,
                ghost drawn: seq<Entry>)
      returns (ok: bool, e: Option<Entry>)
      requires AllAccepted(rs) && Configured() && |outstanding| == qpCount && 1 <= start <= MAX_WR_ID
      requires Routed(ledger, pending) && Counted(ledger, outstanding, wire) && !inputExhausted
      requires Drawn(rs, drawn) && Queued(pending.Keys, outstanding, queueDepth, start, nextWrId, posts, drawn)
      requires q < qpCount && outstanding[q] + |posts[q]| < queueDepth
      modifies this`iterIndex, this`iterOffset, this`inputExhausted, this`nextWrId
      ensures 1 <= nextWrId <= MAX_WR_ID
      // it fails only for a chunk that the verbs layer refuses: there is always a free id
      ensures var rest := old(Rest(rs, chunkSize, iterIndex, iterOffset));
        && (ok <==> rest == [] || env.acceptsChunk(rest[0]))
        && (ok ==> rest == (if e == None then [] else [e.value.chunk]) + Rest(rs, chunkSize, iterIndex, iterOffset))
      ensures ok && e == None ==>
        && inputExhausted && Drawn(rs, drawn)
        && Queued(pending.Keys, outstanding, queueDepth, start, nextWrId, posts, drawn)
      ensures ok && e.Some? ==>
        && !inputExhausted && e.value.qp == q && Drawn(rs, drawn + [e.value])
        && Queued(pending.Keys, outstanding, queueDepth, start, nextWrId, posts[q := posts[q] + [e.value]],
                  drawn + [e.value])
    {
      hide Routed, Counted;
      var chunk := NextChunk(rs);
      if chunk == None {
        inputExhausted := true;
        return true, None;
      }
      QueuedFits(ledger, pending, outstanding, queueDepth, start, nextWrId, posts, drawn, q, wire);
      ghost var next := nextWrId;
      var id := AllocateWrId();
      if id == None || !env.acceptsChunk(chunk.value) {
        return false, None;
      }
      e := Some(Entry(id.value, q, chunk.value, false));
      QueueOneMore(pending.Keys, outstanding, queueDepth, start, next, nextWrId, posts, drawn, e.value);
      IssueOneMore(ledger, drawn, e.value, Rest(rs, chunkSize, iterIndex, iterOffset));
      ok := true;
    }

    /** Half way through a refill: `rest` was not issued before, its first chunks are drawn and accepted. */
    ghost predicate Gathering(rs: seq<Request>, env: Provider, start: nat, rest: seq<Chunk>, posts: seq<seq<Entry>>,
                              drawn: seq<Entry>)
      requires 0 < chunkSize
      reads this
    {
      && |posts| == qpCount == |outstanding| && |drawn| <= |Chunks(rs, chunkSize)|
      && Drawn(rs, drawn) && Queued(pending.Keys, outstanding, queueDepth, start, nextWrId, posts, drawn)
      && rest == ChunksOf(drawn) + Rest(rs, chunkSize, iterIndex, iterOffset)
      && forall i | 0 <= i < |drawn| :: env.acceptsChunk(drawn[i].chunk)
    }

    /** Every chunk up to the first refused one is drawn. */
    ghost predicate DrawnFrom(rest: seq<Chunk>, env: Provider, drawn: seq<Entry>, ok: bool) {
      && ChunksOf(drawn) <= rest && (forall i | 0 <= i < |drawn| :: env.acceptsChunk(drawn[i].chunk))
      && (!ok ==> |drawn| < |rest| && !env.acceptsChunk(rest[|drawn|]))
    }

    /** Visit a lane with room. */
    method Visit(rs: seq<Request>, env: Provider, q: nat, ghost start: nat, ghost rest: seq<Chunk>,
                 posts: seq<seq<Entry>>, ghost drawn: seq<Entry>)
      returns (ok: bool, posts': seq<seq<Entry>>, ghost drawn': seq<Entry>)
      requires AllAccepted(rs) && Configured() && Gathering(rs, env, start, rest, posts, drawn)
      requires 1 <= start <= MAX_WR_ID && !inputExhausted
      requires Routed(ledger, pending) && Counted(ledger, outstanding, wire)
      requires q < qpCount && outstanding[q] + |posts[q]| < queueDepth
      modifies this`iterIndex, this`iterOffset, this`inputExhausted, this`nextWrId
      ensures 1 <= nextWrId <= MAX_WR_ID
      ensures !ok ==> drawn' == drawn && DrawnFrom(rest, env, drawn, false)
      ensures ok ==> Gathering(rs, env, start, rest, posts', drawn')
      ensures ok && inputExhausted ==> posts' == posts && drawn' == drawn
      ensures drawn' == drawn
        || (|drawn'| == |drawn| + 1 && drawn' == drawn + [drawn'[|drawn|]] && drawn'[|drawn|].qp == q)
      ensures ok && !inputExhausted ==>
        && |drawn'| == |drawn| + 1
        && forall p | 0 <= p < qpCount && p != q :: posts'[p] == posts[p]
    {
      hide Routed, Counted, Queued, Drawn, ScanMany, Fresh;
      posts', drawn' := posts, drawn;
      var e;
      ok, e := Draw(rs, env, q, start, posts, drawn);
      if ok && e.Some? {
        IssueOneMore([], drawn, e.value, Rest(rs, chunkSize, iterIndex, iterOffset));
        posts', drawn' := posts[q := posts[q] + [e.value]], drawn + [e.value];
        DrawnFits(rs, drawn');
      }
    }

    lemma DrawnFits(rs: seq<Request>, drawn: seq<Entry>)
      requires 0 < chunkSize && Drawn(rs, drawn)
      ensures |drawn| <= |Chunks(rs, chunkSize)|
    {
      assert |ChunksOf(drawn)| == |drawn|;
    }

    lemma GatherStarts(rs: seq<Request>, env: Provider)
      requires Configured() && |outstanding| == qpCount && 1 <= nextWrId <= MAX_WR_ID && Drawn(rs, [])
      requires forall q | 0 <= q < qpCount :: outstanding[q] <= queueDepth
      ensures Gathering(rs, env, nextWrId, Rest(rs, chunkSize, iterIndex, iterOffset), seq(qpCount, _ => []), [])
    {
      assert IdsOf([]) == [] && ChunksOf([]) == [];
    }

    lemma GatherEnds(rs: seq<Request>, env: Provider, start: nat, rest: seq<Chunk>, posts: seq<seq<Entry>>,
                     drawn: seq<Entry>)
      requires 0 < chunkSize && Gathering(rs, env, start, rest, posts, drawn)
      ensures Drawn(rs, drawn) && Queued(pending.Keys, outstanding, queueDepth, start, nextWrId, posts, drawn)
      ensures DrawnFrom(rest, env, drawn, true) && |posts| == qpCount == |outstanding|
          && |drawn| <= |Chunks(rs, chunkSize)|
      ensures 1 <= nextWrId <= MAX_WR_ID
    {
    }

    /** The round-robin passes over the lanes, one chunk for each lane with room. */
    method Gather(rs: seq<Request>, env: Provider)
      returns (ok: bool, posts: seq<seq<Entry>>, ghost drawn: seq<Entry>)
      requires AllAccepted(rs) && Configured() && |outstanding| == qpCount && 1 <= nextWrId <= MAX_WR_ID
      requires Routed(ledger, pending) && Counted(ledger, outstanding, wire)
      requires forall q | 0 <= q < qpCount :: outstanding[q] <= queueDepth
      requires Drawn(rs, [])
      modifies this`iterIndex, this`iterOffset, this`inputExhausted, this`nextWrId
      ensures 1 <= nextWrId <= MAX_WR_ID
      ensures ok ==>
        Drawn(rs, drawn) && Queued(pending.Keys, outstanding, queueDepth, old(nextWrId), nextWrId, posts, drawn)
      ensures ok ==> inputExhausted || AtDepth(outstanding, queueDepth, posts, qpCount)
      ensures DrawnFrom(old(Rest(rs, chunkSize, iterIndex, iterOffset)), env, drawn, ok)
      ensures RoundRobin(Room(outstanding, queueDepth), drawn)
    {
      hide Routed, Counted, Queued, Drawn, Gathering, DrawnFrom, Rest, Chunks, Dealt, RoundRobin, OnLane;
      ghost var rest, start := Rest(rs, chunkSize, iterIndex, iterOffset), nextWrId;
      posts, drawn := seq(qpCount, _ => []), [];
      GatherStarts(rs, env);
      GatherEnds(rs, env, start, rest, posts, drawn);
      ghost var room, pass := Room(outstanding, queueDepth), 0;
      NothingDealt(room);
      var madeProgress := true;
      while !inputExhausted && madeProgress
        invariant RoundRobin(room, drawn) && (!inputExhausted ==> Dealt(room, drawn, pass, 0))
        invariant Gathering(rs, env, start, rest, posts, drawn) && |posts| == qpCount
            && |drawn| <= |Chunks(rs, chunkSize)|
        invariant madeProgress || inputExhausted || AtDepth(outstanding, queueDepth, posts, qpCount)
        decreases |Chunks(rs, chunkSize)| - |drawn|, madeProgress
      {
        madeProgress := false;
        ghost var before := |drawn|;
        var q := 0;
        while q < qpCount
          invariant q <= qpCount == |posts| && !inputExhausted
          invariant RoundRobin(room, drawn) && Dealt(room, drawn, pass, q)
          invariant Gathering(rs, env, start, rest, posts, drawn) && before <= |drawn| <= |Chunks(rs, chunkSize)|
          invariant madeProgress ==> before < |drawn|
          invariant !madeProgress ==> AtDepth(outstanding, queueDepth, posts, q)
        {
          QueuedDepth(rs, env, start, rest, posts, drawn, q);
          if outstanding[q] + |posts[q]| < queueDepth {
            ghost var sofar := drawn;
            ok, posts, drawn := Visit(rs, env, q, start, rest, posts, drawn);
            if !ok { return; }
            GatherEnds(rs, env, start, rest, posts, drawn);
            if inputExhausted { break; }
            DealOneMore(room, sofar, pass, drawn[|sofar|]);
            madeProgress := true;
          } else {
            DealNone(room, drawn, pass, q);
          }
          q := q + 1;
        }
        if !inputExhausted { NextPass(room, drawn, pass); }
        pass := pass + 1;
      }
      GatherEnds(rs, env, start, rest, posts, drawn);
      ok := true;
    }

    lemma QueuedDepth(rs: seq<Request>, env: Provider, start: nat, rest: seq<Chunk>, posts: seq<seq<Entry>>,
                      drawn: seq<Entry>, q: nat)
      requires 0 < chunkSize && Gathering(rs, env, start, rest, posts, drawn) && q < qpCount
      ensures outstanding[q] + |posts[q]| <= queueDepth && posts[q] == OnLane(drawn, q)
    {
    }

    method RegisterLane(q: nat, queued: seq<Entry>)
      requires forall j | 0 <= j < |queued| :: queued[j].qp == q
      modifies this`pending
      ensures pending == Register(old(pending), queued)
    {
      var j := 0;
      while j < |queued|
        invariant j <= |queued|
        invariant pending == Register(old(pending), queued[..j])
      {
        assert queued[..j + 1][..j] == queued[..j];
        pending := pending[queued[j].id := Pending(q, queued[j].chunk)];
        j := j + 1;
      }
      assert queued[..j] == queued;
    }

    ghost function Now(): Books
      reads this
    {
      Books(pending, outstanding, wire)
    }

    method PostLane(q: nat, posts: seq<seq<Entry>>, env: Provider, ghost was: Books) returns (ok: bool)
      requires q < |posts| && Posted(q, q, posts, env, was, Now())
      requires posts[q] != [] && forall j | 0 <= j < |posts[q]| :: posts[q][j].qp == q
      modifies this`pending, this`outstanding, this`wire
      ensures ok == env.acceptsPost(q)
      ensures ok ==> Posted(q + 1, q + 1, posts, env, was, Now())
      ensures !ok ==> Posted(q, q + 1, posts, env, was, Now())
    {
      hide Register, Wires, Posted, Flat;
      ghost var now := Now();
      RegisterStep(q, posts, env, was, now);
      RegisterLane(q, posts[q]);
      ghost var registered := now.(pending := Register(now.pending, posts[q]));
      assert Now() == registered;
      if !env.acceptsPost(q) { return false; }
      PostStep(q, posts, env, was, registered);
      wire := wire[q := wire[q] + Wires(posts[q])];
      outstanding := outstanding[q := outstanding[q] + |posts[q]|];
      return true;
    }

    method PostQueued(posts: seq<seq<Entry>>, env: Provider) returns (ok: bool)
      requires |posts| == |outstanding| == |wire| == qpCount
      requires forall q | 0 <= q < qpCount :: forall j | 0 <= j < |posts[q]| :: posts[q][j].qp == q
      modifies this`pending, this`outstanding, this`wire
      ensures |outstanding| == |wire| == qpCount
      ensures ok <==> forall q: nat | q < qpCount && posts[q] != [] :: env.acceptsPost(q)
      ensures ok ==> Posted(qpCount, qpCount, posts, env, old(Now()), Now())
      // the first refused list is registered and not posted, later ones are neither
      ensures !ok ==> exists q: nat ::
        q < qpCount && posts[q] != [] && !env.acceptsPost(q) && Posted(q, q + 1, posts, env, old(Now()), Now())
    {
      ghost var was := Now();
      var q := 0;
      assert Posted(0, 0, posts, env, was, Now());
      while q < qpCount
        invariant q <= qpCount && Posted(q, q, posts, env, was, Now())
      {
        hide Register, Flat, Wires;
        if posts[q] != [] {
          ok := PostLane(q, posts, env, was);
          if !ok { return; }
        } else {
          EmptyStep(q, posts, env, was, Now());
        }
        q := q + 1;
      }
      ok := true;
    }

    /** Gather puts every drawn entry on the lane of its queue pair. */
    lemma LanesAgree(drawn: seq<Entry>, posts: seq<seq<Entry>>, env: Provider)
      requires forall q | 0 <= q < |posts| :: posts[q] == OnLane(drawn, q)
      requires forall i | 0 <= i < |drawn| :: drawn[i].qp < |posts|
      ensures forall q | 0 <= q < |posts| :: forall j | 0 <= j < |posts[q]| :: posts[q][j].qp == q
      ensures (forall q: nat | q < |posts| && posts[q] != [] :: env.acceptsPost(q)) ==>
        forall i | 0 <= i < |drawn| :: env.acceptsPost(drawn[i].qp)
    {
      forall q | 0 <= q < |posts| ensures forall j | 0 <= j < |posts[q]| :: posts[q][j].qp == q {
        LaneMembers(drawn, q);
        forall j | 0 <= j < |posts[q]| ensures posts[q][j].qp == q { assert posts[q][j] in OnLane(drawn, q); }
      }
      forall i | 0 <= i < |drawn| ensures drawn[i] in posts[drawn[i].qp] { OnItsLane(drawn, i); }
    }

    /** A chunk that was not issued is a chunk of the batch. */
    lemma RefusedChunk(batch: RdmaReadBatch, env: Provider, rest: seq<Chunk>, k: nat)
      requires 0 < chunkSize && ChunksOf(ledger) + rest == Chunks(batch.requests, chunkSize)
      requires k < |rest| && !env.acceptsChunk(rest[k])
      ensures !Accepts(env, batch)
    {
      assert Chunks(batch.requests, chunkSize)[|ledger| + k] == rest[k];
    }

    /** Enter the posted entries into the ledger. */
    method Enter(batch: RdmaReadBatch, ghost drawn: seq<Entry>, ghost posts: seq<seq<Entry>>, env: Provider,
                 ghost was: Books, ghost rest: seq<Chunk>, ghost start: nat)
      requires Configured() && 1 <= nextWrId <= MAX_WR_ID && |was.outstanding| == qpCount
      requires batch.owner == this && AllAccepted(batch.requests)
      requires batch.totalChunks == TotalChunks(batch.requests, chunkSize)
          && batch.totalBytes == TotalBytes(batch.requests)
      requires !batch.done && batch.error == None && !batch.callbackCalled && batch.callbackRuns == 0
      requires Balanced(Chunks(batch.requests, chunkSize), queueDepth, ledger, was.pending, was.outstanding, was.wire,
                        rest, batch.completedChunks, batch.completedBytes)
      requires Drawn(batch.requests, drawn)
          && Queued(was.pending.Keys, was.outstanding, queueDepth, start, nextWrId, posts, drawn)
      requires inputExhausted || AtDepth(was.outstanding, queueDepth, posts, qpCount)
      requires Posted(qpCount, qpCount, posts, env, was, Now())
      modifies this`ledger
      ensures Core(batch) && Full() && ledger == old(ledger) + drawn
    {
      hide Routed, Counted, Register, Wires, Fresh, ScanMany, Rest, Chunks;
      BalancedRefill(Chunks(batch.requests, chunkSize), queueDepth, ledger, was.pending, was.outstanding, was.wire,
                     rest,
                     batch.completedChunks, batch.completedBytes, drawn, posts, NotIssued(batch), outstanding, wire);
      assert ChunksOf(ledger + drawn) == ChunksOf(ledger) + ChunksOf(drawn);
      ledger := ledger + drawn;
    }

    lemma CoreMeans(batch: RdmaReadBatch)
      requires Core(batch)
      ensures Configured() && |outstanding| == qpCount && 1 <= nextWrId <= MAX_WR_ID && batch.owner == this
      ensures AllAccepted(batch.requests) && Drawn(batch.requests, [])
      ensures batch.totalChunks == TotalChunks(batch.requests, chunkSize)
          && batch.totalBytes == TotalBytes(batch.requests)
      ensures !batch.done && batch.error == None && !batch.callbackCalled && batch.callbackRuns == 0
      ensures Routed(ledger, pending) && Counted(ledger, outstanding, wire)
      ensures forall q | 0 <= q < qpCount :: outstanding[q] <= queueDepth
      ensures Balanced(Chunks(batch.requests, chunkSize), queueDepth, ledger, pending, outstanding, wire,
                       NotIssued(batch),
                       batch.completedChunks, batch.completedBytes)
      ensures ChunksOf(ledger) + NotIssued(batch) == Chunks(batch.requests, chunkSize) && |wire| == qpCount
    {
      assert ChunksOf(ledger) + ChunksOf([]) == ChunksOf(ledger);
    }

    lemma QueuedLanes(keys: set<nat>, outstanding: seq<nat>, depth: nat, start: nat, next: nat,
                      posts: seq<seq<Entry>>, drawn: seq<Entry>)
      requires Queued(keys, outstanding, depth, start, next, posts, drawn)
      ensures |posts| == |outstanding| && (forall q | 0 <= q < |posts| :: posts[q] == OnLane(drawn, q))
      ensures forall i | 0 <= i < |drawn| :: !drawn[i].done && drawn[i].qp < |posts|
    {
    }

    /** Post new chunks until the input is exhausted or every lane is at its depth. */
    method Refill(batch: RdmaReadBatch, env: Provider) returns (ok: bool)
      requires Core(batch)
      modifies this`pending, this`outstanding, this`wire, this`ledger
      modifies this`iterIndex, this`iterOffset, this`inputExhausted, this`nextWrId
      ensures |outstanding| == qpCount && 1 <= nextWrId <= MAX_WR_ID
      ensures ok ==> Core(batch) && Full() && old(ledger) <= ledger
      ensures ok ==> forall i | |old(ledger)| <= i < |ledger| ::
        !ledger[i].done && env.acceptsChunk(ledger[i].chunk) && env.acceptsPost(ledger[i].qp)
      // the new chunks are dealt round robin to the lanes with room
      ensures ok ==> RoundRobin(Room(old(outstanding), queueDepth), ledger[|old(ledger)|..])
      ensures Accepts(env, batch) ==> ok
    {
      hide Core, Full, Balanced, Routed, Counted, Drawn, Queued, Posted, Rest, Chunks, OnLane, Configured,
          AllAccepted, AtDepth, RoundRobin;
      CoreMeans(batch);
      assert 0 < chunkSize && 1 <= nextWrId <= MAX_WR_ID by { ConfiguredMeans(); }
      ghost var rest, start, was := NotIssued(batch), nextWrId, Now();
      var posts: seq<seq<Entry>>;
      ghost var drawn: seq<Entry>;
      ok, posts, drawn := Gather(batch.requests, env);
      if !ok {
        RefusedChunk(batch, env, rest, |drawn|);
        return;
      }
      QueuedLanes(pending.Keys, outstanding, queueDepth, start, nextWrId, posts, drawn);
      LanesAgree(drawn, posts, env);
      ok := PostQueued(posts, env);
      if !ok { return; }
      ghost var before := ledger;
      Enter(batch, drawn, posts, env, was, rest, start);
      assert ledger[|before|..] == drawn;
    }

    lemma ConfiguredMeans()
      requires Configured()
      ensures 0 < chunkSize && 0 < qpCount
    {
    }

    // -------------------------------------------------------------- completion

    method FinishSuccess(batch: RdmaReadBatch)
      requires batch == active && !batch.done && batch.error == None && !batch.callbackCalled && batch.callbackRuns == 0
      modifies this`active, batch
      ensures active == null && batch.done && batch.callbackRuns == (if batch.hasCallback then 1 else 0)
      ensures batch.error == if batch.hasCallback && batch.callbackRaises then Some(Callback) else None
      ensures batch.completedChunks == old(batch.completedChunks) && batch.completedBytes == old(batch.completedBytes)
    {
      batch.done := true;
      active := null;
      if batch.hasCallback && !batch.callbackCalled {
        batch.callbackCalled := true;
        batch.callbackRuns := batch.callbackRuns + 1;
        if batch.callbackRaises {
          batch.error := Some(Callback);
        }
      }
    }

    method FailTransport(batch: RdmaReadBatch, error: Failure)
      requires Configured() && |outstanding| == qpCount && 1 <= nextWrId <= MAX_WR_ID
      modifies this`active, this`inputExhausted, this`pending, this`outstanding, this`poisoned, this`closed,
          this`ownsResources
      modifies batch`error, batch`done
      ensures Valid() && active == null && poisoned && (old(ownsResources) ==> closed) && (old(closed) ==> closed)
      ensures batch.done && batch.error == Some(error)
    {
      batch.error := Some(error);
      batch.done := true;
      active := null;
      inputExhausted := true;
      pending := map[];
      outstanding := seq(qpCount, _ => 0);
      poisoned := true;
      if ownsResources {
        closed := true;
        ownsResources := false;
      }
    }

    method Submit(requests: seq<Request>, hasCallback: bool, callbackRaises: bool, env: Provider)
      returns (r: Outcome, batch: RdmaReadBatch?)
      requires Valid() && AllAccepted(requests)
      modifies this, active
      ensures Valid()
      // refused: nothing changed
      ensures old(closed) || old(poisoned) || old(active) != null ==>
        && r == Raised(if old(closed) then Closed else if old(poisoned) then Poisoned else Busy)
        && batch == null && unchanged(this) && (active != null ==> unchanged(active))
      // accepted: the batch is active and pipelined, or it had nothing to do, or posting failed
      ensures !old(closed) && !old(poisoned) && old(active) == null ==>
        && batch != null && fresh(batch) && batch.owner == this
        && batch.requests == requests && batch.hasCallback == hasCallback
        && (r.Returned? && requests != [] ==>
            active == batch && batch.completedChunks == 0 && RoundRobin(seq(qpCount, _ => queueDepth as int), ledger))
        && (r.Returned? && requests == [] ==> active == null && batch.Succeeded())
        && (r.Raised? ==> r.error == Transport && poisoned && batch.done && batch.error == Some(Transport))
        && (Accepting(env, Chunks(requests, chunkSize), qpCount) ==> r.Returned?)
    {
      if closed { return Raised(Closed), null; }
      if poisoned { return Raised(Poisoned), null; }
      if active != null { return Raised(Busy), null; }
      var b := new RdmaReadBatch(this, requests, TotalChunks(requests, chunkSize), hasCallback, callbackRaises);
      r := Start(b, env);
      batch := b;
    }

    method Start(batch: RdmaReadBatch, env: Provider) returns (r: Outcome)
      requires Valid() && !closed && !poisoned && active == null
      requires batch.owner == this && AllAccepted(batch.requests) && batch.totalBytes == TotalBytes(batch.requests)
      requires batch.totalChunks == TotalChunks(batch.requests, chunkSize)
      requires batch.completedChunks == batch.completedBytes == 0
      requires batch.error == None && !batch.done && !batch.callbackCalled && batch.callbackRuns == 0
      modifies this, batch
      ensures Valid()
      ensures r.Returned? && batch.requests != [] ==> active == batch && batch.completedChunks == 0
      ensures r.Returned? && batch.requests != [] ==> RoundRobin(seq(qpCount, _ => queueDepth as int), ledger)
      ensures r.Returned? && batch.requests == [] ==> active == null && batch.Succeeded()
      ensures r.Raised? ==> r.error == Transport && poisoned && batch.done && batch.error == Some(Transport)
      ensures Accepts(env, batch) ==> r.Returned?
    {
      hide RoundRobin, Chunks, Rest, AllAccepted, Balanced;
      active := batch;
      iterIndex, iterOffset := 0, 0;
      ledger, wire := [], seq(qpCount, _ => []);
      inputExhausted := batch.totalChunks == 0;
      ChunkTotals(batch.requests, chunkSize);
      assert 0 <= batch.totalChunks;
      if batch.totalChunks == 0 {
        if batch.requests != [] { SomeChunk(batch.requests, chunkSize); }
        FinishSuccess(batch);
        return Returned(0);
      }
      EmptyLedgerIsCore(batch);
      ghost var lanes := outstanding;
      assert Room(lanes, queueDepth) == seq(qpCount, _ => queueDepth as int);
      r := Prime(batch, env);
    }

    /** The first refill of a batch. */
    method Prime(batch: RdmaReadBatch, env: Provider) returns (r: Outcome)
      requires Core(batch) && active == batch && !closed && !poisoned && batch.completedChunks < batch.totalChunks
      requires ledger == []
      modifies this, batch
      ensures Valid()
      ensures r.Returned? ==> active == batch && batch.completedChunks == old(batch.completedChunks)
      ensures r.Returned? ==> RoundRobin(Room(old(outstanding), queueDepth), ledger)
      ensures r.Raised? ==> r.error == Transport && poisoned && batch.done && batch.error == Some(Transport)
      ensures Accepts(env, batch) ==> r.Returned?
    {
      hide Balanced, Chunks, Rest, TotalChunks, TotalBytes, AllAccepted, RoundRobin, Room;
      var ok := Refill(batch, env);
      assert ok ==> ledger[0..] == ledger;
      if ok {
        StartsPending(batch);
        ActiveIsValid(batch);
        r := Returned(0);
      } else {
        FailTransport(batch, Transport);
        r := Raised(Transport);
      }
    }

    lemma EmptyLedgerIsCore(batch: RdmaReadBatch)
      requires Configured() && |outstanding| == qpCount && 1 <= nextWrId <= MAX_WR_ID
      requires pending == map[] && forall q | 0 <= q < qpCount :: outstanding[q] == 0
      requires ledger == [] && wire == seq(qpCount, _ => []) && iterIndex == iterOffset == 0 && !inputExhausted
      requires batch.owner == this && AllAccepted(batch.requests) && batch.totalBytes == TotalBytes(batch.requests)
      requires batch.totalChunks == TotalChunks(batch.requests, chunkSize)
      requires batch.completedChunks == batch.completedBytes == 0
      requires batch.error == None && !batch.done && !batch.callbackCalled && batch.callbackRuns == 0
      ensures Core(batch)
    {
      assert outstanding == seq(qpCount, _ => 0);
      BalancedStart(Chunks(batch.requests, chunkSize), queueDepth, qpCount);
    }

    lemma SomeChunk(rs: seq<Request>, size: nat)
      requires 0 < size && AllAccepted(rs) && rs != []
      ensures Chunks(rs, size) != []
    {
      assert Accepted(rs[0]);
    }

    /** A filled pipeline is not empty unless the whole batch is complete. */
    lemma StartsPending(batch: RdmaReadBatch)
      requires Core(batch) && Full() && batch.completedChunks < batch.totalChunks
      ensures pending != map[]
    {
      Conservation(batch);
      if !inputExhausted { FullLanesPending(batch); }
    }

    lemma FullLanesPending(batch: RdmaReadBatch)
      requires Core(batch) && Full() && !inputExhausted
      ensures pending != map[]
    {
      assert outstanding[0] == queueDepth;
      SomethingOpen(ledger, 0);
      var i :| 0 <= i < |ledger| && !ledger[i].done;
      assert ledger[i].id in OpenIds(ledger);
    }

    /** Route one completion of completion queue q. */
    method Complete(batch: RdmaReadBatch, q: nat, wc: Completion) returns (ok: bool)
      requires Core(batch) && q < qpCount
      modifies this`pending, this`outstanding, this`ledger, batch`completedChunks, batch`completedBytes
      ensures |outstanding| == qpCount
      ensures ok <==> old(wc.id in pending && pending[wc.id].qp == q) && wc.success
      ensures ok ==> Core(batch) && batch.completedChunks == old(batch.completedChunks) + 1
      ensures ok ==> pending == old(pending) - {wc.id} && |ledger| == |old(ledger)|
      ensures ok ==> forall p | 0 <= p < qpCount :: outstanding[p] + (if p == q then 1 else 0) == old(outstanding[p])
    {
      hide Balanced, Rest, Chunks, TotalChunks, TotalBytes, AllAccepted, Configured;
      if wc.id !in pending {
        return false;
      }
      assert 0 < chunkSize by { ConfiguredMeans(); }
      var p := pending[wc.id];
      ghost var k := BalancedComplete(Chunks(batch.requests, chunkSize), queueDepth, ledger, pending, outstanding, wire,
                                      NotIssued(batch), batch.completedChunks, batch.completedBytes, wc.id);
      pending := pending - {wc.id};
      if p.qp != q {
        return false;
      }
      outstanding := outstanding[q := outstanding[q] - 1];
      if !wc.success {
        return false;
      }
      batch.completedChunks := batch.completedChunks + 1;
      batch.completedBytes := batch.completedBytes + p.chunk.length;
      ledger := Finish(ledger, k);
      ok := true;
    }

    /** How many completions one poll takes from queue q. */
    function Taken(outstanding: seq<nat>, polled: seq<Poll>, q: nat): nat
      requires q < |outstanding| && q < |polled|
    {
      Min(Min(pollBatch, outstanding[q]), |Got(polled[q])|)
    }

    function TakenBelow(outstanding: seq<nat>, polled: seq<Poll>, k: nat): nat
      requires k <= |outstanding| && k <= |polled|
    {
      if k == 0 then 0 else TakenBelow(outstanding, polled, k - 1) + Taken(outstanding, polled, k - 1)
    }

    /** Every completion that the first k queues hand out routes and succeeded. */
    ghost predicate Honest(pending: map<nat, Pending>, outstanding: seq<nat>, polled: seq<Poll>, k: nat)
      requires k <= |outstanding| && k <= |polled|
    {
      forall q: nat | q < k ::
        && (0 < Min(pollBatch, outstanding[q]) ==> polled[q].Some?)
        && Routable(pending, Got(polled[q]), q, Taken(outstanding, polled, q))
    }

    /** What is left of the pending map once the queues below q, and the first i completions of queue q, were routed. */
    ghost predicate Left(was: map<nat, Pending>, now: map<nat, Pending>, q: nat, wcs: seq<Completion>, i: nat)
      requires i <= |wcs|
    {
      && (forall id | id in now :: id in was && now[id] == was[id])
      && (forall id | id in was && was[id].qp > q :: id in now)
      && (forall id | id in was && was[id].qp == q :: id in now <==> forall j | 0 <= j < i :: wcs[j].id != id)
    }

    /** Nothing that was pending on the queues from q on has been routed. */
    ghost predicate Untouched(was: map<nat, Pending>, now: map<nat, Pending>, q: nat) {
      && (forall id | id in now :: id in was && now[id] == was[id])
      && (forall id | id in was && was[id].qp >= q :: id in now)
    }

    lemma NextQueue(was: map<nat, Pending>, now: map<nat, Pending>, q: nat, wcs: seq<Completion>, i: nat)
      requires i <= |wcs|
      ensures Untouched(was, now, q) ==> Left(was, now, q, wcs, 0)
      ensures Left(was, now, q, wcs, i) ==> Untouched(was, now, q + 1)
    {
    }

    lemma PollStarts(batch: RdmaReadBatch)
      requires Core(batch)
      ensures |outstanding| == qpCount && 0 < pollBatch && Untouched(pending, pending, 0)
    {
    }

    /** Poll every completion queue once; `polled[q]` is what queue q has ready. */
    method PollAll(batch: RdmaReadBatch, polled: seq<Poll>) returns (ok: bool, completed: nat)
      requires Core(batch) && |polled| == qpCount
      modifies this`pending, this`outstanding, this`ledger, batch`completedChunks, batch`completedBytes
      ensures |outstanding| == qpCount
      ensures ok <==> Honest(old(pending), old(outstanding), polled, qpCount)
      ensures ok ==> completed == TakenBelow(old(outstanding), polled, qpCount)
      ensures ok ==> Core(batch) && batch.completedChunks == old(batch.completedChunks) + completed
      ensures ok && completed == 0 ==> pending == old(pending) && outstanding == old(outstanding)
    {
      hide Core, Routable, Configured, Untouched, Left;
      ghost var was, before := pending, outstanding;
      PollStarts(batch);
      var q := 0;
      completed := 0;
      while q < qpCount
        invariant q <= qpCount == |outstanding| && Core(batch)
        invariant batch.completedChunks == old(batch.completedChunks) + completed
        invariant completed == TakenBelow(before, polled, q)
        invariant completed == 0 ==> pending == was && outstanding == before
        invariant Honest(was, before, polled, q) && Untouched(was, pending, q)
        invariant forall p | q <= p < qpCount :: outstanding[p] == before[p]
      {
        NextQueue(was, pending, q, Got(polled[q]), 0);
        var n;
        ok, n := PollQueue(batch, q, polled[q], was);
        if !ok { return; }
        NextQueue(was, pending, q, Got(polled[q]), n);
        completed := completed + n;
        q := q + 1;
      }
      ok := true;
    }

    /** Poll one completion queue; nothing that is pending on it was routed before. */
    method PollQueue(batch: RdmaReadBatch, q: nat, poll: Poll, ghost was: map<nat, Pending>)
      returns (ok: bool, completed: nat)
      requires Core(batch) && q < qpCount
      requires Left(was, pending, q, Got(poll), 0)
      modifies this`pending, this`outstanding, this`ledger, batch`completedChunks, batch`completedBytes
      ensures |outstanding| == qpCount
      ensures var wcs := Got(poll); var count := Min(Min(pollBatch, old(outstanding)[q]), |wcs|);
        && (ok <==> (0 < Min(pollBatch, old(outstanding)[q]) ==> poll.Some?) && Routable(was, wcs, q, count))
        && (ok ==> completed == count && Left(was, pending, q, wcs, count))
      ensures ok ==> Core(batch) && batch.completedChunks == old(batch.completedChunks) + completed
      ensures ok ==> forall p | 0 <= p < qpCount && p != q :: outstanding[p] == old(outstanding)[p]
      ensures ok && completed == 0 ==> pending == old(pending) && outstanding == old(outstanding)
    {
      hide Routable, Left, Balanced, Rest, Chunks, TotalChunks, TotalBytes, AllAccepted;
      RoutesNothing(was, Got(poll), q);
      if Min(pollBatch, outstanding[q]) == 0 {
        return true, 0;
      }
      if poll == None {
        return false, 0;
      }
      ok, completed := RouteAll(batch, q, poll.value, was);
    }

    lemma RoutesNothing(was: map<nat, Pending>, wcs: seq<Completion>, q: nat)
      ensures Routable(was, wcs, q, 0)
    {
    }

    /** Route the completions that one poll yielded. */
    method RouteAll(batch: RdmaReadBatch, q: nat, wcs: seq<Completion>, ghost was: map<nat, Pending>)
      returns (ok: bool, completed: nat)
      requires Core(batch) && q < qpCount
      requires Left(was, pending, q, wcs, 0)
      modifies this`pending, this`outstanding, this`ledger, batch`completedChunks, batch`completedBytes
      ensures |outstanding| == qpCount
      ensures var count := Min(Min(pollBatch, old(outstanding)[q]), |wcs|);
        && (ok <==> Routable(was, wcs, q, count))
        && (ok ==> completed == count && Left(was, pending, q, wcs, count))
      ensures ok ==> Core(batch) && batch.completedChunks == old(batch.completedChunks) + completed
      ensures ok ==> forall p | 0 <= p < qpCount && p != q :: outstanding[p] == old(outstanding)[p]
      ensures ok && completed == 0 ==> pending == old(pending) && outstanding == old(outstanding)
    {
      completed := 0;
      var count := Min(Min(pollBatch, outstanding[q]), |wcs|);
      while completed < count
        invariant completed <= count && Core(batch)
        invariant Routable(was, wcs, q, completed) && Left(was, pending, q, wcs, completed)
        invariant batch.completedChunks == old(batch.completedChunks) + completed
        invariant forall p | 0 <= p < qpCount && p != q :: outstanding[p] == old(outstanding)[p]
        invariant completed == 0 ==> pending == old(pending) && outstanding == old(outstanding)
      {
        RouteOneMore(was, pending, q, wcs, completed);
        ok := Complete(batch, q, wcs[completed]);
        if !ok {
          assert !Routable(was, wcs, q, count);
          return;
        }
        completed := completed + 1;
      }
      ok := true;
    }

    /** The next completion routes exactly when the completions up to it are routable. */
    lemma RouteOneMore(was: map<nat, Pending>, now: map<nat, Pending>, q: nat, wcs: seq<Completion>, i: nat)
      requires i < |wcs| && Routable(was, wcs, q, i) && Left(was, now, q, wcs, i)
      ensures var wc := wcs[i];
        var routes := wc.id in now && now[wc.id].qp == q && wc.success;
        && (Routable(was, wcs, q, i + 1) <==> routes)
        && (routes ==> Left(was, now - {wc.id}, q, wcs, i + 1))
    {
    }

    method Progress(batch: RdmaReadBatch, polled: seq<Poll>, env: Provider) returns (r: Outcome)
      requires Valid() && |polled| == qpCount
      modifies this, batch
      ensures Valid()
      // refused, or done: nothing changes
      ensures batch.owner != this || old(batch.done) || old(active) != batch ==>
        && unchanged(this) && unchanged(batch)
        && r == if batch.owner != this then Raised(NotOwner) else if !batch.done then Raised(NotActive)
                else if batch.error.Some? then Raised(batch.error.value) else Returned(0)
      // the active batch
      ensures !old(batch.done) && old(active) == batch ==>
        && (r.Returned? ==>
          && Honest(old(pending), old(outstanding), polled, qpCount)
          && r.count == TakenBelow(old(outstanding), polled, qpCount)
          && batch.completedChunks == old(batch.completedChunks) + r.count
          && (batch.done ==> active == null && 0 < r.count && batch.Succeeded()
                             && Delivered(batch.requests, chunkSize, ledger, wire))
          && (!batch.done ==> active == batch && batch.completedChunks < batch.totalChunks))
        && (r.Raised? ==>
            r.error == Transport && batch.done && batch.error == Some(Transport) && batch.callbackRuns == 0
                          && active == null && poisoned)
        && (Honest(old(pending), old(outstanding), polled, qpCount) && Accepts(env, batch) ==> r.Returned?)
    {
      if batch.owner != this {
        return Raised(NotOwner);
      }
      if !batch.done && batch != active {
        return Raised(NotActive);
      }
      if batch.done {
        return if batch.error.Some? then Raised(batch.error.value) else Returned(0);
      }
      r := Advance(batch, polled, env);
    }

    /** Poll, refill and finish the active batch. */
    method Advance(batch: RdmaReadBatch, polled: seq<Poll>, env: Provider) returns (r: Outcome)
      requires Valid() && active == batch && |polled| == qpCount
      modifies this, batch
      ensures Valid()
      ensures r.Returned? ==>
        && Honest(old(pending), old(outstanding), polled, qpCount)
        && r.count == TakenBelow(old(outstanding), polled, qpCount)
        && batch.completedChunks == old(batch.completedChunks) + r.count
        && (batch.done ==> active == null && 0 < r.count && batch.Succeeded()
                           && Delivered(batch.requests, chunkSize, ledger, wire))
        && (!batch.done ==> active == batch && batch.completedChunks < batch.totalChunks)
      ensures r.Raised? ==>
        && r.error == Transport && batch.done && batch.error == Some(Transport) && batch.callbackRuns == 0
        && active == null && poisoned
      ensures Honest(old(pending), old(outstanding), polled, qpCount) && Accepts(env, batch) ==> r.Returned?
    {
      hide Balanced, Honest, Delivered, Chunks, Rest, TotalChunks, TotalBytes, AllAccepted, Accepting;
      var ok, completed := PollAndRefill(batch, polled, env);
      if !ok {
        FailTransport(batch, Transport);
        return Raised(Transport);
      }
      if inputExhausted && pending == map[] {
        BatchComplete(batch);
        FinishSuccess(batch);
      } else {
        Unfinished(batch);
        ActiveIsValid(batch);
      }
      r := Returned(completed);
    }

    lemma ActiveIsValid(batch: RdmaReadBatch)
      requires active == batch && !closed && !poisoned && Core(batch) && Full() && pending != map[]
      ensures Valid()
    {
    }

    method PollAndRefill(batch: RdmaReadBatch, polled: seq<Poll>, env: Provider)
      returns (ok: bool, completed: nat)
      requires Core(batch) && Full() && pending != map[] && |polled| == qpCount
      modifies this`pending, this`outstanding, this`wire, this`ledger
      modifies this`iterIndex, this`iterOffset, this`inputExhausted, this`nextWrId
      modifies batch`completedChunks, batch`completedBytes
      ensures |outstanding| == qpCount && 1 <= nextWrId <= MAX_WR_ID
      ensures ok ==> Core(batch) && Full() && batch.completedChunks == old(batch.completedChunks) + completed
      ensures ok && pending == map[] ==> 0 < completed
      ensures ok ==> Honest(old(pending), old(outstanding), polled, qpCount)
      ensures ok ==> completed == TakenBelow(old(outstanding), polled, qpCount)
      ensures Honest(old(pending), old(outstanding), polled, qpCount) && Accepts(env, batch) ==> ok
    {
      ok, completed := PollAll(batch, polled);
      if ok && completed > 0 {
        ok := Refill(batch, env);
      }
    }

    lemma BatchComplete(batch: RdmaReadBatch)
      requires Core(batch) && inputExhausted && pending == map[]
      ensures batch.completedChunks == batch.totalChunks && batch.completedBytes == batch.totalBytes
      ensures Delivered(batch.requests, chunkSize, ledger, wire)
      ensures forall q | 0 <= q < qpCount :: outstanding[q] == 0
    {
      Conservation(batch);
      NothingOpen(ledger);
    }

    lemma Unfinished(batch: RdmaReadBatch)
      requires Core(batch) && Full() && !(inputExhausted && pending == map[])
      ensures batch.completedChunks < batch.totalChunks && pending != map[]
    {
      Conservation(batch);
      if !inputExhausted { FullLanesPending(batch); }
      assert |pending| > 0;
    }

    /** An unfinished batch is the active batch of its scheduler. */
    ghost predicate Whole(batch: RdmaReadBatch)
      reads batch, batch.owner
    {
      batch.done || batch.owner.active == batch
    }

    /** Enough honest rounds for the chunks that are left. */
    ghost predicate Suffices(rounds: seq<Round>, env: Provider, requests: seq<Request>, chunks: int)
    {
      && 0 < chunkSize && chunks <= |rounds| && Accepting(env, Chunks(requests, chunkSize), qpCount)
      && forall i | 0 <= i < |rounds| ::
        HonestRound(rounds[i], qpCount) && ProductiveRound(rounds[i], qpCount) && !rounds[i].expired
    }

    /** Such rounds exist for every batch that the verbs layer takes. */
    lemma SomeRoundsSuffice(env: Provider, requests: seq<Request>, chunks: nat) returns (rounds: seq<Round>)
      requires Valid() && Accepting(env, Chunks(requests, chunkSize), qpCount)
      ensures Suffices(rounds, env, requests, chunks)
      ensures forall i | 0 <= i < |rounds| :: forall p: map<nat, Pending> :: |rounds[i].polls(p)| == qpCount
    {
      OneByOneIsProductive(qpCount);
      rounds := seq(chunks, _ => OneByOne(qpCount));
    }

    /**
     Drive progress.  A batch that is still running has seen fewer productive rounds than it had chunks left,
     and as many honest productive rounds as it has chunks left finish it.  For a batch that is not this
     scheduler's active one, `progress` raises, and the handler then fails that batch and this scheduler.
     */
    method Wait(batch: RdmaReadBatch, rounds: seq<Round>, env: Provider) returns (r: Outcome, productive: nat)
      requires Valid() && forall i | 0 <= i < |rounds| :: forall p: map<nat, Pending> :: |rounds[i].polls(p)| == qpCount
      modifies this, batch
      ensures Valid()
      // a batch that ended before: its error is raised again, and nothing changes
      ensures old(batch.done) ==>
        && unchanged(this) && unchanged(batch) && productive == 0
        && r == if batch.error.Some? then Raised(batch.error.value) else Returned(0)
      // another scheduler's, or dropped before: it ends with this error, and this scheduler drops its own batch
      ensures !old(batch.done) && (batch.owner != this || old(active) != batch) ==>
        && r == Raised(if batch.owner != this then NotOwner else NotActive) && productive == 0
        && batch.done && batch.error == Some(r.error) && active == null && poisoned
        && (old(active) != null ==> unchanged(old(active)))
      // this scheduler's active batch
      ensures !old(batch.done) && old(active) == batch ==>
        && productive <= batch.totalChunks - old(batch.completedChunks)
        && (!batch.done ==>
            r.Returned? && active == batch && productive < batch.totalChunks - old(batch.completedChunks))
        && (batch.done && batch.error == None ==>
          r.Returned? && batch.Succeeded() && Delivered(batch.requests, chunkSize, ledger, wire))
        && (r.Raised? ==> batch.done && batch.error == Some(r.error))
        && (r.Raised? && r.error == Timeout ==> poisoned && batch.callbackRuns == 0)
        // it times out in the first turn that ends past the deadline, unless the batch ended, and not before
        && (!batch.done ==> forall i | 0 <= i < |rounds| :: !rounds[i].expired)
        && (r == Raised(Timeout) ==> exists i :: 0 <= i < |rounds| && rounds[i].expired)
        && (Suffices(rounds, env, batch.requests, batch.totalChunks - old(batch.completedChunks)) ==>
          batch.Succeeded() && Delivered(batch.requests, chunkSize, ledger, wire))
      // the schedulers and their batches stay in order exactly when the batch was this scheduler's, or done
      ensures old(batch.owner.Valid() && Whole(batch)) ==>
        (batch.owner.Valid() && (old(active) != null ==> Whole(old(active)))
         <==> old(batch.done) || batch.owner == this)
    {
      if batch.done {
        return if batch.error.Some? then Raised(batch.error.value) else Returned(0), 0;
      }
      if batch.owner != this || batch != active {
        var error := if batch.owner != this then NotOwner else NotActive;
        FailTransport(batch, error);
        return Raised(error), 0;
      }
      r, productive := Drive(batch, rounds, env);
    }

    /** The loop of `wait`. */
    method Drive(batch: RdmaReadBatch, rounds: seq<Round>, env: Provider) returns (r: Outcome, productive: nat)
      requires Valid() && active == batch
      requires forall i | 0 <= i < |rounds| :: forall p: map<nat, Pending> :: |rounds[i].polls(p)| == qpCount
      modifies this, batch
      ensures Valid()
      ensures productive <= batch.totalChunks - old(batch.completedChunks)
      ensures !batch.done ==>
        r.Returned? && active == batch && productive < batch.totalChunks - old(batch.completedChunks)
      ensures batch.done && batch.error == None ==>
        r.Returned? && batch.Succeeded() && Delivered(batch.requests, chunkSize, ledger, wire)
      ensures r.Raised? ==> batch.done && batch.error == Some(r.error)
      ensures r.Raised? && r.error == Timeout ==> poisoned && batch.callbackRuns == 0
      ensures !batch.done ==> forall i | 0 <= i < |rounds| :: !rounds[i].expired
      ensures r == Raised(Timeout) ==> exists i :: 0 <= i < |rounds| && rounds[i].expired
      ensures Suffices(rounds, env, batch.requests, batch.totalChunks - old(batch.completedChunks)) ==>
        batch.Succeeded() && Delivered(batch.requests, chunkSize, ledger, wire)
    {
      hide Core, Full, Suffices, Delivered, Balanced, Configured;
      var i := 0;
      productive := 0;
      ActiveMeans(batch);
      ghost var good := Suffices(rounds, env, batch.requests, batch.totalChunks - batch.completedChunks);
      while i < |rounds| && !batch.done
        invariant i <= |rounds| && Valid()
        invariant productive <= batch.completedChunks - old(batch.completedChunks)
        invariant good && !batch.done ==> i <= productive
        invariant !batch.done ==> forall j | 0 <= j < i :: !rounds[j].expired
        invariant !batch.done ==> active == batch && batch.completedChunks < batch.totalChunks
        invariant batch.done ==> Ended(batch)
      {
        if good { SufficientRound(rounds, env, batch, old(batch.completedChunks), i); }
        r := TakeTurn(batch, rounds[i], env);
        if r.Raised? { return; }
        if r.count > 0 { productive := productive + 1; }
        i := i + 1;
      }
      if good { EnoughRounds(rounds, env, batch, old(batch.completedChunks)); }
      r := if batch.done && batch.error.Some? then Raised(batch.error.value) else Returned(0);
    }

    /** The batch ended with everything delivered. */
    ghost predicate Ended(batch: RdmaReadBatch)
      reads this, batch
    {
      && batch.completedChunks == batch.totalChunks && active == null
      && batch.Succeeded() && Delivered(batch.requests, chunkSize, ledger, wire)
    }

    lemma ActiveMeans(batch: RdmaReadBatch)
      requires Valid() && active == batch
      ensures batch.completedChunks < batch.totalChunks && batch.owner == this && 0 < chunkSize
      ensures !batch.done && batch.error == None && batch.callbackRuns == 0 && pending != map[] && Core(batch)
    {
      Unfinished(batch);
    }

    lemma SufficientRound(rounds: seq<Round>, env: Provider, batch: RdmaReadBatch, completed: int, i: nat)
      requires 0 < chunkSize && Suffices(rounds, env, batch.requests, batch.totalChunks - completed) && i < |rounds|
      ensures Accepts(env, batch) && !rounds[i].expired
      ensures HonestRound(rounds[i], qpCount) && ProductiveRound(rounds[i], qpCount)
    {
    }

    lemma EnoughRounds(rounds: seq<Round>, env: Provider, batch: RdmaReadBatch, completed: int)
      requires Suffices(rounds, env, batch.requests, batch.totalChunks - completed)
      ensures batch.totalChunks - completed <= |rounds|
    {
    }

    /** One turn of the loop: make progress, and give up once the deadline has passed. */
    method TakeTurn(batch: RdmaReadBatch, round: Round, env: Provider) returns (r: Outcome)
      requires Valid() && active == batch && forall p: map<nat, Pending> :: |round.polls(p)| == qpCount
      modifies this, batch
      ensures Valid()
      ensures r.Raised? ==> batch.done && batch.error == Some(r.error)
      ensures r == Raised(Timeout) ==> poisoned && batch.callbackRuns == 0 && round.expired
      ensures r.Returned? ==> batch.completedChunks >= old(batch.completedChunks) + (if r.count > 0 then 1 else 0)
      ensures r.Returned? && !batch.done ==>
        active == batch && batch.completedChunks < batch.totalChunks && !round.expired
      ensures r.Returned? && batch.done ==> Ended(batch)
      ensures Accepts(env, batch) && HonestRound(round, qpCount) && ProductiveRound(round, qpCount) ==>
        !round.expired ==> r.Returned? && 0 < r.count
    {
      hide Core, Full, Delivered, Balanced, Configured, HonestRound, ProductiveRound, Honest, Accepting;
      ActiveMeans(batch);
      var polled := round.polls(pending);
      if HonestRound(round, qpCount) && ProductiveRound(round, qpCount) { HonestPolls(batch, round); }
      r := Progress(batch, polled, env);
      if r.Raised? { return; }
      if !batch.done { ActiveMeans(batch); }
      if !batch.done && round.expired {
        FailTransport(batch, Timeout);
        return Raised(Timeout);
      }
    }

    static lemma RoundNow(round: Round, p: map<nat, Pending>, n: nat)
      requires HonestRound(round, n) && ProductiveRound(round, n) && p != map[] && OnLanes(p, n)
      ensures Any(round.polls(p)) && Due(p, round.polls(p), n)
    {
    }

    /** An honest productive round is honest for this state, and takes at least one completion. */
    lemma HonestPolls(batch: RdmaReadBatch, round: Round)
      requires Core(batch) && pending != map[] && HonestRound(round, qpCount) && ProductiveRound(round, qpCount)
      ensures var polled := round.polls(pending);
        && |polled| == qpCount && Honest(pending, outstanding, polled, qpCount)
        && 0 < TakenBelow(outstanding, polled, qpCount)
    {
      hide Core, HonestRound, ProductiveRound, Configured, Routable, Honest, Due, Any;
      var polled := round.polls(pending);
      PollStarts(batch);
      PendingOnLanes(batch);
      RoundNow(round, pending, qpCount);
      DueIsHonest(pending, outstanding, polled);
      DueIsTaken(batch, polled);
    }

    lemma DueIsHonest(pending: map<nat, Pending>, outstanding: seq<nat>, polled: seq<Poll>)
      requires |outstanding| == qpCount && Due(pending, polled, qpCount)
      ensures Honest(pending, outstanding, polled, qpCount)
    {
      forall q: nat | q < qpCount ensures Routable(pending, Got(polled[q]), q, Taken(outstanding, polled, q)) {
        FewerRoutable(pending, Got(polled[q]), q, Taken(outstanding, polled, q));
      }
    }

    lemma FewerRoutable(pending: map<nat, Pending>, wcs: seq<Completion>, q: nat, k: nat)
      requires k <= |wcs| && Routable(pending, wcs, q, |wcs|)
      ensures Routable(pending, wcs, q, k)
    {
    }

    lemma DueIsTaken(batch: RdmaReadBatch, polled: seq<Poll>)
      requires Core(batch) && Due(pending, polled, qpCount) && Any(polled)
      ensures |outstanding| == |polled| == qpCount && 0 < TakenBelow(outstanding, polled, qpCount)
    {
      hide Core, Configured, Routable, Untouched, TakenBelow, Due;
      PollStarts(batch);
      var q: nat :| q < |polled| && Got(polled[q]) != [];
      assert |polled| == qpCount by { DueSize(polled); }
      DueHead(polled, q);
      SomethingOutstanding(batch, Got(polled[q])[0].id);
      assert 0 < Taken(outstanding, polled, q);
      TakenStep(polled, q + 1);
      TakenGrows(polled, q + 1, qpCount);
    }

    lemma DueSize(polled: seq<Poll>)
      requires Due(pending, polled, qpCount)
      ensures |polled| == qpCount
    {
    }

    /** A completion that is due is one of its queue's requests. */
    lemma DueHead(polled: seq<Poll>, q: nat)
      requires Due(pending, polled, qpCount) && q < |polled| && Got(polled[q]) != []
      ensures var id := Got(polled[q])[0].id; id in pending && pending[id].qp == q
    {
      assert Routable(pending, Got(polled[q]), q, |Got(polled[q])|);
    }

    lemma TakenStep(polled: seq<Poll>, k: nat)
      requires 0 < k <= |outstanding| && k <= |polled|
      ensures TakenBelow(outstanding, polled, k)
           == TakenBelow(outstanding, polled, k - 1) + Taken(outstanding, polled, k - 1)
    {
    }

    lemma PendingOnLanes(batch: RdmaReadBatch)
      requires Core(batch)
      ensures OnLanes(pending, qpCount)
    {
      forall id | id in pending ensures pending[id].qp < qpCount { SomethingOutstanding(batch, id); }
    }

    lemma SomethingOutstanding(batch: RdmaReadBatch, id: nat)
      requires Core(batch) && id in pending
      ensures pending[id].qp < qpCount && 0 < outstanding[pending[id].qp]
    {
      var k := BalancedComplete(Chunks(batch.requests, chunkSize), queueDepth, ledger, pending, outstanding, wire,
                                NotIssued(batch), batch.completedChunks, batch.completedBytes, id);
    }

    lemma {:induction false} TakenGrows(polled: seq<Poll>, k: nat, n: nat)
      requires k <= n <= |outstanding| && n <= |polled|
      ensures TakenBelow(outstanding, polled, k) <= TakenBelow(outstanding, polled, n)
      decreases n
    {
      if k < n { TakenGrows(polled, k, n - 1); }
    }

    method Close()
      requires Valid()
      modifies this, active
      ensures Valid() && closed && active == null
      ensures old(active) != null && !old(closed) ==> old(active).done && old(active).error == Some(ClosedInFlight)
    {
      if closed { return; }
      if active != null && !active.done {
        active.error := Some(ClosedInFlight);
        active.done := true;
      }
      active := null;
      pending := map[];
      outstanding := seq(qpCount, _ => 0);
      closed := true;
      ownsResources := false;
    }
  }

  /**
   Waiting for a batch of another scheduler raises, and ends the batch without its owner, which then has an
   ended batch active.
   */
  method ForeignWait(request: Request, env: Provider)
    returns (waiting: RdmaReadScheduler, owner: RdmaReadScheduler, batch: RdmaReadBatch?, r: Outcome)
    requires Accepted(request) && Accepting(env, Chunks([request], 1), 1)
    ensures batch != null && batch.owner == owner && r == Raised(NotOwner)
    ensures batch.done && owner.active == batch && waiting.Valid() && !owner.Valid()
  {
    waiting := new RdmaReadScheduler(1, 1, 1, 1, false);
    owner := new RdmaReadScheduler(1, 1, 1, 1, false);
    var submitted;
    submitted, batch := owner.Submit([request], false, false, env);
    var productive;
    r, productive := waiting.Wait(batch, [], env);
  }
}

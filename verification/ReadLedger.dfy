/** The history of one batch: every chunk issued so far, its id, its queue pair, and whether it completed. */
module ReadLedger {
  import opened Arithmetic
  import opened ReadRequests
  import opened WrIds

  datatype Entry = Entry(id: nat, qp: nat, chunk: Chunk, done: bool)

  datatype Pending = Pending(qp: nat, chunk: Chunk)

  ghost function OpenIds(l: seq<Entry>): set<nat> { set i | 0 <= i < |l| && !l[i].done :: l[i].id }

  function Open(l: seq<Entry>): nat {
    if l == [] then 0 else Open(l[..|l| - 1]) + if l[|l| - 1].done then 0 else 1
  }

  function OpenOn(l: seq<Entry>, q: nat): nat {
    if l == [] then 0
    else OpenOn(l[..|l| - 1], q) + if !l[|l| - 1].done && l[|l| - 1].qp == q then 1 else 0
  }

  function DoneBytes(l: seq<Entry>): int {
    if l == [] then 0 else DoneBytes(l[..|l| - 1]) + if l[|l| - 1].done then l[|l| - 1].chunk.length else 0
  }

  /** The entries of one queue pair, in issue order. */
  function OnLane(l: seq<Entry>, q: nat): seq<Entry> {
    if l == [] then []
    else OnLane(l[..|l| - 1], q) + if l[|l| - 1].qp == q then [l[|l| - 1]] else []
  }

  function Wires(l: seq<Entry>): seq<SendWR> { seq(|l|, i requires 0 <= i < |l| => WorkRequest(l[i].id, l[i].chunk)) }

  function ChunksOf(l: seq<Entry>): seq<Chunk> { seq(|l|, i requires 0 <= i < |l| => l[i].chunk) }

  function IdsOf(l: seq<Entry>): seq<nat> { seq(|l|, i requires 0 <= i < |l| => l[i].id) }

  /** An entry is on the lane of its queue pair. */
  lemma {:induction false} OnItsLane(l: seq<Entry>, i: nat)
    requires i < |l|
    ensures l[i] in OnLane(l, l[i].qp)
  {
    if i < |l| - 1 { OnItsLane(l[..|l| - 1], i); }
  }

  /** The pending map holds exactly the open entries. */
  ghost predicate Routed(l: seq<Entry>, pending: map<nat, Pending>) {
    && (forall i | 0 <= i < |l| :: 1 <= l[i].id <= MAX_WR_ID)
    && (forall i, j | 0 <= i < j < |l| && !l[i].done && !l[j].done :: l[i].id != l[j].id)
    && pending.Keys == OpenIds(l)
    && (forall i | 0 <= i < |l| && !l[i].done :: pending[l[i].id] == Pending(l[i].qp, l[i].chunk))
  }

  /** The counters count the open entries by queue pair; the queue pairs were handed exactly theirs. */
  ghost predicate Counted(l: seq<Entry>, outstanding: seq<nat>, wire: seq<seq<SendWR>>) {
    && |wire| == |outstanding|
    && (forall i | 0 <= i < |l| :: l[i].qp < |outstanding|)
    && (forall q | 0 <= q < |outstanding| :: outstanding[q] == OpenOn(l, q) && wire[q] == Wires(OnLane(l, q)))
  }

  // ---------------------------------------------------------------- counting

  lemma {:induction false} AppendCounts(l: seq<Entry>, m: seq<Entry>, q: nat)
    requires forall i | 0 <= i < |m| :: !m[i].done
    ensures OpenOn(l + m, q) == OpenOn(l, q) + |OnLane(m, q)|
    ensures Open(l + m) == Open(l) + |m|
    ensures DoneBytes(l + m) == DoneBytes(l)
    ensures OnLane(l + m, q) == OnLane(l, q) + OnLane(m, q)
  {
    if m == [] {
      assert l + m == l;
    } else {
      AppendCounts(l, m[..|m| - 1], q);
      assert (l + m)[..|l + m| - 1] == l + m[..|m| - 1];
    }
  }

  lemma {:induction false} LaneMembers(l: seq<Entry>, q: nat)
    ensures forall e :: e in OnLane(l, q) <==> e in l && e.qp == q
  {
    if l != [] {
      LaneMembers(l[..|l| - 1], q);
      assert l == l[..|l| - 1] + [l[|l| - 1]];
    }
  }

  /** Ids of open entries are distinct, so the pending map has one key for each. */
  lemma {:induction false} OpenIdsSize(l: seq<Entry>)
    requires forall i, j | 0 <= i < j < |l| && !l[i].done && !l[j].done :: l[i].id != l[j].id
    ensures |OpenIds(l)| == Open(l)
  {
    if l == [] {
      assert OpenIds(l) == {};
    } else {
      var k := |l| - 1;
      OpenIdsSize(l[..k]);
      OpenIdsStep(l[..k], l[k]);
      assert l == l[..k] + [l[k]];
      if !l[k].done {
        assert l[k].id !in OpenIds(l[..k]);
        assert |OpenIds(l[..k]) + {l[k].id}| == |OpenIds(l[..k])| + 1;
      }
    }
  }

  lemma OpenIdsStep(l: seq<Entry>, e: Entry)
    ensures OpenIds(l + [e]) == OpenIds(l) + if e.done then {} else {e.id}
  {
    var m := l + [e];
    forall i | 0 <= i < |l| && !l[i].done ensures l[i].id in OpenIds(m) { assert m[i] == l[i]; }
    if !e.done { assert m[|l|].id in OpenIds(m); }
    forall id | id in OpenIds(m) ensures id in OpenIds(l) + if e.done then {} else {e.id} {
      var i :| 0 <= i < |m| && !m[i].done && m[i].id == id;
      if i < |l| { assert l[i].id in OpenIds(l); }
    }
  }

  /** Sum of the open entries of the first k lanes. */
  function OpenBelow(l: seq<Entry>, k: nat): nat {
    if k == 0 then 0 else OpenBelow(l, k - 1) + OpenOn(l, k - 1)
  }

  lemma {:induction false} OpenBelowStep(l: seq<Entry>, e: Entry, k: nat)
    ensures OpenBelow(l + [e], k) == OpenBelow(l, k) + if !e.done && e.qp < k then 1 else 0
  {
    if k > 0 {
      OpenBelowStep(l, e, k - 1);
      assert (l + [e])[..|l + [e]| - 1] == l;
    }
  }

  lemma {:induction false} OpenByLane(l: seq<Entry>, n: nat)
    requires forall i | 0 <= i < |l| :: l[i].qp < n
    ensures OpenBelow(l, n) == Open(l)
  {
    if l == [] {
      OpenBelowNone(n);
    } else {
      var k := |l| - 1;
      OpenByLane(l[..k], n);
      OpenBelowStep(l[..k], l[k], n);
      assert l[..k] + [l[k]] == l;
      assert l[k].qp < n;
    }
  }

  lemma {:induction false} OpenBelowNone(k: nat)
    ensures OpenBelow([], k) == 0
  {
    if k > 0 { OpenBelowNone(k - 1); }
  }

  lemma {:induction false} OpenBelowBound(l: seq<Entry>, k: nat, depth: nat)
    requires forall q: nat | q < k :: OpenOn(l, q) <= depth
    ensures OpenBelow(l, k) <= k * depth
    ensures (exists q: nat :: q < k && OpenOn(l, q) < depth) ==> OpenBelow(l, k) < k * depth
  {
    if k > 0 {
      OpenBelowBound(l, k - 1, depth);
      assert k * depth == (k - 1) * depth + depth;
    }
  }

  /** While some queue pair has room, the ids in flight leave one free. */
  lemma RoomForOneMore(l: seq<Entry>, n: nat, depth: nat, q: nat)
    requires q < n && (forall i | 0 <= i < |l| :: l[i].qp < n)
    requires (forall p: nat | p < n :: OpenOn(l, p) <= depth) && OpenOn(l, q) < depth
    ensures Open(l) < n * depth
  {
    OpenByLane(l, n);
    OpenBelowBound(l, n, depth);
  }

  lemma {:induction false} SomethingOpen(l: seq<Entry>, q: nat)
    requires 0 < OpenOn(l, q)
    ensures exists i :: 0 <= i < |l| && !l[i].done
  {
    var k := |l| - 1;
    if l[k].done || l[k].qp != q {
      SomethingOpen(l[..k], q);
      var i :| 0 <= i < k && !l[..k][i].done;
      assert !l[i].done;
    }
  }

  // ---------------------------------------------------------------- completing one entry

  function Finish(l: seq<Entry>, k: nat): seq<Entry>
    requires k < |l|
  { l[k := l[k].(done := true)] }

  lemma {:induction false} FinishCounts(l: seq<Entry>, k: nat, q: nat)
    requires k < |l| && !l[k].done
    ensures OpenOn(Finish(l, k), q) == OpenOn(l, q) - if l[k].qp == q then 1 else 0
    ensures Open(Finish(l, k)) == Open(l) - 1
    ensures DoneBytes(Finish(l, k)) == DoneBytes(l) + l[k].chunk.length
    ensures Wires(OnLane(Finish(l, k), q)) == Wires(OnLane(l, q))
  {
    var n := |l| - 1;
    var l' := Finish(l, k);
    if k == n {
      assert l'[..n] == l[..n];
    } else {
      FinishCounts(l[..n], k, q);
      assert l'[..n] == Finish(l[..n], k);
      WiresAppend(OnLane(l[..n], q), if l[n].qp == q then [l[n]] else []);
      WiresAppend(OnLane(l'[..n], q), if l[n].qp == q then [l[n]] else []);
    }
  }

  lemma WiresAppend(l: seq<Entry>, m: seq<Entry>)
    ensures Wires(l + m) == Wires(l) + Wires(m)
  {
  }

  lemma FinishKeepsRouted(l: seq<Entry>, pending: map<nat, Pending>, k: nat)
    requires Routed(l, pending) && k < |l| && !l[k].done
    ensures l[k].id in pending && pending[l[k].id] == Pending(l[k].qp, l[k].chunk)
    ensures Routed(Finish(l, k), pending - {l[k].id})
    ensures ChunksOf(Finish(l, k)) == ChunksOf(l)
  {
    var l' := Finish(l, k);
    assert l[k].id in OpenIds(l);
    forall id ensures id in OpenIds(l') <==> id in OpenIds(l) && id != l[k].id {
      if id in OpenIds(l) && id != l[k].id {
        var i :| 0 <= i < |l| && !l[i].done && l[i].id == id;
        assert l'[i] == l[i];
      }
      if id in OpenIds(l') {
        var i :| 0 <= i < |l'| && !l'[i].done && l'[i].id == id;
        assert l[i] == l'[i];
      }
    }
  }

  lemma FinishKeepsCounted(l: seq<Entry>, outstanding: seq<nat>, wire: seq<seq<SendWR>>, k: nat)
    requires Counted(l, outstanding, wire) && k < |l| && !l[k].done
    ensures 0 < outstanding[l[k].qp]
    ensures Counted(Finish(l, k), outstanding[l[k].qp := outstanding[l[k].qp] - 1], wire)
  {
    var l' := Finish(l, k);
    FinishCounts(l, k, l[k].qp);
    forall q | 0 <= q < |outstanding|
      ensures OpenOn(l', q) == OpenOn(l, q) - (if l[k].qp == q then 1 else 0)
          && Wires(OnLane(l', q)) == Wires(OnLane(l, q))
    {
      FinishCounts(l, k, q);
    }
  }

  // ---------------------------------------------------------------- registering new entries

  /** The pending map after the entries es were registered in turn. */
  function Register(pending: map<nat, Pending>, es: seq<Entry>): map<nat, Pending> {
    if es == [] then pending
    else Register(pending, es[..|es| - 1])[es[|es| - 1].id := Pending(es[|es| - 1].qp, es[|es| - 1].chunk)]
  }

  lemma {:induction false} RegisterAppend(pending: map<nat, Pending>, es: seq<Entry>, fs: seq<Entry>)
    ensures Register(pending, es + fs) == Register(Register(pending, es), fs)
  {
    if fs == [] {
      assert es + fs == es;
    } else {
      RegisterAppend(pending, es, fs[..|fs| - 1]);
      assert (es + fs)[..|es + fs| - 1] == es + fs[..|fs| - 1];
    }
  }

  /** The queued entries of the first k queue pairs, one queue pair after the other. */
  function Flat(posts: seq<seq<Entry>>, k: nat): seq<Entry>
    requires k <= |posts|
  {
    if k == 0 then [] else Flat(posts, k - 1) + posts[k - 1]
  }

  lemma {:induction false} FlatMembers(posts: seq<seq<Entry>>, k: nat)
    requires k <= |posts|
    ensures forall e :: e in Flat(posts, k) <==> exists q :: 0 <= q < k && e in posts[q]
  {
    if k > 0 { FlatMembers(posts, k - 1); }
  }

  lemma {:induction false} RegisterKeys(pending: map<nat, Pending>, es: seq<Entry>)
    ensures forall id :: id in Register(pending, es) <==> id in pending || exists e :: e in es && e.id == id
    ensures forall id | id in pending && (forall e | e in es :: e.id != id) :: Register(pending, es)[id] == pending[id]
    ensures (forall e, e' | e in es && e' in es && e.id == e'.id :: e == e')
        ==> forall e | e in es :: Register(pending, es)[e.id] == Pending(e.qp, e.chunk)
  {
    if es != [] {
      RegisterKeys(pending, es[..|es| - 1]);
      assert es == es[..|es| - 1] + [es[|es| - 1]];
    }
  }

  lemma FlatOfLanes(m: seq<Entry>, posts: seq<seq<Entry>>)
    requires forall i | 0 <= i < |m| :: m[i].qp < |posts|
    requires forall q | 0 <= q < |posts| :: posts[q] == OnLane(m, q)
    ensures forall e :: e in Flat(posts, |posts|) <==> e in m
  {
    FlatMembers(posts, |posts|);
    forall e ensures e in Flat(posts, |posts|) <==> e in m {
      if e in m { LaneMembers(m, e.qp); assert e in posts[e.qp]; }
      if e in Flat(posts, |posts|) { var q :| 0 <= q < |posts| && e in posts[q]; LaneMembers(m, q); }
    }
  }

  lemma FreshEntries(m: seq<Entry>, pending: set<nat>)
    requires Fresh(IdsOf(m), pending)
    ensures forall e, e' | e in m && e' in m && e.id == e'.id :: e == e'
    ensures forall e | e in m :: e.id !in pending
    ensures forall i, j | 0 <= i < j < |m| :: m[i].id != m[j].id
  {
    var ids := IdsOf(m);
    forall i, j | 0 <= i < j < |m| ensures m[i].id != m[j].id { assert ids[i] != ids[j]; }
    forall e | e in m ensures e.id !in pending {
      var i :| 0 <= i < |m| && m[i] == e;
      assert ids[i] == e.id;
    }
  }

  lemma OpenIdsAppend(l: seq<Entry>, m: seq<Entry>)
    requires forall i | 0 <= i < |m| :: !m[i].done
    ensures forall id :: id in OpenIds(l + m) <==> id in OpenIds(l) || exists e :: e in m && e.id == id
  {
    forall id ensures id in OpenIds(l + m) <==> id in OpenIds(l) || exists e :: e in m && e.id == id {
      if id in OpenIds(l + m) {
        var i :| 0 <= i < |l + m| && !(l + m)[i].done && (l + m)[i].id == id;
        if i < |l| { assert l[i].id in OpenIds(l); } else { assert m[i - |l|] in m; }
      }
      if id in OpenIds(l) {
        var i :| 0 <= i < |l| && !l[i].done && l[i].id == id;
        assert (l + m)[i] == l[i];
      }
      if e :| e in m && e.id == id {
        var i :| 0 <= i < |m| && m[i] == e;
        assert (l + m)[|l| + i] == e;
      }
    }
  }

  lemma RegisterLookups(l: seq<Entry>, m: seq<Entry>, es: seq<Entry>, pending: map<nat, Pending>)
    requires Routed(l, pending) && (forall e :: e in es <==> e in m) && Fresh(IdsOf(m), pending.Keys)
    ensures forall i | 0 <= i < |l| && !l[i].done ::
      l[i].id in Register(pending, es) && Register(pending, es)[l[i].id] == Pending(l[i].qp, l[i].chunk)
    ensures forall i | 0 <= i < |m| ::
      m[i].id in Register(pending, es) && Register(pending, es)[m[i].id] == Pending(m[i].qp, m[i].chunk)
  {
    FreshEntries(m, pending.Keys);
    RegisterKeys(pending, es);
    forall i | 0 <= i < |l| && !l[i].done ensures l[i].id in pending { assert l[i].id in OpenIds(l); }
    forall i | 0 <= i < |m| ensures m[i] in es { assert m[i] in m; }
  }

  /** Registering fresh entries, in whatever order, extends the ledger by them. */
  lemma RegisterKeepsRouted(l: seq<Entry>, m: seq<Entry>, es: seq<Entry>, pending: map<nat, Pending>)
    requires Routed(l, pending) && (forall e :: e in es <==> e in m)
    requires forall i | 0 <= i < |m| :: !m[i].done && 1 <= m[i].id <= MAX_WR_ID
    requires Fresh(IdsOf(m), pending.Keys)
    ensures Routed(l + m, Register(pending, es))
  {
    FreshEntries(m, pending.Keys);
    RegisterLookups(l, m, es, pending);
    OpenIdsAppend(l, m);
    RegisterKeys(pending, es);
    assert Register(pending, es).Keys == OpenIds(l + m);
    forall i, j | 0 <= i < |l| <= j < |l + m| && !l[i].done ensures l[i].id != (l + m)[j].id {
      assert l[i].id in OpenIds(l);
      assert m[j - |l|] in m;
    }
  }

  lemma AppendKeepsCounted(l: seq<Entry>, m: seq<Entry>, posts: seq<seq<Entry>>, outstanding: seq<nat>,
                           wire: seq<seq<SendWR>>, outstanding': seq<nat>, wire': seq<seq<SendWR>>)
    requires Counted(l, outstanding, wire) && |posts| == |outstanding| == |outstanding'| == |wire'|
    requires forall i | 0 <= i < |m| :: !m[i].done && m[i].qp < |outstanding|
    requires forall q | 0 <= q < |posts| ::
      && posts[q] == OnLane(m, q)
      && outstanding'[q] == outstanding[q] + |posts[q]|
      && wire'[q] == wire[q] + Wires(posts[q])
    ensures Counted(l + m, outstanding', wire')
  {
    forall q | 0 <= q < |outstanding|
      ensures outstanding'[q] == OpenOn(l + m, q) && wire'[q] == Wires(OnLane(l + m, q))
    {
      AppendCounts(l, m, q);
      WiresAppend(OnLane(l, q), OnLane(m, q));
    }
  }

  // ---------------------------------------------------------------- one batch

  /** The ledger, the chunks still to come, and the batch's own counters add up. */
  ghost predicate Balanced(all: seq<Chunk>, depth: nat, l: seq<Entry>, pending: map<nat, Pending>,
                           outstanding: seq<nat>, wire: seq<seq<SendWR>>, rest: seq<Chunk>, chunks: int, bytes: int)
  {
    && Routed(l, pending) && Counted(l, outstanding, wire)
    && (forall q | 0 <= q < |outstanding| :: outstanding[q] <= depth)
    && ChunksOf(l) + rest == all
    && chunks == |l| - Open(l)
    && bytes == DoneBytes(l)
  }

  lemma BalancedStart(all: seq<Chunk>, depth: nat, n: nat)
    ensures Balanced(all, depth, [], map[], seq(n, _ => 0), seq(n, _ => []), all, 0, 0)
  {
    assert OpenIds([]) == {};
    assert ChunksOf([]) == [];
    assert Wires([]) == [];
  }

  lemma BalancedRefill(all: seq<Chunk>, depth: nat, l: seq<Entry>, pending: map<nat, Pending>, outstanding: seq<nat>,
                       wire: seq<seq<SendWR>>, rest: seq<Chunk>, chunks: int, bytes: int,
                       m: seq<Entry>, posts: seq<seq<Entry>>, rest': seq<Chunk>, outstanding': seq<nat>,
                           wire': seq<seq<SendWR>>)
    requires Balanced(all, depth, l, pending, outstanding, wire, rest, chunks, bytes)
    requires |posts| == |outstanding| == |outstanding'| == |wire'| && ChunksOf(l) + ChunksOf(m) + rest' == all
    requires forall i | 0 <= i < |m| :: !m[i].done && m[i].qp < |posts| && 1 <= m[i].id <= MAX_WR_ID
    requires Fresh(IdsOf(m), pending.Keys)
    requires forall q | 0 <= q < |posts| ::
      && posts[q] == OnLane(m, q)
      && outstanding[q] + |posts[q]| <= depth
      && outstanding'[q] == outstanding[q] + |posts[q]|
      && wire'[q] == wire[q] + Wires(posts[q])
    ensures Balanced(all, depth, l + m, Register(pending, Flat(posts, |posts|)), outstanding', wire', rest', chunks,
                     bytes)
  {
    hide Routed, Counted;
    assert Routed(l + m, Register(pending, Flat(posts, |posts|))) by {
      FlatOfLanes(m, posts);
      RegisterKeepsRouted(l, m, Flat(posts, |posts|), pending);
    }
    assert Counted(l + m, outstanding', wire') by {
      AppendKeepsCounted(l, m, posts, outstanding, wire, outstanding', wire');
    }
    assert Open(l + m) == Open(l) + |m| && DoneBytes(l + m) == DoneBytes(l) by { AppendCounts(l, m, 0); }
    assert ChunksOf(l + m) == ChunksOf(l) + ChunksOf(m);
  }

  lemma BalancedComplete(all: seq<Chunk>, depth: nat, l: seq<Entry>, pending: map<nat, Pending>, outstanding: seq<nat>,
                         wire: seq<seq<SendWR>>, rest: seq<Chunk>, chunks: int, bytes: int, id: nat) returns (k: nat)
    requires Balanced(all, depth, l, pending, outstanding, wire, rest, chunks, bytes) && id in pending
    ensures var p := pending[id];
      && k < |l| && p.qp < |outstanding| && 0 < outstanding[p.qp]
      && Balanced(all, depth, Finish(l, k), pending - {id}, outstanding[p.qp := outstanding[p.qp] - 1], wire, rest,
                  chunks + 1, bytes + p.chunk.length)
  {
    k :| 0 <= k < |l| && !l[k].done && l[k].id == id;
    FinishKeepsRouted(l, pending, k);
    FinishKeepsCounted(l, outstanding, wire, k);
    FinishCounts(l, k, l[k].qp);
  }

  lemma IssueOneMore(l: seq<Entry>, m: seq<Entry>, e: Entry, rest: seq<Chunk>)
    ensures ChunksOf(l) + ChunksOf(m) + ([e.chunk] + rest) == ChunksOf(l) + ChunksOf(m + [e]) + rest
  {
    assert ChunksOf(m + [e]) == ChunksOf(m) + [e.chunk];
  }

  /** completed + pending + not yet issued is the total, in chunks and in bytes. */
  lemma BalancedTotals(all: seq<Chunk>, depth: nat, l: seq<Entry>, pending: map<nat, Pending>, outstanding: seq<nat>,
                       wire: seq<seq<SendWR>>, rest: seq<Chunk>, chunks: int, bytes: int)
    requires Balanced(all, depth, l, pending, outstanding, wire, rest, chunks, bytes)
    ensures chunks + |pending| + |rest| == |all|
    ensures bytes + PendingBytes(l) + Bytes(rest) == Bytes(all)
    ensures |pending| == OpenBelow(l, |outstanding|) == Open(l)
  {
    BytesAppend(ChunksOf(l), rest);
    OpenIdsSize(l);
    OpenByLane(l, |outstanding|);
    PendingAndDone(l);
  }

  function PendingBytes(l: seq<Entry>): int {
    if l == [] then 0 else PendingBytes(l[..|l| - 1]) + if l[|l| - 1].done then 0 else l[|l| - 1].chunk.length
  }

  lemma {:induction false} PendingAndDone(l: seq<Entry>)
    ensures DoneBytes(l) + PendingBytes(l) == Bytes(ChunksOf(l))
  {
    if l != [] {
      PendingAndDone(l[..|l| - 1]);
      assert ChunksOf(l)[..|l| - 1] == ChunksOf(l[..|l| - 1]);
    }
  }

  // ---------------------------------------------------------------- a finished batch

  ghost predicate AllDone(l: seq<Entry>) { forall i | 0 <= i < |l| :: l[i].done }

  lemma {:induction false} NothingOpen(l: seq<Entry>)
    requires Open(l) == 0
    ensures AllDone(l) && PendingBytes(l) == 0 && forall q :: OpenOn(l, q) == 0
  {
    if l != [] { NothingOpen(l[..|l| - 1]); }
  }

  // ---------------------------------------------------------------- every byte travels exactly once

  /** The entries of lanes 0..n, lane after lane. */
  function ByLane(l: seq<Entry>, n: nat): seq<Entry> {
    if n == 0 then [] else ByLane(l, n - 1) + OnLane(l, n - 1)
  }

  function Concat<T>(rows: seq<seq<T>>): seq<T> {
    if rows == [] then [] else Concat(rows[..|rows| - 1]) + rows[|rows| - 1]
  }

  lemma {:induction false} ByLaneCount(l: seq<Entry>, n: nat, e: Entry)
    ensures multiset(ByLane(l, n))[e] == if e.qp < n then multiset(l)[e] else 0
  {
    hide ByLane, OnLane;
    ByLaneStep(l, n);
    if n > 0 {
      ByLaneCount(l, n - 1, e);
      OnLaneCount(l, n - 1, e);
      ConcatCount(ByLane(l, n - 1), OnLane(l, n - 1), e);
    }
  }

  lemma ByLaneStep(l: seq<Entry>, n: nat)
    ensures ByLane(l, n) == if n == 0 then [] else ByLane(l, n - 1) + OnLane(l, n - 1)
  {
  }

  lemma ConcatCount<T>(a: seq<T>, b: seq<T>, e: T)
    ensures multiset(a + b)[e] == multiset(a)[e] + multiset(b)[e]
  {
  }

  lemma {:induction false} OnLaneCount(l: seq<Entry>, q: nat, e: Entry)
    ensures multiset(OnLane(l, q))[e] == if e.qp == q then multiset(l)[e] else 0
  {
    if l != [] {
      OnLaneCount(l[..|l| - 1], q, e);
      assert l == l[..|l| - 1] + [l[|l| - 1]];
    }
  }

  lemma ByLaneIsPermutation(l: seq<Entry>, n: nat)
    requires forall i | 0 <= i < |l| :: l[i].qp < n
    ensures multiset(ByLane(l, n)) == multiset(l)
  {
    forall e ensures multiset(ByLane(l, n))[e] == multiset(l)[e] {
      ByLaneCount(l, n, e);
      if multiset(l)[e] > 0 { assert e in l; }
    }
  }

  lemma {:induction false} ConcatWires(l: seq<Entry>, wire: seq<seq<SendWR>>, n: nat)
    requires n <= |wire| && forall q | 0 <= q < n :: wire[q] == Wires(OnLane(l, q))
    ensures Concat(wire[..n]) == Wires(ByLane(l, n))
  {
    if n > 0 {
      ConcatWires(l, wire, n - 1);
      assert wire[..n][..n - 1] == wire[..n - 1];
      WiresAppend(ByLane(l, n - 1), OnLane(l, n - 1));
    }
  }

  /** What the queue pairs of a finished batch were handed: every chunk, in issue order, on the lane it was given. */
  ghost predicate Delivered(rs: seq<Request>, size: nat, l: seq<Entry>, wire: seq<seq<SendWR>>) {
    && 0 < size && AllDone(l) && ChunksOf(l) == Chunks(rs, size)
    && (forall i | 0 <= i < |l| :: l[i].qp < |wire|)
    && (forall q | 0 <= q < |wire| :: wire[q] == Wires(OnLane(l, q)))
  }

  /**
   Over all queue pairs of a delivered batch, exactly one posted work request belongs to the chunk that
   holds byte b of request r, and it moves that byte between the matching local and remote addresses.
   */
  lemma ByteTravelsOnce(rs: seq<Request>, size: nat, l: seq<Entry>, wire: seq<seq<SendWR>>, r: nat, b: nat)
    returns (posted: seq<Entry>, k: nat)
    requires Delivered(rs, size, l, wire) && r < |rs| && b < rs[r].length
    ensures multiset(posted) == multiset(l) && Concat(wire) == Wires(posted)
    ensures k < |posted| && forall i | 0 <= i < |posted| :: Covers(posted[i].chunk, r, b) <==> i == k
    ensures Moves(Concat(wire)[k], rs[r], b)
    // every work request carries the id under which its chunk is pending
    ensures forall i | 0 <= i < |posted| :: Concat(wire)[i].id == posted[i].id
  {
    posted := ByLane(l, |wire|);
    ByLaneIsPermutation(l, |wire|);
    ConcatWires(l, wire, |wire|);
    assert wire[..|wire|] == wire;
    var c := ChunkOfByte(rs, size, r, b);
    assert forall i | 0 <= i < |l| :: l[i].chunk == ChunksOf(l)[i];
    k := OnlyOne(l, posted, r, b, c);
    assert posted[k] in multiset(posted);
    var i :| 0 <= i < |l| && l[i] == posted[k];
    assert Covers(l[i].chunk, r, b);
  }

  lemma RemoveOne<T>(s: seq<T>, i: nat)
    requires i < |s|
    ensures multiset(s[..i] + s[i + 1..]) == multiset(s) - multiset{s[i]}
  {
    assert s == s[..i] + [s[i]] + s[i + 1..];
  }

  lemma OnlyOne(l: seq<Entry>, m: seq<Entry>, r: nat, b: nat, c: nat) returns (k: nat)
    requires multiset(l) == multiset(m) && c < |l|
    requires forall i | 0 <= i < |l| :: Covers(l[i].chunk, r, b) <==> i == c
    ensures k < |m| && forall i | 0 <= i < |m| :: Covers(m[i].chunk, r, b) <==> i == k
  {
    assert l[c] in multiset(m);
    k :| 0 <= k < |m| && m[k] == l[c];
    RemoveOne(l, c);
    RemoveOne(m, k);
    var rest := l[..c] + l[c + 1..];
    assert forall e | e in rest :: !Covers(e.chunk, r, b);
    var others := m[..k] + m[k + 1..];
    assert multiset(others) == multiset(rest);
    forall i | 0 <= i < |m| && i != k ensures !Covers(m[i].chunk, r, b) {
      assert others[if i < k then i else i - 1] == m[i];
      assert m[i] in multiset(rest);
    }
  }
}

/** Registration of queue memory with CUDA, page by page, shared between exported queue pairs. */
module HostMemory {
  import opened HostPages

  /** The pages one exported queue pair holds. */
  class CudaHostMappings {
    ghost const id: nat          // its place in the registry's history
    var pages: seq<nat>

    constructor (ghost id: nat, pages: seq<nat>)
      ensures this.id == id && this.pages == pages
    {
      this.id := id;
      this.pages := pages;
    }
  }

  class HostRegistry {
    var refs: map<nat, nat>
    ghost var registered: set<nat>            // what CUDA has registered
    ghost var mappings: seq<CudaHostMappings> // every mapping that was made, in order

    ghost function Held(): seq<seq<nat>>
      reads this, mappings
    {
      seq(|mappings|, i requires 0 <= i < |mappings| reads this, mappings => mappings[i].pages)
    }

    ghost predicate Valid()
      reads this, mappings
    {
      && (forall i | 0 <= i < |mappings| :: mappings[i].id == i && Increasing(mappings[i].pages))
      && Accurate(refs, registered, Held())
    }

    constructor ()
      ensures Valid() && refs == map[] && mappings == []
    {
      refs, registered, mappings := map[], {}, [];
    }

    /** CUDA refuses a page that is registered already, so nobody may ask for that. */
    method CudaRegister(p: nat, succeeds: bool) returns (ok: bool)
      requires p !in registered
      modifies this`registered
      ensures ok == succeeds && registered == if ok then old(registered) + {p} else old(registered)
    {
      ok := succeeds;
      if ok { registered := registered + {p}; }
    }

    method CudaUnregister(p: nat, succeeds: bool) returns (ok: bool)
      requires p in registered
      modifies this`registered
      ensures ok == succeeds && registered == if ok then old(registered) - {p} else old(registered)
    {
      ok := succeeds;
      if ok { registered := registered - {p}; }
    }

    /** Give up one page; `keeps` when it was the last holder and CUDA would not unregister it. */
    method Release(p: nat, succeeds: bool, ghost held: seq<seq<nat>>, ghost i: nat, ghost rest: seq<nat>)
      returns (keeps: bool)
      requires Accurate(refs, registered, held) && i < |held| && p in held[i]
      requires p !in rest && forall q: nat :: q in held[i] <==> q == p || q in rest
      modifies this`refs, this`registered
      ensures p in old(refs) && keeps == (old(refs)[p] == 1 && !succeeds)
      ensures keeps ==> refs == old(refs) && registered == old(registered)
      ensures !keeps ==> Accurate(refs, registered, held[i := rest])
      ensures refs == if keeps then old(refs) else Minus(old(refs), p)
    {
      HeldIsCounted(held, i, p);
      assert Count(refs, p) == Holders(held, p);
      DropHolder(refs, registered, held, i, rest, p);
      var references := refs[p];
      if references > 1 {
        refs := refs[p := references - 1];
        assert registered + {} == registered;
        return false;
      }
      var ok := CudaUnregister(p, succeeds);
      if ok { refs := refs - {p}; }
      return !ok;
    }

    /** What closing did to the counts: one holder less for every page that is not kept. */
    ghost predicate Given(before: map<nat, nat>, after: map<nat, nat>, done: seq<nat>, kept: seq<nat>,
                          unregisters: nat -> bool)
    {
      && (forall q: nat :: q in kept <==> q in done && Count(before, q) == 1 && !unregisters(q))
      && (forall q: nat :: Count(after, q) + (if q in done && q !in kept then 1 else 0) == Count(before, q))
    }

    lemma GivenOneMore(before: map<nat, nat>, after: map<nat, nat>, done: seq<nat>, kept: seq<nat>,
                       unregisters: nat -> bool, p: nat)
      requires Given(before, after, done, kept, unregisters) && p !in done && p in after && 0 < after[p]
      ensures var keeps := after[p] == 1 && !unregisters(p);
        Given(before, if keeps then after else Minus(after, p), done + [p],
              if keeps then kept + [p] else kept, unregisters)
    {
      assert Count(after, p) == Count(before, p);
    }

    /** The first k pages of mapping i are closed; it holds what remains of them and the rest. */
    ghost predicate Closing(before: map<nat, nat>, held: seq<seq<nat>>, i: nat, pages: seq<nat>, k: nat,
                            remaining: seq<nat>, unregisters: nat -> bool)
      reads this
    {
      && k <= |pages| && i < |held| && held[i] == pages && Increasing(pages) && Increasing(remaining)
      && Accurate(refs, registered, held[i := remaining + pages[k..]])
      && Given(before, refs, pages[..k], remaining, unregisters)
      && forall q | q in remaining :: q in pages[..k]
    }

    method CloseOne(ghost before: map<nat, nat>, ghost held: seq<seq<nat>>, ghost i: nat, pages: seq<nat>, k: nat,
                    remaining: seq<nat>, unregisters: nat -> bool)
      returns (now: seq<nat>)
      requires Closing(before, held, i, pages, k, remaining, unregisters) && k < |pages|
      modifies this`refs, this`registered
      ensures Closing(before, held, i, pages, k + 1, now, unregisters)
    {
      var p := pages[k];
      ghost var rest := remaining + pages[k + 1..];
      Split(pages, k, remaining);
      assert held[i := remaining + pages[k..]][i := rest] == held[i := rest];
      HeldIsCounted(held[i := remaining + pages[k..]], i, p);
      assert Count(refs, p) > 0;
      GivenOneMore(before, refs, pages[..k], remaining, unregisters, p);
      assert pages[..k + 1] == pages[..k] + [p];
      assert remaining + pages[k..] == (remaining + [p]) + pages[k + 1..];
      hide Accurate, Given, Increasing, Minus;
      var keeps := Release(p, unregisters(p), held[i := remaining + pages[k..]], i, rest);
      now := if keeps then remaining + [p] else remaining;
    }

    /**
     Release every page of a mapping.  It keeps exactly the pages of which it was the last holder and that CUDA
     did not unregister; every other page loses one holder, and no other page is touched.
     */
    method Close(m: CudaHostMappings, unregisters: nat -> bool) returns (ok: bool)
      requires Valid() && m in mappings
      modifies this`refs, this`registered, m
      ensures Valid() && Increasing(m.pages) && (ok <==> m.pages == [])
      ensures Given(old(refs), refs, old(m.pages), m.pages, unregisters)
      ensures Held() == old(Held())[m.id := m.pages]
    {
      ghost var i, held, before := m.id, Held(), refs;
      var pages, remaining: seq<nat> := m.pages, [];
      var k := 0;
      ClosingStart(m);
      assert Closing(before, held, i, pages, k, remaining, unregisters);
      while k < |pages|
        invariant Closing(before, held, i, pages, k, remaining, unregisters) && m.pages == pages
      {
        remaining := CloseOne(before, held, i, pages, k, remaining, unregisters);
        k := k + 1;
      }
      assert pages[..k] == pages && remaining + pages[k..] == remaining;
      m.pages := remaining;
      assert Held() == held[i := remaining];
      return remaining == [];
    }

    lemma ClosingStart(m: CudaHostMappings)
      requires Valid() && m in mappings
      ensures m.id < |mappings| && mappings[m.id] == m && Held()[m.id] == m.pages
      ensures [] + m.pages[0..] == m.pages && Held()[m.id := m.pages] == Held()
    {
    }

    lemma Split(pages: seq<nat>, k: nat, remaining: seq<nat>)
      requires Increasing(pages) && k < |pages| && (forall q | q in remaining :: q in pages[..k])
          && Increasing(remaining)
      ensures var p := pages[k];
        && p !in pages[..k] && p !in remaining + pages[k + 1..] && Increasing(remaining + [p])
        && forall q: nat :: q in remaining + pages[k..] <==> q == p || q in remaining + pages[k + 1..]
    {
      assert pages[k..] == [pages[k]] + pages[k + 1..];
      forall j | 0 <= j < |remaining| ensures remaining[j] < pages[k] { assert remaining[j] in pages[..k]; }
    }

    /** The first k pages have one holder more: the mapping that is being made. */
    ghost predicate Acquiring(before: map<nat, nat>, held: seq<seq<nat>>, pages: seq<nat>, k: nat,
                              registers: nat -> bool)
      reads this
    {
      && k <= |pages| && Increasing(pages)
      && Accurate(refs, registered, held + [pages[..k]])
      && (forall q: nat :: Count(refs, q) == Count(before, q) + if q in pages[..k] then 1 else 0)
      && (forall q | q in pages[..k] && Count(before, q) == 0 :: registers(q))
    }

    /** Hold one more page, registering it when nobody holds it yet. */
    method AcquireOne(ghost before: map<nat, nat>, ghost held: seq<seq<nat>>, pages: seq<nat>, k: nat,
                      registers: nat -> bool)
      returns (ok: bool)
      requires Acquiring(before, held, pages, k, registers) && k < |pages|
      modifies this`refs, this`registered
      ensures ok == (Count(before, pages[k]) != 0 || registers(pages[k]))
      ensures Acquiring(before, held, pages, if ok then k + 1 else k, registers)
    {
      var p := pages[k];
      assert pages[..k + 1] == pages[..k] + [p] && p !in pages[..k];
      assert (held + [pages[..k]])[|held| := pages[..k + 1]] == held + [pages[..k + 1]];
      AddHolder(refs, registered, held + [pages[..k]], |held|, pages[..k + 1], p);
      var references := Count(refs, p);
      if references == 0 {
        ok := CudaRegister(p, registers(p));
        if !ok { return; }
      } else {
        assert registered + {p} == registered;
      }
      refs := refs[p := references + 1];
      ok := true;
    }

    method Acquire(pages: seq<nat>, registers: nat -> bool) returns (acquired: seq<nat>)
      requires Valid() && Increasing(pages)
      modifies this`refs, this`registered
      ensures Held() == old(Held()) && mappings == old(mappings)
      ensures |acquired| <= |pages| && acquired == pages[..|acquired|]
      ensures Acquiring(old(refs), Held(), pages, |acquired|, registers)
      ensures |acquired| < |pages| ==> Count(old(refs), pages[|acquired|]) == 0 && !registers(pages[|acquired|])
    {
      ghost var before, held := refs, Held();
      acquired := [];
      var k := 0;
      NothingAcquired(pages, registers);
      while k < |pages|
        invariant k <= |pages| && Acquiring(before, held, pages, k, registers) && Held() == held
            && mappings == old(mappings)
      {
        var ok := AcquireOne(before, held, pages, k, registers);
        if !ok { return pages[..k]; }
        k := k + 1;
      }
      return pages[..k];
    }

    lemma NothingAcquired(pages: seq<nat>, registers: nat -> bool)
      requires Valid() && Increasing(pages)
      ensures Acquiring(refs, Held(), pages, 0, registers)
    {
      assert pages[..0] == [];
      forall q: nat ensures Holders(Held() + [[]], q) == Holders(Held(), q) { HoldersAppend(Held(), [], q); }
    }

    /** Wrap the acquired pages into a mapping. */
    method Wrap(pages: seq<nat>) returns (m: CudaHostMappings)
      requires Increasing(pages) && Accurate(refs, registered, Held() + [pages])
      requires forall i | 0 <= i < |mappings| :: mappings[i].id == i && Increasing(mappings[i].pages)
      modifies this`mappings
      ensures Valid() && fresh(m) && m.pages == pages && mappings == old(mappings) + [m]
          && Held() == old(Held()) + [pages]
    {
      ghost var id := |mappings|;
      m := new CudaHostMappings(id, pages);
      mappings := mappings + [m];
      assert Held() == old(Held()) + [pages];
    }

    /** Every page of the table is held once more, or as before: `left` is what a rollback could not give back. */
    ghost predicate Added(before: map<nat, nat>, after: map<nat, nat>, more: seq<nat>) {
      forall q: nat :: Count(after, q) == Count(before, q) + if q in more then 1 else 0
    }

    lemma AddedNothing(before: map<nat, nat>, after: map<nat, nat>)
      requires Added(before, after, []) && (forall p | p in before :: 0 < before[p])
          && (forall p | p in after :: 0 < after[p])
      ensures after == before
    {
      forall p ensures p in before <==> p in after { assert Count(after, p) == Count(before, p); }
      forall p | p in before ensures before[p] == after[p] { assert Count(after, p) == Count(before, p); }
    }

    /** Undo an acquisition: what is left are pages that were new and that CUDA did not unregister. */
    method Rollback(ghost before: map<nat, nat>, m: CudaHostMappings, unregisters: nat -> bool)
      requires Valid() && m in mappings && Added(before, refs, m.pages)
      modifies this`refs, this`registered, m
      ensures Valid() && Added(before, refs, m.pages)
      ensures forall q | q in m.pages :: q in old(m.pages) && Count(before, q) == 0 && !unregisters(q)
    {
      ghost var acquired := m.pages;
      var ok := Close(m, unregisters);
    }

    /** What a failed call leaves behind. */
    ghost predicate Leaves(before: map<nat, nat>, after: map<nat, nat>, pages: seq<nat>, left: seq<nat>,
                           unregisters: nat -> bool)
    {
      && Added(before, after, left)
      && (forall q | q in left :: q in pages && Count(before, q) == 0 && !unregisters(q))
      && ((forall q | q in pages :: unregisters(q)) ==> after == before)
    }

    lemma LeavesNothing(before: map<nat, nat>, after: map<nat, nat>, pages: seq<nat>, left: seq<nat>,
                        unregisters: nat -> bool)
      requires Added(before, after, left) && (forall p | p in before :: 0 < before[p])
          && (forall p | p in after :: 0 < after[p])
      requires forall q | q in left :: q in pages && Count(before, q) == 0 && !unregisters(q)
      ensures Leaves(before, after, pages, left, unregisters)
    {
      if forall q | q in pages :: unregisters(q) {
        forall q: nat ensures q !in left {}
        assert Added(before, after, []);
        AddedNothing(before, after);
      }
    }

    /** The acquisition stopped half way: undo it if it got anywhere. */
    method Unwind(ghost before: map<nat, nat>, acquired: seq<nat>, unregisters: nat -> bool)
      returns (ghost left: seq<nat>)
      requires Increasing(acquired) && Accurate(refs, registered, Held() + [acquired]) && Added(before, refs, acquired)
      requires forall i | 0 <= i < |mappings| :: mappings[i].id == i && Increasing(mappings[i].pages)
      modifies this`refs, this`registered, this`mappings
      ensures Valid() && old(mappings) <= mappings && Added(before, refs, left)
      ensures forall q | q in left :: q in acquired && Count(before, q) == 0 && !unregisters(q)
    {
      if acquired == [] {
        forall q: nat ensures Holders(Held() + [[]], q) == Holders(Held(), q) { HoldersAppend(Held(), [], q); }
        return [];
      }
      var rollback := Wrap(acquired);
      Rollback(before, rollback, unregisters);
      return rollback.pages;
    }

    /**
     Hold the pages of one exported queue pair.  It succeeds exactly when CUDA registers every page that nobody
     held and resolves every device pointer.  A failed call leaves at most pages that were new and that CUDA
     would not unregister again, each with one holder; when every unregistration works it leaves nothing.
     */
    method Register(pages: seq<nat>, registers: nat -> bool, pointersResolve: bool, unregisters: nat -> bool)
      returns (m: CudaHostMappings?, ghost left: seq<nat>)
      requires Valid() && Increasing(pages)
      modifies this`refs, this`registered, this`mappings
      ensures Valid() && old(mappings) <= mappings
      ensures m != null <==> pointersResolve && forall q | q in pages && Count(old(refs), q) == 0 :: registers(q)
      ensures m != null ==>
        fresh(m) && m.pages == pages && mappings == old(mappings) + [m] && Added(old(refs), refs, pages)
      ensures m == null ==> Leaves(old(refs), refs, pages, left, unregisters)
    {
      ghost var before := refs;
      var acquired := Acquire(pages, registers);
      left, m := [], null;
      hide Accurate, Increasing;
      if |acquired| < |pages| {
        assert pages[|acquired|] in pages;
        left := Unwind(before, acquired, unregisters);
      } else {
        assert acquired == pages;
        m := Wrap(acquired);
        if pointersResolve { return; }
        Rollback(before, m, unregisters);
        left, m := m.pages, null;
      }
      Positive(before, left, pages, unregisters);
    }

    lemma Positive(before: map<nat, nat>, left: seq<nat>, pages: seq<nat>, unregisters: nat -> bool)
      requires Valid() && Added(before, refs, left) && (forall p | p in before :: 0 < before[p])
      requires forall q | q in left :: q in pages && Count(before, q) == 0 && !unregisters(q)
      ensures Leaves(before, refs, pages, left, unregisters)
    {
      LeavesNothing(before, refs, pages, left, unregisters);
    }

    /** A page is registered with CUDA exactly when some mapping holds it. */
    lemma RegisteredExactlyWhenHeld(p: nat)
      requires Valid()
      ensures p in registered <==> exists i :: 0 <= i < |mappings| && p in mappings[i].pages
    {
      assert Count(refs, p) == Holders(Held(), p);
      if p in registered {
        var i := SomebodyHolds(Held(), p);
        assert p in mappings[i].pages;
      }
      forall i | 0 <= i < |mappings| && p in mappings[i].pages ensures p in registered {
        assert p in Held()[i];
        HeldIsCounted(Held(), i, p);
      }
    }

    /** Page p overlaps some queue or doorbell. */
    static predicate InSpans(spans: seq<Span>, pageSize: nat, p: nat)
      requires 0 < pageSize
    {
      exists i :: 0 <= i < |spans| && Overlaps(spans[i], pageSize, p)
    }

    /**
     Export one queue pair: afterwards every byte of its queues and doorbells lies in a registered page that it
     holds.
     */
    method RegisterQueueMemory(spans: seq<Span>, pageSize: nat, registers: nat -> bool, pointersResolve: bool,
                               unregisters: nat -> bool)
      returns (m: CudaHostMappings?)
      requires Valid() && 0 < pageSize
      modifies this`refs, this`registered, this`mappings
      ensures Valid() && old(mappings) <= mappings
      // it succeeds exactly when CUDA registers every page that was not held and resolves every pointer
      ensures m != null <==>
        pointersResolve && forall p | InSpans(spans, pageSize, p) && Count(old(refs), p) == 0 :: registers(p)
      // and then holds the pages that overlap the queues and doorbells, once more each, and no others
      ensures m != null ==> forall p: nat :: p in m.pages <==> InSpans(spans, pageSize, p)
      ensures m != null ==> Added(old(refs), refs, m.pages)
      ensures m != null ==> m in mappings && forall i, b: nat |
        0 <= i < |spans| && spans[i].address <= b < spans[i].address + spans[i].size ::
        b / pageSize * pageSize in m.pages && b / pageSize * pageSize in registered
    {
      var pages := QueuePages(spans, pageSize);
      ghost var left;
      m, left := Register(pages, registers, pointersResolve, unregisters);
      if m != null {
        forall i, b: nat | 0 <= i < |spans| && spans[i].address <= b < spans[i].address + spans[i].size
          ensures b / pageSize * pageSize in m.pages && b / pageSize * pageSize in registered
        {
          PagesCoverQueues(spans[i], pageSize, b);
          assert b / pageSize * pageSize in pages;
          RegisteredExactlyWhenHeld(b / pageSize * pageSize);
          assert mappings[|mappings| - 1] == m;
        }
      }
    }
  }
}

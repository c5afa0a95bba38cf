/** Which pages the exported queues occupy, and who holds each of them. */
module HostPages {
  import opened Arithmetic

  /** A queue or doorbell: an address and a size in bytes. */
  datatype Span = Span(address: nat, size: nat)

  function FirstPage(s: Span, pageSize: nat): nat
    requires 0 < pageSize
  {
    s.address / pageSize * pageSize
  }

  function EndPage(s: Span, pageSize: nat): nat
    requires 0 < pageSize
  {
    (s.address + s.size + pageSize - 1) / pageSize * pageSize
  }

  /** The page at p belongs to the span. */
  predicate Touches(s: Span, pageSize: nat, p: nat)
    requires 0 < pageSize
  {
    p % pageSize == 0 && FirstPage(s, pageSize) <= p < EndPage(s, pageSize)
  }

  predicate Overlaps(s: Span, pageSize: nat, p: nat)
    requires 0 < pageSize
  {
    p % pageSize == 0 && p < s.address + s.size && s.address < p + pageSize
  }

  /** It does exactly when it overlaps it: no page before the first byte's and none behind the last one's. */
  lemma TouchesExactly(s: Span, pageSize: nat, p: nat)
    requires 0 < pageSize
    ensures Touches(s, pageSize, p) <==> Overlaps(s, pageSize, p)
  {
    var a, e := s.address / pageSize, (s.address + s.size + pageSize - 1) / pageSize;
    DivMod(s.address, pageSize);
    CeilCovers(s.address + s.size, pageSize);
    DivMod(p, pageSize);
    var k := p / pageSize;
    if p % pageSize == 0 {
      assert (k + 1) * pageSize == k * pageSize + pageSize;
      if k < a { MulApart(pageSize, k, a); }
      if a < k { MulApart(pageSize, a, k); }
      if k < e { MulApart(pageSize, k, e); }
      if e < k { MulApart(pageSize, e, k); }
    }
  }

  predicate Increasing(xs: seq<nat>) { forall i, j | 0 <= i < j < |xs| :: xs[i] < xs[j] }

  /** Add p to a sorted list without duplicates. */
  function Insert(p: nat, xs: seq<nat>): seq<nat> {
    if xs == [] || p < xs[0] then [p] + xs
    else if p == xs[0] then xs
    else [xs[0]] + Insert(p, xs[1..])
  }

  lemma {:induction false} InsertKeeps(p: nat, xs: seq<nat>)
    requires Increasing(xs)
    ensures Increasing(Insert(p, xs)) && forall q :: q in Insert(p, xs) <==> q == p || q in xs
  {
    if xs != [] && xs[0] < p {
      InsertKeeps(p, xs[1..]);
      assert xs == [xs[0]] + xs[1..];
      var rest := Insert(p, xs[1..]);
      forall i | 0 <= i < |rest| ensures xs[0] < rest[i] { assert rest[i] in rest; }
    }
  }

  /** The sorted pages of all spans. */
  method QueuePages(spans: seq<Span>, pageSize: nat) returns (pages: seq<nat>)
    requires 0 < pageSize
    ensures Increasing(pages)
    ensures forall p: nat :: p in pages <==> exists i :: 0 <= i < |spans| && Touches(spans[i], pageSize, p)
    // exactly the page addresses whose pages overlap some span
    ensures forall p: nat :: p in pages <==>
      exists i :: 0 <= i < |spans| && Overlaps(spans[i], pageSize, p)
  {
    pages := [];
    for i := 0 to |spans|
      invariant Increasing(pages)
      invariant forall p: nat :: p in pages <==> exists k :: 0 <= k < i && Touches(spans[k], pageSize, p)
    {
      pages := AddSpan(spans[i], pageSize, pages);
    }
    forall p: nat ensures p in pages <==> exists i :: 0 <= i < |spans| && Overlaps(spans[i], pageSize, p) {
      forall i | 0 <= i < |spans| ensures Touches(spans[i], pageSize, p) <==> Overlaps(spans[i], pageSize, p) {
        TouchesExactly(spans[i], pageSize, p);
      }
    }
  }

  method AddSpan(s: Span, pageSize: nat, pages: seq<nat>) returns (r: seq<nat>)
    requires 0 < pageSize && Increasing(pages)
    ensures Increasing(r) && forall p: nat :: p in r <==> p in pages || Touches(s, pageSize, p)
  {
    var base, end := FirstPage(s, pageSize), EndPage(s, pageSize);
    r := pages;
    ghost var k := s.address / pageSize;
    while base < end
      invariant base == k * pageSize && FirstPage(s, pageSize) <= base
      invariant Increasing(r)
      invariant forall p: nat :: p in r <==> p in pages || (Touches(s, pageSize, p) && p < base)
      decreases end - base
    {
      InsertKeeps(base, r);
      NoPageBetween(k, pageSize);
      r := Insert(base, r);
      base := base + pageSize;
      k := k + 1;
    }
  }

  /** Between one page and the next there is no third one. */
  lemma NoPageBetween(k: nat, pageSize: nat)
    requires 0 < pageSize
    ensures k * pageSize % pageSize == 0 && (k + 1) * pageSize == k * pageSize + pageSize
    ensures forall p: nat | p % pageSize == 0 && k * pageSize <= p < k * pageSize + pageSize :: p == k * pageSize
  {
    DivModUnique(pageSize, k, 0);
    forall p: nat | p % pageSize == 0 && k * pageSize <= p < k * pageSize + pageSize ensures p == k * pageSize {
      DivModUnique(pageSize, k, p - k * pageSize);
    }
  }

  /** Every byte of every queue lies in one of its pages. */
  lemma PagesCoverQueues(s: Span, pageSize: nat, b: nat)
    requires 0 < pageSize && s.address <= b < s.address + s.size
    ensures var p := b / pageSize * pageSize; Touches(s, pageSize, p) && p <= b < p + pageSize
  {
    var k := b / pageSize;
    DivMod(b, pageSize);
    DivModUnique(pageSize, k, 0);
    DivMod(s.address, pageSize);
    if k < s.address / pageSize { MulApart(pageSize, k, s.address / pageSize); }
    MulMonotone(pageSize, s.address / pageSize, k);
    CeilCovers(s.address + s.size, pageSize);
  }

  // ---------------------------------------------------------------- holders

  /** How many of the mappings hold the page. */
  function Holders(held: seq<seq<nat>>, p: nat): nat {
    if held == [] then 0 else Holders(held[..|held| - 1], p) + (if p in held[|held| - 1] then 1 else 0)
  }

  lemma {:induction false} HoldersUpdate(held: seq<seq<nat>>, i: nat, pages: seq<nat>, p: nat)
    requires i < |held|
    ensures Holders(held[i := pages], p) + (if p in held[i] then 1 else 0)
        == Holders(held, p) + (if p in pages then 1 else 0)
  {
    var n := |held| - 1;
    if i < n {
      HoldersUpdate(held[..n], i, pages, p);
      assert held[i := pages][..n] == held[..n][i := pages];
    } else {
      assert held[i := pages][..n] == held[..n];
    }
  }

  lemma HoldersAppend(held: seq<seq<nat>>, pages: seq<nat>, p: nat)
    ensures Holders(held + [pages], p) == Holders(held, p) + (if p in pages then 1 else 0)
  {
    assert (held + [pages])[..|held|] == held;
  }

  function Count(refs: map<nat, nat>, p: nat): nat { if p in refs then refs[p] else 0 }

  /** The table counts holders, and exactly the held pages are registered with CUDA. */
  ghost predicate Accurate(refs: map<nat, nat>, registered: set<nat>, held: seq<seq<nat>>) {
    && (forall p: nat :: Count(refs, p) == Holders(held, p))
    && (forall p | p in refs :: 0 < refs[p])
    && (forall p: nat :: p in registered <==> p in refs)
  }

  /** A page that mapping i holds is in the table. */
  lemma {:induction false} HeldIsCounted(held: seq<seq<nat>>, i: nat, p: nat)
    requires i < |held| && p in held[i]
    ensures 0 < Holders(held, p)
  {
    if i < |held| - 1 { HeldIsCounted(held[..|held| - 1], i, p); }
  }

  /** One holder less; the entry goes with the last one. */
  function Minus(refs: map<nat, nat>, p: nat): map<nat, nat>
    requires p in refs
  {
    if refs[p] > 1 then refs[p := refs[p] - 1] else refs - {p}
  }

  /** One holder more. */
  function Plus(refs: map<nat, nat>, p: nat): map<nat, nat> { refs[p := Count(refs, p) + 1] }

  lemma DropHolder(refs: map<nat, nat>, registered: set<nat>, held: seq<seq<nat>>, i: nat, rest: seq<nat>, p: nat)
    requires Accurate(refs, registered, held) && i < |held| && p in held[i] && p in refs
    requires p !in rest && forall q: nat :: q in held[i] <==> q == p || q in rest
    ensures Accurate(Minus(refs, p), if refs[p] > 1 then registered else registered - {p}, held[i := rest])
  {
    forall q: nat ensures Count(Minus(refs, p), q) == Holders(held[i := rest], q) {
      HoldersUpdate(held, i, rest, q);
      assert Count(refs, q) == Holders(held, q);
    }
  }

  lemma AddHolder(refs: map<nat, nat>, registered: set<nat>, held: seq<seq<nat>>, i: nat, more: seq<nat>, p: nat)
    requires Accurate(refs, registered, held) && i < |held| && p !in held[i]
    requires forall q: nat :: q in more <==> q == p || q in held[i]
    ensures Accurate(Plus(refs, p), registered + {p}, held[i := more])
  {
    forall q: nat ensures Count(Plus(refs, p), q) == Holders(held[i := more], q) {
      HoldersUpdate(held, i, more, q);
      assert Count(refs, q) == Holders(held, q);
    }
  }

  lemma {:induction false} SomebodyHolds(held: seq<seq<nat>>, p: nat) returns (i: nat)
    requires 0 < Holders(held, p)
    ensures i < |held| && p in held[i]
  {
    if p in held[|held| - 1] { i := |held| - 1; } else { i := SomebodyHolds(held[..|held| - 1], p); }
  }
}

/** The wrapping allocator of work-request ids. */
module WrIds {
  import opened Sizes
  import opened Wrappers

  function Succ(max: nat, id: nat): nat { if id == max then 1 else id + 1 }

  datatype Found = Found(id: nat, next: nat)

  /** The first id from `next` on, in wrapping order, that is not pending; at most `tries` are looked at. */
  function Scan(max: nat, next: nat, pending: set<nat>, tries: nat): Option<Found>
    decreases tries
  {
    if tries == 0 then None
    else if next !in pending then Some(Found(next, Succ(max, next)))
    else Scan(max, Succ(max, next), pending, tries - 1)
  }

  datatype Batch = Batch(ids: seq<nat>, next: nat)

  /** k allocations in a row while the pending set stays the same, as within one refill. */
  function ScanMany(max: nat, next: nat, pending: set<nat>, k: nat): Option<Batch> {
    if k == 0 then Some(Batch([], next))
    else
      match ScanMany(max, next, pending, k - 1)
      case None => None
      case Some(b) =>
        match Scan(max, b.next, pending, max)
        case None => None
        case Some(f) => Some(Batch(b.ids + [f.id], f.next))
  }

  predicate Distinct(ids: seq<nat>) {
    forall i, j | 0 <= i < j < |ids| :: ids[i] != ids[j]
  }

  /** The new ids differ from each other and from the pending ones. */
  ghost predicate Fresh(ids: seq<nat>, pending: set<nat>) {
    Distinct(ids) && forall i | 0 <= i < |ids| :: ids[i] !in pending
  }

  // ---------------------------------------------------------------- proof

  /** The id reached after `a` successor steps from `start`, for a <= max. */
  function IdAt(max: nat, start: nat, a: nat): nat {
    if start + a <= max then start + a else start + a - max
  }

  ghost function Range(max: nat, start: nat, a: nat): set<nat>
  {
    set b: nat | b < a :: IdAt(max, start, b)
  }

  lemma {:induction false} RangeSize(max: nat, start: nat, a: nat)
    requires 1 <= start <= max && a <= max
    ensures |Range(max, start, a)| == a
  {
    if a == 0 {
      assert Range(max, start, a) == {};
    } else {
      RangeSize(max, start, a - 1);
      var last := IdAt(max, start, a - 1);
      RangeStep(max, start, a);
      assert |Range(max, start, a - 1) + {last}| == |Range(max, start, a - 1)| + 1;
    }
  }

  lemma RangeStep(max: nat, start: nat, a: nat)
    requires 1 <= start <= max && 0 < a <= max
    ensures Range(max, start, a) == Range(max, start, a - 1) + {IdAt(max, start, a - 1)}
    ensures IdAt(max, start, a - 1) !in Range(max, start, a - 1)
  {
    forall b: nat | b < a ensures IdAt(max, start, b) in Range(max, start, a - 1) + {IdAt(max, start, a - 1)} {
      if b < a - 1 { assert IdAt(max, start, b) in Range(max, start, a - 1); }
    }
  }

  /** Scanning finds the first free position, if there is one before the ids wrap to the start. */
  lemma {:induction false} ScanFinds(max: nat, start: nat, pending: set<nat>, a: nat, b: nat, tries: nat)
    returns (c: nat)
    requires 1 <= start <= max && a <= b < max && b - a < tries
    requires IdAt(max, start, b) !in pending
    ensures a <= c <= b && IdAt(max, start, c) !in pending
    ensures forall d | a <= d < c :: IdAt(max, start, d) in pending
    ensures Scan(max, IdAt(max, start, a), pending, tries)
         == Some(Found(IdAt(max, start, c), IdAt(max, start, c + 1)))
    decreases tries
  {
    if IdAt(max, start, a) !in pending {
      c := a;
    } else {
      c := ScanFinds(max, start, pending, a + 1, b, tries - 1);
    }
  }

  ghost function Ids(ids: seq<nat>): set<nat> { set i | 0 <= i < |ids| :: ids[i] }

  lemma {:induction false} IdsSize(ids: seq<nat>)
    ensures |Ids(ids)| <= |ids|
    ensures Distinct(ids) ==> |Ids(ids)| == |ids|
  {
    if ids == [] {
      assert Ids(ids) == {};
    } else {
      var front := ids[..|ids| - 1];
      IdsSize(front);
      assert Ids(ids) == Ids(front) + {ids[|ids| - 1]};
    }
  }

  /** Everything passed over so far is pending or newly allocated. */
  ghost predicate Covered(max: nat, start: nat, pending: set<nat>, b: Batch, a: nat) {
    && a <= max
    && b.next == IdAt(max, start, a)
    && Fresh(b.ids, pending)
    && (forall c | 0 <= c < a :: IdAt(max, start, c) in pending + Ids(b.ids))
    && (forall i | 0 <= i < |b.ids| :: b.ids[i] in Range(max, start, a))
  }

  /** While fewer than max ids are in flight, an id that was not passed over yet is free. */
  lemma FreePosition(max: nat, start: nat, pending: set<nat>, b: Batch, a: nat) returns (c: nat)
    requires 1 <= start <= max && Covered(max, start, pending, b, a)
    requires |b.ids| + |pending| < max
    ensures a <= c < max && IdAt(max, start, c) !in pending
  {
    var used := pending + Ids(b.ids);
    IdsSize(b.ids);
    assert |used| <= |pending| + |b.ids|;
    if forall d | a <= d < max :: IdAt(max, start, d) in pending {
      RangeSize(max, start, max);
      SubsetSize(Range(max, start, max), used);
      assert false;
    }
    c :| a <= c < max && IdAt(max, start, c) !in pending;
  }

  lemma {:induction false} ScanManyCovers(max: nat, start: nat, pending: set<nat>, k: nat) returns (a: nat)
    requires 1 <= start <= max && k + |pending| <= max
    ensures var r := ScanMany(max, start, pending, k);
      r.Some? && |r.value.ids| == k && Covered(max, start, pending, r.value, a)
  {
    if k == 0 { return 0; }
    a := ScanManyCovers(max, start, pending, k - 1);
    var b := ScanMany(max, start, pending, k - 1).value;
    var free := FreePosition(max, start, pending, b, a);
    var c := ScanFinds(max, start, pending, a, free, max);
    CoverOneMore(max, start, pending, b, a, c);
    a := c + 1;
  }

  lemma CoverOneMore(max: nat, start: nat, pending: set<nat>, b: Batch, a: nat, c: nat)
    requires 1 <= start <= max && Covered(max, start, pending, b, a)
    requires a <= c < max && IdAt(max, start, c) !in pending
    requires forall d | a <= d < c :: IdAt(max, start, d) in pending
    ensures Covered(max, start, pending, Batch(b.ids + [IdAt(max, start, c)], IdAt(max, start, c + 1)), c + 1)
  {
    var ids := b.ids + [IdAt(max, start, c)];
    forall i | 0 <= i < |b.ids| ensures b.ids[i] != IdAt(max, start, c) && b.ids[i] in Range(max, start, c + 1) {
      assert b.ids[i] in Range(max, start, a);
      var d: nat :| d < a && IdAt(max, start, d) == b.ids[i];
    }
    forall d | 0 <= d < c + 1 ensures IdAt(max, start, d) in pending + Ids(ids) {
      if d < a && IdAt(max, start, d) !in pending {
        var i :| 0 <= i < |b.ids| && b.ids[i] == IdAt(max, start, d);
        assert ids[i] == b.ids[i];
      }
      if d == c { assert ids[|b.ids|] == IdAt(max, start, c); }
    }
  }

  lemma {:induction false} ScanManyInRange(max: nat, start: nat, pending: set<nat>, k: nat)
    requires 1 <= start <= max
    ensures var r := ScanMany(max, start, pending, k);
      r.Some? ==>
        && 1 <= r.value.next <= max
        && |r.value.ids| == k
        && forall i | 0 <= i < k :: 1 <= r.value.ids[i] <= max && r.value.ids[i] !in pending
  {
    if k > 0 {
      ScanManyInRange(max, start, pending, k - 1);
      var r := ScanMany(max, start, pending, k - 1);
      if r.Some? { ScanInRange(max, r.value.next, pending, max); }
    }
  }

  lemma {:induction false} ScanInRange(max: nat, next: nat, pending: set<nat>, tries: nat)
    requires 1 <= next <= max
    ensures var r := Scan(max, next, pending, tries);
      r.Some? ==> 1 <= r.value.id <= max && 1 <= r.value.next <= max && r.value.id !in pending
    decreases tries
  {
    if tries > 0 && next in pending { ScanInRange(max, Succ(max, next), pending, tries - 1); }
  }

  lemma FreshIdsFit(max: nat, start: nat, pending: set<nat>, k: nat)
    requires 1 <= start <= max && forall id | id in pending :: 1 <= id <= max
    requires var r := ScanMany(max, start, pending, k); r.Some? && Fresh(r.value.ids, pending)
    ensures k + |pending| <= max
  {
    var ids := ScanMany(max, start, pending, k).value.ids;
    ScanManyInRange(max, start, pending, k);
    IdsSize(ids);
    assert pending * Ids(ids) == {};
    RangeSize(max, 1, max);
    forall id | id in pending + Ids(ids) ensures id in Range(max, 1, max) {
      assert id == IdAt(max, 1, id - 1);
    }
    SubsetSize(pending + Ids(ids), Range(max, 1, max));
  }

  /**
   k allocations within one refill give fresh ids exactly when they fit beside the pending ones.
   The scheduler's refill never has more than qp_count * queue_depth ids in flight.
   */
  lemma FreshExactlyWhenTheyFit(max: nat, start: nat, pending: set<nat>, k: nat)
    requires 1 <= start <= max && forall id | id in pending :: 1 <= id <= max
    ensures var r := ScanMany(max, start, pending, k);
      (r.Some? && Fresh(r.value.ids, pending)) <==> k + |pending| <= max
  {
    var r := ScanMany(max, start, pending, k);
    if k + |pending| <= max {
      var a := ScanManyCovers(max, start, pending, k);
    } else if r.Some? && Fresh(r.value.ids, pending) {
      FreshIdsFit(max, start, pending, k);
    }
  }
}

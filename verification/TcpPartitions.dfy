/** The fixed ranges that the thread workers send and receive. */
module TcpPartitions {
  import opened Arithmetic

  /** Where the range of a flow begins; the range of the last flow ends at nbytes. */
  function Bound(nbytes: nat, flows: nat, flow: nat): int
    requires 0 < flows
  {
    nbytes * flow / flows
  }

  predicate Holds(nbytes: nat, flows: nat, flow: nat, b: int)
    requires 0 < flows
  {
    flow < flows && Bound(nbytes, flows, flow) <= b < Bound(nbytes, flows, flow + 1)
  }

  lemma BoundStep(nbytes: nat, flows: nat, flow: nat)
    requires 0 < flows <= nbytes
    ensures Bound(nbytes, flows, flow) < Bound(nbytes, flows, flow + 1)
  {
    var lo, hi := nbytes * flow, nbytes * (flow + 1);
    assert hi == lo + nbytes;
    DivMod(lo, flows);
    DivMod(hi, flows);
    if hi / flows <= lo / flows { MulMonotone(flows, hi / flows, lo / flows); }
  }

  lemma {:induction false} BoundsOrdered(nbytes: nat, flows: nat, f: nat, g: nat)
    requires 0 < flows <= nbytes && f <= g
    ensures Bound(nbytes, flows, f) <= Bound(nbytes, flows, g)
    decreases g
  {
    if f < g {
      BoundsOrdered(nbytes, flows, f, g - 1);
      BoundStep(nbytes, flows, g - 1);
    }
  }

  lemma Ends(nbytes: nat, flows: nat)
    requires 0 < flows
    ensures Bound(nbytes, flows, 0) == 0 && Bound(nbytes, flows, flows) == nbytes
  {
    DivModUnique(flows, nbytes, 0);
  }

  lemma {:induction false} FindFlow(nbytes: nat, flows: nat, b: nat, k: nat) returns (f: nat)
    requires 0 < flows <= nbytes && k <= flows && b < Bound(nbytes, flows, k)
    ensures Holds(nbytes, flows, f, b)
    decreases k
  {
    Ends(nbytes, flows);
    if Bound(nbytes, flows, k - 1) <= b { f := k - 1; } else { f := FindFlow(nbytes, flows, b, k - 1); }
  }

  predicate NonEmpty(nbytes: nat, flows: nat, flow: nat)
    requires 0 < flows
  {
    0 <= Bound(nbytes, flows, flow) < Bound(nbytes, flows, flow + 1) <= nbytes
  }

  /** No range is empty, and every byte of the tensor lies in exactly one of them. */
  lemma PartitionsTile(nbytes: nat, flows: nat, b: nat)
    requires 0 < flows <= nbytes && b < nbytes
    ensures forall f: nat | f < flows :: NonEmpty(nbytes, flows, f)
    ensures exists f: nat :: Holds(nbytes, flows, f, b)
    ensures forall f: nat, g: nat | Holds(nbytes, flows, f, b) && Holds(nbytes, flows, g, b) :: f == g
  {
    Ends(nbytes, flows);
    forall f: nat | f < flows ensures NonEmpty(nbytes, flows, f) {
      BoundStep(nbytes, flows, f);
      BoundsOrdered(nbytes, flows, f + 1, flows);
    }
    var f := FindFlow(nbytes, flows, b, flows);
    forall f: nat, g: nat | Holds(nbytes, flows, f, b) && Holds(nbytes, flows, g, b) ensures f == g {
      if f < g { BoundsOrdered(nbytes, flows, f + 1, g); }
      if g < f { BoundsOrdered(nbytes, flows, g + 1, f); }
    }
  }

  /** The ranges differ by at most one byte. */
  lemma PartitionsAreEven(nbytes: nat, flows: nat, flow: nat)
    requires 0 < flows && flow < flows
    ensures nbytes / flows <= Bound(nbytes, flows, flow + 1) - Bound(nbytes, flows, flow) <= nbytes / flows + 1
  {
    var lo, hi, q := nbytes * flow, nbytes * (flow + 1), nbytes / flows;
    assert hi == lo + nbytes;
    DivMod(lo, flows);
    DivMod(hi, flows);
    DivMod(nbytes, flows);
    var x, y := lo / flows, hi / flows;
    assert (x + q) * flows == x * flows + q * flows && (x + q + 1) * flows == x * flows + q * flows + flows;
    if y < x + q { MulApart(flows, y, x + q); }
    if x + q + 1 < y { MulApart(flows, x + q + 1, y); }
  }
}

/** Transfer requests, their chunks, and the work requests that carry them. */
module ReadRequests {
  import opened Arithmetic
  import opened FloatDivision

  const MAX_SGE_LENGTH := 0xFFFF_FFFF
  const MAX_WR_ID: nat := 0xFFFF_FFFF_FFFF_FFFF

  /** An RDMA read or write of one local and one remote byte range. */
  datatype Request = Request(
    mr: nat, remoteAddr: int, rkey: int, length: int, localOffset: int, remoteOffset: int, write: bool)

  predicate Accepted(r: Request) {
    && 0 <= r.remoteAddr <= MAX_WR_ID && 0 <= r.rkey <= MAX_SGE_LENGTH
    && 0 < r.length && 0 <= r.localOffset && 0 <= r.remoteOffset
    && r.remoteAddr + r.remoteOffset + r.length <= MAX_WR_ID + 1
  }

  predicate AllAccepted(rs: seq<Request>) { forall i | 0 <= i < |rs| :: Accepted(rs[i]) }

  datatype Chunk = Chunk(index: nat, request: Request, offset: int, length: int)

  /** The chunks of one request from byte `offset` on. */
  function Split(r: Request, index: nat, size: nat, offset: nat): seq<Chunk>
    requires 0 < size
    decreases r.length - offset
  {
    if r.length <= offset then []
    else [Chunk(index, r, offset, Min(size, r.length - offset))] + Split(r, index, size, offset + size)
  }

  /** What the lazy chunk iterator still yields when it stands at byte `offset` of request `index`. */
  function Rest(rs: seq<Request>, size: nat, index: nat, offset: nat): seq<Chunk>
    requires 0 < size
    decreases |rs| - index
  {
    if |rs| <= index then [] else Split(rs[index], index, size, offset) + Rest(rs, size, index + 1, 0)
  }

  /** The iterator moves on to the next request at the end of one ... */
  lemma RestSkips(rs: seq<Request>, size: nat, index: nat, offset: nat)
    requires 0 < size && index < |rs| && rs[index].length <= offset
    ensures Rest(rs, size, index, offset) == Rest(rs, size, index + 1, 0)
  {
  }

  /** ... and otherwise yields one chunk. */
  lemma RestYields(rs: seq<Request>, size: nat, index: nat, offset: nat)
    requires 0 < size && index < |rs| && offset < rs[index].length
    ensures Rest(rs, size, index, offset)
         == [Chunk(index, rs[index], offset, Min(size, rs[index].length - offset))]
           + Rest(rs, size, index, offset + size)
  {
    var c := Chunk(index, rs[index], offset, Min(size, rs[index].length - offset));
    assert [c] + Split(rs[index], index, size, offset + size) + Rest(rs, size, index + 1, 0)
        == [c] + (Split(rs[index], index, size, offset + size) + Rest(rs, size, index + 1, 0));
  }

  function Chunks(rs: seq<Request>, size: nat): seq<Chunk>
    requires 0 < size
  { Rest(rs, size, 0, 0) }

  function TotalChunks(rs: seq<Request>, size: nat): int
    requires 0 < size
  {
    if rs == [] then 0 else TotalChunks(rs[..|rs| - 1], size) + CeilDiv(rs[|rs| - 1].length, size)
  }

  function TotalBytes(rs: seq<Request>): int {
    if rs == [] then 0 else TotalBytes(rs[..|rs| - 1]) + rs[|rs| - 1].length
  }

  function Bytes(cs: seq<Chunk>): int {
    if cs == [] then 0 else Bytes(cs[..|cs| - 1]) + cs[|cs| - 1].length
  }

  // ---------------------------------------------------------------- totals

  lemma {:induction false} BytesAppend(cs: seq<Chunk>, ds: seq<Chunk>)
    ensures Bytes(cs + ds) == Bytes(cs) + Bytes(ds)
  {
    if ds == [] {
      assert cs + ds == cs;
    } else {
      BytesAppend(cs, ds[..|ds| - 1]);
      assert (cs + ds)[..|cs + ds| - 1] == cs + ds[..|ds| - 1];
    }
  }

  lemma {:induction false} SplitTotals(r: Request, index: nat, size: nat, offset: nat)
    requires 0 < size && offset < r.length + size
    ensures |Split(r, index, size, offset)| == CeilDiv(Max(0, r.length - offset), size)
    ensures Bytes(Split(r, index, size, offset)) == Max(0, r.length - offset)
    decreases r.length - offset
  {
    if offset < r.length {
      SplitTotals(r, index, size, offset + size);
      var c := Chunk(index, r, offset, Min(size, r.length - offset));
      BytesAppend([c], Split(r, index, size, offset + size));
      assert [c][..0] == [];
      CeilStep(r.length - offset, size);
    } else {
      DivModUnique(size, 0, size - 1);
    }
  }

  lemma CeilStep(x: int, n: int)
    requires 0 < n && 0 < x
    ensures CeilDiv(x, n) == 1 + CeilDiv(Max(0, x - n), n)
  {
    if n <= x {
      CeilIsUnique(x - n, n, CeilDiv(x - n, n));
      CeilIsUnique(x, n, CeilDiv(x - n, n) + 1);
    } else {
      CeilIsUnique(x, n, 1);
      CeilIsUnique(0, n, 0);
    }
  }

  lemma CeilIsUnique(x: int, n: int, q: int)
    requires 0 < n
    ensures q == CeilDiv(x, n) <==> x <= q * n < x + n
  {
    CeilCovers(x, n);
    var c := CeilDiv(x, n);
    if q < c { MulApart(n, q, c); }
    if c < q { MulApart(n, c, q); }
  }

  /** The announced totals are those of the chunks that the iterator yields. */
  lemma {:induction false} ChunkTotals(rs: seq<Request>, size: nat)
    requires 0 < size && AllAccepted(rs)
    ensures |Chunks(rs, size)| == TotalChunks(rs, size)
    ensures Bytes(Chunks(rs, size)) == TotalBytes(rs)
  {
    if rs != [] {
      var k := |rs| - 1;
      ChunkTotals(rs[..k], size);
      RestOfPrefix(rs, size, 0);
      SplitTotals(rs[k], k, size, 0);
      BytesAppend(Chunks(rs[..k], size), Split(rs[k], k, size, 0));
    }
  }

  /** The total that `submit` announces: one rounded division per request. */
  function Announced(rs: seq<Request>, size: nat): nat
    requires 0 < size && AllAccepted(rs)
  {
    if rs == [] then 0 else Announced(rs[..|rs| - 1], size) + FloatCeil(rs[|rs| - 1].length, size)
  }

  /** It is the number of chunks whenever every request counts exactly, and for one request only then. */
  lemma {:induction false} AnnouncedIsYielded(rs: seq<Request>, size: nat)
    requires 0 < size && AllAccepted(rs)
    ensures (forall i | 0 <= i < |rs| :: CountsExactly(rs[i].length, size)) ==>
      Announced(rs, size) == |Chunks(rs, size)|
    ensures |rs| == 1 ==> (Announced(rs, size) == |Chunks(rs, size)| <==> CountsExactly(rs[0].length, size))
  {
    hide CountsExactly, FloatCeil, Chunks;
    ChunkTotals(rs, size);
    if rs != [] {
      var k := |rs| - 1;
      AnnouncedIsYielded(rs[..k], size);
      ChunkTotals(rs[..k], size);
      AnnouncedCount(rs[k].length, size);
      if k == 0 { assert TotalChunks(rs[..0], size) == 0 && Announced(rs[..0], size) == 0; }
    }
  }

  lemma {:induction false} RestOfPrefix(rs: seq<Request>, size: nat, index: nat)
    requires 0 < size && 0 < |rs| && index < |rs|
    ensures Rest(rs, size, index, 0) == Rest(rs[..|rs| - 1], size, index, 0) + Split(rs[|rs| - 1], |rs| - 1, size, 0)
    decreases |rs| - index
  {
    if index < |rs| - 1 {
      RestOfPrefix(rs, size, index + 1);
    } else {
      assert Rest(rs, size, index + 1, 0) == [];
    }
  }

  // ---------------------------------------------------------------- the chunks tile every request

  /** Chunks come in order of request and offset, without gaps or overlaps. */
  ghost predicate Ordered(cs: seq<Chunk>) {
    forall i, j | 0 <= i < j < |cs| ::
      cs[i].index < cs[j].index || (cs[i].index == cs[j].index && cs[i].offset + cs[i].length <= cs[j].offset)
  }

  ghost predicate Within(cs: seq<Chunk>, rs: seq<Request>, size: nat, index: nat) {
    forall i | 0 <= i < |cs| ::
      && index <= cs[i].index < |rs| && cs[i].request == rs[cs[i].index]
      && 0 < cs[i].length <= size && 0 <= cs[i].offset && cs[i].offset + cs[i].length <= cs[i].request.length
  }

  predicate Covers(c: Chunk, index: nat, b: int) {
    c.index == index && c.offset <= b < c.offset + c.length
  }

  lemma {:induction false} SplitOrdered(rs: seq<Request>, index: nat, size: nat, offset: nat)
    requires 0 < size && index < |rs|
    ensures var cs := Split(rs[index], index, size, offset);
      && Ordered(cs) && Within(cs, rs, size, index)
      && (forall i | 0 <= i < |cs| :: cs[i].index == index && offset <= cs[i].offset)
    decreases rs[index].length - offset
  {
    if offset < rs[index].length { SplitOrdered(rs, index, size, offset + size); }
  }

  lemma {:induction false} RestOrdered(rs: seq<Request>, size: nat, index: nat)
    requires 0 < size
    ensures Ordered(Rest(rs, size, index, 0)) && Within(Rest(rs, size, index, 0), rs, size, index)
    decreases |rs| - index
  {
    if index < |rs| {
      SplitOrdered(rs, index, size, 0);
      RestOrdered(rs, size, index + 1);
    }
  }

  lemma {:induction false} SplitCovers(r: Request, index: nat, size: nat, offset: nat, b: nat) returns (k: nat)
    requires 0 < size && offset <= b < r.length
    ensures k < |Split(r, index, size, offset)| && Covers(Split(r, index, size, offset)[k], index, b)
    decreases r.length - offset
  {
    if b < offset + size {
      k := 0;
    } else {
      k := SplitCovers(r, index, size, offset + size, b);
      k := k + 1;
    }
  }

  lemma {:induction false} RestCovers(rs: seq<Request>, size: nat, index: nat, r: nat, b: nat) returns (k: nat)
    requires 0 < size && index <= r < |rs| && b < rs[r].length
    ensures k < |Rest(rs, size, index, 0)| && Covers(Rest(rs, size, index, 0)[k], r, b)
    decreases |rs| - index
  {
    if r == index {
      k := SplitCovers(rs[index], index, size, 0, b);
    } else {
      k := RestCovers(rs, size, index + 1, r, b);
      k := |Split(rs[index], index, size, 0)| + k;
    }
  }

  /** Every byte of every request lies in exactly one chunk. */
  lemma ChunkOfByte(rs: seq<Request>, size: nat, r: nat, b: nat) returns (k: nat)
    requires 0 < size && r < |rs| && b < rs[r].length
    ensures var cs := Chunks(rs, size);
      && k < |cs| && cs[k].request == rs[r]
      && forall i | 0 <= i < |cs| :: Covers(cs[i], r, b) <==> i == k
  {
    RestOrdered(rs, size, 0);
    k := RestCovers(rs, size, 0, r, b);
  }

  // ---------------------------------------------------------------- work requests

  datatype SendWR = SendWR(id: nat, mr: nat, localOffset: int, length: int, remoteAddr: int, rkey: int, write: bool)

  function WorkRequest(id: nat, c: Chunk): SendWR {
    SendWR(id, c.request.mr, c.request.localOffset + c.offset, c.length,
           c.request.remoteAddr + c.request.remoteOffset + c.offset, c.request.rkey, c.request.write)
  }

  /** The work request moves byte b of the request between the matching local and remote bytes. */
  predicate Moves(wr: SendWR, r: Request, b: int) {
    && wr.mr == r.mr && wr.rkey == r.rkey && wr.write == r.write
    && 0 <= r.localOffset + b - wr.localOffset < wr.length
    && r.localOffset + b - wr.localOffset == r.remoteAddr + r.remoteOffset + b - wr.remoteAddr
  }
}

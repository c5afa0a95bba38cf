/** One sending and one receiving flow, running against a socket that fragments the stream as it likes. */
module TcpFlow {
  import opened Arithmetic
  import opened Bytes
  import opened Wrappers
  import opened TcpFraming

  class Socket {
    var incoming: seq<byte>      // written by the peer and not received yet; the peer closes after it
    var outgoing: seq<byte>

    /** Receive at least one byte, and at most what fits; nothing is left to receive once the peer closed. */
    method RecvInto(buffer: array<byte>, from: nat, to: nat) returns (n: nat)
      requires from <= to <= buffer.Length
      modifies this`incoming, buffer
      ensures n <= to - from && n <= |old(incoming)| && (n == 0 <==> from == to || old(incoming) == [])
      ensures incoming == old(incoming)[n..]
      ensures buffer[..] == Splice(old(buffer[..]), from, old(incoming)[..n])
    {
      var limit := Min(to - from, |incoming|);
      n := 0;
      if limit > 0 { n :| 1 <= n <= limit; }
      Put(buffer, from, incoming[..n]);
      incoming := incoming[n..];
    }

    method SendAll(piece: seq<byte>)
      modifies this`outgoing
      ensures outgoing == old(outgoing) + piece
    {
      outgoing := outgoing + piece;
    }
  }

  /** The first nbytes of the stream, however it is fragmented. */
  method RecvExact(socket: Socket, nbytes: nat) returns (r: Option<seq<byte>>)
    modifies socket`incoming
    ensures var s := old(socket.incoming);
      if nbytes <= |s| then r == Some(s[..nbytes]) && socket.incoming == s[nbytes..] else r == None
  {
    var result := new byte[nbytes](_ => 0);
    var offset := 0;
    ghost var s := socket.incoming;
    while offset < nbytes
      invariant offset <= nbytes && offset <= |s|
      invariant socket.incoming == s[offset..] && result[..offset] == s[..offset]
    {
      var received := socket.RecvInto(result, offset, nbytes);
      if received == 0 { return None; }
      assert result[..offset + received] == s[..offset] + s[offset..][..received];
      offset := offset + received;
    }
    assert result[..] == s[..nbytes];
    return Some(result[..]);
  }

  /** Receive one payload into the staging buffer, at most `chunk` bytes per call. */
  method RecvPayload(socket: Socket, staging: array<byte>, nbytes: nat, chunk: nat) returns (ok: bool)
    requires 0 < chunk && nbytes <= staging.Length
    modifies socket`incoming, staging
    ensures var s := old(socket.incoming);
      && (ok <==> nbytes <= |s|)
      && (ok ==> staging[..nbytes] == s[..nbytes] && socket.incoming == s[nbytes..])
  {
    var position := 0;
    ghost var s := socket.incoming;
    while position < nbytes
      invariant position <= nbytes && position <= |s|
      invariant socket.incoming == s[position..] && staging[..position] == s[..position]
    {
      var next := Min(position + chunk, nbytes);
      var received := socket.RecvInto(staging, position, next);
      if received == 0 { return false; }
      assert staging[..position + received] == s[..position] + s[position..][..received];
      position := position + received;
    }
    return true;
  }

  // ---------------------------------------------------------------- placing

  datatype Board = Board(placed: seq<bool>, destination: seq<byte>)

  predicate Shaped(c: Flow, b: Board) {
    Sound(c) && |b.destination| == c.total && |b.placed| == StripeCount(c)
  }

  /**
   What receiving these stripes did to the flags and to the destination: a flag is set if it was or if a stripe of
   its index came, and the bytes under a flag that was clear are those of the first stripe of its index.
   */
  ghost predicate Received(c: Flow, was: Board, now: Board, ss: seq<Stripe>)
    requires Shaped(c, was) && Shaped(c, now) && forall s | s in ss :: Aligned(c, s)
  {
    && (forall k | 0 <= k < StripeCount(c) ::
          now.placed[k] <==> was.placed[k] || exists i :: 0 <= i < |ss| && ss[i].offset / c.stripeBytes == k)
    && forall b: nat | b < c.total :: ByteReceived(c, was, now, ss, b)
  }

  /** Byte b is that of the first stripe of its index, if its flag was clear and there is one. */
  ghost predicate ByteReceived(c: Flow, was: Board, now: Board, ss: seq<Stripe>, b: nat)
    requires Shaped(c, was) && Shaped(c, now) && b < c.total && forall s | s in ss :: Aligned(c, s)
  {
    StripeIndex(c, b);
    var k := b / c.stripeBytes;
    && (was.placed[k] || (forall i | 0 <= i < |ss| :: ss[i].offset / c.stripeBytes != k) ==>
          now.destination[b] == was.destination[b])
    && (!was.placed[k] ==>
          forall i | 0 <= i < |ss| && First(c, ss, i, k) ::
            ss[i].offset <= b < ss[i].offset + |ss[i].payload|
            && now.destination[b] == ss[i].payload[b - ss[i].offset])
  }

  /** Stripe i is the first one of index k. */
  predicate First(c: Flow, ss: seq<Stripe>, i: nat, k: nat)
    requires Sound(c) && i < |ss|
  {
    ss[i].offset / c.stripeBytes == k && forall j | 0 <= j < i :: ss[j].offset / c.stripeBytes != k
  }

  /** A stripe is written when its flag is not set yet, and not again. */
  function Place(c: Flow, b: Board, s: Stripe): (r: Board)
    requires Shaped(c, b) && Aligned(c, s)
    ensures Shaped(c, r)
  {
    StripeIndex(c, s.offset);
    var k := s.offset / c.stripeBytes;
    if b.placed[k] then b else Board(b.placed[k := true], Splice(b.destination, s.offset, s.payload))
  }

  function PlaceAll(c: Flow, b: Board, ss: seq<Stripe>): (r: Board)
    requires Shaped(c, b) && forall s | s in ss :: Aligned(c, s)
    ensures Shaped(c, r)
    decreases ss
  {
    if ss == [] then b else PlaceAll(c, Place(c, b, ss[0]), ss[1..])
  }

  /** The bytes of a stripe are those of its index. */
  lemma StripeRange(c: Flow, s: Stripe, b: nat)
    requires Sound(c) && Aligned(c, s) && b < c.total
    ensures b / c.stripeBytes == s.offset / c.stripeBytes <==> s.offset <= b < s.offset + |s.payload|
  {
    DivMod(b, c.stripeBytes);
    DivMod(s.offset, c.stripeBytes);
    var k, q := s.offset / c.stripeBytes, b / c.stripeBytes;
    if q < k { MulApart(c.stripeBytes, q, k); }
    if k < q { MulApart(c.stripeBytes, k, q); }
  }

  lemma ReceivedByte(c: Flow, was: Board, mid: Board, ss: seq<Stripe>, s: Stripe, b: nat)
    requires Shaped(c, was) && Shaped(c, mid) && (forall t | t in ss :: Aligned(c, t)) && Aligned(c, s) && b < c.total
    requires Received(c, was, mid, ss)
    ensures (forall t | t in ss + [s] :: Aligned(c, t)) && ByteReceived(c, was, Place(c, mid, s), ss + [s], b)
  {
    StripeIndex(c, b);
    StripeRange(c, s, b);
    var k, ts, n := b / c.stripeBytes, ss + [s], |ss|;
    assert ByteReceived(c, was, mid, ss, b);
    hide Aligned, StripeCount;
    assert ts[n] == s && forall i | 0 <= i < n :: ts[i] == ss[i];
    forall i | 0 <= i < n ensures First(c, ts, i, k) <==> First(c, ss, i, k) {}
    if mid.placed[k] && !was.placed[k] {
      var i :| 0 <= i < n && ss[i].offset / c.stripeBytes == k;
      assert !First(c, ts, n, k) by { assert ts[i].offset / c.stripeBytes == k; }
    }
  }

  lemma {:induction false} PlaceAllReceives(c: Flow, was: Board, ss: seq<Stripe>)
    requires Shaped(c, was) && forall s | s in ss :: Aligned(c, s)
    ensures Received(c, was, PlaceAll(c, was, ss), ss)
  {
    if ss != [] {
      var front, s := ss[..|ss| - 1], ss[|ss| - 1];
      PlaceAllReceives(c, was, front);
      PlaceAppend(c, was, front, s);
      assert ss == front + [s];
      var mid := PlaceAll(c, was, front);
      forall b: nat | b < c.total ensures ByteReceived(c, was, Place(c, mid, s), ss, b) {
        ReceivedByte(c, was, mid, front, s, b);
      }
      ReceivedFlags(c, was, mid, front, s);
      hide Place, Aligned, ByteReceived;
    }
  }

  lemma ReceivedFlags(c: Flow, was: Board, mid: Board, ss: seq<Stripe>, s: Stripe)
    requires Shaped(c, was) && Shaped(c, mid) && (forall t | t in ss :: Aligned(c, t)) && Aligned(c, s)
    requires Received(c, was, mid, ss)
    ensures var now, ts := Place(c, mid, s), ss + [s];
      forall k | 0 <= k < StripeCount(c) ::
        now.placed[k] <==> was.placed[k] || exists i :: 0 <= i < |ts| && ts[i].offset / c.stripeBytes == k
  {
    var now, ts := Place(c, mid, s), ss + [s];
    StripeIndex(c, s.offset);
    hide StripeCount, Aligned, ByteReceived;
    forall k | 0 <= k < |now.placed|
      ensures now.placed[k] <==> was.placed[k] || exists i :: 0 <= i < |ts| && ts[i].offset / c.stripeBytes == k
    {
      if now.placed[k] && !was.placed[k] {
        if mid.placed[k] {
          var i :| 0 <= i < |ss| && ss[i].offset / c.stripeBytes == k;
          assert ts[i].offset / c.stripeBytes == k;
        } else {
          assert ts[|ss|].offset / c.stripeBytes == k;
        }
      }
      if i :| 0 <= i < |ts| && ts[i].offset / c.stripeBytes == k {
        if i < |ss| { assert ss[i].offset / c.stripeBytes == k; }
      }
    }
  }

  /** Read the next header and, if it announces a stripe, its payload into the staging buffer. */
  method ReadStripe(socket: Socket, staging: array<byte>, c: Flow, id: Option<seq<byte>>, chunk: nat)
    returns (end: Option<End>, offset: nat, nbytes: nat, transferId: seq<byte>)
    requires Sound(c) && 0 < chunk && staging.Length == Min(c.stripeBytes, c.total)
    modifies socket`incoming, staging
    // what the first 52 bytes make of the flow
    ensures var s := old(socket.incoming);
      if |s| < 52 then end == Some(PeerClosed)
      else if end.Some? && end != Some(PeerClosed) then Opening(c, id, s, Ends(end.value))
      else
        exists at: nat, n: nat ::
          && Opening(c, id, s, Expect(at, n))
          && if |s| < 52 + n then end == Some(PeerClosed)
             else
               && end == None && offset == at && nbytes == n <= staging.Length && transferId == s[8..24]
               && staging[..n] == s[52..52 + n] && socket.incoming == s[52 + n..]
    ensures end.Some? ==> Parse(c, id, old(socket.incoming)) == Parsed([], end.value)
    ensures end.None? ==>
      && nbytes <= staging.Length && Aligned(c, Stripe(offset, staging[..nbytes]))
      && |socket.incoming| < |old(socket.incoming)|
      && var tail := Parse(c, Some(transferId), socket.incoming);
         Parse(c, id, old(socket.incoming)) == Parsed([Stripe(offset, staging[..nbytes])] + tail.stripes, tail.end)
  {
    offset, nbytes, transferId := 0, 0, [];
    ghost var s := socket.incoming;
    hide Opening;
    var bytes := RecvExact(socket, HEADER_SIZE);
    if bytes == None { end := Some(PeerClosed); return; }
    var h := Unpack(bytes.value);
    transferId := h.transferId;
    var reading := ReadHeader(c, id, h, socket.incoming);
    ReadingExactly(c, id, s);
    if reading.Ends? { end := Some(reading.end); return; }
    offset, nbytes := reading.offset, reading.nbytes;
    hide Unpack, ReadHeader;
    var ok := RecvPayload(socket, staging, nbytes, chunk);
    end := if ok then None else Some(PeerClosed);
  }

  /** Write a stripe into the destination when this flow is the first to set its flag. */
  method PlaceStripe(destination: array<byte>, c: Flow, placed: array<bool>, seen: set<nat>, offset: nat,
                     payload: seq<byte>)
    returns (nowSeen: set<nat>)
    requires Sound(c) && destination.Length == c.total && placed.Length == StripeCount(c)
    requires Aligned(c, Stripe(offset, payload))
    requires forall k | k in seen :: k < placed.Length && placed[k]
    modifies destination, placed
    ensures Board(placed[..], destination[..])
        == Place(c, Board(old(placed[..]), old(destination[..])), Stripe(offset, payload))
    ensures forall k | k in nowSeen :: k < placed.Length && placed[k]
    // the flag of this stripe is set and no other changes; the payload is written if the flag was clear
    ensures forall k | 0 <= k < placed.Length :: placed[k] == (old(placed[k]) || k == offset / c.stripeBytes)
    ensures offset / c.stripeBytes < placed.Length && offset + |payload| <= destination.Length
    ensures if old(placed[offset / c.stripeBytes]) then destination[..] == old(destination[..])
      else
        && destination[offset..offset + |payload|] == payload
        && forall b | 0 <= b < c.total && !(offset <= b < offset + |payload|) :: destination[b] == old(destination[b])
  {
    var k := offset / c.stripeBytes;
    StripeIndex(c, offset);
    nowSeen := seen + {k};
    if k !in seen && !placed[k] {
      placed[k] := true;
      Put(destination, offset, payload);
      assert destination[offset..offset + |payload|] == destination[..][offset..offset + |payload|] == payload;
      forall b | 0 <= b < c.total && !(offset <= b < offset + |payload|) ensures destination[b] == old(destination[b]) {
        assert destination[b] == destination[..][b] && old(destination[..])[b] == old(destination[b]);
      }
    }
  }

  /**
   The receiving loop.  It reads the stream exactly as Parse does and places the stripes it got, in order,
   whichever way the flow ends; it reports the payload bytes it received.
   */
  method ReceiveDynamicFlow(socket: Socket, destination: array<byte>, c: Flow, placed: array<bool>, chunk: nat)
    returns (end: End, received: nat)
    requires Sound(c) && 0 < chunk && destination.Length == c.total && placed.Length == StripeCount(c)
    modifies socket`incoming, destination, placed
    ensures var p := Parse(c, None, old(socket.incoming));
      && end == p.end && received == PayloadBytes(p.stripes)
      && Board(placed[..], destination[..]) == PlaceAll(c, Board(old(placed[..]), old(destination[..])), p.stripes)
      && Received(c, Board(old(placed[..]), old(destination[..])), Board(placed[..], destination[..]), p.stripes)
  {
    var staging := new byte[Min(c.stripeBytes, c.total)](_ => 0);
    var seen: set<nat> := {};
    var id: Option<seq<byte>> := None;
    received := 0;
    ghost var p := Parse(c, None, socket.incoming);
    ghost var start := Board(placed[..], destination[..]);
    ghost var got: seq<Stripe> := [];
    hide Parse, Place, Aligned, Received, Opening;
    while true
      invariant Remaining(c, p, got, Parse(c, id, socket.incoming)) && received == PayloadBytes(got)
      invariant Board(placed[..], destination[..]) == PlaceAll(c, start, got)
      invariant forall k | k in seen :: k < placed.Length && placed[k]
      decreases |socket.incoming|
    {
      var e, offset, nbytes, transferId := ReadStripe(socket, staging, c, id, chunk);
      if e.Some? {
        assert p.stripes == got;
        PlaceAllReceives(c, start, got);
        return e.value, received;
      }
      received := received + nbytes;
      id := Some(transferId);
      ghost var s := Stripe(offset, staging[..nbytes]);
      OneMore(c, p, got, s, Parse(c, id, socket.incoming), start);
      got := got + [s];
      seen := PlaceStripe(destination, c, placed, seen, offset, staging[..nbytes]);
    }
  }

  /** `got` was read, and the rest of the stream reads as `tail`. */
  ghost predicate Remaining(c: Flow, p: Parsed, got: seq<Stripe>, tail: Parsed)
    requires Sound(c)
  {
    p == Parsed(got + tail.stripes, tail.end) && forall s | s in got :: Aligned(c, s)
  }

  lemma OneMore(c: Flow, p: Parsed, got: seq<Stripe>, s: Stripe, tail: Parsed, start: Board)
    requires Sound(c) && Shaped(c, start) && Aligned(c, s)
    requires Remaining(c, p, got, Parsed([s] + tail.stripes, tail.end))
    ensures Remaining(c, p, got + [s], tail)
    ensures PayloadBytes(got + [s]) == PayloadBytes(got) + |s.payload|
    ensures PlaceAll(c, start, got + [s]) == Place(c, PlaceAll(c, start, got), s)
  {
    assert got + ([s] + tail.stripes) == (got + [s]) + tail.stripes;
    PayloadAppend(got, [s]);
    PlaceAppend(c, start, got, s);
  }

  lemma {:induction false} PayloadAppend(ss: seq<Stripe>, ts: seq<Stripe>)
    ensures PayloadBytes(ss + ts) == PayloadBytes(ss) + PayloadBytes(ts)
  {
    if ss == [] {
      assert ss + ts == ts;
    } else {
      assert (ss + ts)[1..] == ss[1..] + ts;
      PayloadAppend(ss[1..], ts);
    }
  }

  lemma {:induction false} PlaceAppend(c: Flow, b: Board, ss: seq<Stripe>, s: Stripe)
    requires Shaped(c, b) && Aligned(c, s) && forall t | t in ss :: Aligned(c, t)
    ensures PlaceAll(c, b, ss + [s]) == Place(c, PlaceAll(c, b, ss), s)
    decreases ss
  {
    if ss == [] {
      assert ss + [s] == [s];
    } else {
      assert (ss + [s])[1..] == ss[1..] + [s];
      PlaceAppend(c, Place(c, b, ss[0]), ss[1..], s);
    }
  }

  // ---------------------------------------------------------------- sending

  /** Send one stripe in pieces of at most `chunk` bytes. */
  method SendPayload(socket: Socket, view: seq<byte>, offset: nat, end: nat, chunk: nat)
    requires 0 < chunk && offset <= end <= |view|
    modifies socket`outgoing
    ensures socket.outgoing == old(socket.outgoing) + view[offset..end]
  {
    var position := offset;
    while position < end
      invariant offset <= position <= end
      invariant socket.outgoing == old(socket.outgoing) + view[offset..position]
    {
      var next := Min(position + chunk, end);
      socket.SendAll(view[position..next]);
      assert view[offset..position] + view[position..next] == view[offset..next];
      position := next;
    }
  }

  method SendStripe(socket: Socket, view: seq<byte>, c: Flow, id: seq<byte>, task: nat, chunk: nat) returns (n: nat)
    requires TcpFraming.Fits(c, id) && |view| == c.total && 0 < chunk
    modifies socket`outgoing
    ensures socket.outgoing == old(socket.outgoing) + Frame(c, id, StripeOf(c, view, task))
    ensures n == |StripeOf(c, view, task).payload|
  {
    hide Pack;
    OffsetInRange(c, task);
    var offset := Offset(c, task);
    var end := Min(offset + c.stripeBytes, c.total);
    socket.SendAll(Pack(Header(MAGIC, id, c.flow, c.total, offset, end - offset)));
    SendPayload(socket, view, offset, end, chunk);
    assert StripeOf(c, view, task) == Stripe(offset, view[offset..end]);
    n := end - offset;
  }

  /** Run one flow; `draws` is what the shared task counter returned to it, the last one past the end. */
  method SendDynamicFlow(socket: Socket, view: seq<byte>, c: Flow, id: seq<byte>, draws: seq<nat>, taskCount: nat,
                         chunk: nat)
    returns (sent: nat)
    requires TcpFraming.Fits(c, id) && |view| == c.total && 0 < chunk
    requires draws != [] && draws[|draws| - 1] >= taskCount && forall i | 0 <= i < |draws| - 1 :: draws[i] < taskCount
    modifies socket`outgoing
    ensures var ss := StripesOf(c, view, draws[..|draws| - 1]);
      && socket.outgoing == old(socket.outgoing) + Frames(c, id, ss) + Terminator(c, id)
      && sent == PayloadBytes(ss)
  {
    sent := 0;
    var i := 0;
    assert draws[..0] == [];
    ghost var start := socket.outgoing;
    assert Written(c, view, id, draws[..i], start, socket.outgoing, sent);
    hide Terminator, Frame, StripeOf, Written;
    while draws[i] < taskCount
      invariant i < |draws| && Written(c, view, id, draws[..i], start, socket.outgoing, sent)
      decreases |draws| - i
    {
      ghost var out := socket.outgoing;
      var n := SendStripe(socket, view, c, id, draws[i], chunk);
      WrittenOneMore(c, view, id, draws, i, start, out, sent);
      sent := sent + n;
      i := i + 1;
    }
    assert draws[..i] == draws[..|draws| - 1];
    WrittenMeans(c, view, id, draws[..i], start, socket.outgoing, sent);
    socket.SendAll(Terminator(c, id));
  }

  /** The stripes of these tasks went out, and their payload was counted. */
  ghost predicate Written(c: Flow, view: seq<byte>, id: seq<byte>, tasks: seq<nat>, start: seq<byte>, out: seq<byte>,
                          sent: nat)
    requires TcpFraming.Fits(c, id) && |view| == c.total
  {
    var ss := StripesOf(c, view, tasks);
    out == start + Frames(c, id, ss) && sent == PayloadBytes(ss)
  }

  lemma WrittenMeans(c: Flow, view: seq<byte>, id: seq<byte>, tasks: seq<nat>, start: seq<byte>, out: seq<byte>,
                     sent: nat)
    requires TcpFraming.Fits(c, id) && |view| == c.total && Written(c, view, id, tasks, start, out, sent)
    ensures out == start + Frames(c, id, StripesOf(c, view, tasks)) && sent == PayloadBytes(StripesOf(c, view, tasks))
  {
  }

  lemma WrittenOneMore(c: Flow, view: seq<byte>, id: seq<byte>, draws: seq<nat>, i: nat, start: seq<byte>,
                       out: seq<byte>, sent: nat)
    requires TcpFraming.Fits(c, id) && |view| == c.total && i < |draws|
    requires Written(c, view, id, draws[..i], start, out, sent)
    ensures var s := StripeOf(c, view, draws[i]);
      Written(c, view, id, draws[..i + 1], start, out + Frame(c, id, s), sent + |s.payload|)
  {
    hide Frame, StripeOf;
    SentOneMore(c, view, id, draws, i);
  }

  lemma SentOneMore(c: Flow, view: seq<byte>, id: seq<byte>, draws: seq<nat>, i: nat)
    requires TcpFraming.Fits(c, id) && |view| == c.total && i < |draws|
    ensures var before, s := StripesOf(c, view, draws[..i]), StripeOf(c, view, draws[i]);
      var after := StripesOf(c, view, draws[..i + 1]);
      && Frames(c, id, after) == Frames(c, id, before) + Frame(c, id, s)
      && PayloadBytes(after) == PayloadBytes(before) + |s.payload|
  {
    var before, s := StripesOf(c, view, draws[..i]), StripeOf(c, view, draws[i]);
    assert draws[..i + 1] == draws[..i] + [draws[i]];
    StripesAppend(c, view, draws[..i], draws[i]);
    FramesAppend(c, id, before, s);
    PayloadAppend(before, [s]);
  }

  lemma {:induction false} StripesAppend(c: Flow, view: seq<byte>, tasks: seq<nat>, task: nat)
    requires Sound(c) && |view| == c.total
    ensures StripesOf(c, view, tasks + [task]) == StripesOf(c, view, tasks) + [StripeOf(c, view, task)]
  {
    if tasks == [] {
      assert tasks + [task] == [task];
    } else {
      assert (tasks + [task])[1..] == tasks[1..] + [task];
      StripesAppend(c, view, tasks[1..], task);
    }
  }

  lemma {:induction false} FramesAppend(c: Flow, id: seq<byte>, ss: seq<Stripe>, s: Stripe)
    requires |id| == 16
    ensures Frames(c, id, ss + [s]) == Frames(c, id, ss) + Frame(c, id, s)
  {
    if ss == [] {
      assert ss + [s] == [s];
      assert Frames(c, id, [s]) == Frame(c, id, s) + [];
    } else {
      assert (ss + [s])[1..] == ss[1..] + [s];
      FramesAppend(c, id, ss[1..], s);
      assert Frame(c, id, ss[0]) + (Frames(c, id, ss[1..]) + Frame(c, id, s))
          == Frame(c, id, ss[0]) + Frames(c, id, ss[1..]) + Frame(c, id, s);
    }
  }

  lemma {:induction false} StripesAligned(c: Flow, view: seq<byte>, tasks: seq<nat>)
    requires Sound(c) && |view| == c.total
    ensures forall s | s in StripesOf(c, view, tasks) :: Aligned(c, s)
  {
    if tasks != [] { StripesAligned(c, view, tasks[1..]); }
  }

  /** A flow that ran against its peer delivers the sender's stripes, whatever the fragmentation. */
  lemma FlowDelivers(c: Flow, view: seq<byte>, id: seq<byte>, tasks: seq<nat>)
    requires TcpFraming.Fits(c, id) && |view| == c.total
    ensures var ss := StripesOf(c, view, tasks);
      Parse(c, None, Frames(c, id, ss) + Terminator(c, id)) == Parsed(ss, Terminated(id, []))
  {
    var ss := StripesOf(c, view, tasks);
    StripesAligned(c, view, tasks);
    FramingRoundTrip(c, id, None, ss, []);
    assert Frames(c, id, ss) + Terminator(c, id) + [] == Frames(c, id, ss) + Terminator(c, id);
  }

  lemma {:induction false} FirstOf(c: Flow, ss: seq<Stripe>, k: nat, i: nat) returns (f: nat)
    requires Sound(c) && i < |ss| && ss[i].offset / c.stripeBytes == k
    ensures f <= i && First(c, ss, f, k)
  {
    if j: nat :| j < i && ss[j].offset / c.stripeBytes == k {
      f := FirstOf(c, ss, k, j);
    } else {
      f := i;
    }
  }

  lemma {:induction false} TaskStripes(c: Flow, view: seq<byte>, tasks: seq<nat>, j: nat)
    requires Sound(c) && |view| == c.total && j < |tasks|
    ensures |StripesOf(c, view, tasks)| == |tasks| && StripesOf(c, view, tasks)[j] == StripeOf(c, view, tasks[j])
    decreases tasks
  {
    if j > 0 { TaskStripes(c, view, tasks[1..], j - 1); }
    else if |tasks| > 1 { TaskStripes(c, view, tasks[1..], 0); }
  }

  /** A byte whose flag was clear and whose stripe some drawn task carries is the sender's byte afterwards. */
  lemma BytesArrive(c: Flow, view: seq<byte>, tasks: seq<nat>, was: Board, now: Board, b: nat, j: nat)
    requires Shaped(c, was) && Shaped(c, now) && |view| == c.total && b < c.total && j < |tasks|
    requires 0 < StripeCount(c) && tasks[j] % StripeCount(c) == b / c.stripeBytes
    requires b / c.stripeBytes < |was.placed| && !was.placed[b / c.stripeBytes]
    requires forall s | s in StripesOf(c, view, tasks) :: Aligned(c, s)
    requires Received(c, was, now, StripesOf(c, view, tasks))
    ensures now.destination[b] == view[b] && now.placed[b / c.stripeBytes]
  {
    hide Offset, Aligned, StripesOf, StripeOf;
    var ss, k := StripesOf(c, view, tasks), b / c.stripeBytes;
    TaskStripes(c, view, tasks, j);
    StripeFields(c, view, tasks[j], b);
    var f := FirstOf(c, ss, k, j);
    TaskStripes(c, view, tasks, f);
    StripeFields(c, view, tasks[f], b);
    assert ByteReceived(c, was, now, ss, b);
    assert ss[j].offset / c.stripeBytes == k;
    hide StripeCount, First, Received;
  }

  lemma StripeFields(c: Flow, view: seq<byte>, task: nat, b: nat)
    requires Sound(c) && |view| == c.total
    ensures var s := StripeOf(c, view, task);
      && 0 < StripeCount(c) && s.offset / c.stripeBytes == task % StripeCount(c)
      && (s.offset <= b < s.offset + |s.payload| ==> b < c.total && s.payload[b - s.offset] == view[b])
  {
    OffsetInRange(c, task);
  }
}

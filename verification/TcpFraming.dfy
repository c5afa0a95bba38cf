/** The byte stream of one dynamic TCP flow: what the sender writes and what the receiver makes of it. */
module TcpFraming {
  import opened Arithmetic
  import opened Bytes
  import opened Wrappers

  const MAGIC: seq<byte> := [84, 69, 78, 83, 79, 82, 48, 49]    // TENSOR01
  const DONE: seq<byte> := [84, 69, 78, 68, 48, 48, 48, 49]     // TEND0001
  const HEADER_SIZE: nat := 52

  datatype Header = Header(magic: seq<byte>, transferId: seq<byte>, flow: nat, total: nat, offset: nat, nbytes: nat)

  predicate Packable(h: Header) {
    && |h.magic| == 8 && |h.transferId| == 16 && h.flow < Span(4)
    && h.total < Span(8) && h.offset < Span(8) && h.nbytes < Span(8)
  }

  function Pack(h: Header): (r: seq<byte>)
    requires |h.magic| == 8 && |h.transferId| == 16
    ensures |r| == HEADER_SIZE
  {
    h.magic + h.transferId + Big(h.flow, 4) + Big(h.total, 8) + Big(h.offset, 8) + Big(h.nbytes, 8)
  }

  function Unpack(bs: seq<byte>): Header
    requires |bs| == HEADER_SIZE
  {
    Header(bs[..8], bs[8..24], FromBig(bs[24..28]), FromBig(bs[28..36]), FromBig(bs[36..44]), FromBig(bs[44..52]))
  }

  lemma HeaderRoundTrip(h: Header)
    requires Packable(h)
    ensures Unpack(Pack(h)) == h
  {
    hide Big, Span, FromBig;
    var bs := Pack(h);
    assert bs[..8] == h.magic && bs[8..24] == h.transferId;
    assert bs[24..28] == Big(h.flow, 4) && bs[28..36] == Big(h.total, 8);
    assert bs[36..44] == Big(h.offset, 8) && bs[44..52] == Big(h.nbytes, 8);
    BigRoundTrip(h.flow, 4);
    BigRoundTrip(h.total, 8);
    BigRoundTrip(h.offset, 8);
    BigRoundTrip(h.nbytes, 8);
  }

  // ---------------------------------------------------------------- stripes and tasks

  /** What both ends of a flow agree on. */
  datatype Flow = Flow(flow: nat, total: nat, stripeBytes: nat)

  predicate Sound(c: Flow) { 0 < c.total && 0 < c.stripeBytes }

  function StripeCount(c: Flow): nat
    requires Sound(c)
  {
    CeilDiv(c.total, c.stripeBytes)
  }

  lemma StripeIndex(c: Flow, offset: nat)
    requires Sound(c) && offset < c.total
    ensures offset / c.stripeBytes < StripeCount(c)
  {
    CeilCovers(c.total, c.stripeBytes);
    QuotientBelow(offset, c.stripeBytes, StripeCount(c));
  }

  datatype Stripe = Stripe(offset: nat, payload: seq<byte>)

  predicate Aligned(c: Flow, s: Stripe)
    requires Sound(c)
  {
    && s.offset % c.stripeBytes == 0 && s.offset < c.total
    && |s.payload| == Min(c.stripeBytes, c.total - s.offset)
  }

  function Offset(c: Flow, task: nat): nat
    requires Sound(c) && 0 < StripeCount(c)
  {
    task % StripeCount(c) * c.stripeBytes
  }

  lemma OffsetInRange(c: Flow, task: nat)
    requires Sound(c)
    ensures 0 < StripeCount(c) && Offset(c, task) < c.total && Offset(c, task) % c.stripeBytes == 0
    ensures Offset(c, task) / c.stripeBytes == task % StripeCount(c)
  {
    CeilCovers(c.total, c.stripeBytes);
    MulSign(StripeCount(c), c.stripeBytes);
    var k := task % StripeCount(c);
    MulMonotone(c.stripeBytes, k + 1, StripeCount(c));
    assert (k + 1) * c.stripeBytes == k * c.stripeBytes + c.stripeBytes;
    DivModUnique(c.stripeBytes, k, 0);
  }

  /** The stripe that a task carries. */
  function StripeOf(c: Flow, view: seq<byte>, task: nat): (s: Stripe)
    requires Sound(c) && |view| == c.total
    ensures Aligned(c, s)
  {
    OffsetInRange(c, task);
    var offset := Offset(c, task);
    Stripe(offset, view[offset..offset + Min(c.stripeBytes, c.total - offset)])
  }

  function StripesOf(c: Flow, view: seq<byte>, tasks: seq<nat>): seq<Stripe>
    requires Sound(c) && |view| == c.total
  {
    if tasks == [] then [] else [StripeOf(c, view, tasks[0])] + StripesOf(c, view, tasks[1..])
  }

  function PayloadBytes(ss: seq<Stripe>): nat {
    if ss == [] then 0 else |ss[0].payload| + PayloadBytes(ss[1..])
  }

  // ---------------------------------------------------------------- what is written

  function Frame(c: Flow, id: seq<byte>, s: Stripe): seq<byte>
    requires |id| == 16
  {
    Pack(Header(MAGIC, id, c.flow, c.total, s.offset, |s.payload|)) + s.payload
  }

  function Terminator(c: Flow, id: seq<byte>): (bytes: seq<byte>)
    requires |id| == 16
    ensures |bytes| == HEADER_SIZE
  {
    Pack(Header(DONE, id, c.flow, c.total, 0, 0))
  }

  function Frames(c: Flow, id: seq<byte>, ss: seq<Stripe>): seq<byte>
    requires |id| == 16
  {
    if ss == [] then [] else Frame(c, id, ss[0]) + Frames(c, id, ss[1..])
  }

  /** A frame: TENSOR01, the transfer, then flow, total, offset and length in network order, and the payload. */
  lemma FrameBytes(c: Flow, id: seq<byte>, s: Stripe)
    requires |id| == 16
    ensures var bytes := Frame(c, id, s);
      && |bytes| == 52 + |s.payload| && bytes[..8] == [84, 69, 78, 83, 79, 82, 48, 49] && bytes[8..24] == id
      && bytes[24..28] == Big(c.flow, 4) && bytes[28..36] == Big(c.total, 8) && bytes[36..44] == Big(s.offset, 8)
      && bytes[44..52] == Big(|s.payload|, 8) && bytes[52..] == s.payload
  {
    hide Big;
  }

  /** And of a terminator: TEND0001 and no data. */
  lemma TerminatorBytes(c: Flow, id: seq<byte>)
    requires |id| == 16
    ensures var bytes := Terminator(c, id);
      && |bytes| == 52 && bytes[..8] == [84, 69, 78, 68, 48, 48, 48, 49] && bytes[8..24] == id
      && bytes[24..28] == Big(c.flow, 4) && bytes[28..36] == Big(c.total, 8) && bytes[36..44] == Big(0, 8)
      && bytes[44..52] == Big(0, 8)
  {
    hide Big;
  }

  // ---------------------------------------------------------------- what is read

  datatype End = Terminated(id: seq<byte>, rest: seq<byte>) | HeaderMismatch | BadTerminator | BadStripe | PeerClosed

  datatype Parsed = Parsed(stripes: seq<Stripe>, end: End)

  /** The reading of a header: the next stripe, or how the flow ends. */
  datatype Reading = Expect(offset: nat, nbytes: nat) | Ends(end: End)

  function ReadHeader(c: Flow, id: Option<seq<byte>>, h: Header, rest: seq<byte>): (r: Reading)
    requires Sound(c)
    ensures r.Expect? ==>
      r.offset % c.stripeBytes == 0 && r.offset < c.total && 0 < r.nbytes == Min(c.stripeBytes, c.total - r.offset)
  {
    if h.flow != c.flow || h.total != c.total || (id.Some? && h.transferId != id.value) then Ends(HeaderMismatch)
    else if h.magic == DONE then
      if h.offset != 0 || h.nbytes != 0 then Ends(BadTerminator) else Ends(Terminated(h.transferId, rest))
    else if h.magic != MAGIC || h.offset % c.stripeBytes != 0
      || h.nbytes != Min(c.stripeBytes, c.total - h.offset) || h.nbytes <= 0
    then Ends(BadStripe)
    else Expect(h.offset, h.nbytes)
  }

  /** The first 52 bytes, in network byte order, decide. */
  lemma ReadingExactly(c: Flow, id: Option<seq<byte>>, s: seq<byte>)
    requires Sound(c) && 52 <= |s|
    ensures Opening(c, id, s, ReadHeader(c, id, Unpack(s[..HEADER_SIZE]), s[HEADER_SIZE..]))
  {
    var bs := s[..HEADER_SIZE];
    assert bs[..8] == s[..8] && bs[8..24] == s[8..24] && bs[24..28] == s[24..28] && bs[28..36] == s[28..36];
    assert bs[36..44] == s[36..44] && bs[44..52] == s[44..52];
    hide FromBig;
  }

  predicate Opening(c: Flow, id: Option<seq<byte>>, s: seq<byte>, r: Reading)
    requires Sound(c) && 52 <= |s|
  {
    var at, n := FromBig(s[36..44]), FromBig(s[44..52]);
    var matches := FromBig(s[24..28]) == c.flow && FromBig(s[28..36]) == c.total && (id.Some? ==> s[8..24] == id.value);
    var done := s[..8] == [84, 69, 78, 68, 48, 48, 48, 49];
    var stripe := s[..8] == [84, 69, 78, 83, 79, 82, 48, 49]
                  && at % c.stripeBytes == 0 && 0 < n == Min(c.stripeBytes, c.total - at);
    && (r == Ends(HeaderMismatch) <==> !matches)
    && (r == Ends(BadTerminator) <==> matches && done && !(at == n == 0))
    && (r == Ends(Terminated(s[8..24], s[52..])) <==> matches && done && at == n == 0)
    && (r == Ends(BadStripe) <==> matches && !done && !stripe)
    && (r == Expect(at, n) <==> matches && !done && stripe)
    && (r.Expect? ==> r == Expect(at, n))
    && (r.Ends? ==> r.end != PeerClosed)
  }

  function Parse(c: Flow, id: Option<seq<byte>>, stream: seq<byte>): (p: Parsed)
    requires Sound(c)
    ensures forall s | s in p.stripes :: Aligned(c, s)
    decreases |stream|
  {
    if |stream| < HEADER_SIZE then Parsed([], PeerClosed)
    else
      var h, rest := Unpack(stream[..HEADER_SIZE]), stream[HEADER_SIZE..];
      match ReadHeader(c, id, h, rest)
      case Ends(end) => Parsed([], end)
      case Expect(offset, nbytes) =>
        if |rest| < nbytes then Parsed([], PeerClosed)
        else
          var tail := Parse(c, Some(h.transferId), rest[nbytes..]);
          Parsed([Stripe(offset, rest[..nbytes])] + tail.stripes, tail.end)
  }

  /** The flow fits the header's fields: the packing raises otherwise. */
  predicate Fits(c: Flow, id: seq<byte>) { Sound(c) && c.flow < Span(4) && c.total < Span(8) && |id| == 16 }

  lemma ParseFrame(c: Flow, id: seq<byte>, known: Option<seq<byte>>, s: Stripe, rest: seq<byte>)
    requires Fits(c, id) && Aligned(c, s) && (known.None? || known == Some(id))
    ensures var tail := Parse(c, Some(id), rest);
      Parse(c, known, Frame(c, id, s) + rest) == Parsed([s] + tail.stripes, tail.end)
  {
    var h := Header(MAGIC, id, c.flow, c.total, s.offset, |s.payload|);
    HeaderRoundTrip(h);
    var stream := Frame(c, id, s) + rest;
    assert stream[..HEADER_SIZE] == Pack(h);
    assert stream[HEADER_SIZE..] == s.payload + rest;
    hide Pack, Unpack, Frame;
    assert (s.payload + rest)[..|s.payload|] == s.payload && (s.payload + rest)[|s.payload|..] == rest;
  }

  /** The receiver's reading of everything the sender wrote is the sender's list of stripes, up to the terminator. */
  lemma {:induction false} FramingRoundTrip(c: Flow, id: seq<byte>, known: Option<seq<byte>>, ss: seq<Stripe>,
                                            rest: seq<byte>)
    requires Fits(c, id) && (known.None? || known == Some(id)) && forall s | s in ss :: Aligned(c, s)
    ensures Parse(c, known, Frames(c, id, ss) + Terminator(c, id) + rest) == Parsed(ss, Terminated(id, rest))
    decreases ss
  {
    if ss == [] {
      var h := Header(DONE, id, c.flow, c.total, 0, 0);
      HeaderRoundTrip(h);
      var stream := Frames(c, id, ss) + Terminator(c, id) + rest;
      assert stream[..HEADER_SIZE] == Pack(h) && stream[HEADER_SIZE..] == rest;
    } else {
      var tail := Frames(c, id, ss[1..]) + Terminator(c, id) + rest;
      assert Frames(c, id, ss) + Terminator(c, id) + rest == Frame(c, id, ss[0]) + tail;
      ParseFrame(c, id, known, ss[0], tail);
      FramingRoundTrip(c, id, Some(id), ss[1..], rest);
      assert [ss[0]] + ss[1..] == ss;
    }
  }

  // ---------------------------------------------------------------- a stream cut anywhere

  lemma PartialFrame(c: Flow, id: seq<byte>, known: Option<seq<byte>>, s: Stripe, n: nat)
    requires Fits(c, id) && Aligned(c, s) && (known.None? || known == Some(id)) && n < |Frame(c, id, s)|
    ensures Parse(c, known, Frame(c, id, s)[..n]) == Parsed([], PeerClosed)
  {
    if HEADER_SIZE <= n {
      var h := Header(MAGIC, id, c.flow, c.total, s.offset, |s.payload|);
      HeaderRoundTrip(h);
      assert Frame(c, id, s)[..n][..HEADER_SIZE] == Pack(h);
      hide Pack, Unpack;
    }
  }

  /** Exactly g frames of ss fit into n bytes. */
  predicate WholeFrames(c: Flow, id: seq<byte>, ss: seq<Stripe>, n: nat, g: nat)
    requires |id| == 16
  {
    g <= |ss| && |Frames(c, id, ss[..g])| <= n && (g < |ss| ==> n < |Frames(c, id, ss[..g + 1])|)
  }

  lemma WholeFramesStep(c: Flow, id: seq<byte>, ss: seq<Stripe>, n: nat, g: nat)
    requires |id| == 16 && ss != [] && WholeFrames(c, id, ss[1..], n, g)
    ensures WholeFrames(c, id, ss, |Frame(c, id, ss[0])| + n, g + 1)
  {
    hide Frame;
    assert ss[..g + 1][1..] == ss[1..][..g];
    if g + 1 < |ss| { assert ss[..g + 2][1..] == ss[1..][..g + 1]; }
  }

  /** What the receiver reads of a stream cut after n bytes. */
  predicate ReadsPrefix(c: Flow, id: seq<byte>, ss: seq<Stripe>, n: nat, p: Parsed)
    requires |id| == 16
  {
    && p.stripes <= ss && WholeFrames(c, id, ss, n, |p.stripes|)
    && p.end == if n < |Frames(c, id, ss)| + HEADER_SIZE then PeerClosed else Terminated(id, [])
  }

  lemma ReadsTerminator(c: Flow, id: seq<byte>, known: Option<seq<byte>>, n: nat)
    requires Fits(c, id) && (known.None? || known == Some(id)) && n <= HEADER_SIZE
    ensures ReadsPrefix(c, id, [], n, Parse(c, known, Terminator(c, id)[..n]))
  {
    if n == HEADER_SIZE {
      FramingRoundTrip(c, id, known, [], []);
      assert Frames(c, id, []) + Terminator(c, id) + [] == Terminator(c, id)[..n];
    }
  }

  lemma ReadsFrame(c: Flow, id: seq<byte>, known: Option<seq<byte>>, ss: seq<Stripe>, n: nat, rest: seq<byte>)
    requires Fits(c, id) && (known.None? || known == Some(id)) && ss != [] && Aligned(c, ss[0])
    requires ReadsPrefix(c, id, ss[1..], n, Parse(c, Some(id), rest))
    ensures ReadsPrefix(c, id, ss, |Frame(c, id, ss[0])| + n, Parse(c, known, Frame(c, id, ss[0]) + rest))
  {
    hide Frame, Parse, Aligned;
    var tail := Parse(c, Some(id), rest);
    ParseFrame(c, id, known, ss[0], rest);
    WholeFramesStep(c, id, ss, n, |tail.stripes|);
    assert ss == [ss[0]] + ss[1..];
  }

  /**
   Of a stream cut after n bytes the receiver reads exactly the stripes whose frames are complete, in order,
   and then finds the connection closed, unless the terminator is complete too.
   */
  lemma {:induction false} PrefixParse(c: Flow, id: seq<byte>, known: Option<seq<byte>>, ss: seq<Stripe>, n: nat)
    requires Fits(c, id) && (known.None? || known == Some(id)) && (forall s | s in ss :: Aligned(c, s))
    requires n <= |Frames(c, id, ss)| + HEADER_SIZE
    ensures ReadsPrefix(c, id, ss, n, Parse(c, known, (Frames(c, id, ss) + Terminator(c, id))[..n]))
    decreases ss
  {
    hide Frame, Terminator, Parse, Aligned, WholeFrames, ReadsPrefix;
    var stream := Frames(c, id, ss) + Terminator(c, id);
    if ss == [] {
      assert stream == Terminator(c, id);
      ReadsTerminator(c, id, known, n);
    } else {
      var first, tail := Frame(c, id, ss[0]), Frames(c, id, ss[1..]) + Terminator(c, id);
      assert stream == first + tail;
      if n < |first| {
        assert stream[..n] == first[..n];
        PartialFrame(c, id, known, ss[0], n);
        ReadsNothing(c, id, ss, n);
      } else {
        assert stream[..n] == first + tail[..n - |first|];
        PrefixParse(c, id, Some(id), ss[1..], n - |first|);
        ReadsFrame(c, id, known, ss, n - |first|, tail[..n - |first|]);
      }
    }
  }

  lemma ReadsNothing(c: Flow, id: seq<byte>, ss: seq<Stripe>, n: nat)
    requires |id| == 16 && ss != [] && n < |Frame(c, id, ss[0])|
    ensures ReadsPrefix(c, id, ss, n, Parsed([], PeerClosed))
  {
    assert Frames(c, id, ss[..1]) == Frame(c, id, ss[0]) + [];
  }
}

/** The byte streams under a transfer: its senders and receivers step as their bytes come and go. */
module TcpStreams {
  import opened Bytes
  import opened Wrappers
  import opened TcpFraming
  import opened TcpFlow
  import opened TcpSystem

  function Lane(x: Transfer, f: nat): Flow { x.c.(flow := f) }

  /** The stripes that flow f's sender has written completely. */
  function Sent(x: Transfer, s: State, f: nat): seq<Stripe>
    requires Wellformed(x) && Shape(x, s) && f < x.flows
  {
    StripesOf(Lane(x, f), x.view, s.senders[f].tasks)
  }

  /** What it is writing now: the frame of the task it holds, or the terminator. */
  function Writing(x: Transfer, s: State, f: nat, id: seq<byte>): seq<byte>
    requires Wellformed(x) && Shape(x, s) && f < x.flows && |id| == 16
  {
    var u := s.senders[f];
    if u.held.Some? then Frame(Lane(x, f), id, StripeOf(Lane(x, f), x.view, u.held.value))
    else if u.finished then Terminator(Lane(x, f), id)
    else []
  }

  /** The bytes on the wire when `part` bytes of that are written; a complete frame makes its task a sent one. */
  function OnWire(x: Transfer, s: State, f: nat, id: seq<byte>, part: nat): seq<byte>
    requires Wellformed(x) && Shape(x, s) && f < x.flows && |id| == 16 && part <= |Writing(x, s, f, id)|
  {
    Frames(Lane(x, f), id, Sent(x, s, f)) + Writing(x, s, f, id)[..part]
  }

  predicate Partly(x: Transfer, s: State, f: nat, id: seq<byte>, part: nat)
    requires Wellformed(x) && Shape(x, s) && f < x.flows && |id| == 16
  {
    part <= |Writing(x, s, f, id)| && (s.senders[f].held.Some? ==> part < |Writing(x, s, f, id)|)
  }

  /** Every stripe the sender holds or sent fits the framing, and the wire is a prefix of a terminated stream. */
  lemma WireIsPrefix(x: Transfer, s: State, f: nat, id: seq<byte>, part: nat)
    requires Wellformed(x) && Shape(x, s) && f < x.flows && Fits(Lane(x, f), id) && Partly(x, s, f, id, part)
    ensures var c, ss, bytes := Lane(x, f), Sent(x, s, f), OnWire(x, s, f, id, part);
      s.senders[f].held == None ==> bytes <= Frames(c, id, ss) + Terminator(c, id)
    ensures var c, ss, bytes := Lane(x, f), Sent(x, s, f), OnWire(x, s, f, id, part);
      s.senders[f].held.Some? ==>
        bytes <= Frames(c, id, ss + [StripeOf(c, x.view, s.senders[f].held.value)]) + Terminator(c, id)
  {
    var c, ss, u := Lane(x, f), Sent(x, s, f), s.senders[f];
    hide Frame, Terminator, StripeOf;
    if u.held.Some? {
      var stripe := StripeOf(c, x.view, u.held.value);
      FramesAppend(c, id, ss, stripe);
      assert Frames(c, id, ss) + Frame(c, id, stripe)[..part] <= Frames(c, id, ss)
          + Frame(c, id, stripe) + Terminator(c, id);
    } else {
      assert Frames(c, id, ss) + Writing(x, s, f, id)[..part] <= Frames(c, id, ss) + Terminator(c, id);
    }
  }

  lemma {:induction false} FramesMonotone(c: Flow, id: seq<byte>, ss: seq<Stripe>, g: nat, h: nat)
    requires |id| == 16 && g <= h <= |ss|
    ensures |Frames(c, id, ss[..g])| <= |Frames(c, id, ss[..h])|
  {
    if g < h {
      FramesMonotone(c, id, ss, g, h - 1);
      assert ss[..h] == ss[..h - 1] + [ss[h - 1]];
      FramesAppend(c, id, ss[..h - 1], ss[h - 1]);
    }
  }

  /** Enough bytes for all frames of ss, but not for one more: exactly those of ss are complete. */
  lemma AllWhole(c: Flow, id: seq<byte>, ss: seq<Stripe>, more: seq<Stripe>, n: nat, g: nat)
    requires |id| == 16 && WholeFrames(c, id, ss + more, n, g) && |more| <= 1
    requires more != [] ==> n < |Frames(c, id, ss + more)|
    ensures g <= |ss| && (|Frames(c, id, ss)| <= n ==> g == |ss|)
  {
    var all := ss + more;
    assert all[..|all|] == all && all[..|ss|] == ss;
    if g < |ss| { FramesMonotone(c, id, all, g + 1, |ss|); }
  }

  /** What has arrived reads as the stripes whose frames are complete, whatever else is half written. */
  lemma ArrivedStripes(x: Transfer, s: State, f: nat, id: seq<byte>, part: nat, n: nat)
    requires Wellformed(x) && Shape(x, s) && f < x.flows && Fits(Lane(x, f), id) && Partly(x, s, f, id, part)
    requires n <= |OnWire(x, s, f, id, part)|
    ensures var p := Parse(Lane(x, f), None, OnWire(x, s, f, id, part)[..n]);
      && p.stripes <= Sent(x, s, f)
      && (n == |OnWire(x, s, f, id, part)| ==> p.stripes == Sent(x, s, f))
      && p.end == if s.senders[f].held == None && n == |Frames(Lane(x, f), id, Sent(x, s, f))| + HEADER_SIZE
                  then Terminated(id, []) else PeerClosed
  {
    var c, ss, u, bytes := Lane(x, f), Sent(x, s, f), s.senders[f], OnWire(x, s, f, id, part);
    WireIsPrefix(x, s, f, id, part);
    StripesAligned(c, x.view, u.tasks);
    var more := if u.held.Some? then [StripeOf(c, x.view, u.held.value)] else [];
    if u.held.Some? { FramesAppend(c, id, ss, more[0]); }
    hide Frame, Terminator, StripeOf, Parse, Aligned, WholeFrames;
    assert ss + [] == ss;
    var stream := Frames(c, id, ss + more) + Terminator(c, id);
    assert bytes[..n] == stream[..n];
    PrefixParse(c, id, None, ss + more, n);
    var p := Parse(c, None, bytes[..n]);
    AllWhole(c, id, ss, more, n, |p.stripes|);
  }

  // ---------------------------------------------------------------- the receiver

  lemma {:induction false} StripesAt(x: Transfer, f: nat, tasks: seq<nat>, j: nat)
    requires Wellformed(x) && j < |tasks|
    ensures |StripesOf(Lane(x, f), x.view, tasks)| == |tasks|
    ensures StripesOf(Lane(x, f), x.view, tasks)[j] == StripeOfTask(x, tasks[j])
    decreases tasks
  {
    var c := Lane(x, f);
    assert StripeOf(c, x.view, tasks[0]) == StripeOf(x.c, x.view, tasks[0]);
    if j > 0 {
      StripesAt(x, f, tasks[1..], j - 1);
    } else if |tasks| > 1 {
      StripesAt(x, f, tasks[1..], 0);
    }
  }

  lemma {:induction false} TasksArePayload(x: Transfer, f: nat, tasks: seq<nat>)
    requires Wellformed(x)
    ensures PayloadBytes(StripesOf(Lane(x, f), x.view, tasks)) == BytesOf(x, tasks)
    ensures |StripesOf(Lane(x, f), x.view, tasks)| == |tasks|
  {
    if tasks != [] {
      var c, front, last := Lane(x, f), tasks[..|tasks| - 1], tasks[|tasks| - 1];
      TasksArePayload(x, f, front);
      assert tasks == front + [last];
      StripesAppend(c, x.view, front, last);
      PayloadAppend(StripesOf(c, x.view, front), [StripeOf(c, x.view, last)]);
      assert StripeOf(c, x.view, last) == StripeOfTask(x, last);
    }
  }

  lemma {:induction false} PrefixOfStripes(x: Transfer, f: nat, tasks: seq<nat>, k: nat)
    requires Wellformed(x) && k <= |tasks|
    ensures |StripesOf(Lane(x, f), x.view, tasks)| == |tasks|
    ensures StripesOf(Lane(x, f), x.view, tasks[..k]) == StripesOf(Lane(x, f), x.view, tasks)[..k]
    decreases |tasks| - k
  {
    TasksArePayload(x, f, tasks);
    if k == |tasks| {
      assert tasks[..k] == tasks;
    } else {
      PrefixOfStripes(x, f, tasks, k + 1);
      assert tasks[..k + 1] == tasks[..k] + [tasks[k]];
      StripesAppend(Lane(x, f), x.view, tasks[..k], tasks[k]);
      TasksArePayload(x, f, tasks[..k]);
    }
  }

  /**
   In every reachable state, and however much of the sender's next frame or terminator is written: the receiver
   has counted the payload of the stripes it read, it can read another stripe exactly when the bytes on the
   wire parse to one more, that stripe is the one it gets, and it can end exactly when they parse to an end.
   */
  lemma ReceiverFollowsStream(x: Transfer, run: seq<State>, acts: seq<Action>, i: nat, f: nat, id: seq<byte>, part: nat)
    requires Wellformed(x) && Run(x, run, acts) && i < |run| && f < x.flows && Fits(Lane(x, f), id)
    requires Shape(x, run[i]) && Partly(x, run[i], f, id, part)
    requires run[i].senders[f].finished ==> part == HEADER_SIZE
    ensures var s, v := run[i], run[i].receivers[f];
      var p := Parse(Lane(x, f), None, OnWire(x, s, f, id, part));
      && v.got <= |p.stripes| && v.received == PayloadBytes(p.stripes[..v.got])
      && (Enabled(x, s, Receive(f)) <==> v.phase == Idle && v.got < |p.stripes|)
      && (Enabled(x, s, Receive(f)) ==> Reads(x, Apply(x, s, Receive(f)).receivers[f], v, p.stripes[v.got]))
      && (Enabled(x, s, ReceiveEnd(f)) <==> v.phase == Idle && v.got == |p.stripes| && p.end == Terminated(id, []))
  {
    hide Inv, Run, Parse, BytesOf, PayloadBytes, StripesOf, Frames, Frame, Terminator, StripeOfTask, Index;
    RunKeepsInv(x, run, acts, i);
    var s, u, v := run[i], run[i].senders[f], run[i].receivers[f];
    var bytes := OnWire(x, s, f, id, part);
    ReceiverCounts(x, s, f);
    ArrivedStripes(x, s, f, id, part, |bytes|);
    assert bytes[..|bytes|] == bytes;
    PrefixOfStripes(x, f, u.tasks, v.got);
    TasksArePayload(x, f, u.tasks[..v.got]);
    if v.got < |u.tasks| { StripesAt(x, f, u.tasks, v.got); }
  }

  lemma ReceiverCounts(x: Transfer, s: State, f: nat)
    requires Wellformed(x) && Inv(x, s) && f < x.flows
    ensures var u, v := s.senders[f], s.receivers[f];
      v.got <= |u.tasks| && v.received == BytesOf(x, u.tasks[..v.got]) && (u.finished ==> u.held == None)
  {
    assert ReceiverOk(x, s, f) && SenderOk(x, s, s.senders[f]);
  }

  /** The receiver took this stripe: it is counted, and placed unless this flow saw its index before. */
  predicate Reads(x: Transfer, after: Receiver, before: Receiver, stripe: Stripe)
    requires Wellformed(x)
  {
    var k := Index(x, stripe);
    && after.got == before.got + 1 && after.received == before.received + |stripe.payload|
    && after.seen == before.seen + {k}
    && after.phase == if k in before.seen then Idle else Claiming(stripe)
  }
}

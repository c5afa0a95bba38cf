/**
 All dynamic flows of one transfer.  Senders draw tasks from one shared counter; receivers claim stripes
 through one shared array of flags and copy byte by byte after the lock is released.  Each flow is an
 in-order stream (RFC 9293, section 2.2), read as the framing model reads it; every interleaving is allowed.
 */
module TcpSystem {
  import opened Arithmetic
  import opened Bytes
  import opened Wrappers
  import opened TcpFraming

  datatype Transfer = Transfer(c: Flow, view: seq<byte>, flows: nat, iterations: nat)

  predicate Wellformed(x: Transfer) { Sound(x.c) && |x.view| == x.c.total && 0 < x.flows && 0 < x.iterations }

  function TaskCount(x: Transfer): nat
    requires Wellformed(x)
  {
    StripeCount(x.c) * x.iterations
  }

  datatype Sender = Sender(held: Option<nat>, tasks: seq<nat>, sent: nat, finished: bool)

  datatype Phase = Idle | Claiming(stripe: Stripe) | Copying(stripe: Stripe, copied: nat) | Finished

  datatype Receiver = Receiver(got: nat, phase: Phase, seen: set<nat>, received: nat)

  datatype State = State(
    next: nat,                   // the shared task counter
    senders: seq<Sender>,
    receivers: seq<Receiver>,
    placed: seq<bool>,           // the shared flags
    owner: seq<nat>,             // the flow that set each flag
    destination: seq<byte>,
    writers: seq<seq<nat>>)      // the flows that wrote each destination byte, in order

  datatype Action =
    | Draw(f: nat)               // take the next task number under the lock
    | Send(f: nat)               // write the stripe of the held task to the stream
    | Receive(f: nat)            // read the next stripe into the staging buffer
    | ReceiveEnd(f: nat)         // read the terminator
    | Claim(f: nat)              // test and set the stripe's flag under the lock
    | Copy(f: nat)               // copy one byte of a claimed stripe, without a lock

  function StripeOfTask(x: Transfer, task: nat): (s: Stripe)
    requires Wellformed(x)
    ensures Aligned(x.c, s)
  {
    StripeOf(x.c, x.view, task)
  }

  function Index(x: Transfer, s: Stripe): nat
    requires Wellformed(x)
  {
    s.offset / x.c.stripeBytes
  }

  predicate Shape(x: Transfer, s: State)
    requires Wellformed(x)
  {
    && |s.senders| == |s.receivers| == x.flows
    && |s.placed| == |s.owner| == StripeCount(x.c)
    && |s.destination| == |s.writers| == x.c.total
  }

  predicate Enabled(x: Transfer, s: State, act: Action)
    requires Wellformed(x) && Shape(x, s)
  {
    act.f < x.flows &&
    var u, v := s.senders[act.f], s.receivers[act.f];
    match act
    case Draw(f) => !u.finished && u.held == None
    case Send(f) => u.held.Some?
    case Receive(f) => v.phase == Idle && v.got < |u.tasks|
    case ReceiveEnd(f) => v.phase == Idle && v.got == |u.tasks| && u.finished
    case Claim(f) => v.phase.Claiming? && Index(x, v.phase.stripe) < |s.placed|
    case Copy(f) => v.phase.Copying? && v.phase.copied < |v.phase.stripe.payload|
                    && v.phase.stripe.offset + v.phase.copied < |s.destination|
  }

  function Apply(x: Transfer, s: State, act: Action): State
    requires Wellformed(x) && Shape(x, s) && Enabled(x, s, act)
  {
    var f := act.f;
    var u, v := s.senders[f], s.receivers[f];
    match act
    case Draw(_) =>
      s.(next := s.next + 1,
         senders := s.senders[f := if s.next < TaskCount(x) then u.(held := Some(s.next)) else u.(finished := true)])
    case Send(_) =>
      s.(senders := s.senders[f := Sender(None, u.tasks + [u.held.value], u.sent + TaskBytes(x, u.held.value),
                                          u.finished)])
    case Receive(_) =>
      var stripe := StripeOfTask(x, u.tasks[v.got]);
      var k := Index(x, stripe);
      s.(receivers := s.receivers[f :=
        Receiver(v.got + 1, if k in v.seen then Idle else Claiming(stripe), v.seen + {k},
                 v.received + |stripe.payload|)])
    case ReceiveEnd(_) => s.(receivers := s.receivers[f := v.(phase := Finished)])
    case Claim(_) =>
      var stripe := v.phase.stripe;
      var k := Index(x, stripe);
      if s.placed[k] then s.(receivers := s.receivers[f := v.(phase := Idle)])
      else s.(receivers := s.receivers[f := v.(phase := Copying(stripe, 0))],
              placed := s.placed[k := true], owner := s.owner[k := f])
    case Copy(_) =>
      var stripe, i := v.phase.stripe, v.phase.copied;
      var b := stripe.offset + i;
      s.(receivers := s.receivers[f := v.(phase := if i + 1 == |stripe.payload| then Idle else Copying(stripe, i + 1))],
         destination := s.destination[b := stripe.payload[i]], writers := s.writers[b := s.writers[b] + [f]])
  }

  predicate Init(x: Transfer, s: State)
    requires Wellformed(x)
  {
    && Shape(x, s) && s.next == 0
    && (forall f | 0 <= f < x.flows ::
          s.senders[f] == Sender(None, [], 0, false) && s.receivers[f] == Receiver(0, Idle, {}, 0))
    && (forall k | 0 <= k < |s.placed| :: !s.placed[k])
    && (forall b | 0 <= b < |s.writers| :: s.writers[b] == [])
  }

  ghost predicate Run(x: Transfer, run: seq<State>, acts: seq<Action>)
    requires Wellformed(x)
  {
    && |run| == |acts| + 1 && Init(x, run[0])
    && forall i | 0 <= i < |acts| ::
      Shape(x, run[i]) && Enabled(x, run[i], acts[i]) && run[i + 1] == Apply(x, run[i], acts[i])
  }

  // ---------------------------------------------------------------- byte counts

  function TaskBytes(x: Transfer, task: nat): nat
    requires Wellformed(x)
  {
    |StripeOfTask(x, task).payload|
  }

  function BytesOf(x: Transfer, tasks: seq<nat>): nat
    requires Wellformed(x)
  {
    if tasks == [] then 0 else BytesOf(x, tasks[..|tasks| - 1]) + TaskBytes(x, tasks[|tasks| - 1])
  }

  /** The bytes of the first n tasks. */
  function BytesBelow(x: Transfer, n: nat): nat
    requires Wellformed(x)
  {
    if n == 0 then 0 else BytesBelow(x, n - 1) + TaskBytes(x, n - 1)
  }

  function Sum(xs: seq<nat>): nat {
    if xs == [] then 0 else Sum(xs[..|xs| - 1]) + xs[|xs| - 1]
  }

  lemma {:induction false} SumUpdate(xs: seq<nat>, i: nat, v: nat)
    requires i < |xs|
    ensures Sum(xs[i := v]) + xs[i] == Sum(xs) + v
  {
    var n := |xs| - 1;
    if i < n {
      SumUpdate(xs[..n], i, v);
      assert xs[i := v][..n] == xs[..n][i := v];
    } else {
      assert xs[i := v][..n] == xs[..n];
    }
  }

  /** What a sender has sent or is about to send. */
  function Credit(x: Transfer, u: Sender): nat
    requires Wellformed(x)
  {
    u.sent + if u.held.Some? then TaskBytes(x, u.held.value) else 0
  }

  function Credits(x: Transfer, us: seq<Sender>): seq<nat>
    requires Wellformed(x)
  {
    seq(|us|, f requires 0 <= f < |us| => Credit(x, us[f]))
  }

  // ---------------------------------------------------------------- the invariant

  predicate SenderOk(x: Transfer, s: State, u: Sender)
    requires Wellformed(x)
  {
    && (forall j | 0 <= j < |u.tasks| :: u.tasks[j] < TaskCount(x))
    && (u.held.Some? ==> u.held.value < TaskCount(x))
    && u.sent == BytesOf(x, u.tasks)
    && (u.finished ==> u.held == None && TaskCount(x) <= s.next)
  }

  predicate Genuine(x: Transfer, stripe: Stripe)
    requires Wellformed(x)
  {
    && Aligned(x.c, stripe) && Index(x, stripe) < StripeCount(x.c)
    && stripe.payload == x.view[stripe.offset..stripe.offset + |stripe.payload|]
  }

  predicate ReceiverOk(x: Transfer, s: State, f: nat)
    requires Wellformed(x) && Shape(x, s) && f < x.flows
  {
    var u, v := s.senders[f], s.receivers[f];
    && v.got <= |u.tasks| && v.received == BytesOf(x, u.tasks[..v.got])
    && (forall j | 0 <= j < v.got :: Index(x, StripeOfTask(x, u.tasks[j])) in v.seen)
    && (forall k | k in v.seen ::
          k < |s.placed| && (s.placed[k] || (v.phase.Claiming? && k == Index(x, v.phase.stripe))))
    && (v.phase == Finished ==> u.finished && v.got == |u.tasks|)
    && (v.phase.Claiming? || v.phase.Copying? ==> Genuine(x, v.phase.stripe))
    && (v.phase.Copying? ==>
      var k := Index(x, v.phase.stripe);
      v.phase.copied < |v.phase.stripe.payload| && s.placed[k] && s.owner[k] == f)
  }

  /** Byte b was written: its stripe is claimed, and the claiming flow is past it. */
  predicate Written(x: Transfer, s: State, b: nat)
    requires Wellformed(x) && Shape(x, s) && b < x.c.total
  {
    StripeIndex(x.c, b);
    var k := b / x.c.stripeBytes;
    && s.placed[k] && s.owner[k] < x.flows
    && var phase := s.receivers[s.owner[k]].phase;
       !(phase.Copying? && Index(x, phase.stripe) == k && phase.stripe.offset + phase.copied <= b)
  }

  predicate ByteOk(x: Transfer, s: State, b: nat)
    requires Wellformed(x) && Shape(x, s) && b < x.c.total
  {
    StripeIndex(x.c, b);
    && s.writers[b] == (if Written(x, s, b) then [s.owner[b / x.c.stripeBytes]] else [])
    && (Written(x, s, b) ==> s.destination[b] == x.view[b])
  }

  predicate Has(u: Sender, task: nat) { task in u.tasks || u.held == Some(task) }

  ghost predicate Covered(s: State, task: nat) { exists f :: 0 <= f < |s.senders| && Has(s.senders[f], task) }

  ghost predicate Inv(x: Transfer, s: State)
    requires Wellformed(x)
  {
    && Shape(x, s)
    && (forall f | 0 <= f < x.flows :: SenderOk(x, s, s.senders[f]))
    && (forall f | 0 <= f < x.flows :: ReceiverOk(x, s, f))
    && (forall k | 0 <= k < |s.placed| && s.placed[k] :: s.owner[k] < x.flows)
    && (forall b | 0 <= b < x.c.total :: ByteOk(x, s, b))
    && (forall t: nat | t < s.next && t < TaskCount(x) :: Covered(s, t))
    && Sum(Credits(x, s.senders)) == BytesBelow(x, Min(s.next, TaskCount(x)))
  }

  // ---------------------------------------------------------------- every step keeps it

  lemma {:induction false} SumZero(xs: seq<nat>)
    requires forall i | 0 <= i < |xs| :: xs[i] == 0
    ensures Sum(xs) == 0
  {
    if xs != [] { SumZero(xs[..|xs| - 1]); }
  }

  lemma InitInv(x: Transfer, s: State)
    requires Wellformed(x) && Init(x, s)
    ensures Inv(x, s)
  {
    SumZero(Credits(x, s.senders));
    forall b | 0 <= b < x.c.total ensures ByteOk(x, s, b) { StripeIndex(x.c, b); }
  }

  /** A step of sender f: the other senders keep their credit. */
  lemma CreditStep(x: Transfer, us: seq<Sender>, f: nat, u: Sender)
    requires Wellformed(x) && f < |us|
    ensures Sum(Credits(x, us[f := u])) + Credit(x, us[f]) == Sum(Credits(x, us)) + Credit(x, u)
  {
    SumUpdate(Credits(x, us), f, Credit(x, u));
    assert Credits(x, us[f := u]) == Credits(x, us)[f := Credit(x, u)];
  }

  lemma CoveredStep(s: State, us: seq<Sender>, f: nat, t: nat)
    requires Covered(s, t) && f < |s.senders| == |us| && (forall g | 0 <= g < |us| && g != f :: us[g] == s.senders[g])
    requires Has(s.senders[f], t) ==> Has(us[f], t)
    ensures forall s': State :: s'.senders == us ==> Covered(s', t)
  {
    var g :| 0 <= g < |s.senders| && Has(s.senders[g], t);
    forall s': State | s'.senders == us ensures Covered(s', t) {
      assert Has(s'.senders[g], t);
    }
  }

  /** Sender steps touch neither the flags nor the destination. */
  lemma SenderStepKeepsBytes(x: Transfer, s: State, s': State)
    requires Wellformed(x) && Inv(x, s) && Shape(x, s')
    requires s'.receivers == s.receivers && s'.placed == s.placed && s'.owner == s.owner
    requires s'.destination == s.destination && s'.writers == s.writers
    ensures forall b | 0 <= b < x.c.total :: ByteOk(x, s', b)
    ensures forall k | 0 <= k < |s'.placed| && s'.placed[k] :: s'.owner[k] < x.flows
  {
    forall b | 0 <= b < x.c.total ensures ByteOk(x, s', b) { assert ByteOk(x, s, b); }
  }

  /** Sender steps only append to a sender's tasks and only set its finished flag. */
  lemma SenderStepKeepsReceiver(x: Transfer, s: State, s': State, g: nat)
    requires Wellformed(x) && Shape(x, s) && Shape(x, s') && g < x.flows && ReceiverOk(x, s, g)
    requires s'.receivers == s.receivers && s'.placed == s.placed && s'.owner == s.owner
    requires s.senders[g].tasks <= s'.senders[g].tasks && (s.senders[g].finished ==> s'.senders[g] == s.senders[g])
    ensures ReceiverOk(x, s', g)
  {
    var got := s.receivers[g].got;
    assert s'.senders[g].tasks[..got] == s.senders[g].tasks[..got];
  }

  lemma Holder(s: State, t: nat) returns (f: nat)
    requires Covered(s, t)
    ensures f < |s.senders| && Has(s.senders[f], t)
  {
    f :| 0 <= f < |s.senders| && Has(s.senders[f], t);
  }

  /** Every number below the counter is in some sender's hands. */
  lemma DrawKeepsCovered(x: Transfer, s: State, f: nat, t: nat)
    requires Wellformed(x) && Inv(x, s) && Enabled(x, s, Draw(f)) && t <= s.next && t < TaskCount(x)
    ensures Covered(Apply(x, s, Draw(f)), t)
  {
    hide ReceiverOk, ByteOk, SenderOk, Credits, Sum;
    var s' := Apply(x, s, Draw(f));
    if t == s.next {
      assert Has(s'.senders[f], t);
    } else {
      var g := Holder(s, t);
      assert Has(s'.senders[g], t);
    }
  }

  lemma DrawKeepsSenders(x: Transfer, s: State, f: nat)
    requires Wellformed(x) && Inv(x, s) && Enabled(x, s, Draw(f))
    ensures var s' := Apply(x, s, Draw(f));
      && (forall g | 0 <= g < x.flows :: SenderOk(x, s', s'.senders[g]))
      && Sum(Credits(x, s'.senders)) == BytesBelow(x, Min(s'.next, TaskCount(x)))
  {
    hide ReceiverOk, ByteOk, Covered;
    var s' := Apply(x, s, Draw(f));
    CreditStep(x, s.senders, f, s'.senders[f]);
    hide Credits, Sum;
    forall g | 0 <= g < x.flows ensures SenderOk(x, s', s'.senders[g]) { assert SenderOk(x, s, s.senders[g]); }
  }

  lemma DrawKeepsInv(x: Transfer, s: State, f: nat)
    requires Wellformed(x) && Inv(x, s) && Enabled(x, s, Draw(f))
    ensures Inv(x, Apply(x, s, Draw(f)))
  {
    var s' := Apply(x, s, Draw(f));
    DrawKeepsSenders(x, s, f);
    SenderStepKeepsBytes(x, s, s');
    forall t: nat | t < s'.next && t < TaskCount(x) ensures Covered(s', t) { DrawKeepsCovered(x, s, f, t); }
    hide ReceiverOk, ByteOk, SenderOk, Covered, Credits;
    forall g | 0 <= g < x.flows ensures ReceiverOk(x, s', g) { SenderStepKeepsReceiver(x, s, s', g); }
  }

  lemma SendKeepsInv(x: Transfer, s: State, f: nat)
    requires Wellformed(x) && Inv(x, s) && Enabled(x, s, Send(f))
    ensures Inv(x, Apply(x, s, Send(f)))
  {
    var s' := Apply(x, s, Send(f));
    var tasks := s.senders[f].tasks;
    assert SenderOk(x, s, s.senders[f]);
    assert s'.senders[f].tasks[..|tasks|] == tasks;
    SenderStepKeepsBytes(x, s, s');
    CreditStep(x, s.senders, f, s'.senders[f]);
    hide ReceiverOk, ByteOk;
    forall t: nat | t < s'.next && t < TaskCount(x) ensures Covered(s', t) { CoveredStep(s, s'.senders, f, t); }
    forall g | 0 <= g < x.flows ensures SenderOk(x, s', s'.senders[g]) { assert SenderOk(x, s, s.senders[g]); }
    forall g | 0 <= g < x.flows ensures ReceiverOk(x, s', g) { SenderStepKeepsReceiver(x, s, s', g); }
  }

  /** Receiver steps leave the senders alone. */
  lemma ReceiverStepKeepsSenders(x: Transfer, s: State, s': State)
    requires Wellformed(x) && Inv(x, s) && s'.senders == s.senders && s'.next == s.next
    ensures forall f | 0 <= f < x.flows :: SenderOk(x, s', s'.senders[f])
    ensures forall t: nat | t < s'.next && t < TaskCount(x) :: Covered(s', t)
    ensures Sum(Credits(x, s'.senders)) == BytesBelow(x, Min(s'.next, TaskCount(x)))
  {
    forall f | 0 <= f < x.flows ensures SenderOk(x, s', s'.senders[f]) { assert SenderOk(x, s, s.senders[f]); }
    forall t: nat | t < s'.next && t < TaskCount(x) ensures Covered(s', t) {
      assert Covered(s, t);
      var f :| 0 <= f < |s.senders| && Has(s.senders[f], t);
      assert Has(s'.senders[f], t);
    }
  }

  /** A receiver step of one flow, seen from another: flags are only added. */
  lemma OtherReceiver(x: Transfer, s: State, s': State, g: nat)
    requires Wellformed(x) && Shape(x, s) && Shape(x, s') && g < x.flows && ReceiverOk(x, s, g)
    requires s'.senders[g] == s.senders[g] && s'.receivers[g] == s.receivers[g]
    requires forall k | 0 <= k < |s.placed| && s.placed[k] :: s'.placed[k] && s'.owner[k] == s.owner[k]
    ensures ReceiverOk(x, s', g)
  {
  }

  /** A flow that is not copying before or after its step does not change what is written. */
  lemma QuietStepKeepsBytes(x: Transfer, s: State, s': State, f: nat)
    requires Wellformed(x) && Inv(x, s) && Shape(x, s') && f < x.flows
    requires s'.placed == s.placed && s'.owner == s.owner && s'.destination == s.destination && s'.writers == s.writers
    requires s'.receivers == s.receivers[f := s'.receivers[f]]
    requires !s.receivers[f].phase.Copying? && !s'.receivers[f].phase.Copying?
    ensures forall b | 0 <= b < x.c.total :: ByteOk(x, s', b)
    ensures forall k | 0 <= k < |s'.placed| && s'.placed[k] :: s'.owner[k] < x.flows
  {
    forall b | 0 <= b < x.c.total ensures ByteOk(x, s', b) {
      StripeIndex(x.c, b);
      assert ByteOk(x, s, b);
      assert Written(x, s', b) == Written(x, s, b);
    }
  }

  lemma StripeIsGenuine(x: Transfer, task: nat)
    requires Wellformed(x)
    ensures Genuine(x, StripeOfTask(x, task)) && 0 < |StripeOfTask(x, task).payload|
    ensures Index(x, StripeOfTask(x, task)) == task % StripeCount(x.c)
  {
    OffsetInRange(x.c, task);
    StripeIndex(x.c, StripeOfTask(x, task).offset);
  }

  lemma ReceiveKeepsReceiver(x: Transfer, s: State, f: nat)
    requires Wellformed(x) && Shape(x, s) && Enabled(x, s, Receive(f)) && ReceiverOk(x, s, f)
    ensures ReceiverOk(x, Apply(x, s, Receive(f)), f)
  {
    var u, v := s.senders[f], s.receivers[f];
    StripeIsGenuine(x, u.tasks[v.got]);
    assert u.tasks[..v.got + 1][..v.got] == u.tasks[..v.got];
  }

  lemma ReceiveKeepsInv(x: Transfer, s: State, f: nat)
    requires Wellformed(x) && Inv(x, s) && Enabled(x, s, Receive(f))
    ensures Inv(x, Apply(x, s, Receive(f)))
  {
    var s' := Apply(x, s, Receive(f));
    ReceiverStepKeepsSenders(x, s, s');
    ReceiveKeepsReceiver(x, s, f);
    QuietStepKeepsBytes(x, s, s', f);
    hide ReceiverOk, ByteOk, SenderOk, Covered, Credits;
    forall g | 0 <= g < x.flows ensures ReceiverOk(x, s', g) { if g != f { OtherReceiver(x, s, s', g); } }
  }

  lemma EndKeepsInv(x: Transfer, s: State, f: nat)
    requires Wellformed(x) && Inv(x, s) && Enabled(x, s, ReceiveEnd(f))
    ensures Inv(x, Apply(x, s, ReceiveEnd(f)))
  {
    var s' := Apply(x, s, ReceiveEnd(f));
    ReceiverStepKeepsSenders(x, s, s');
    QuietStepKeepsBytes(x, s, s', f);
    assert ReceiverOk(x, s', f) by { assert ReceiverOk(x, s, f); }
    hide ReceiverOk, ByteOk, SenderOk, Covered, Credits;
    forall g | 0 <= g < x.flows ensures ReceiverOk(x, s', g) { if g != f { OtherReceiver(x, s, s', g); } }
  }

  lemma ClaimKeepsReceiver(x: Transfer, s: State, f: nat)
    requires Wellformed(x) && Shape(x, s) && Enabled(x, s, Claim(f)) && ReceiverOk(x, s, f)
    ensures ReceiverOk(x, Apply(x, s, Claim(f)), f)
  {
  }

  /** Claiming a stripe: none of its bytes is written before or after, and other stripes are as they were. */
  lemma ClaimKeepsByte(x: Transfer, s: State, f: nat, b: nat)
    requires Wellformed(x) && Shape(x, s) && Enabled(x, s, Claim(f)) && b < x.c.total
    requires ByteOk(x, s, b) && Genuine(x, s.receivers[f].phase.stripe)
    requires !s.placed[Index(x, s.receivers[f].phase.stripe)]
    ensures ByteOk(x, Apply(x, s, Claim(f)), b)
  {
    hide StripeCount, Aligned, Genuine;
    var s' := Apply(x, s, Claim(f));
    StripeIndex(x.c, b);
    var stripe := s.receivers[f].phase.stripe;
    var k := Index(x, stripe);
    assert s'.receivers[f].phase == Copying(stripe, 0);
    if b / x.c.stripeBytes == k {
      ClaimedOffset(x, stripe, b);
      assert !Written(x, s', b);
    } else {
      assert Written(x, s', b) == Written(x, s, b);
    }
  }

  lemma ClaimedOffset(x: Transfer, stripe: Stripe, b: nat)
    requires Wellformed(x) && Genuine(x, stripe) && b / x.c.stripeBytes == Index(x, stripe)
    ensures stripe.offset <= b
  {
    AtLeastOffset(x, stripe.offset, b);
  }

  lemma AtLeastOffset(x: Transfer, offset: nat, b: nat)
    requires Wellformed(x) && offset % x.c.stripeBytes == 0 && b / x.c.stripeBytes == offset / x.c.stripeBytes
    ensures offset <= b < offset + x.c.stripeBytes
  {
    DivMod(b, x.c.stripeBytes);
    DivMod(offset, x.c.stripeBytes);
  }

  lemma ClaimKeepsInv(x: Transfer, s: State, f: nat)
    requires Wellformed(x) && Inv(x, s) && Enabled(x, s, Claim(f))
    ensures Inv(x, Apply(x, s, Claim(f)))
  {
    var s' := Apply(x, s, Claim(f));
    ReceiverStepKeepsSenders(x, s, s');
    ClaimKeepsReceiver(x, s, f);
    var k := Index(x, s.receivers[f].phase.stripe);
    if s.placed[k] {
      QuietStepKeepsBytes(x, s, s', f);
    } else {
      assert ReceiverOk(x, s, f);
      forall b | 0 <= b < x.c.total ensures ByteOk(x, s', b) { ClaimKeepsByte(x, s, f, b); }
    }
    hide ReceiverOk, ByteOk, SenderOk, Covered, Credits;
    forall g | 0 <= g < x.flows ensures ReceiverOk(x, s', g) { if g != f { OtherReceiver(x, s, s', g); } }
  }

  lemma CopyKeepsByte(x: Transfer, s: State, f: nat, b: nat)
    requires Wellformed(x) && Shape(x, s) && Enabled(x, s, Copy(f)) && b < x.c.total
    requires ByteOk(x, s, b) && ReceiverOk(x, s, f)
    ensures ByteOk(x, Apply(x, s, Copy(f)), b)
  {
    hide StripeCount, StripeOfTask, TaskBytes, BytesOf, TaskCount;
    var s' := Apply(x, s, Copy(f));
    StripeIndex(x.c, b);
    var stripe, i := s.receivers[f].phase.stripe, s.receivers[f].phase.copied;
    var k := Index(x, stripe);
    if b / x.c.stripeBytes == k {
      AtLeastOffset(x, stripe.offset, b);
      assert b < stripe.offset + |stripe.payload|;
      assert Written(x, s, b) <==> b < stripe.offset + i;
      assert Written(x, s', b) <==> b <= stripe.offset + i;
    } else {
      assert b != stripe.offset + i by { InStripe(x, stripe, i); }
      assert Written(x, s', b) == Written(x, s, b);
    }
  }

  lemma InStripe(x: Transfer, stripe: Stripe, i: nat)
    requires Wellformed(x) && Aligned(x.c, stripe) && i < |stripe.payload|
    ensures (stripe.offset + i) / x.c.stripeBytes == Index(x, stripe)
  {
    DivMod(stripe.offset, x.c.stripeBytes);
    DivModUnique(x.c.stripeBytes, Index(x, stripe), i);
  }

  lemma CopyKeepsInv(x: Transfer, s: State, f: nat)
    requires Wellformed(x) && Inv(x, s) && Enabled(x, s, Copy(f))
    ensures Inv(x, Apply(x, s, Copy(f)))
  {
    var s' := Apply(x, s, Copy(f));
    ReceiverStepKeepsSenders(x, s, s');
    assert ReceiverOk(x, s, f);
    assert ReceiverOk(x, s', f);
    hide ReceiverOk, ByteOk, SenderOk, Covered, Credits;
    forall b | 0 <= b < x.c.total ensures ByteOk(x, s', b) { CopyKeepsByte(x, s, f, b); }
    forall g | 0 <= g < x.flows ensures ReceiverOk(x, s', g) { if g != f { OtherReceiver(x, s, s', g); } }
  }

  lemma StepKeepsInv(x: Transfer, s: State, act: Action)
    requires Wellformed(x) && Inv(x, s) && Enabled(x, s, act)
    ensures Inv(x, Apply(x, s, act))
  {
    hide Inv, Apply, Enabled;
    match act
    case Draw(f) => DrawKeepsInv(x, s, f);
    case Send(f) => SendKeepsInv(x, s, f);
    case Receive(f) => ReceiveKeepsInv(x, s, f);
    case ReceiveEnd(f) => EndKeepsInv(x, s, f);
    case Claim(f) => ClaimKeepsInv(x, s, f);
    case Copy(f) => CopyKeepsInv(x, s, f);
  }

  lemma {:induction false} RunKeepsInv(x: Transfer, run: seq<State>, acts: seq<Action>, i: nat)
    requires Wellformed(x) && Run(x, run, acts) && i < |run|
    ensures Inv(x, run[i])
  {
    if i == 0 {
      InitInv(x, run[0]);
    } else {
      RunKeepsInv(x, run, acts, i - 1);
      StepKeepsInv(x, run[i - 1], acts[i - 1]);
    }
  }

  // ---------------------------------------------------------------- what holds in every run

  /** In every reachable state a byte was written at most once, by its stripe's owner, and with the source's byte. */
  lemma BytesAreWrittenOnce(x: Transfer, run: seq<State>, acts: seq<Action>, i: nat, b: nat)
    requires Wellformed(x) && Run(x, run, acts) && i < |run| && b < x.c.total
    ensures Shape(x, run[i]) && b / x.c.stripeBytes < StripeCount(x.c)
    ensures var s, k := run[i], b / x.c.stripeBytes;
      && (s.writers[b] == [] || (s.placed[k] && s.writers[b] == [s.owner[k]]))
      && (s.writers[b] != [] ==> s.destination[b] == x.view[b])
  {
    RunKeepsInv(x, run, acts, i);
    StripeIndex(x.c, b);
    assert ByteOk(x, run[i], b);
  }

  ghost predicate AllFinished(s: State) { forall f | 0 <= f < |s.receivers| :: s.receivers[f].phase == Finished }

  function SentBytes(us: seq<Sender>): nat {
    if us == [] then 0 else SentBytes(us[..|us| - 1]) + us[|us| - 1].sent
  }

  function ReceivedBytes(vs: seq<Receiver>): nat {
    if vs == [] then 0 else ReceivedBytes(vs[..|vs| - 1]) + vs[|vs| - 1].received
  }

  /**
   Once every flow read its terminator: no flag is missing, the destination is the source, each byte was
   written exactly once and by the flow that set its flag, and both byte counts are the transfer's.
   So neither side's completeness check can fail.
   */
  lemma FinishedTransferIsComplete(x: Transfer, run: seq<State>, acts: seq<Action>, i: nat)
    requires Wellformed(x) && Run(x, run, acts) && i < |run| && AllFinished(run[i])
    ensures Shape(x, run[i]) && forall k | 0 <= k < StripeCount(x.c) :: run[i].placed[k]
    ensures run[i].destination == x.view
    ensures forall b | 0 <= b < x.c.total ::
      b / x.c.stripeBytes < StripeCount(x.c) && run[i].writers[b] == [run[i].owner[b / x.c.stripeBytes]]
    ensures SentBytes(run[i].senders) == ReceivedBytes(run[i].receivers) == x.c.total * x.iterations
  {
    RunKeepsInv(x, run, acts, i);
    FinishedDestination(x, run[i]);
    FinishedCounts(x, run[i]);
  }

  lemma FinishedDestination(x: Transfer, s: State)
    requires Wellformed(x) && Inv(x, s) && AllFinished(s)
    ensures (forall k | 0 <= k < StripeCount(x.c) :: s.placed[k]) && s.destination == x.view
    ensures forall b | 0 <= b < x.c.total ::
      b / x.c.stripeBytes < StripeCount(x.c) && s.writers[b] == [s.owner[b / x.c.stripeBytes]]
  {
    EveryStripePlaced(x, s);
    hide ReceiverOk, SenderOk, ByteOk, Covered, Credits, StripeCount;
    forall b | 0 <= b < x.c.total
      ensures b / x.c.stripeBytes < StripeCount(x.c)
      ensures s.writers[b] == [s.owner[b / x.c.stripeBytes]] && s.destination[b] == x.view[b]
    {
      FinishedByte(x, s, b);
    }
  }

  lemma FinishedByte(x: Transfer, s: State, b: nat)
    requires Wellformed(x) && Shape(x, s) && AllFinished(s) && b < x.c.total && ByteOk(x, s, b)
    requires forall k | 0 <= k < StripeCount(x.c) :: s.placed[k] && s.owner[k] < x.flows
    ensures b / x.c.stripeBytes < StripeCount(x.c)
    ensures s.writers[b] == [s.owner[b / x.c.stripeBytes]] && s.destination[b] == x.view[b]
  {
    StripeIndex(x.c, b);
    hide StripeCount, Index;
    assert Written(x, s, b);
  }

  lemma SendersFinished(x: Transfer, s: State)
    requires Wellformed(x) && Inv(x, s) && AllFinished(s)
    ensures TaskCount(x) <= s.next
    ensures forall f | 0 <= f < x.flows :: s.senders[f].held == None && s.receivers[f].got == |s.senders[f].tasks|
  {
    forall f | 0 <= f < x.flows
      ensures s.senders[f].held == None && s.receivers[f].got == |s.senders[f].tasks| && TaskCount(x) <= s.next
    {
      assert ReceiverOk(x, s, f) && SenderOk(x, s, s.senders[f]);
    }
    assert ReceiverOk(x, s, 0) && SenderOk(x, s, s.senders[0]);
  }

  lemma EveryStripePlaced(x: Transfer, s: State)
    requires Wellformed(x) && Inv(x, s) && AllFinished(s)
    ensures forall k | 0 <= k < StripeCount(x.c) :: s.placed[k]
  {
    SendersFinished(x, s);
    MulMonotone(StripeCount(x.c), 1, x.iterations);
    hide ReceiverOk, SenderOk, ByteOk, Covered, Credits, StripeCount;
    forall k: nat | k < StripeCount(x.c) ensures s.placed[k] {
      var f := Holder(s, k);
      SeenIsPlaced(x, s, f, k);
    }
  }

  /** A finished receiver saw every task its sender drew. */
  lemma SeenIsPlaced(x: Transfer, s: State, f: nat, k: nat)
    requires Wellformed(x) && Shape(x, s) && f < x.flows && ReceiverOk(x, s, f)
    requires s.receivers[f].phase == Finished && s.senders[f].held == None && s.receivers[f].got == |s.senders[f].tasks|
    requires Has(s.senders[f], k) && k < StripeCount(x.c)
    ensures s.placed[k]
  {
    var j :| 0 <= j < |s.senders[f].tasks| && s.senders[f].tasks[j] == k;
    assert Index(x, StripeOfTask(x, k)) == k by {
      StripeIsGenuine(x, k);
      DivModUnique(StripeCount(x.c), 0, k);
    }
    hide Index, StripeCount, StripeOfTask;
    assert Index(x, StripeOfTask(x, s.senders[f].tasks[j])) in s.receivers[f].seen;
  }

  lemma FinishedCounts(x: Transfer, s: State)
    requires Wellformed(x) && Inv(x, s) && AllFinished(s)
    ensures SentBytes(s.senders) == ReceivedBytes(s.receivers) == x.c.total * x.iterations
  {
    SendersFinished(x, s);
    forall f | 0 <= f < x.flows ensures s.senders[f].sent == s.receivers[f].received {
      assert ReceiverOk(x, s, f) && SenderOk(x, s, s.senders[f]);
      assert s.senders[f].tasks[..s.receivers[f].got] == s.senders[f].tasks;
    }
    hide ReceiverOk, SenderOk, ByteOk;
    SentIsCredit(x, s.senders);
    SameCounts(s.senders, s.receivers);
    RoundBytes(x, x.iterations, 0);
  }

  lemma {:induction false} SentIsCredit(x: Transfer, us: seq<Sender>)
    requires Wellformed(x) && forall f | 0 <= f < |us| :: us[f].held == None
    ensures Sum(Credits(x, us)) == SentBytes(us)
  {
    if us != [] {
      var front := us[..|us| - 1];
      SentIsCredit(x, front);
      assert Credits(x, us)[..|us| - 1] == Credits(x, front);
    }
  }

  lemma {:induction false} SameCounts(us: seq<Sender>, vs: seq<Receiver>)
    requires |us| == |vs| && forall f | 0 <= f < |us| :: us[f].sent == vs[f].received
    ensures SentBytes(us) == ReceivedBytes(vs)
  {
    if us != [] { SameCounts(us[..|us| - 1], vs[..|vs| - 1]); }
  }

  /** The first q rounds and r stripes of the next one. */
  lemma {:induction false} RoundBytes(x: Transfer, q: nat, r: nat)
    requires Wellformed(x) && r <= StripeCount(x.c)
    ensures BytesBelow(x, StripeCount(x.c) * q + r) == x.c.total * q + Min(r * x.c.stripeBytes, x.c.total)
    decreases q, r
  {
    hide TaskBytes, StripeCount, BytesBelow;
    BytesBelowStep(x, StripeCount(x.c) * q + r);
    if r > 0 {
      RoundBytes(x, q, r - 1);
      LastTask(x, q, r);
    } else if q > 0 {
      RoundBytes(x, q - 1, StripeCount(x.c));
      StripesCover(x.c);
      NextRound(StripeCount(x.c), q);
      NextRound(x.c.total, q);
    }
  }

  lemma BytesBelowStep(x: Transfer, n: nat)
    requires Wellformed(x)
    ensures BytesBelow(x, n) == if n == 0 then 0 else BytesBelow(x, n - 1) + TaskBytes(x, n - 1)
  {
  }

  lemma StripesCover(c: Flow)
    requires Sound(c)
    ensures c.total <= StripeCount(c) * c.stripeBytes
  {
    CeilCovers(c.total, c.stripeBytes);
  }

  lemma NextRound(n: nat, q: nat)
    requires 0 < q
    ensures n * q == n * (q - 1) + n
  {
  }

  lemma LastTask(x: Transfer, q: nat, r: nat)
    requires Wellformed(x) && 0 < r <= StripeCount(x.c)
    ensures TaskBytes(x, StripeCount(x.c) * q + (r - 1))
         == Min(r * x.c.stripeBytes, x.c.total) - Min((r - 1) * x.c.stripeBytes, x.c.total)
  {
    var n, S := StripeCount(x.c), x.c.stripeBytes;
    DivModUnique(n, q, r - 1);
    OffsetInRange(x.c, n * q + (r - 1));
    assert Offset(x.c, n * q + (r - 1)) == (r - 1) * S;
    NextRound(S, r);
    hide StripeCount;
  }

  /** A flow whose receiver did not finish can always take a step: no flow waits for another one. */
  lemma FlowsNeverWait(x: Transfer, run: seq<State>, acts: seq<Action>, i: nat, f: nat)
    requires Wellformed(x) && Run(x, run, acts) && i < |run| && f < x.flows
    ensures Shape(x, run[i])
    ensures run[i].receivers[f].phase != Finished ==>
      exists act: Action :: act.f == f && Enabled(x, run[i], act)
  {
    RunKeepsInv(x, run, acts, i);
    var s := run[i];
    var u, v := s.senders[f], s.receivers[f];
    assert ReceiverOk(x, s, f) && SenderOk(x, s, u);
    if v.phase != Finished {
      var act :=
        if v.phase.Claiming? then Claim(f)
        else if v.phase.Copying? then Copy(f)
        else if v.got < |u.tasks| then Receive(f)
        else if u.held.Some? then Send(f)
        else if u.finished then ReceiveEnd(f) else Draw(f);
      assert Enabled(x, s, act);
    }
  }
}

/** Every sequence of calls ends: its useful steps are bounded, and without faults it can always be completed. */
module CollectivesProgress {
  import opened Arithmetic
  import opened Ring
  import opened RingProof
  import opened RingTheorems
  import opened Collectives
  import opened CollectivesProof
  import opened CollectivesTheorems

  // ---------------------------------------------------------------- the work left

  /** Calls that the first k hosts have not started. */
  function CallsLeft<E>(g: Group<E>, hosts: seq<Host<E>>, k: nat): int
    requires k <= |hosts|
  {
    if k == 0 then 0 else CallsLeft(g, hosts, k - 1) + g.calls - hosts[k - 1].started
  }

  /** Upper bound on the useful micro-steps left to the first k channels. */
  function ChannelsWork<E>(g: Group<E>, b: nat, channels: seq<State<E>>, k: nat): int
    requires k <= |g.rings| && k <= |channels|
    requires forall ch | 0 <= ch < k :: Wellformed(g.rings[ch]) && |channels[ch]| == g.rings[ch].n
  {
    if k == 0 then 0
    else ChannelsWork(g, b, channels, k - 1) + Work(g.rings[k - 1], b, channels[k - 1], g.rings[k - 1].n)
  }

  function GroupWork<E>(g: Group<E>, b: nat, s: System<E>): int
    requires |s.channels| == |g.rings|
    requires forall ch | 0 <= ch < |g.rings| :: Wellformed(g.rings[ch]) && |s.channels[ch]| == g.rings[ch].n
  {
    CallsLeft(g, s.hosts, |s.hosts|) + ChannelsWork(g, b, s.channels, |g.rings|)
  }

  ghost predicate AllBounded<E>(g: Group<E>, b: nat) { forall ch | 0 <= ch < |g.rings| :: Bounded(g.rings[ch], b) }

  /** A card copies an element once more. */
  ghost predicate Repeats<E>(g: Group<E>, s: System<E>, act: Act)
    requires Sound(g) && Shaped(g, s) && CanStep(g, s, act)
  {
    act.Micro? && Retransmission(g.rings[act.ch], s.channels[act.ch], act.act)
  }

  lemma {:induction false} CallsLeftUpdate<E>(g: Group<E>, hosts: seq<Host<E>>, hosts': seq<Host<E>>,
                                              k: nat, r: nat, drop: int)
    requires |hosts| == |hosts'| && k <= |hosts| && r < |hosts|
    requires forall q | 0 <= q < |hosts| :: hosts'[q].started == hosts[q].started + if q == r then drop else 0
    ensures CallsLeft(g, hosts', k) == CallsLeft(g, hosts, k) - if r < k then drop else 0
  {
    if k > 0 { CallsLeftUpdate(g, hosts, hosts', k - 1, r, drop); }
  }

  lemma {:induction false} ChannelsWorkUpdate<E>(g: Group<E>, b: nat, cs: seq<State<E>>, cs': seq<State<E>>, k: nat,
                                                 ch: nat, drop: int)
    requires k <= |g.rings| == |cs| == |cs'| && ch < |g.rings|
    requires forall c | 0 <= c < |g.rings| ::
      Wellformed(g.rings[c]) && |cs[c]| == |cs'[c]| == g.rings[c].n && (c != ch ==> cs'[c] == cs[c])
    requires Work(g.rings[ch], b, cs'[ch], g.rings[ch].n) <= Work(g.rings[ch], b, cs[ch], g.rings[ch].n) - drop
    ensures ChannelsWork(g, b, cs', k) <= ChannelsWork(g, b, cs, k) - if ch < k then drop else 0
  {
    if k > 0 { ChannelsWorkUpdate(g, b, cs, cs', k - 1, ch, drop); }
  }

  /** Every act that is no repeated copy lowers the work that is left. */
  lemma ActLowersWork<E>(g: Group<E>, b: nat, s: System<E>, act: Act, s': System<E>)
    requires Consistent(g, s) && AllBounded(g, b) && Step(g, s, act, s')
    ensures GroupWork(g, b, s') <= GroupWork(g, b, s) - if Repeats(g, s, act) then 0 else 1
  {
    hide Work, Enabled, Apply, Moves, CopiedIn, Inv, Agrees;
    match act
    case Start(r) =>
      CallsLeftUpdate(g, s.hosts, s'.hosts, g.n, r, 1);
    case Micro(ch, micro) =>
      var ring := g.rings[ch];
      assert Inv(ring, s.channels[ch]) && Bounded(ring, b);
      RingTheorems.StepLowersWork(ring, b, s.channels[ch], micro);
      forall q | 0 <= q < g.n ensures s'.hosts[q].started == s.hosts[q].started { OthersKeep(g, s, act, s', 0, q); }
      CallsLeftUpdate(g, s.hosts, s'.hosts, g.n, 0, 0);
      ChannelsWorkUpdate(g, b, s.channels, s'.channels, |g.rings|, ch, if Repeats(g, s, act) then 0 else 1);
  }

  lemma {:induction false} CallsLeftNonNegative<E>(g: Group<E>, s: System<E>, k: nat)
    requires Consistent(g, s) && k <= g.n
    ensures 0 <= CallsLeft(g, s.hosts, k)
  {
    if k > 0 {
      CallsLeftNonNegative(g, s, k - 1);
      assert Gate(g, s, 0, k - 1);
    }
  }

  lemma {:induction false} ChannelsWorkNonNegative<E>(g: Group<E>, b: nat, s: System<E>, k: nat)
    requires Consistent(g, s) && AllBounded(g, b) && k <= |g.rings|
    ensures 0 <= ChannelsWork(g, b, s.channels, k)
  {
    if k > 0 {
      ChannelsWorkNonNegative(g, b, s, k - 1);
      assert Inv(g.rings[k - 1], s.channels[k - 1]);
      WorkNonNegative(g.rings[k - 1], b, s.channels[k - 1], g.n);
    }
  }

  lemma GroupWorkNonNegative<E>(g: Group<E>, b: nat, s: System<E>)
    requires Consistent(g, s) && AllBounded(g, b)
    ensures 0 <= GroupWork(g, b, s)
  {
    CallsLeftNonNegative(g, s, g.n);
    ChannelsWorkNonNegative(g, b, s, |g.rings|);
  }

  // ---------------------------------------------------------------- every sequence of calls is finite

  /** Acts among the first j of a run that are no repeated copies. */
  ghost function Effective<E>(g: Group<E>, states: seq<System<E>>, acts: seq<Act>, j: nat): nat
    requires Calls(g, states, acts) && j <= |acts|
  {
    if j == 0 then 0
    else
      assert Step(g, states[j - 1], acts[j - 1], states[j - 1 + 1]);
      Effective(g, states, acts, j - 1) + if Repeats(g, states[j - 1], acts[j - 1]) then 0 else 1
  }

  /** The micro-steps of the first k channels, over the iterations of all calls. */
  function ChannelsBound<E>(g: Group<E>, b: nat, k: nat): int
    requires k <= |g.rings| && forall ch | 0 <= ch < k :: 2 <= g.rings[ch].n
  {
    if k == 0 then 0
    else ChannelsBound(g, b, k - 1)
         + g.rings[k - 1].n * (Base(g.rings[k - 1].n, g.rings[k - 1].loops) * StepCost(b) + 1)
  }

  lemma {:induction false} BeginChannels<E>(g: Group<E>, b: nat, s: System<E>, k: nat)
    requires Sound(g) && Begin(g, s) && k <= |g.rings|
    ensures ChannelsWork(g, b, s.channels, k) == ChannelsBound(g, b, k)
  {
    if k > 0 {
      BeginChannels(g, b, s, k - 1);
      InitialWork(g.rings[k - 1], b, s.channels[k - 1], g.n);
    }
  }

  lemma {:induction false} BeginCalls<E>(g: Group<E>, s: System<E>, k: nat)
    requires Begin(g, s) && k <= g.n
    ensures CallsLeft(g, s.hosts, k) == k * g.calls
  {
    if k > 0 {
      BeginCalls(g, s, k - 1);
      assert k * g.calls == (k - 1) * g.calls + g.calls;
    }
  }

  /** No run of a group takes more effective acts than this bound, which only the calls determine. */
  lemma {:induction false} CallsAreFinite<E>(g: Group<E>, b: nat, states: seq<System<E>>, acts: seq<Act>)
    requires Calls(g, states, acts) && AllBounded(g, b)
    ensures Effective(g, states, acts, |acts|) <= g.n * g.calls + ChannelsBound(g, b, |g.rings|)
  {
    BeginCalls(g, states[0], g.n);
    BeginChannels(g, b, states[0], |g.rings|);
    WorkUsed(g, b, states, acts, |acts|);
    CallsKeepConsistent(g, states, acts, |acts|);
    GroupWorkNonNegative(g, b, states[|acts|]);
  }

  lemma {:induction false} WorkUsed<E>(g: Group<E>, b: nat, states: seq<System<E>>, acts: seq<Act>, j: nat)
    requires Calls(g, states, acts) && AllBounded(g, b) && j <= |acts|
    ensures Effective(g, states, acts, j) <= GroupWork(g, b, states[0]) - GroupWork(g, b, states[j])
  {
    hide GroupWork, Repeats, Inv, Agrees, Gate, Moves, CopiedIn, Init, AllBounded;
    if j > 0 {
      WorkUsed(g, b, states, acts, j - 1);
      CallsKeepConsistent(g, states, acts, j - 1);
      ActLowersWork(g, b, states[j - 1], acts[j - 1], states[j]);
    }
  }

  // ---------------------------------------------------------------- and can be completed

  lemma {:induction false} ChunkBound<E>(ring: Ring<E>, l: nat, k: nat) returns (b: nat)
    ensures forall c: nat | c < k :: ring.len(l, c) <= b
  {
    if k == 0 { return 0; }
    b := ChunkBound(ring, l, k - 1);
    b := Max(b, ring.len(l, k - 1));
  }

  lemma {:induction false} LoopBound<E>(ring: Ring<E>, k: nat) returns (b: nat)
    ensures forall l: nat, c: nat | l < k && c < ring.n :: ring.len(l, c) <= b
  {
    if k == 0 { return 0; }
    var before := LoopBound(ring, k - 1);
    var last := ChunkBound(ring, k - 1, ring.n);
    b := Max(before, last);
  }

  lemma {:induction false} GroupBound<E>(g: Group<E>, k: nat) returns (b: nat)
    requires k <= |g.rings|
    ensures forall ch | 0 <= ch < k :: Bounded(g.rings[ch], b)
  {
    if k == 0 { return 0; }
    var before := GroupBound(g, k - 1);
    var last := LoopBound(g.rings[k - 1], g.rings[k - 1].loops);
    b := Max(before, last);
  }

  lemma FaultFreeKeepsHealthy<E>(g: Group<E>, s: System<E>, act: Act, s': System<E>)
    requires Consistent(g, s) && Healthy(g, s) && Step(g, s, act, s') && (act.Micro? ==> FaultFree(act.act))
    ensures Healthy(g, s')
  {
    if act.Micro? {
      var ring, c := g.rings[act.ch], s.channels[act.ch];
      forall r | 0 <= r < g.n ensures !Apply(ring, c, act.act)[r].failed { FaultFreeKeepsRank(ring, c, act.act, r); }
    }
    hide Apply, Moves, Enabled, Consistent;
  }

  lemma FaultFreeKeepsRank<E>(ring: Ring<E>, c: State<E>, act: Action, r: nat)
    requires Wellformed(ring) && |c| == ring.n && r < ring.n && Enabled(ring, c, act) && FaultFree(act)
    requires !c[r].failed
    ensures !Apply(ring, c, act)[r].failed
  {
  }

  lemma OneMoreCall<E>(g: Group<E>, states: seq<System<E>>, acts: seq<Act>, act: Act, s': System<E>)
    requires Calls(g, states, acts) && Step(g, states[|acts|], act, s')
    ensures Calls(g, states + [s'], acts + [act])
  {
    assert Shaped(g, s');
    hide Step, Begin, Sound, Shaped;
    var states', acts' := states + [s'], acts + [act];
    assert states'[0] == states[0];
    forall i | 0 <= i < |acts'| ensures Step(g, states'[i], acts'[i], states'[i + 1]) {
      if i < |acts| { assert states'[i] == states[i] && states'[i + 1] == states[i + 1]; }
    }
  }

  /** A run whose last state is healthy. */
  ghost predicate Sane<E>(g: Group<E>, b: nat, states: seq<System<E>>, acts: seq<Act>) {
    Calls(g, states, acts) && AllBounded(g, b) && Consistent(g, states[|acts|]) && Healthy(g, states[|acts|])
  }

  ghost function WorkLeft<E>(g: Group<E>, b: nat, states: seq<System<E>>, acts: seq<Act>): int
    requires Sane(g, b, states, acts)
  {
    GroupWork(g, b, states[|acts|])
  }

  lemma ContinueCalls<E>(g: Group<E>, b: nat, states: seq<System<E>>, acts: seq<Act>)
    returns (act: Act, t: System<E>)
    requires Sane(g, b, states, acts) && !AllDone(g, states[|acts|])
    ensures Sane(g, b, states + [t], acts + [act])
    ensures 0 <= WorkLeft(g, b, states + [t], acts + [act]) < WorkLeft(g, b, states, acts)
  {
    hide Step, Sound, Shaped, Begin, Calls, Healthy, AllDone, Consistent, GroupWork, CanStep, Inv, Gate;
    RunLength(g, states, acts);
    var s := states[|acts|];
    act := CallsDoNotDeadlock(g, states, acts, |acts|);
    t := StepHasOutcome(g, s, act);
    StepKeepsConsistent(g, s, act, t);
    FaultFreeKeepsHealthy(g, s, act, t);
    ActLowersWork(g, b, s, act, t);
    GroupWorkNonNegative(g, b, t);
    OneMoreCall(g, states, acts, act, t);
    assert |states + [t]| == |acts + [act]| + 1 by { RunLength(g, states + [t], acts + [act]); }
    assert (states + [t])[|acts + [act]|] == t;
  }

  lemma RunLength<E>(g: Group<E>, states: seq<System<E>>, acts: seq<Act>)
    requires Calls(g, states, acts)
    ensures |states| == |acts| + 1
  {
  }

  /**
   Wherever a fault-free sequence of calls stands, it can be continued until every rank has returned from every
   call; with CallsAreFinite no order of useful steps can put that off forever.
   */
  lemma CallsComplete<E>(g: Group<E>, states: seq<System<E>>, acts: seq<Act>)
    returns (states': seq<System<E>>, acts': seq<Act>)
    requires Calls(g, states, acts) && Healthy(g, states[|acts|])
    ensures Calls(g, states', acts') && states <= states' && acts <= acts'
    ensures Healthy(g, states'[|acts'|]) && AllDone(g, states'[|acts'|])
  {
    var b := GroupBound(g, |g.rings|);
    states', acts' := states, acts;
    CallsKeepConsistent(g, states, acts, |acts|);
    GroupWorkNonNegative(g, b, states[|acts|]);
    hide Calls, Healthy, AllDone, Consistent, GroupWork, AllBounded;
    while !AllDone(g, states'[|acts'|])
      invariant Sane(g, b, states', acts') && states <= states' && acts <= acts'
      invariant 0 <= WorkLeft(g, b, states', acts')
      decreases WorkLeft(g, b, states', acts')
    {
      var act, t := ContinueCalls(g, b, states', acts');
      states', acts' := states' + [t], acts' + [act];
    }
  }
}

/** The life cycle of a process group as a function of its calls and of how each call turns out. */
module GroupModel {
  import opened Wrappers

  /** What a membership handle decodes to; `raw` is the handle itself. */
  datatype Member = Member(raw: string, stableRank: int, qps: nat, numSms: nat, maxBytes: nat)

  type Decoder = string -> Option<Member>

  /** Decoding keeps the handle it decoded. */
  ghost predicate Faithful(decode: Decoder) { forall raw :: decode(raw).Some? ==> decode(raw).value.raw == raw }

  datatype Buffers = Buffers(workAddr: int, workKey: int, scratchAddr: int, scratchKey: int)

  datatype Group = Group(
    me: Member,
    rank: int,
    size: int,
    uuid: Option<int>,
    failed: bool,
    used: set<int>,
    outgoing: seq<nat>,          // queue pairs towards the next rank, one per lane
    incoming: seq<nat>,
    nextBuffers: Option<Buffers>,
    exported: bool,              // the GPU state exists
    closed: bool)

  datatype Error =
    | Closed | StaleUuid | NoHandles | DuplicateHandles | BadHandle | NotAMember | DuplicateRanks | Mismatched
    | BadTimeout | NotSum | NotConfigured | NeedsReconfigure | BadTensor | Raised

  // ---------------------------------------------------------------- the new membership

  function Members(decode: Decoder, raws: seq<string>): Option<seq<Member>> {
    if raws == [] then Some([])
    else
      match decode(raws[0])
      case None => None
      case Some(m) =>
        match Members(decode, raws[1..])
        case None => None
        case Some(rest) => Some([m] + rest)
  }

  function Insert(m: Member, ms: seq<Member>): seq<Member> {
    if ms == [] || m.stableRank <= ms[0].stableRank then [m] + ms else [ms[0]] + Insert(m, ms[1..])
  }

  /** By stable rank; ties are refused later, so their order does not matter. */
  function Sort(ms: seq<Member>): seq<Member> {
    if ms == [] then [] else Insert(ms[0], Sort(ms[1..]))
  }

  predicate Sorted(ms: seq<Member>) { forall i, j | 0 <= i < j < |ms| :: ms[i].stableRank <= ms[j].stableRank }

  predicate DistinctRanks(ms: seq<Member>) { forall i, j | 0 <= i < j < |ms| :: ms[i].stableRank != ms[j].stableRank }

  predicate DistinctRaws(raws: seq<string>) { forall i, j | 0 <= i < j < |raws| :: raws[i] != raws[j] }

  function Occurrences(ms: seq<Member>, raw: string): nat {
    if ms == [] then 0 else (if ms[0].raw == raw then 1 else 0) + Occurrences(ms[1..], raw)
  }

  function RankOf(ms: seq<Member>, raw: string): (r: nat)
    requires exists i :: 0 <= i < |ms| && ms[i].raw == raw
    ensures r < |ms| && ms[r].raw == raw && forall i | 0 <= i < r :: ms[i].raw != raw
  {
    if ms[0].raw == raw then 0 else RankOf(ms[1..], raw) + 1
  }

  lemma {:induction false} OccursSomewhere(ms: seq<Member>, raw: string)
    requires 0 < Occurrences(ms, raw)
    ensures exists i :: 0 <= i < |ms| && ms[i].raw == raw
  {
    if ms[0].raw != raw {
      OccursSomewhere(ms[1..], raw);
      var i :| 0 <= i < |ms[1..]| && ms[1..][i].raw == raw;
      assert ms[i + 1].raw == raw;
    }
  }

  /** The checks of a reconfiguration, in order; nothing has changed while they fail. */
  function Admit(g: Group, decode: Decoder, uuid: int, raws: seq<string>, ordered: bool, timeoutOk: bool)
    : Result<seq<Member>, Error>
  {
    if g.closed then Err(Closed)
    else if uuid in g.used then Err(StaleUuid)
    else if raws == [] then Err(NoHandles)
    else if !DistinctRaws(raws) then Err(DuplicateHandles)
    else
      match Members(decode, raws)
      case None => Err(BadHandle)
      case Some(decoded) =>
        var ms := if ordered then decoded else Sort(decoded);
        if Occurrences(ms, g.me.raw) != 1 then Err(NotAMember)
        else if !DistinctRanks(ms) then Err(DuplicateRanks)
        else if exists m | m in ms :: m.qps != g.me.qps || m.numSms != g.me.numSms || m.maxBytes != g.me.maxBytes
        then Err(Mismatched)
        else if !timeoutOk then Err(BadTimeout)
        else Ok(ms)
  }

  lemma {:induction false} InsertKeeps(m: Member, ms: seq<Member>)
    requires Sorted(ms)
    ensures Sorted(Insert(m, ms)) && forall x :: x in Insert(m, ms) <==> x == m || x in ms
  {
    if ms != [] && m.stableRank > ms[0].stableRank {
      InsertKeeps(m, ms[1..]);
      assert ms == [ms[0]] + ms[1..];
      var rest := Insert(m, ms[1..]);
      forall i | 0 <= i < |rest| ensures ms[0].stableRank <= rest[i].stableRank { assert rest[i] in rest; }
    }
  }

  lemma {:induction false} SortKeeps(ms: seq<Member>)
    ensures Sorted(Sort(ms)) && forall x :: x in Sort(ms) <==> x in ms
  {
    if ms != [] {
      SortKeeps(ms[1..]);
      InsertKeeps(ms[0], Sort(ms[1..]));
      assert ms == [ms[0]] + ms[1..];
    }
  }

  lemma {:induction false} MembersAre(decode: Decoder, raws: seq<string>)
    requires Faithful(decode) && Members(decode, raws).Some?
    ensures forall m :: m in Members(decode, raws).value <==> m.raw in raws && decode(m.raw) == Some(m)
  {
    if raws != [] {
      MembersAre(decode, raws[1..]);
      assert raws == [raws[0]] + raws[1..];
    }
  }

  lemma HeadIsMember(ms: seq<Member>)
    ensures ms != [] ==> ms[0] in ms
  {
  }

  lemma {:induction false} OrderIsUnique(a: seq<Member>, b: seq<Member>)
    requires Sorted(a) && Sorted(b) && DistinctRanks(a) && DistinctRanks(b)
    requires forall m :: m in a <==> m in b
    ensures a == b
  {
    HeadIsMember(b);
    if a != [] {
      assert a[0] in b && b != [] && b[0] in a;
      assert a[0] == b[0];
      forall m ensures m in a[1..] <==> m in b[1..] {
        assert m in a[1..] <==> m in a && m != a[0];
        assert m in b[1..] <==> m in b && m != b[0];
      }
      OrderIsUnique(a[1..], b[1..]);
    }
  }

  /**
   Two members that reconfigure with the same handles in unordered collections, whatever order each of them
   iterates in, build the same ring: the same list, in which each finds itself at its own rank.
   */
  lemma RingIsAgreed(g: Group, h: Group, decode: Decoder, uuid: int, raws: seq<string>, others: seq<string>)
    requires Faithful(decode) && forall raw :: raw in raws <==> raw in others
    requires Admit(g, decode, uuid, raws, false, true).Ok? && Admit(h, decode, uuid, others, false, true).Ok?
    ensures var ring := Admit(g, decode, uuid, raws, false, true).value;
      && Admit(h, decode, uuid, others, false, true).value == ring
      && (exists i :: 0 <= i < |ring| && ring[i].raw == g.me.raw)
      && (exists i :: 0 <= i < |ring| && ring[i].raw == h.me.raw)
      && (RankOf(ring, g.me.raw) == RankOf(ring, h.me.raw) <==> g.me.raw == h.me.raw)
  {
    MembersAre(decode, raws);
    MembersAre(decode, others);
    var a, b := Members(decode, raws).value, Members(decode, others).value;
    SortKeeps(a);
    SortKeeps(b);
    OrderIsUnique(Sort(a), Sort(b));
    OccursSomewhere(Sort(a), g.me.raw);
    OccursSomewhere(Sort(a), h.me.raw);
  }

  // ---------------------------------------------------------------- what the checks amount to

  lemma {:induction false} MembersInOrder(decode: Decoder, raws: seq<string>)
    ensures Members(decode, raws).Some? <==> forall i | 0 <= i < |raws| :: decode(raws[i]).Some?
    ensures Members(decode, raws).Some? ==>
      && |Members(decode, raws).value| == |raws|
      && forall i | 0 <= i < |raws| :: decode(raws[i]) == Some(Members(decode, raws).value[i])
  {
    if raws != [] {
      MembersInOrder(decode, raws[1..]);
      assert forall i | 0 < i < |raws| :: raws[i] == raws[1..][i - 1];
      if decode(raws[0]).Some? && Members(decode, raws[1..]).Some? {
        forall i | 0 <= i < |raws| ensures decode(raws[i]).Some? { if i > 0 { assert raws[i] == raws[1..][i - 1]; } }
      }
      if forall i | 0 <= i < |raws| :: decode(raws[i]).Some? {
        forall i | 0 <= i < |raws[1..]| ensures decode(raws[1..][i]).Some? { assert raws[1..][i] == raws[i + 1]; }
      }
    }
  }

  lemma {:induction false} InsertCounts(m: Member, ms: seq<Member>, raw: string)
    ensures |Insert(m, ms)| == |ms| + 1
    ensures Occurrences(Insert(m, ms), raw) == Occurrences([m] + ms, raw)
  {
    assert ([m] + ms)[1..] == ms;
    if ms != [] && m.stableRank > ms[0].stableRank {
      InsertCounts(m, ms[1..], raw);
      assert ([m] + ms[1..])[1..] == ms[1..];
    }
  }

  lemma {:induction false} SortCounts(ms: seq<Member>, raw: string)
    ensures |Sort(ms)| == |ms| && Occurrences(Sort(ms), raw) == Occurrences(ms, raw)
  {
    if ms != [] {
      SortCounts(ms[1..], raw);
      InsertCounts(ms[0], Sort(ms[1..]), raw);
      assert ([ms[0]] + Sort(ms[1..]))[1..] == Sort(ms[1..]);
    }
  }

  lemma {:induction false} OccursOnce(ms: seq<Member>, raw: string)
    requires forall i, j | 0 <= i < j < |ms| :: ms[i].raw != ms[j].raw
    ensures Occurrences(ms, raw) == if exists i :: 0 <= i < |ms| && ms[i].raw == raw then 1 else 0
  {
    if ms != [] {
      OccursOnce(ms[1..], raw);
      if i :| 0 <= i < |ms| && ms[i].raw == raw {
        if i > 0 { assert ms[1..][i - 1].raw == raw; }
      }
      if i :| 0 <= i < |ms[1..]| && ms[1..][i].raw == raw { assert ms[i + 1].raw == raw; }
    }
  }

  /** The list that the checks look at, in the order of the ranks. */
  function Listed(decode: Decoder, raws: seq<string>, ordered: bool): seq<Member>
    requires Members(decode, raws).Some?
  {
    if ordered then Members(decode, raws).value else Sort(Members(decode, raws).value)
  }

  /** Some pair of handles decodes to one stable rank. */
  ghost predicate SharedRank(decode: Decoder, raws: seq<string>)
    requires forall i | 0 <= i < |raws| :: decode(raws[i]).Some?
  {
    exists i, j :: 0 <= i < j < |raws| && decode(raws[i]).value.stableRank == decode(raws[j]).value.stableRank
  }

  lemma {:induction false} InsertRanks(m: Member, ms: seq<Member>)
    ensures DistinctRanks(Insert(m, ms)) <==> DistinctRanks([m] + ms)
  {
    if ms != [] && m.stableRank > ms[0].stableRank {
      InsertRanks(m, ms[1..]);
      InsertMembers(m, ms[1..]);
      assert ms == [ms[0]] + ms[1..];
      HeadApart(ms[0], Insert(m, ms[1..]));
      HeadApart(m, ms);
      HeadApart(ms[0], ms[1..]);
      HeadApart(m, ms[1..]);
    }
  }

  lemma HeadApart(m: Member, ms: seq<Member>)
    ensures DistinctRanks([m] + ms) <==> DistinctRanks(ms) && forall x | x in ms :: x.stableRank != m.stableRank
  {
    var all := [m] + ms;
    assert forall i | 0 <= i < |ms| :: all[i + 1] == ms[i];
    if DistinctRanks(all) {
      forall i, j | 0 <= i < j < |ms| ensures ms[i].stableRank != ms[j].stableRank {
        assert all[i + 1] == ms[i] && all[j + 1] == ms[j];
      }
      forall x | x in ms ensures x.stableRank != m.stableRank {
        var i :| 0 <= i < |ms| && ms[i] == x;
        assert all[0] == m && all[i + 1] == x;
      }
    }
  }

  lemma {:induction false} InsertMembers(m: Member, ms: seq<Member>)
    ensures forall x :: x in Insert(m, ms) <==> x == m || x in ms
  {
    if ms != [] && m.stableRank > ms[0].stableRank {
      InsertMembers(m, ms[1..]);
      assert ms == [ms[0]] + ms[1..];
    }
  }

  lemma {:induction false} SortRanks(ms: seq<Member>)
    ensures DistinctRanks(Sort(ms)) <==> DistinctRanks(ms)
  {
    if ms != [] {
      SortRanks(ms[1..]);
      SortKeeps(ms[1..]);
      InsertRanks(ms[0], Sort(ms[1..]));
      HeadApart(ms[0], Sort(ms[1..]));
      HeadApart(ms[0], ms[1..]);
      assert ms == [ms[0]] + ms[1..];
    }
  }

  /** The list holds the handles' members, in the handles' order or in that of their stable ranks. */
  lemma ListedInOrder(decode: Decoder, raws: seq<string>, ordered: bool)
    requires Members(decode, raws).Some?
    ensures var ms := Listed(decode, raws, ordered);
      && (forall i | 0 <= i < |raws| :: decode(raws[i]).Some?)
      && |ms| == |raws| && (forall m :: m in ms <==> exists i :: 0 <= i < |raws| && decode(raws[i]) == Some(m))
      && (ordered ==> forall i | 0 <= i < |raws| :: decode(raws[i]) == Some(ms[i]))
      && (!ordered ==> Sorted(ms))
      && (DistinctRanks(ms) <==> !SharedRank(decode, raws))
  {
    var ds := Members(decode, raws).value;
    MembersInOrder(decode, raws);
    SortKeeps(ds);
    SortCounts(ds, "");
    SortRanks(ds);
  }

  lemma ListedOnce(decode: Decoder, raws: seq<string>, ordered: bool, raw: string)
    requires Faithful(decode) && Members(decode, raws).Some? && DistinctRaws(raws)
    ensures Occurrences(Listed(decode, raws, ordered), raw) == if raw in raws then 1 else 0
  {
    var ds := Members(decode, raws).value;
    MembersInOrder(decode, raws);
    assert forall i | 0 <= i < |raws| :: ds[i].raw == raws[i];
    SortCounts(ds, raw);
    OccursOnce(ds, raw);
  }

  /** No two handles are equal. */
  ghost predicate Different(raws: seq<string>) { forall i, j | 0 <= i < j < |raws| :: raws[i] != raws[j] }

  ghost predicate AllDecode(decode: Decoder, raws: seq<string>) { forall i | 0 <= i < |raws| :: decode(raws[i]).Some? }

  /** Every member has this group's lane count, channel count and staging capacity. */
  ghost predicate Alike(g: Group, decode: Decoder, raws: seq<string>)
    requires AllDecode(decode, raws)
  {
    forall i | 0 <= i < |raws| ::
      && decode(raws[i]).value.qps == g.me.qps && decode(raws[i]).value.numSms == g.me.numSms
      && decode(raws[i]).value.maxBytes == g.me.maxBytes
  }

  /** Which calls are refused before the handles are decoded. */
  lemma RefusedEarly(g: Group, decode: Decoder, uuid: int, raws: seq<string>, ordered: bool, timeoutOk: bool)
    ensures var r := Admit(g, decode, uuid, raws, ordered, timeoutOk);
      && (r == Err(Closed) <==> g.closed)
      && (r == Err(StaleUuid) <==> !g.closed && uuid in g.used)
      && (r == Err(NoHandles) <==> !g.closed && uuid !in g.used && raws == [])
      && (r == Err(DuplicateHandles) <==> !g.closed && uuid !in g.used && raws != [] && !Different(raws))
      && (r == Err(BadHandle) <==>
          !g.closed && uuid !in g.used && raws != [] && Different(raws) && !AllDecode(decode, raws))
  {
    MembersInOrder(decode, raws);
  }

  /** Which membership is refused, the first requirement that fails being named, and which list the others give. */
  lemma AdmitsExactly(g: Group, decode: Decoder, uuid: int, raws: seq<string>, ordered: bool, timeoutOk: bool)
    requires Faithful(decode) && !g.closed && uuid !in g.used
    requires raws != [] && Different(raws) && AllDecode(decode, raws)
    ensures Members(decode, raws).Some?
    ensures var r := Admit(g, decode, uuid, raws, ordered, timeoutOk);
      && (r == Err(NotAMember) <==> g.me.raw !in raws)
      && (r == Err(DuplicateRanks) <==> g.me.raw in raws && SharedRank(decode, raws))
      && (r == Err(Mismatched) <==> g.me.raw in raws && !SharedRank(decode, raws) && !Alike(g, decode, raws))
      && (r == Err(BadTimeout) <==>
          g.me.raw in raws && !SharedRank(decode, raws) && Alike(g, decode, raws) && !timeoutOk)
      && (r == Ok(Listed(decode, raws, ordered)) <==>
          g.me.raw in raws && !SharedRank(decode, raws) && Alike(g, decode, raws) && timeoutOk)
  {
    MembersInOrder(decode, raws);
    var ms := Listed(decode, raws, ordered);
    ListedInOrder(decode, raws, ordered);
    ListedOnce(decode, raws, ordered, g.me.raw);
    MismatchedOnes(g, decode, raws, ms);
    hide SharedRank, DistinctRanks, Occurrences, Alike, Listed, Sorted, AllDecode;
    assert ms == if ordered then Members(decode, raws).value else Sort(Members(decode, raws).value) by {
      ListedMeans(decode, raws, ordered);
    }
  }

  lemma ListedMeans(decode: Decoder, raws: seq<string>, ordered: bool)
    requires Members(decode, raws).Some?
    ensures Listed(decode, raws, ordered)
         == if ordered then Members(decode, raws).value else Sort(Members(decode, raws).value)
  {
  }

  lemma MismatchedOnes(g: Group, decode: Decoder, raws: seq<string>, ms: seq<Member>)
    requires AllDecode(decode, raws)
    requires forall m :: m in ms <==> exists i :: 0 <= i < |raws| && decode(raws[i]) == Some(m)
    ensures Alike(g, decode, raws) <==>
      !exists m | m in ms :: m.qps != g.me.qps || m.numSms != g.me.numSms || m.maxBytes != g.me.maxBytes
  {
    forall i | 0 <= i < |raws| ensures decode(raws[i]).value in ms {}
  }

  // ---------------------------------------------------------------- the calls

  /** How building the ring turns out: some exception, or connected lanes and the next rank's buffers. */
  datatype Attempt = Fails | Connects(outgoing: seq<nat>, incoming: seq<nat>, buffers: Buffers)

  predicate Complete(g: Group, a: Attempt) { a.Connects? ==> |a.outgoing| == |a.incoming| == g.me.qps }

  function WithoutLanes(g: Group): Group { g.(outgoing := [], incoming := [], nextBuffers := None, exported := false) }

  function Revoked(g: Group): Group {
    WithoutLanes(g).(failed := true, rank := -1, size := 0, uuid := None)
  }

  function Reconfigured(g: Group, decode: Decoder, uuid: int, raws: seq<string>, ordered: bool, timeoutOk: bool,
                        a: Attempt)
    : (Group, Result<nat, Error>)
  {
    match Admit(g, decode, uuid, raws, ordered, timeoutOk)
    case Err(e) => (g, Err(e))
    case Ok(ms) =>
      OccursSomewhere(ms, g.me.raw);
      var rank := RankOf(ms, g.me.raw);
      var joined := Revoked(g).(rank := rank, size := |ms|, uuid := Some(uuid), failed := false,
                                used := g.used + {uuid});
      if |ms| == 1 then (joined, Ok(0))
      else if a.Fails? then (Revoked(g), Err(Raised))
      else (joined.(outgoing := a.outgoing, incoming := a.incoming, nextBuffers := Some(a.buffers), exported := true),
            Ok(rank))
  }

  /** The arguments of a collective; `itemsize` is missing for an unsupported element type. */
  datatype Call = Call(sum: bool, nbytes: int, itemsize: Option<nat>, pointer: int, timeoutOk: bool)

  /** Where a collective raises, if it does: before or after the kernel was started. */
  datatype Course = RaisesBefore | RaisesAfter | Completes

  datatype Outcome = Refused(error: Error) | Collective(launched: bool, ok: bool)

  function Refusal(g: Group, call: Call): Option<Error> {
    if !call.sum then Some(NotSum)
    else if g.closed then Some(Closed)
    else if g.uuid == None || g.size <= 0 then Some(NotConfigured)
    else if g.failed then Some(NeedsReconfigure)
    else if call.nbytes <= 0 || call.nbytes > g.me.maxBytes then Some(BadTensor)
    else if call.itemsize == None || call.itemsize == Some(0) || call.nbytes % call.itemsize.value != 0 then
      Some(BadTensor)
    else if call.nbytes / call.itemsize.value > 0x7FFF_FFFF || call.pointer % 16 != 0 then Some(BadTensor)
    else if !call.timeoutOk then Some(BadTimeout)
    else None
  }

  function Reduced(g: Group, call: Call, course: Course): (Group, Outcome) {
    match Refusal(g, call)
    case Some(e) => (g, Refused(e))
    case None =>
      var failed := g.(failed := true);
      if g.size == 1 then if course.Completes? then (g, Collective(false, true)) else (failed, Collective(false, false))
      else if !g.exported || g.nextBuffers == None || course.RaisesBefore? then (failed, Collective(false, false))
      else if course.RaisesAfter? then (failed, Collective(true, false))
      else (g, Collective(true, true))
  }

  function Aborted(g: Group): Group { if g.closed then g else Revoked(g) }

  // ---------------------------------------------------------------- what a call does, field by field

  /** What each outcome of a reconfiguration means for the group. */
  lemma ReconfiguredExactly(g: Group, decode: Decoder, uuid: int, raws: seq<string>, ordered: bool, timeoutOk: bool,
                            a: Attempt)
    requires Faithful(decode)
    ensures var (g', r) := Reconfigured(g, decode, uuid, raws, ordered, timeoutOk, a);
      && (r.Err? && r.error != Raised ==> g' == g)
      && (r == Err(Raised) ==>
          && 1 < |raws| && a.Fails? && g'.failed && g'.rank == -1 && g'.size == 0 && g'.uuid == None
          && g'.used == g.used
          && g'.outgoing == g'.incoming == [] && g'.nextBuffers == None && !g'.exported)
      && (r.Ok? ==>
          && uuid !in g.used && g'.used == g.used + {uuid} && g'.uuid == Some(uuid) && !g'.failed
          && g'.rank == r.value < |raws| == g'.size && (1 < |raws| ==> a.Connects?)
          && g'.outgoing == (if 1 < |raws| then a.outgoing else [])
          && g'.incoming == (if 1 < |raws| then a.incoming else [])
          && g'.nextBuffers == (if 1 < |raws| then Some(a.buffers) else None) && (g'.exported <==> 1 < |raws|))
      && g'.me == g.me && g'.closed == g.closed
  {
    hide Admit, Members, Sort, Listed, Faithful, Sorted, DistinctRanks, Occurrences;
    if Admit(g, decode, uuid, raws, ordered, timeoutOk).Ok? {
      AdmittedList(g, decode, uuid, raws, ordered, timeoutOk);
    } else {
      NeverRaised(g, decode, uuid, raws, ordered, timeoutOk);
    }
  }

  lemma NeverRaised(g: Group, decode: Decoder, uuid: int, raws: seq<string>, ordered: bool, timeoutOk: bool)
    ensures Admit(g, decode, uuid, raws, ordered, timeoutOk) != Err(Raised)
  {
  }

  /** An admitted call's list. */
  lemma AdmittedList(g: Group, decode: Decoder, uuid: int, raws: seq<string>, ordered: bool, timeoutOk: bool)
    requires Admit(g, decode, uuid, raws, ordered, timeoutOk).Ok?
    ensures uuid !in g.used && Members(decode, raws).Some?
    ensures var ms := Admit(g, decode, uuid, raws, ordered, timeoutOk).value;
      && ms == Listed(decode, raws, ordered) && |ms| == |raws| && DistinctRanks(ms) && (!ordered ==> Sorted(ms))
      && (ordered ==> forall i | 0 <= i < |raws| :: decode(raws[i]) == Some(ms[i]))
      && exists i :: 0 <= i < |ms| && ms[i].raw == g.me.raw
  {
    var ms := Admit(g, decode, uuid, raws, ordered, timeoutOk).value;
    MembersInOrder(decode, raws);
    ListedInOrder(decode, raws, ordered);
    ListedMeans(decode, raws, ordered);
    OccursSomewhere(ms, g.me.raw);
    hide Members, Sort, Sorted, SharedRank;
  }

  /** The rank of a member: its position in an ordered list, or the number of members of smaller stable rank. */
  lemma RankIsPosition(g: Group, decode: Decoder, uuid: int, raws: seq<string>, ordered: bool, timeoutOk: bool,
                       a: Attempt)
    requires Faithful(decode)
    requires Reconfigured(g, decode, uuid, raws, ordered, timeoutOk, a).1.Ok?
    ensures var rank := Reconfigured(g, decode, uuid, raws, ordered, timeoutOk, a).1.value;
      && rank < |raws| && decode(g.me.raw).Some?
      && (ordered ==> raws[rank] == g.me.raw)
      && (!ordered ==> rank == |Below(decode, raws, decode(g.me.raw).value.stableRank)|)
  {
    var ms := Admit(g, decode, uuid, raws, ordered, timeoutOk).value;
    AdmittedList(g, decode, uuid, raws, ordered, timeoutOk);
    ListedDecodes(decode, raws, ordered);
    hide Admit, Members, Sort, Listed, Sorted, DistinctRanks, Occurrences, Below;
    var rank := RankOf(ms, g.me.raw);
    assert ms[rank] in ms;
    if ordered {
      assert decode(raws[rank]) == Some(ms[rank]);
    } else {
      SmallerOnes(decode, raws, ms, rank);
    }
  }

  /** The handles of members with a smaller stable rank. */
  ghost function Below(decode: Decoder, raws: seq<string>, stableRank: int): set<string> {
    set raw | raw in raws && decode(raw).Some? && decode(raw).value.stableRank < stableRank
  }

  lemma ListedDecodes(decode: Decoder, raws: seq<string>, ordered: bool)
    requires Faithful(decode) && Members(decode, raws).Some?
    ensures forall m | m in Listed(decode, raws, ordered) :: m.raw in raws && decode(m.raw) == Some(m)
    ensures forall raw | raw in raws :: decode(raw).Some? && decode(raw).value in Listed(decode, raws, ordered)
  {
    ListedInOrder(decode, raws, ordered);
  }

  lemma SmallerOnes(decode: Decoder, raws: seq<string>, ms: seq<Member>, k: nat)
    requires Faithful(decode) && Sorted(ms) && DistinctRanks(ms) && k < |ms|
    requires forall m | m in ms :: m.raw in raws && decode(m.raw) == Some(m)
    requires forall raw | raw in raws :: decode(raw).Some? && decode(raw).value in ms
    ensures |Below(decode, raws, ms[k].stableRank)| == k
  {
    RawsDiffer(decode, ms);
    RawsCount(ms, k);
    var firsts := RawsOf(ms, k);
    forall raw ensures raw in firsts <==> raw in Below(decode, raws, ms[k].stableRank) {
      RawsIn(ms, k, raw);
      if raw in firsts {
        var i :| 0 <= i < k && ms[i].raw == raw;
        assert ms[i] in ms;
      }
      if raw in Below(decode, raws, ms[k].stableRank) {
        var i :| 0 <= i < |ms| && ms[i] == decode(raw).value;
        assert ms[i] in ms && i < k;
      }
    }
    assert firsts == Below(decode, raws, ms[k].stableRank);
  }

  ghost function RawsOf(ms: seq<Member>, k: nat): set<string>
    requires k <= |ms|
  {
    if k == 0 then {} else RawsOf(ms, k - 1) + {ms[k - 1].raw}
  }

  lemma {:induction false} RawsIn(ms: seq<Member>, k: nat, raw: string)
    requires k <= |ms|
    ensures raw in RawsOf(ms, k) <==> exists i :: 0 <= i < k && ms[i].raw == raw
  {
    if k > 0 { RawsIn(ms, k - 1, raw); }
  }

  lemma {:induction false} RawsCount(ms: seq<Member>, k: nat)
    requires k <= |ms| && forall i, j | 0 <= i < j < |ms| :: ms[i].raw != ms[j].raw
    ensures |RawsOf(ms, k)| == k
  {
    if k > 0 {
      RawsCount(ms, k - 1);
      RawsIn(ms, k - 1, ms[k - 1].raw);
    }
  }

  /** Different stable ranks mean different handles. */
  lemma RawsDiffer(decode: Decoder, ms: seq<Member>)
    requires DistinctRanks(ms) && forall m | m in ms :: decode(m.raw) == Some(m)
    ensures forall i, j | 0 <= i < j < |ms| :: ms[i].raw != ms[j].raw
  {
    forall i, j | 0 <= i < j < |ms| ensures ms[i].raw != ms[j].raw { assert ms[i] in ms && ms[j] in ms; }
  }

  /** Which collectives get past the checks: in particular only tensors that fit the staging buffer. */
  lemma RefusedExactly(g: Group, call: Call)
    ensures var r := Refusal(g, call);
      var joined := call.sum && !g.closed && g.uuid.Some? && 0 < g.size;
      var fits := 0 < call.nbytes <= g.me.maxBytes && call.itemsize.Some? && 0 < call.itemsize.value
                  && call.nbytes % call.itemsize.value == 0 && call.nbytes / call.itemsize.value <= 0x7FFF_FFFF
                  && call.pointer % 16 == 0;
      && (r == Some(NotSum) <==> !call.sum)
      && (r == Some(Closed) <==> call.sum && g.closed)
      && (r == Some(NotConfigured) <==> call.sum && !g.closed && !(g.uuid.Some? && 0 < g.size))
      && (r == Some(NeedsReconfigure) <==> joined && g.failed)
      && (r == Some(BadTensor) <==> joined && !g.failed && !fits)
      && (r == Some(BadTimeout) <==> joined && !g.failed && fits && !call.timeoutOk)
      && (r == None <==> joined && !g.failed && fits && call.timeoutOk)
  {
  }

  /** What a collective does: it fails the group exactly when it raises past the checks. */
  lemma ReducedExactly(g: Group, call: Call, course: Course)
    ensures var (g', o) := Reduced(g, call, course);
      && (o.Refused? <==> Refusal(g, call).Some?) && (o.Refused? ==> o.error == Refusal(g, call).value && g' == g)
      && (o.Collective? ==> g' == if o.ok then g else g.(failed := true))
      && (o.Collective? && g.size == 1 ==> !o.launched && (o.ok <==> course.Completes?))
      && (o.Collective? && g.size != 1 ==>
          var ready := g.exported && g.nextBuffers.Some? && !course.RaisesBefore?;
          (o.launched <==> ready) && (o.ok <==> ready && course.Completes?))
  {
  }

  /** An abort clears an open group and keeps its used uuids; closing the lanes clears them alone. */
  lemma ClearedExactly(g: Group)
    ensures var h := WithoutLanes(g);
      && h.outgoing == h.incoming == [] && h.nextBuffers == None && !h.exported
      && h == Group(g.me, g.rank, g.size, g.uuid, g.failed, g.used, [], [], None, false, g.closed)
    ensures g.closed ==> Aborted(g) == g
    ensures !g.closed ==> Aborted(g) == Group(g.me, -1, 0, None, true, g.used, [], [], None, false, false)
  {
  }

  // ---------------------------------------------------------------- the invariant

  /** A group that was not closed: its rank, size and uuid are set together, and a ring has everything it needs. */
  predicate Open(g: Group) {
    && (0 <= g.rank <==> 0 < g.size) && (0 < g.size <==> g.uuid.Some?) && g.rank < g.size && -1 <= g.rank && 0 <= g.size
    && (g.uuid.Some? ==> g.uuid.value in g.used)
    && |g.outgoing| == |g.incoming| == (if 1 < g.size then g.me.qps else 0)
    && (1 < g.size <==> g.nextBuffers.Some?) && (1 < g.size <==> g.exported)
  }

  predicate Initial(g: Group) {
    && g.rank == -1 && g.size == 0 && g.uuid == None && !g.failed && !g.closed && g.used == {}
    && g.outgoing == [] && g.incoming == [] && g.nextBuffers == None && !g.exported
  }

  lemma ReconfiguredKeepsOpen(g: Group, decode: Decoder, uuid: int, raws: seq<string>, ordered: bool, timeoutOk: bool,
                              a: Attempt)
    requires Open(g) && Complete(g, a)
    ensures var (g', r) := Reconfigured(g, decode, uuid, raws, ordered, timeoutOk, a);
      && Open(g') && g'.me == g.me && g.used <= g'.used
      && (r.Ok? ==> !g'.failed && g'.uuid == Some(uuid) && uuid !in g.used && g'.rank == r.value)
      && (r.Err? ==> g'.failed == g.failed || g'.failed)
  {
  }

  // ---------------------------------------------------------------- every sequence of calls

  datatype Op =
    | Reconfigure(uuid: int, raws: seq<string>, ordered: bool, timeoutOk: bool, attempt: Attempt)
    | AllReduce(call: Call, course: Course)
    | Abort

  datatype Report = FromReconfigure(ranked: Result<nat, Error>) | FromAllReduce(outcome: Outcome) | FromAbort

  function Step(g: Group, decode: Decoder, op: Op): (Group, Report) {
    match op
    case Reconfigure(uuid, raws, ordered, timeoutOk, a) =>
      var (g', r) := Reconfigured(g, decode, uuid, raws, ordered, timeoutOk, a); (g', FromReconfigure(r))
    case AllReduce(call, course) => var (g', o) := Reduced(g, call, course); (g', FromAllReduce(o))
    case Abort => (Aborted(g), FromAbort)
  }

  ghost predicate Run(decode: Decoder, run: seq<Group>, ops: seq<Op>, results: seq<Report>) {
    && |run| == |ops| + 1 && |results| == |ops| && Initial(run[0])
    && forall i | 0 <= i < |ops| ::
      && (ops[i].Reconfigure? ==> Complete(run[0], ops[i].attempt))
      && Step(run[i], decode, ops[i]) == (run[i + 1], results[i])
  }

  lemma StepKeepsOpen(g: Group, decode: Decoder, op: Op)
    requires Open(g) && !g.closed && (op.Reconfigure? ==> Complete(g, op.attempt))
    ensures var (g', r) := Step(g, decode, op);
      Open(g') && !g'.closed && g'.me == g.me && g.used <= g'.used
  {
    match op
    case Reconfigure(uuid, raws, ordered, timeoutOk, a) =>
      ReconfiguredKeepsOpen(g, decode, uuid, raws, ordered, timeoutOk, a);
    case AllReduce(call, course) =>
    case Abort =>
  }

  /** Over every sequence of calls, however they turn out, rank, size, uuid and lanes stay together. */
  lemma {:induction false} GroupStaysConsistent(decode: Decoder, run: seq<Group>, ops: seq<Op>, results: seq<Report>,
                                                i: nat)
    requires Run(decode, run, ops, results) && i < |run|
    ensures Open(run[i]) && !run[i].closed && run[i].me == run[0].me
  {
    if i > 0 {
      GroupStaysConsistent(decode, run, ops, results, i - 1);
      assert Step(run[i - 1], decode, ops[i - 1]) == (run[i], results[i - 1]);
      StepKeepsOpen(run[i - 1], decode, ops[i - 1]);
    }
  }

  lemma {:induction false} UsedGrows(decode: Decoder, run: seq<Group>, ops: seq<Op>, results: seq<Report>, i: nat,
                                     j: nat)
    requires Run(decode, run, ops, results) && i <= j < |run|
    ensures run[i].used <= run[j].used
    decreases j
  {
    if i < j {
      UsedGrows(decode, run, ops, results, i, j - 1);
      GroupStaysConsistent(decode, run, ops, results, j - 1);
      assert Step(run[j - 1], decode, ops[j - 1]) == (run[j], results[j - 1]);
      StepKeepsOpen(run[j - 1], decode, ops[j - 1]);
    }
  }

  predicate Succeeded(r: Report) { r.FromReconfigure? && r.ranked.Ok? }

  /** Unless a reconfiguration succeeds, a failed group stays failed. */
  lemma {:induction false} StaysFailed(decode: Decoder, run: seq<Group>, ops: seq<Op>, results: seq<Report>, i: nat,
                                       j: nat)
    requires Run(decode, run, ops, results) && i <= j < |run| && run[i].failed
    requires forall k | i <= k < j :: !Succeeded(results[k])
    ensures run[j].failed
    decreases j
  {
    if i < j {
      StaysFailed(decode, run, ops, results, i, j - 1);
      assert Step(run[j - 1], decode, ops[j - 1]) == (run[j], results[j - 1]);
    }
  }

  /** The collectives that get past the checks: they touch the staging buffer and, with peers, the data path. */
  predicate Admitted(r: Report) { r.FromAllReduce? && r.outcome.Collective? }

  predicate FailedCollective(r: Report) { Admitted(r) && !r.outcome.ok }

  lemma AdmittedIsHealthy(g: Group, decode: Decoder, op: Op)
    requires Admitted(Step(g, decode, op).1)
    ensures !g.failed && g.uuid.Some? && 0 < g.size
  {
  }

  /**
   After a failed collective no later one gets past the checks unless a reconfiguration in between
   succeeded, and that one used a uuid that no successful reconfiguration had used before.
   */
  lemma FailureNeedsFreshReconfigure(decode: Decoder, run: seq<Group>, ops: seq<Op>, results: seq<Report>, i: nat,
                                     j: nat)
    requires Run(decode, run, ops, results) && i < j < |ops|
    requires FailedCollective(results[i]) && Admitted(results[j])
    ensures exists k ::
      && i < k < j && Succeeded(results[k])
      && ops[k].Reconfigure? && ops[k].uuid !in run[i].used && ops[k].uuid in run[k + 1].used
  {
    assert Step(run[i], decode, ops[i]) == (run[i + 1], results[i]);
    assert Step(run[j], decode, ops[j]) == (run[j + 1], results[j]);
    AdmittedIsHealthy(run[j], decode, ops[j]);
    if forall k | i + 1 <= k < j :: !Succeeded(results[k]) {
      StaysFailed(decode, run, ops, results, i + 1, j);
    } else {
      var k :| i + 1 <= k < j && Succeeded(results[k]);
      assert Step(run[k], decode, ops[k]) == (run[k + 1], results[k]);
      GroupStaysConsistent(decode, run, ops, results, k);
      UsedGrows(decode, run, ops, results, i, k);
      GroupStaysConsistent(decode, run, ops, results, 0);
    }
  }

  /**
   A collective that starts the kernel does so on a full ring: lanes, the next rank's buffers and the GPU state
   are there.
   */
  lemma LaunchHasFullRing(decode: Decoder, run: seq<Group>, ops: seq<Op>, results: seq<Report>, i: nat)
    requires Run(decode, run, ops, results) && i < |ops| && Admitted(results[i])
    ensures var g := run[i];
      && 0 <= g.rank < g.size && !g.failed && g.uuid.Some? && g.uuid.value in g.used
      && (1 < g.size ==> |g.outgoing| == |g.incoming| == g.me.qps && g.nextBuffers.Some? && g.exported)
      && (results[i].outcome.launched ==> 1 < g.size)
      && ops[i].AllReduce? && (1 < g.size && !ops[i].course.RaisesBefore? ==> results[i].outcome.launched)
  {
    GroupStaysConsistent(decode, run, ops, results, i);
    assert Step(run[i], decode, ops[i]) == (run[i + 1], results[i]);
    AdmittedIsHealthy(run[i], decode, ops[i]);
  }
}

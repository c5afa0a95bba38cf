/** The process group object, whose methods the life-cycle functions specify. */
module ProcessGroups {
  import opened Wrappers
  import opened GroupModel

  class ProcessGroup {
    const me: Member
    const decode: Decoder
    var rank: int
    var size: int
    var uuid: Option<int>
    var failed: bool
    var closed: bool
    var usedUuids: set<int>
    var outgoing: seq<nat>
    var incoming: seq<nat>
    var nextBuffers: Option<Buffers>
    var exported: bool

    ghost function Abs(): Group
      reads this
    {
      Group(me, rank, size, uuid, failed, usedUuids, outgoing, incoming, nextBuffers, exported, closed)
    }

    ghost predicate Valid()
      reads this
    {
      Open(Abs())
    }

    constructor (me: Member, decode: Decoder)
      ensures Valid() && Initial(Abs()) && this.me == me && this.decode == decode
    {
      this.me, this.decode := me, decode;
      rank, size, uuid, failed, closed := -1, 0, None, false, false;
      usedUuids, outgoing, incoming, nextBuffers, exported := {}, [], [], None, false;
    }

    method CloseLanes()
      modifies this`outgoing, this`incoming, this`nextBuffers, this`exported
      ensures Abs() == WithoutLanes(old(Abs()))
      ensures outgoing == incoming == [] && nextBuffers == None && !exported
    {
      exported := false;
      outgoing, incoming, nextBuffers := [], [], None;
    }

    method DecodeAll(raws: seq<string>) returns (members: Option<seq<Member>>)
      ensures members == Members(decode, raws)
    {
      var decoded: seq<Member> := [];
      var i := 0;
      assert raws[0..] == raws;
      PrependNone(Members(decode, raws));
      while i < |raws|
        invariant i <= |raws|
        invariant Members(decode, raws) == Prepend(decoded, Members(decode, raws[i..]))
      {
        assert raws[i..][1..] == raws[i + 1..];
        var m := decode(raws[i]);
        if m == None { return None; }
        PrependOne(decoded, m.value, Members(decode, raws[i + 1..]));
        decoded := decoded + [m.value];
        i := i + 1;
      }
      assert raws[i..] == [] && decoded + [] == decoded;
      return Some(decoded);
    }

    static ghost function Prepend(front: seq<Member>, rest: Option<seq<Member>>): Option<seq<Member>> {
      if rest == None then None else Some(front + rest.value)
    }

    static lemma PrependNone(rest: Option<seq<Member>>)
      ensures Prepend([], rest) == rest
    {
      if rest.Some? { assert [] + rest.value == rest.value; }
    }

    static lemma PrependOne(front: seq<Member>, m: Member, rest: Option<seq<Member>>)
      ensures Prepend(front, Prepend([m], rest)) == Prepend(front + [m], rest)
    {
      if rest.Some? { assert front + ([m] + rest.value) == front + [m] + rest.value; }
    }

    /**
     Build or rebuild the communicator.  A refused call changes nothing; a call that raises while it builds
     the ring leaves a failed group without rank, size, uuid or lanes.
     */
    method Reconfigure(newUuid: int, handles: seq<string>, ordered: bool, timeoutOk: bool, attempt: Attempt)
      returns (r: Result<nat, Error>)
      requires Valid() && Complete(Abs(), attempt)
      modifies this
      ensures Valid()
      ensures (Abs(), r) == Reconfigured(old(Abs()), decode, newUuid, handles, ordered, timeoutOk, attempt)
      // refused before anything changed, raised while the ring was built, or joined
      ensures Faithful(decode) && r.Err? && r.error != Raised ==> Abs() == old(Abs())
      ensures Faithful(decode) && r == Err(Raised) ==>
        failed && rank == -1 && size == 0 && uuid == None && outgoing == incoming == [] && usedUuids == old(usedUuids)
      ensures Faithful(decode) && r.Ok? ==>
        && !failed && rank == r.value < |handles| == size && uuid == Some(newUuid)
        && newUuid !in old(usedUuids) && usedUuids == old(usedUuids) + {newUuid}
      // a list assigns ranks by position, any other collection by stable rank
      ensures Faithful(decode) && r.Ok? && ordered ==> r.value < |handles| && handles[r.value] == me.raw
      ensures Faithful(decode) && r.Ok? && !ordered ==>
        decode(me.raw).Some? && r.value == |Below(decode, handles, decode(me.raw).value.stableRank)|
    {
      ghost var g := Abs();
      if Faithful(decode) { RankAndFields(newUuid, handles, ordered, timeoutOk, attempt); }
      hide Below, Faithful, Admit, Revoked, Open;
      var admitted := CheckMembership(newUuid, handles, ordered, timeoutOk);
      AdmitMeans(newUuid, handles, ordered, timeoutOk, attempt);
      if admitted.Err? { return Err(admitted.error); }
      var newRank := RankOf(admitted.value, me.raw);
      r := BuildRing(newUuid, newRank, |admitted.value|, attempt);
    }

    lemma AdmitMeans(newUuid: int, handles: seq<string>, ordered: bool, timeoutOk: bool, attempt: Attempt)
      requires Valid() && Complete(Abs(), attempt)
      ensures var admitted := Admit(Abs(), decode, newUuid, handles, ordered, timeoutOk);
        && Open(Reconfigured(Abs(), decode, newUuid, handles, ordered, timeoutOk, attempt).0)
        && (admitted.Ok? ==> exists i :: 0 <= i < |admitted.value| && admitted.value[i].raw == me.raw)
    {
      ReconfiguredKeepsOpen(Abs(), decode, newUuid, handles, ordered, timeoutOk, attempt);
      var admitted := Admit(Abs(), decode, newUuid, handles, ordered, timeoutOk);
      if admitted.Ok? { OccursSomewhere(admitted.value, me.raw); }
    }

    /** The checks of a reconfiguration; the list is in the order of the ranks. */
    method CheckMembership(newUuid: int, handles: seq<string>, ordered: bool, timeoutOk: bool)
      returns (r: Result<seq<Member>, Error>)
      ensures r == Admit(Abs(), decode, newUuid, handles, ordered, timeoutOk)
    {
      if closed { return Err(Closed); }
      if newUuid in usedUuids { return Err(StaleUuid); }
      if handles == [] { return Err(NoHandles); }
      if !DistinctRaws(handles) { return Err(DuplicateHandles); }
      var decoded := DecodeAll(handles);
      if decoded == None { return Err(BadHandle); }
      var members := if ordered then decoded.value else Sort(decoded.value);
      if Occurrences(members, me.raw) != 1 { return Err(NotAMember); }
      if !DistinctRanks(members) { return Err(DuplicateRanks); }
      if exists m | m in members :: m.qps != me.qps || m.numSms != me.numSms || m.maxBytes != me.maxBytes {
        return Err(Mismatched);
      }
      if !timeoutOk { return Err(BadTimeout); }
      return Ok(members);
    }

    /** What the specification says about this call. */
    lemma RankAndFields(newUuid: int, handles: seq<string>, ordered: bool, timeoutOk: bool, attempt: Attempt)
      requires Faithful(decode)
      ensures var (h, r) := Reconfigured(Abs(), decode, newUuid, handles, ordered, timeoutOk, attempt);
        && (r.Err? && r.error != Raised ==> h == Abs())
        && (r == Err(Raised) ==>
            && h.failed && h.rank == -1 && h.size == 0 && h.uuid == None && h.outgoing == h.incoming == []
            && h.used == usedUuids)
        && (r.Ok? ==>
            && !h.failed && h.rank == r.value < |handles| == h.size && h.uuid == Some(newUuid)
            && newUuid !in usedUuids && h.used == usedUuids + {newUuid}
            && (ordered ==> handles[r.value] == me.raw)
            && (!ordered ==>
                decode(me.raw).Some? && r.value == |Below(decode, handles, decode(me.raw).value.stableRank)|))
    {
      hide Reconfigured;
      ReconfiguredExactly(Abs(), decode, newUuid, handles, ordered, timeoutOk, attempt);
      if Reconfigured(Abs(), decode, newUuid, handles, ordered, timeoutOk, attempt).1.Ok? {
        RankIsPosition(Abs(), decode, newUuid, handles, ordered, timeoutOk, attempt);
      }
    }

    /** The part of a reconfiguration that changes the group. */
    method BuildRing(newUuid: int, newRank: nat, members: nat, attempt: Attempt) returns (r: Result<nat, Error>)
      requires newRank < members
      modifies this
      ensures var joined := Revoked(old(Abs())).(rank := newRank, size := members, uuid := Some(newUuid),
                                                 failed := false,
                                                 used := old(usedUuids) + {newUuid});
        (Abs(), r) ==
          if members == 1 then (joined, Ok(0))
          else if attempt.Fails? then (Revoked(old(Abs())), Err(Raised))
          else (joined.(outgoing := attempt.outgoing, incoming := attempt.incoming,
                        nextBuffers := Some(attempt.buffers),
                        exported := true), Ok(newRank))
    {
      CloseLanes();
      failed := true;
      rank, size, uuid := -1, 0, None;
      if members == 1 {
        rank, size, uuid, failed := 0, 1, Some(newUuid), false;
        usedUuids := usedUuids + {newUuid};
        return Ok(0);
      }
      if attempt.Fails? { return Err(Raised); }
      outgoing, incoming, nextBuffers, exported := attempt.outgoing, attempt.incoming, Some(attempt.buffers), true;
      rank, size, uuid, failed := newRank, members, Some(newUuid), false;
      usedUuids := usedUuids + {newUuid};
      return Ok(newRank);
    }

    /** A refused collective changes nothing; one that raises past the checks fails the group. */
    method AllReduceTensor(call: Call, course: Course) returns (outcome: Outcome)
      requires Valid()
      modifies this`failed
      ensures Valid() && (Abs(), outcome) == Reduced(old(Abs()), call, course)
      ensures outcome.Collective? && !outcome.launched && 1 < size ==> course.RaisesBefore?
      // what gets past the checks fits the staging buffer, in whole elements, aligned
      ensures outcome.Collective? ==>
        && !old(failed) && uuid.Some? && 0 < call.nbytes <= me.maxBytes && call.pointer % 16 == 0
        && call.itemsize.Some? && 0 < call.itemsize.value && call.nbytes % call.itemsize.value == 0
        && call.nbytes / call.itemsize.value <= 0x7FFF_FFFF
      ensures failed <==> old(failed) || (outcome.Collective? && !outcome.ok)
    {
      if !call.sum { return Refused(NotSum); }
      if closed { return Refused(Closed); }
      if uuid == None || size <= 0 { return Refused(NotConfigured); }
      if failed { return Refused(NeedsReconfigure); }
      if call.nbytes <= 0 { return Refused(BadTensor); }
      if call.nbytes > me.maxBytes { return Refused(BadTensor); }
      if call.itemsize == None || call.itemsize == Some(0) || call.nbytes % call.itemsize.value != 0 {
        return Refused(BadTensor);
      }
      if call.nbytes / call.itemsize.value > 0x7FFF_FFFF { return Refused(BadTensor); }
      if call.pointer % 16 != 0 { return Refused(BadTensor); }
      if !call.timeoutOk { return Refused(BadTimeout); }
      if size == 1 {
        if course.Completes? { return Collective(false, true); }
        failed := true;
        return Collective(false, false);
      }
      if !exported || nextBuffers == None || course.RaisesBefore? {
        failed := true;
        return Collective(false, false);
      }
      if course.RaisesAfter? {
        failed := true;
        return Collective(true, false);
      }
      return Collective(true, true);
    }

    method Abort()
      requires Valid()
      modifies this
      ensures Valid() && Abs() == Aborted(old(Abs()))
      ensures old(closed) ==> Abs() == old(Abs())
      ensures !old(closed) ==>
        && failed && rank == -1 && size == 0 && uuid == None && outgoing == incoming == [] && nextBuffers == None
        && !exported && !closed && usedUuids == old(usedUuids)
    {
      if closed { return; }
      CloseLanes();
      failed := true;
      rank, size, uuid := -1, 0, None;
    }
  }
}

/** The 64-byte read and write commands: built in place by the initiator, decoded by the target. */
module NvmeCommand {
  import opened Bytes
  import opened Wrappers

  const OPC_WRITE: int := 1
  const OPC_READ: int := 2
  const PSDT_SGL: int := 0x40
  const KEYED_DATA_BLOCK: byte := 0x40
  const MAX_KEYED_SGL_LENGTH: int := 0xFF_FFFF

  /** What the source reads off a registered memory region. */
  datatype Buffer = Buffer(addr: int, length: int, rkey: int)

  datatype Error =
    | BadOpcode | BadLba | BadBlocks | BadLbaSize | BadNsid
    | OffsetOutside | RangeOutside | TooLong | BadAddress | BadKey

  /** A command as the target understands it (NVM Express Base Specification 1.4, sections 4.2 and 4.4). */
  datatype Command = Command(opcode: int, cid: nat, nsid: nat, addr: nat, length: nat, key: nat, slba: nat, blocks: nat)

  function Decode(bs: seq<byte>): Option<Command>
    requires |bs| == 64
  {
    if bs[1] != PSDT_SGL as byte || bs[39] != KEYED_DATA_BLOCK || bs[0] as int !in {OPC_READ, OPC_WRITE} then None
    else Some(Command(bs[0] as int, FromLittle(bs[2..4]), FromLittle(bs[4..8]), FromLittle(bs[24..32]),
                      FromLittle(bs[32..35]), FromLittle(bs[35..39]), FromLittle(bs[40..48]),
                      FromLittle(bs[48..50]) + 1))
  }

  function Zeros(n: nat): seq<byte> { seq(n, _ => 0) }

  /** The command header without a data pointer. */
  function Header(opcode: int, nsid: nat): (r: seq<byte>)
    requires 0 <= opcode < 256
    ensures |r| == 64
  {
    [opcode as byte, PSDT_SGL as byte, 0, 0] + Little(nsid, 4) + Zeros(31) + [KEYED_DATA_BLOCK] + Zeros(24)
  }

  /** The validation of `set_keyed_sgl`, in its order. */
  function SglError(buffer: Buffer, length: Option<int>, offset: int): Option<Error> {
    if offset < 0 || offset > buffer.length then Some(OffsetOutside)
    else
      var l := if length.None? then buffer.length - offset else length.value;
      if l <= 0 || l > buffer.length - offset then Some(RangeOutside)
      else if l > MAX_KEYED_SGL_LENGTH then Some(TooLong)
      else if buffer.addr + offset < 0 || buffer.addr + offset >= 0x1_0000_0000_0000_0000 then Some(BadAddress)
      else if buffer.rkey < 0 || buffer.rkey >= 0x1_0000_0000 then Some(BadKey)
      else None
  }

  /** Bytes 24 to 39: a keyed SGL data block descriptor. */
  function Descriptor(addr: nat, length: nat, key: nat): (r: seq<byte>)
    ensures |r| == 16
  {
    Little(addr, 8) + Little(length, 3) + Little(key, 4) + [KEYED_DATA_BLOCK]
  }

  function WithFlag(b: byte): byte {
    if b / 64 % 2 == 1 then b else b + 64
  }

  lemma DescriptorPieces(s: seq<byte>, addr: seq<byte>, length: seq<byte>, key: seq<byte>)
    requires |s| == 64 && |addr| == 8 && |length| == 3 && |key| == 4
    ensures Splice(Splice(Splice(Splice(s, 24, addr), 32, length), 35, key), 39, [KEYED_DATA_BLOCK])
         == Splice(s, 24, addr + length + key + [KEYED_DATA_BLOCK])
  {
    SpliceAdjacent(s, 24, addr, length);
    SpliceAdjacent(s, 24, addr + length, key);
    SpliceAdjacent(s, 24, addr + length + key, [KEYED_DATA_BLOCK]);
  }

  method WriteDescriptor(command: array<byte>, addr: nat, length: nat, key: nat)
    requires command.Length == 64
    modifies command
    ensures command[..] == Splice(old(command[..]), 24, Descriptor(addr, length, key))
  {
    hide Little, Span;
    DescriptorPieces(command[..], Little(addr, 8), Little(length, 3), Little(key, 4));
    hide Splice;
    Put(command, 24, Little(addr, 8));
    Put(command, 32, Little(length, 3));
    Put(command, 35, Little(key, 4));
    Put(command, 39, [KEYED_DATA_BLOCK]);
  }

  method SetKeyedSgl(command: array<byte>, buffer: Buffer, length: Option<int>, offset: int)
    returns (error: Option<Error>)
    requires command.Length == 64
    modifies command
    ensures error == SglError(buffer, length, offset)
    ensures error.Some? ==> command[..] == old(command[..])
    // accepted exactly when the data stays inside the region and every number fits its field
    ensures var l := if length.None? then buffer.length - offset else length.value;
      && (error == None <==>
          && 0 <= offset && 0 < l <= 0xFF_FFFF && offset + l <= buffer.length
          && 0 <= buffer.addr + offset < 0x1_0000_0000_0000_0000 && 0 <= buffer.rkey < 0x1_0000_0000)
      && (error == Some(OffsetOutside) <==> !(0 <= offset <= buffer.length))
      && (error == Some(RangeOutside) <==> 0 <= offset <= buffer.length && !(0 < l && offset + l <= buffer.length))
    // and then the flag and the descriptor are written, and nothing else
    ensures error.None? ==>
      var l := if length.None? then buffer.length - offset else length.value;
      && command[1] as int == old(command[1]) as int + (if old(command[1]) as int / 64 % 2 == 1 then 0 else 64)
      && command[24..32] == Little(buffer.addr + offset, 8) && command[32..35] == Little(l, 3)
      && command[35..39] == Little(buffer.rkey, 4) && command[39] as int == 0x40
      && forall i | 0 <= i < 64 && i != 1 && !(24 <= i < 40) :: command[i] == old(command[i])
    ensures error.None? ==>
      var l := if length.None? then buffer.length - offset else length.value;
      var flagged := old(command[..])[1 := WithFlag(old(command[1]))];
      command[..] == Splice(flagged, 24, Descriptor(buffer.addr + offset, l, buffer.rkey))
  {
    hide Little, Span;
    error := SglError(buffer, length, offset);
    if error.Some? { return; }
    var l := if length.None? then buffer.length - offset else length.value;
    var addr := buffer.addr + offset;
    hide Splice, Descriptor;
    command[1] := WithFlag(command[1]);
    ghost var flagged := command[..];
    assert flagged == old(command[..])[1 := WithFlag(old(command[1]))];
    WriteDescriptor(command, addr, l, buffer.rkey);
    DescriptorFields(flagged, addr, l, buffer.rkey);
    forall i | 0 <= i < 64 && i != 1 && !(24 <= i < 40) ensures command[i] == old(command[i]) {
      assert command[i] == command[..][i] && flagged[i] == old(command[..])[i];
    }
    assert command[1] == command[..][1] && command[39] == command[..][39];
    assert command[24..32] == command[..][24..32] && command[32..35] == command[..][32..35];
    assert command[35..39] == command[..][35..39];
  }

  lemma DescriptorFields(s: seq<byte>, addr: nat, length: nat, key: nat)
    requires |s| == 64
    ensures var bs := Splice(s, 24, Descriptor(addr, length, key));
      && bs[24..32] == Little(addr, 8) && bs[32..35] == Little(length, 3) && bs[35..39] == Little(key, 4)
      && bs[39] as int == 0x40 && forall i | 0 <= i < 64 && !(24 <= i < 40) :: bs[i] == s[i]
  {
    hide Little;
    var d := Descriptor(addr, length, key);
    var bs := Splice(s, 24, d);
    assert bs[24..32] == d[..8] && bs[32..35] == d[8..11] && bs[35..39] == d[11..15] && bs[39] == d[15];
    assert d[..8] == Little(addr, 8) && d[8..11] == Little(length, 3) && d[11..15] == Little(key, 4);
  }

  /** The whole read or write command. */
  function Layout(opcode: int, nsid: nat, addr: nat, length: nat, key: nat, slba: nat, nlb: nat): (r: seq<byte>)
    requires 0 <= opcode < 256
    ensures |r| == 64
  {
    [opcode as byte, PSDT_SGL as byte, 0, 0] + Little(nsid, 4) + Zeros(16) + Descriptor(addr, length, key)
    + (Little(slba, 8) + Little(nlb, 2)) + Zeros(14)
  }

  lemma BuiltInOrder(opcode: int, nsid: nat, addr: nat, length: nat, key: nat, slba: nat, nlb: nat)
    requires 0 <= opcode < 256
    ensures var h := Header(opcode, nsid); h[1 := WithFlag(h[1])] == h
    ensures Splice(Splice(Header(opcode, nsid), 24, Descriptor(addr, length, key)), 40,
                   Little(slba, 8) + Little(nlb, 2))
         == Layout(opcode, nsid, addr, length, key, slba, nlb)
  {
    var h := Header(opcode, nsid);
    var d := Descriptor(addr, length, key);
    var prefix := [opcode as byte, PSDT_SGL as byte, 0, 0] + Little(nsid, 4) + Zeros(16);
    assert h[..24] == prefix;
    assert h[40..] == Zeros(24);
    assert Splice(h, 24, d) == prefix + d + Zeros(24);
    assert (prefix + d + Zeros(24))[..40] == prefix + d;
    assert (prefix + d + Zeros(24))[50..] == Zeros(14);
  }

  lemma LayoutFields(opcode: int, nsid: nat, addr: nat, length: nat, key: nat, slba: nat, nlb: nat)
    requires 0 <= opcode < 256
    ensures var bs := Layout(opcode, nsid, addr, length, key, slba, nlb);
      && bs[0] == opcode as byte && bs[1] == PSDT_SGL as byte && bs[2..4] == [0, 0] && bs[4..8] == Little(nsid, 4)
      && bs[24..32] == Little(addr, 8) && bs[32..35] == Little(length, 3) && bs[35..39] == Little(key, 4)
      && bs[39] == KEYED_DATA_BLOCK && bs[40..48] == Little(slba, 8) && bs[48..50] == Little(nlb, 2)
  {
    hide Little, Span;
  }

  lemma FieldValues(nsid: nat, addr: nat, length: nat, key: nat, slba: nat, nlb: nat)
    requires nsid < 0x1_0000_0000 && addr < 0x1_0000_0000_0000_0000 && length < 0x100_0000 && key < 0x1_0000_0000
    requires slba < 0x1_0000_0000_0000_0000 && nlb < 0x1_0000
    ensures FromLittle([0, 0]) == 0 && FromLittle(Little(nsid, 4)) == nsid && FromLittle(Little(addr, 8)) == addr
    ensures FromLittle(Little(length, 3)) == length && FromLittle(Little(key, 4)) == key
    ensures FromLittle(Little(slba, 8)) == slba && FromLittle(Little(nlb, 2)) == nlb
  {
    assert FromLittle([0, 0]) == 0 by { assert FromLittle([0 as byte]) == 0; }
    hide Little, Span, FromLittle;
    Widths();
    LittleRoundTrip(nsid, 4);
    LittleRoundTrip(addr, 8);
    LittleRoundTrip(length, 3);
    LittleRoundTrip(key, 4);
    LittleRoundTrip(slba, 8);
    LittleRoundTrip(nlb, 2);
  }

  lemma DecodeLayout(opcode: int, nsid: nat, addr: nat, length: nat, key: nat, slba: nat, nlb: nat)
    requires opcode == OPC_READ || opcode == OPC_WRITE
    requires nsid < 0x1_0000_0000 && addr < 0x1_0000_0000_0000_0000 && length < 0x100_0000 && key < 0x1_0000_0000
    requires slba < 0x1_0000_0000_0000_0000 && nlb < 0x1_0000
    ensures Decode(Layout(opcode, nsid, addr, length, key, slba, nlb))
         == Some(Command(opcode, 0, nsid, addr, length, key, slba, nlb + 1))
  {
    hide Little, Span, FromLittle, Layout;
    LayoutFields(opcode, nsid, addr, length, key, slba, nlb);
    FieldValues(nsid, addr, length, key, slba, nlb);
  }

  /** The validation of `rw_command`, in its order; struct packing rejects a namespace id outside 32 bits. */
  function RwError(opcode: int, nsid: int, slba: int, blocks: int, buffer: Buffer, lbaSize: int,
                   offset: int): Option<Error> {
    if opcode != OPC_READ && opcode != OPC_WRITE then Some(BadOpcode)
    else if slba < 0 || slba >= 0x1_0000_0000_0000_0000 then Some(BadLba)
    else if blocks <= 0 || blocks > 65536 then Some(BadBlocks)
    else if lbaSize <= 0 then Some(BadLbaSize)
    else if nsid < 0 || nsid >= 0x1_0000_0000 then Some(BadNsid)
    else SglError(buffer, Some(blocks * lbaSize), offset)
  }

  method NewCommand(opcode: int, nsid: nat) returns (command: array<byte>)
    requires 0 <= opcode < 256
    ensures fresh(command) && command.Length == 64 && command[..] == Header(opcode, nsid)
    ensures command[0] as int == opcode && command[1] as int == 0x40 && command[39] as int == 0x40
    ensures command[4..8] == Little(nsid, 4)
    ensures forall i | 0 <= i < 64 && i != 0 && i != 1 && !(4 <= i < 8) && i != 39 :: command[i] == 0
  {
    hide Little;
    command := new byte[64](_ => 0);
    Put(command, 0, [opcode as byte, PSDT_SGL as byte, 0, 0] + Little(nsid, 4));
    command[39] := KEYED_DATA_BLOCK;
    assert command[..] == Header(opcode, nsid);
    HeaderFields(opcode, nsid);
    forall i | 0 <= i < 64 ensures command[i] == command[..][i] {}
    assert command[4..8] == command[..][4..8];
  }

  lemma HeaderFields(opcode: int, nsid: nat)
    requires 0 <= opcode < 256
    ensures var h := Header(opcode, nsid);
      && h[0] as int == opcode && h[1] as int == 0x40 && h[39] as int == 0x40 && h[4..8] == Little(nsid, 4)
      && forall i | 0 <= i < 64 && i != 0 && i != 1 && !(4 <= i < 8) && i != 39 :: h[i] == 0
  {
    hide Little;
  }

  /** The target decodes exactly the transfer that was asked for. */
  method RwCommand(opcode: int, nsid: int, slba: int, blocks: int, buffer: Buffer, lbaSize: int, offset: int)
    returns (r: Result<seq<byte>, Error>)
    // built exactly when the transfer is well-formed and stays inside its memory region
    ensures r.Ok? <==>
      && (opcode == 1 || opcode == 2) && 0 <= slba < 0x1_0000_0000_0000_0000 && 1 <= blocks <= 65536 && 0 < lbaSize
      && 0 <= nsid < 0x1_0000_0000 && 0 <= offset && offset + blocks * lbaSize <= buffer.length
      && blocks * lbaSize <= 0xFF_FFFF
      && 0 <= buffer.addr + offset < 0x1_0000_0000_0000_0000 && 0 <= buffer.rkey < 0x1_0000_0000
    // and otherwise the first requirement that fails is named
    ensures var opcodeFits, lbaFits := opcode == 1 || opcode == 2, 0 <= slba < 0x1_0000_0000_0000_0000;
      var header := opcodeFits && lbaFits && 1 <= blocks <= 65536 && 0 < lbaSize && 0 <= nsid < 0x1_0000_0000;
      var inside := header && 0 <= offset && offset + blocks * lbaSize <= buffer.length;
      var short := inside && blocks * lbaSize <= 0xFF_FFFF;
      && (r == Err(BadOpcode) <==> !opcodeFits)
      && (r == Err(BadLba) <==> opcodeFits && !lbaFits)
      && (r == Err(BadBlocks) <==> opcodeFits && lbaFits && !(1 <= blocks <= 65536))
      && (r == Err(BadLbaSize) <==> opcodeFits && lbaFits && 1 <= blocks <= 65536 && lbaSize <= 0)
      && (r == Err(BadNsid) <==>
          opcodeFits && lbaFits && 1 <= blocks <= 65536 && 0 < lbaSize && !(0 <= nsid < 0x1_0000_0000))
      && (r == Err(OffsetOutside) <==> header && !(0 <= offset <= buffer.length))
      && (r == Err(RangeOutside) <==>
          header && 0 <= offset <= buffer.length && buffer.length < offset + blocks * lbaSize)
      && (r == Err(TooLong) <==> inside && 0xFF_FFFF < blocks * lbaSize)
      && (r == Err(BadAddress) <==> short && !(0 <= buffer.addr + offset < 0x1_0000_0000_0000_0000))
      && (r == Err(BadKey) <==>
          short && 0 <= buffer.addr + offset < 0x1_0000_0000_0000_0000 && !(0 <= buffer.rkey < 0x1_0000_0000))
    // byte by byte: numbers are little-endian, the block count is one less
    ensures r.Ok? ==>
      && |r.value| == 64 && r.value[0] as int == opcode && r.value[1] as int == 0x40 && r.value[39] as int == 0x40
      && r.value[4..8] == Little(nsid, 4) && r.value[24..32] == Little(buffer.addr + offset, 8)
      && r.value[32..35] == Little(blocks * lbaSize, 3) && r.value[35..39] == Little(buffer.rkey, 4)
      && r.value[40..48] == Little(slba, 8) && r.value[48..50] == Little(blocks - 1, 2)
    ensures r.Err? ==> RwError(opcode, nsid, slba, blocks, buffer, lbaSize, offset) == Some(r.error)
    ensures r.Ok? ==>
      && RwError(opcode, nsid, slba, blocks, buffer, lbaSize, offset) == None && |r.value| == 64
      && Decode(r.value)
         == Some(Command(opcode, 0, nsid, buffer.addr + offset, blocks * lbaSize, buffer.rkey, slba, blocks))
  {
    var refusal := RwError(opcode, nsid, slba, blocks, buffer, lbaSize, offset);
    assert 1 <= blocks && 0 < lbaSize ==> 0 < blocks * lbaSize;
    if refusal.Some? { return Err(refusal.value); }
    hide Decode;
    var bytes := Build(opcode, nsid, slba, blocks, buffer, lbaSize, offset);
    return Ok(bytes);
  }

  /** Build an accepted command in place. */
  method Build(opcode: int, nsid: int, slba: int, blocks: int, buffer: Buffer, lbaSize: int, offset: int)
    returns (bytes: seq<byte>)
    requires RwError(opcode, nsid, slba, blocks, buffer, lbaSize, offset) == None
    ensures |bytes| == 64 && bytes[0] as int == opcode && bytes[1] as int == 0x40 && bytes[39] as int == 0x40
    ensures bytes[4..8] == Little(nsid, 4) && bytes[24..32] == Little(buffer.addr + offset, 8)
    ensures 0 < blocks * lbaSize && bytes[32..35] == Little(blocks * lbaSize, 3)
    ensures bytes[35..39] == Little(buffer.rkey, 4)
    ensures bytes[40..48] == Little(slba, 8) && bytes[48..50] == Little(blocks - 1, 2)
    ensures Decode(bytes)
         == Some(Command(opcode, 0, nsid, buffer.addr + offset, blocks * lbaSize, buffer.rkey, slba, blocks))
  {
    var length := blocks * lbaSize;
    var command := NewCommand(opcode, nsid);
    hide Little, Span, Splice, Descriptor, Header, Layout, Decode;
    var error := SetKeyedSgl(command, buffer, Some(length), offset);
    BuiltInOrder(opcode, nsid, buffer.addr + offset, length, buffer.rkey, slba, blocks - 1);
    Put(command, 40, Little(slba, 8) + Little(blocks - 1, 2));
    DecodeLayout(opcode, nsid, buffer.addr + offset, length, buffer.rkey, slba, blocks - 1);
    LayoutFields(opcode, nsid, buffer.addr + offset, length, buffer.rkey, slba, blocks - 1);
    return command[..];
  }

  // ---------------------------------------------------------------- completion entries

  /** NVM Express Base Specification 1.4, section 4.6. */
  datatype Completion = Completion(result: nat, sqHead: nat, sqId: nat, commandId: nat, statusField: nat) {
    function Status(): nat { statusField / 2 }

    function StatusCode(): nat { Status() % 256 }

    function StatusType(): nat { Status() / 256 % 8 }

    predicate Succeeded() { Status() % 2048 == 0 }
  }

  function FromBytes(bs: seq<byte>): Option<Completion> {
    if |bs| < 16 then None
    else Some(Completion(FromLittle(bs[..8]), FromLittle(bs[8..10]), FromLittle(bs[10..12]), FromLittle(bs[12..14]),
                         FromLittle(bs[14..16])))
  }

  lemma CompletionRoundTrip(c: Completion, rest: seq<byte>)
    requires c.result < Span(8) && c.sqHead < Span(2) && c.sqId < Span(2) && c.commandId < Span(2)
        && c.statusField < Span(2)
    ensures FromBytes(Little(c.result, 8) + Little(c.sqHead, 2) + Little(c.sqId, 2) + Little(c.commandId, 2)
                      + Little(c.statusField, 2) + rest) == Some(c)
  {
    var bs := Little(c.result, 8) + Little(c.sqHead, 2) + Little(c.sqId, 2) + Little(c.commandId, 2)
      + Little(c.statusField, 2) + rest;
    LittleRoundTrip(c.result, 8);
    LittleRoundTrip(c.sqHead, 2);
    LittleRoundTrip(c.sqId, 2);
    LittleRoundTrip(c.commandId, 2);
    LittleRoundTrip(c.statusField, 2);
    assert bs[..8] == Little(c.result, 8);
    assert bs[8..10] == Little(c.sqHead, 2);
    assert bs[10..12] == Little(c.sqId, 2);
    assert bs[12..14] == Little(c.commandId, 2);
    assert bs[14..16] == Little(c.statusField, 2);
  }

  /** The phase bit, the retry bit and the reserved bits do not decide success: code and type do. */
  lemma SucceededExactly(c: Completion)
    ensures c.Succeeded() <==> c.StatusCode() == 0 && c.StatusType() == 0
    ensures c.StatusCode() == c.statusField / 2 % 256 && c.StatusType() == c.statusField / 512 % 8
  {
    var s := c.Status();
    assert s == s / 256 * 256 + s % 256 && s / 256 == s / 256 / 8 * 8 + s / 256 % 8;
    assert s == s / 256 / 8 * 2048 + (s / 256 % 8) * 256 + s % 256;
  }
}

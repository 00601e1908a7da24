/** A command's way from the host script to the struct the debugger reads, and its reply's way back. */
module Wire {
  import opened Words
  import opened Memory
  import opened Mmu
  import opened Table
  import opened Commands
  import opened Session
  import opened Base64

  // ---- The host's side

  /** The attributes of the host's Command object, each in the range struct.pack accepts. */
  datatype HostCommand = HostCommand(
    kind: u8, error: u8, address: u32, size: u32, breakpointType: u32, data: u32, args: seq<u32>, time: u32)

  /** struct.pack('>I', w) */
  function BigEndian(w: u32): (b: seq<u8>)
    ensures |b| == 4
  {
    [w / 0x100_0000, w / 0x1_0000 % 0x100, w / 0x100 % 0x100, w % 0x100]
  }

  /** The bytes Command.pack produces. */
  function Packed(c: HostCommand): (b: seq<u8>)
    requires |c.args| == 4
  {
    [c.kind, c.error] +
    (if c.kind == 3 then BytesOf(c.address) + BytesOf(c.size)
     else if c.kind == 4 then BytesOf(c.address) + BytesOf(c.size) + BigEndian(c.data)
     else if c.kind == 5 || c.kind == 6 then BytesOf(c.address) + BytesOf(c.breakpointType)
     else if c.kind == 50 then
       BytesOf(c.address) + BytesOf(c.args[0]) + BytesOf(c.args[1]) + BytesOf(c.args[2]) + BytesOf(c.args[3])
     else if c.kind == 80 then BytesOf(c.time)
     else [])
  }

  /** Command.pack: `packed` grows field by field. */
  method Pack(c: HostCommand) returns (packed: seq<u8>)
    requires |c.args| == 4
    ensures packed == Packed(c)
  {
    hide BytesOf, BigEndian;
    packed := [c.kind];
    packed := packed + [c.error];
    if c.kind == 3 {
      packed := packed + BytesOf(c.address);
      packed := packed + BytesOf(c.size);
    } else if c.kind == 4 {
      packed := packed + BytesOf(c.address);
      packed := packed + BytesOf(c.size);
      packed := packed + BigEndian(c.data);
    } else if c.kind == 5 {
      packed := packed + BytesOf(c.address);
      packed := packed + BytesOf(c.breakpointType);
    } else if c.kind == 6 {
      packed := packed + BytesOf(c.address);
      packed := packed + BytesOf(c.breakpointType);
    } else if c.kind == 50 {
      packed := packed + BytesOf(c.address);
      packed := packed + BytesOf(c.args[0]);
      packed := packed + BytesOf(c.args[1]);
      packed := packed + BytesOf(c.args[2]);
      packed := packed + BytesOf(c.args[3]);
    } else if c.kind == 80 {
      packed := packed + BytesOf(c.time);
    }
  }

  const OEM: seq<u8> := [111, 101, 109, 32]
  const KEYTEST: seq<u8> := [107, 101, 121, 116, 101, 115, 116, 32]

  /** What HbootClient.hbootdbg writes to the line. */
  function Sent(fastboot: bool, cmd: seq<u8>): seq<u8> {
    if fastboot then OEM + Encode(cmd) else KEYTEST + Encode(cmd) + [10]
  }

  // ---- The device's side

  /** breakpoint_handler strips "oem " when the first byte is 'o', "keytest " otherwise. */
  function Stripped(buf: seq<u8>): seq<u8>
    requires |buf| >= 8
  {
    if buf[0] == 111 then buf[4..] else buf[8..]
  }

  function Field(buf: seq<u8>, off: nat): u32
    requires off + 4 <= |buf|
  {
    WordOf(buf[off..off + 4])
  }

  datatype Received = Received(error: u8, command: Command) | BeyondBuffer

  /** The packed command struct at the start of the decode buffer: type and error in one byte each,
      then the members of the union. A write whose data would lie behind the buffer has no value
      here. */
  function CommandAt(buf: seq<u8>): Received
    requires |buf| >= 22
  {
    var kind, addr := buf[0], Field(buf, 2);
    if kind == 4 && 10 + Field(buf, 6) > |buf| then BeyondBuffer
    else Received(buf[1],
      if kind == 1 then Attach
      else if kind == 2 then Detach
      else if kind == 3 then ReadMemory(addr, Field(buf, 6))
      else if kind == 4 then WriteMemory(addr, buf[10..10 + Field(buf, 6)])
      else if kind == 5 then InsertBreakpoint(addr, buf[6])
      else if kind == 6 then RemoveBreakpoint(addr, buf[6])
      else if kind == 7 then Continue
      else if kind == 8 then GetRegisters
      else if kind == 50 then Call(addr, [Field(buf, 6), Field(buf, 10), Field(buf, 14), Field(buf, 18)])
      else if kind == 51 then Reboot
      else if kind == 55 then Break
      else if kind == 80 then Flashlight(addr)
      else Other(kind))
  }

  /** What the host means: of a breakpoint type one byte is carried, of a write four bytes. */
  function Meant(c: HostCommand): Command
    requires |c.args| == 4 && (c.kind == 4 ==> c.size <= 4)
  {
    if c.kind == 1 then Attach
    else if c.kind == 2 then Detach
    else if c.kind == 3 then ReadMemory(c.address, c.size)
    else if c.kind == 4 then WriteMemory(c.address, BigEndian(c.data)[..c.size])
    else if c.kind == 5 then InsertBreakpoint(c.address, c.breakpointType % 0x100)
    else if c.kind == 6 then RemoveBreakpoint(c.address, c.breakpointType % 0x100)
    else if c.kind == 7 then Continue
    else if c.kind == 8 then GetRegisters
    else if c.kind == 50 then Call(c.address, c.args)
    else if c.kind == 51 then Reboot
    else if c.kind == 55 then Break
    else if c.kind == 80 then Flashlight(c.time)
    else Other(c.kind)
  }

  /** What the device makes of a packed command that `after` follows in its buffer: a write of more
      than the four bytes that were sent goes on into whatever lies there. */
  function Understood(c: HostCommand, after: seq<u8>): Received
    requires |c.args| == 4
  {
    if c.kind == 4 && c.size > 4 then
      if c.size - 4 > |after| then BeyondBuffer
      else Received(c.error, WriteMemory(c.address, BigEndian(c.data) + after[..c.size - 4]))
    else Received(c.error, Meant(c))
  }

  /** Reading the struct undoes the packing, whatever follows it in the buffer. */
  lemma StructUndoesPack(c: HostCommand, buf: seq<u8>)
    requires |c.args| == 4 && Packed(c) <= buf && |buf| >= 22
    ensures CommandAt(buf) == Understood(c, buf[|Packed(c)|..])
  {
    hide WordOf, BytesOf, BigEndian;
    var p := Packed(c);
    assert buf[..|p|] == p;
    WordOfBytesOf(c.address);
    WordOfBytesOf(c.size);
    WordOfBytesOf(c.time);
    if c.kind == 3 {
      assert buf[2..6] == p[2..6] == BytesOf(c.address) && buf[6..10] == p[6..10] == BytesOf(c.size);
    } else if c.kind == 4 {
      WriteUndoesPack(c, buf);
    } else if c.kind == 5 || c.kind == 6 {
      assert buf[2..6] == p[2..6] == BytesOf(c.address) && buf[6..10] == p[6..10] == BytesOf(c.breakpointType);
      assert buf[6] == buf[6..10][0];
      FirstByte(c.breakpointType);
    } else if c.kind == 50 {
      CallUndoesPack(c, buf);
    } else if c.kind == 80 {
      assert buf[2..6] == p[2..6] == BytesOf(c.time);
    }
  }

  lemma WriteUndoesPack(c: HostCommand, buf: seq<u8>)
    requires |c.args| == 4 && c.kind == 4 && Packed(c) <= buf && |buf| >= 22
    ensures |Packed(c)| == 14 && CommandAt(buf) == Understood(c, buf[14..])
  {
    hide WordOf, BytesOf, BigEndian;
    var p := Packed(c);
    assert buf[..|p|] == p;
    WordOfBytesOf(c.address);
    WordOfBytesOf(c.size);
    assert buf[2..6] == p[2..6] == BytesOf(c.address) && buf[6..10] == p[6..10] == BytesOf(c.size);
    assert buf[10..14] == p[10..14] == BigEndian(c.data);
    if c.size <= 4 {
      assert buf[10..10 + c.size] == buf[10..14][..c.size];
    } else if 10 + c.size <= |buf| {
      assert buf[10..10 + c.size] == buf[10..14] + buf[14..][..c.size - 4];
    }
  }

  lemma FirstByte(w: u32)
    ensures BytesOf(w)[0] == w % 0x100
  {
  }

  lemma CallUndoesPack(c: HostCommand, buf: seq<u8>)
    requires |c.args| == 4 && c.kind == 50 && Packed(c) <= buf && |buf| >= 22
    ensures Field(buf, 2) == c.address
    ensures [Field(buf, 6), Field(buf, 10), Field(buf, 14), Field(buf, 18)] == c.args
  {
    hide WordOf, BytesOf;
    var p := Packed(c);
    assert buf[..22] == p;
    assert buf[2..6] == p[2..6] == BytesOf(c.address) && buf[6..10] == p[6..10] == BytesOf(c.args[0]);
    assert buf[10..14] == p[10..14] == BytesOf(c.args[1]) && buf[14..18] == p[14..18] == BytesOf(c.args[2]);
    assert buf[18..22] == p[18..22] == BytesOf(c.args[3]);
    WordOfBytesOf(c.address);
    WordOfBytesOf(c.args[0]);
    WordOfBytesOf(c.args[1]);
    WordOfBytesOf(c.args[2]);
    WordOfBytesOf(c.args[3]);
  }

  // ---- The line between them

  lemma {:induction false} NoNulInLetters(xs: seq<Sextet>)
    ensures 0 !in Letters(xs)
  {
    if xs != [] {
      NoNulInLetters(xs[1..]);
    }
  }

  /** What the device decodes from its receive buffer begins with the packed command, for both
      prefixes and both kinds of `char`. `junk` is the rest of the buffer: characters of an older
      line may follow the new one directly, up to the first NUL. */
  lemma LineDecodes(signed: bool, fastboot: bool, cmd: seq<u8>, junk: seq<u8>)
    requires 0 in junk
    ensures |Sent(fastboot, cmd) + junk| >= 8 ==>
      cmd <= DecodeText(signed, INIT, Text(Stripped(Sent(fastboot, cmd) + junk))).out
  {
    hide Encode, DecodeText, Text;
    var tail: seq<u8> := if fastboot then [] else [10];
    var code := Encode(cmd) + tail;
    var line := Sent(fastboot, cmd) + junk;
    if |line| >= 8 {
      assert Stripped(line) == code + junk;
      NoNulInCode(cmd, tail);
      TextAfter(code, junk);
      assert code + Text(junk) == Encode(cmd) + (tail + Text(junk));
      DecodeEncodedPrefix(signed, cmd, tail + Text(junk));
    }
  }

  lemma {:induction false} TextAfter(code: seq<u8>, junk: seq<u8>)
    requires 0 !in code
    ensures Text(code + junk) == code + Text(junk)
  {
    if code == [] {
      assert code + junk == junk;
    } else {
      assert (code + junk)[0] == code[0];
      TextAfter(code[1..], junk);
      assert (code + junk)[1..] == code[1..] + junk;
    }
  }

  lemma NoNulInCode(cmd: seq<u8>, tail: seq<u8>)
    requires 0 !in tail
    ensures 0 !in Encode(cmd) + tail
  {
    hide Letters, EncodeSextets;
    NoNulInLetters(EncodeSextets(cmd));
  }

  lemma {:induction false} SextetsBound(signed: bool, code: seq<u8>)
    ensures |Sextets(signed, code)| <= |code|
  {
    if code != [] {
      SextetsOne(signed, code[0]);
      SextetsBound(signed, code[1..]);
    }
  }

  /** The receiving half of breakpoint_handler: strip, decode into the buffer, look at the struct. A
      buffer that begins with the line of a packed command yields that command, whatever an older
      line has left behind it, and of a longer write what the decode buffer holds by then. */
  method ReceiveCommand(signed: bool, line: seq<u8>, decoded: array<u8>) returns (r: Received)
    requires 8 <= |line| <= 1024 && decoded.Length == 1024 && 0 in Stripped(line)
    modifies decoded
    ensures forall fastboot, c: HostCommand, junk ::
      |c.args| == 4 && line == Sent(fastboot, Packed(c)) + junk ==>
        Packed(c) <= decoded[..] && r == Understood(c, decoded[..][|Packed(c)|..])
  {
    hide DecodeText, Text, Packed, Sent, CommandAt, Understood, Stripped;
    assert |Stripped(line)| <= 1024 by { StrippedRest(line); }
    RoomForDecoding(signed, Stripped(line));
    var count := Decode(signed, Stripped(line), decoded);
    r := CommandAt(decoded[..]);
    forall fastboot, c: HostCommand, junk | |c.args| == 4 && line == Sent(fastboot, Packed(c)) + junk
      ensures Packed(c) <= decoded[..] && r == Understood(c, decoded[..][|Packed(c)|..])
    {
      NulBehind(fastboot, Packed(c), junk);
      LineDecodes(signed, fastboot, Packed(c), junk);
      StructUndoesPack(c, decoded[..]);
    }
  }

  lemma StrippedRest(line: seq<u8>)
    requires |line| >= 8
    ensures |Stripped(line)| <= |line|
  {
  }

  /** The encoding holds no NUL, so the first one lies behind it. */
  lemma NulBehind(fastboot: bool, cmd: seq<u8>, junk: seq<u8>)
    requires |Sent(fastboot, cmd) + junk| >= 8 && 0 in Stripped(Sent(fastboot, cmd) + junk)
    ensures 0 in junk
  {
    hide Encode;
    var tail: seq<u8> := if fastboot then [] else [10];
    assert Stripped(Sent(fastboot, cmd) + junk) == Encode(cmd) + tail + junk;
    NoNulInCode(cmd, tail);
  }

  lemma {:induction false} TextBound(input: seq<u8>)
    ensures |Text(input)| <= |input|
  {
    if input != [] && input[0] != 0 {
      TextBound(input[1..]);
    }
  }

  lemma RoomForDecoding(signed: bool, input: seq<u8>)
    requires |input| <= 1024
    ensures |DecodeText(signed, INIT, Text(input)).out| < 1024
  {
    TextBound(input);
    SextetsBound(signed, Text(input));
    FoldLength(INIT, Sextets(signed, Text(input)));
  }

  // ---- A write and the read that follows it

  /** Command.unpack of the reply to a read: what follows type and error. */
  function ReplyData(reply: seq<u8>): seq<u8>
    requires |reply| >= 2
  {
    reply[2..]
  }

  /** A successful 4-byte write followed by a successful read of the same bytes: the host gets the
      value it wrote, big-endian. */
  lemma WriteThenRead(env: Env, st: State, value: u32, address: u32)
    requires WellFormed(st.mem, env.status)
    requires ProbeRead(st.mem, env.mmu, address, 4)
    ensures var c := HostCommand(4, 0, address, 4, 0, value, [0, 0, 0, 0], 0);
      var st1 := Dispatch(env, st, Meant(c));
      WellFormed(st1.mem, env.status) && ProbeRead(st1.mem, env.mmu, address, 4) ==>
        var st2 := Dispatch(env, st1, Meant(c.(kind := 3)));
        && st1.sent == st.sent + [4, 0] && st2.sent == st1.sent + [3, 0] + BigEndian(value)
        && ReplyData(st2.sent[|st1.sent|..]) == BigEndian(value)
  {
    hide ProbeRead, Write, Read, BigEndian, WellFormed, Insert, Remove, Clear;
    assert BigEndian(value)[..4] == BigEndian(value);
    ReadWritten(st.mem, address, BigEndian(value));
  }

  // ---- A write without permission

  /** Memory mapped without access, with an empty table. */
  function NoAccessState(s: u32): State
    requires ValidStatus(s)
  {
    State(Clear(NoAccess(), s), 0, [])
  }

  /** The byte at addr and the descriptor of its section lie off the table. */
  predicate OffTable(env: Env, addr: u32) {
    && ValidStatus(env.status) && !InStatus(env.status, addr)
    && var d := Wrap(env.mmu.ttbr / 0x4000 * 0x4000 + 4 * (addr / SECTION));
    d + 4 <= WORD_RANGE && (d + 4 <= env.status || env.status + STATUS_SIZE <= d)
  }

  /** cmd_write asks mmu_probe_read: with a protection bit set there is a state in which it writes
      where mmu_probe_write refuses, and reports success. */
  lemma WritesWithoutPermission(env: Env, addr: u32)
    requires !Unprotected(env.mmu) && OffTable(env, addr)
    ensures var st := NoAccessState(env.status);
      && WellFormed(st.mem, env.status) && !ProbeWrite(st.mem, env.mmu, addr, 1)
      && var st' := Dispatch(env, st, WriteMemory(addr, [1]));
      st'.sent == [4, 0] && st.mem[addr] == 2 && st'.mem[addr] == 1
  {
    var st := NoAccessState(env.status);
    EmptyTable(env.status);
    ProbedWithoutPermission(env, addr);
    Everywhere(addr);
    ClearEffect(NoAccess(), env.status);
    AcceptedWrite(env, st, addr, [1]);
    WrittenAt(st.mem, addr, [1], addr);
    assert Wrap(addr - addr) == 0;
    hide LoadWord, Write, Clear, ProbeRead, ProbeWrite, WellFormed, Dispatch, NoAccess;
  }

  /** Such states exist, for instance with the table at 0 and the descriptors at 0x4000. */
  lemma PermissionWitness()
    ensures !Unprotected(MmuRegisters(0x4000, 0x100)) && OffTable(Env(0, MmuRegisters(0x4000, 0x100), 0), 0x10_0000)
  {
  }

  lemma EmptyTable(s: u32)
    requires ValidStatus(s)
    ensures WellFormed(NoAccessState(s).mem, s)
  {
    hide LoadWord, Clear, NoAccess;
    ClearEffect(NoAccess(), s);
    assert Entries(NoAccessState(s).mem, s) == [];
  }

  lemma AcceptedWrite(env: Env, st: State, addr: u32, data: seq<u8>)
    requires WellFormed(st.mem, env.status) && |data| < WORD_RANGE && ProbeRead(st.mem, env.mmu, addr, |data|)
    ensures var st' := Dispatch(env, st, WriteMemory(addr, data));
            st'.mem == Write(st.mem, addr, data) && st'.sent == st.sent + [4, 0]
  {
    hide Write, ProbeRead, WellFormed;
  }

  lemma ProbedWithoutPermission(env: Env, addr: u32)
    requires !Unprotected(env.mmu) && OffTable(env, addr)
    ensures var m := NoAccessState(env.status).mem;
            ProbeRead(m, env.mmu, addr, 1) && !ProbeWrite(m, env.mmu, addr, 1)
  {
    var m, section := NoAccessState(env.status).mem, addr / SECTION;
    NoAccessDescriptor(env.mmu, section);
    DescriptorKept(env, addr);
    OneSection(addr);
    assert !Writable(m, env.mmu, section) && Readable(m, env.mmu, section);
    hide Readable, Writable, SectionCount, Clear, Unprotected;
  }

  lemma OneSection(addr: u32)
    ensures SectionCount(addr, 1) == 1
  {
    var q := addr / SECTION;
    assert Wrap(addr + SECTION) / SECTION * SECTION == Wrap((q + 1) * SECTION);
  }

  lemma DescriptorKept(env: Env, addr: u32)
    requires OffTable(env, addr)
    ensures Descriptor(NoAccessState(env.status).mem, env.mmu, addr / SECTION) ==
            Descriptor(NoAccess(), env.mmu, addr / SECTION)
  {
    hide LoadWord, Clear, NoAccess;
    var m := NoAccessState(env.status).mem;
    var d := Wrap(env.mmu.ttbr / 0x4000 * 0x4000 + 4 * (addr / SECTION));
    ClearEffect(NoAccess(), env.status);
    forall b | d <= b < d + 4 ensures NoAccess()[b] == m[b] {
      assert !InStatus(env.status, b);
    }
    LoadSame(NoAccess(), m, d);
  }

  /** The line the host writes: the prefix, the encoding and, outside fastboot mode, a newline. */
  lemma SentBytes(fastboot: bool, cmd: seq<u8>)
    ensures Sent(fastboot, cmd) ==
            if fastboot then Ascii("oem ") + Encode(cmd) else Ascii("keytest ") + Encode(cmd) + Ascii("\n")
  {
    assert OEM == Ascii("oem ") && KEYTEST == Ascii("keytest ") && [10] == Ascii("\n");
  }

  /** Two commands byte by byte: a read, whose fields are little-endian, and a write, whose value is not. */
  lemma PackedBytes(c: HostCommand)
    requires |c.args| == 4 && c.address == 0x0403_0201 && c.size == 4 && c.data == 0x0a0b_0c0d
    ensures c.kind == 3 ==> Packed(c) == [3, c.error, 1, 2, 3, 4, 4, 0, 0, 0]
    ensures c.kind == 4 ==> Packed(c) == [4, c.error, 1, 2, 3, 4, 4, 0, 0, 0, 0x0a, 0x0b, 0x0c, 0x0d]
    ensures c.kind == 7 ==> Packed(c) == [7, c.error]
  {
    assert BytesOf(c.address) == [1, 2, 3, 4] && BytesOf(c.size) == [4, 0, 0, 0];
    assert BigEndian(c.data) == [0x0a, 0x0b, 0x0c, 0x0d];
    hide BytesOf, BigEndian;
  }
}

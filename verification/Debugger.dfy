/** The debugger proper (dbg.c): its static state lies in the target's memory and is updated there. */
module Debugger {
  import opened Words
  import opened Memory
  import opened Branch
  import opened Table
  import opened Mmu
  import opened Commands
  import opened Session
  import opened Overlay
  import opened Replies
  import opened HbootLib

  function Flatten(packets: seq<seq<u8>>): seq<u8> {
    if packets == [] then [] else Flatten(packets[..|packets| - 1]) + packets[|packets| - 1]
  }

  class Debugger {
    const ram: array<u8>
    const env: Env
    const iLine: int
    const dLine: int
    /** The arguments of every __usb_send so far. */
    var packets: seq<seq<u8>>
    /** Bytes stored since their line was last invalidated in the instruction or in the data cache. */
    ghost var stale: set<u32>

    ghost predicate Ready() {
      ram.Length == WORD_RANGE && ValidStatus(env.status) && IsLineSize(iLine) && IsLineSize(dLine)
    }

    ghost predicate Valid()
      reads ram
    {
      Ready() && WellFormed(ram[..], env.status)
    }

    /** The debugger as a state of the session model. */
    ghost function At(ctx: u32): State
      reads this, ram
      requires Ready()
    {
      State(ram[..], ctx, Flatten(packets))
    }

    constructor (ram: array<u8>, env: Env, iLine: int, dLine: int)
      requires ram.Length == WORD_RANGE && ValidStatus(env.status) && IsLineSize(iLine) && IsLineSize(dLine)
      ensures this.ram == ram && this.env == env && this.iLine == iLine && this.dLine == dLine
      ensures Ready() && packets == [] && stale == {}
    {
      this.ram, this.env, this.iLine, this.dLine := ram, env, iLine, dLine;
      packets, stale := [], {};
    }

    method UsbSend(data: seq<u8>)
      modifies this`packets
      ensures packets == old(packets) + [data]
      ensures Flatten(packets) == Flatten(old(packets)) + data
    {
      packets := packets + [data];
      assert packets[..|packets| - 1] == old(packets);
    }

    method CmdError(c: Command, e: ErrorCode)
      modifies this`packets
      ensures packets == old(packets) + [[TypeByte(c), ErrorByte(e)]]
      ensures Flatten(packets) == Flatten(old(packets)) + [TypeByte(c), ErrorByte(e)]
    {
      UsbSend([TypeByte(c), ErrorByte(e)]);
    }

    /** A store of the debugger: the bytes are stale until their cache lines are invalidated. */
    method Set(a: u32, data: seq<u8>)
      requires Ready() && |data| <= WORD_RANGE
      modifies ram, this`stale
      ensures ram[..] == Write(old(ram[..]), a, data)
      ensures stale == old(stale) + Range(a, |data|)
    {
      Poke(ram, a, data);
      stale := stale + Range(a, |data|);
    }

    /** mmu_invalidate_cache_line: the line of a, in each cache by its own line size. */
    method InvalidateCacheLine(a: u32)
      requires Ready()
      modifies this`stale
      ensures stale == old(stale) - (LineBytes(a, iLine) * LineBytes(a, dLine))
    {
      stale := stale - (LineBytes(a, iLine) * LineBytes(a, dLine));
    }

    method DbgInit()
      requires Ready()
      modifies ram, this`stale
      ensures ram[..] == Clear(old(ram[..]), env.status)
      ensures stale == old(stale) + Range(env.status, STATUS_SIZE)
    {
      MemSet(ram, env.status, 0, STATUS_SIZE);
      stale := stale + Range(env.status, STATUS_SIZE);
    }

    method GetBreakpoint(addr: u32) returns (k: nat)
      requires Ready() && TableOk(ram[..], env.status)
      ensures k == IndexOf(Entries(ram[..], env.status), addr)
    {
      hide LoadWord;
      ghost var es := Entries(ram[..], env.status);
      k := 0;
      while k < BpSize(ram[..], env.status)
        invariant k <= |es|
        invariant forall j :: 0 <= j < k ==> es[j].address != addr
      {
        assert es[k].address == LoadWord(ram[..], SlotAt(env.status, k) + 4);
        if LoadWord(ram[..], SlotAt(env.status, k) + 4) == addr {
          return;
        }
        k := k + 1;
      }
    }

    /** The slot taken, or None when all are in use. */
    method AllocBreakpoint() returns (n: nat, ok: bool)
      requires Ready() && TableOk(ram[..], env.status)
      modifies ram, this`stale
      ensures n == BpSize(old(ram[..]), env.status) && ok == (n < NBR_POINTS)
      ensures ram[..] == if ok then StoreWord(old(ram[..]), env.status + 1284, n + 1) else old(ram[..])
      ensures stale <= old(stale) + Range(env.status, STATUS_SIZE) && (!ok ==> stale == old(stale))
    {
      n := BpSize(ram[..], env.status);
      if n >= NBR_POINTS {
        return n, false;
      }
      Set(env.status + 1284, BytesOf(n + 1));
      PartOf(env.status, STATUS_SIZE, env.status + 1284, 4);
      ok := true;
    }

    /** free_breakpoint(&bp[k]). The slot copy is not followed by any cache maintenance. */
    method FreeBreakpoint(k: nat)
      requires Ready() && TableOk(ram[..], env.status) && k < BpSize(ram[..], env.status)
      modifies ram, this`stale
      ensures ram[..] == Free(old(ram[..]), env.status, k)
      ensures stale <= old(stale) + Range(env.status, STATUS_SIZE)
      ensures old(stale) <= stale
      ensures var j := IndexOf(Entries(old(ram[..]), env.status), EntryAt(old(ram[..]), env.status, k).address);
              j < NBR_POINTS && Range(SlotAt(env.status, j) + 8, 8) <= stale
    {
      hide LoadWord, Write, Read, Wrap;
      ghost var m: Memory := ram[..];
      ghost var es := Entries(m, env.status);
      var n := BpSize(ram[..], env.status);
      var address := LoadWord(ram[..], SlotAt(env.status, k) + 4);
      assert es[k].address == address;
      var i := 0;
      while i < n
        invariant i <= n && ram[..] == m && stale == old(stale)
        invariant forall j :: 0 <= j < i ==> es[j].address != address
      {
        assert es[i].address == LoadWord(ram[..], SlotAt(env.status, i) + 4);
        if LoadWord(ram[..], SlotAt(env.status, i) + 4) == address {
          IsFirst(es, address, i);
          Set(SlotAt(env.status, i), Read(ram[..], SlotAt(env.status, n - 1), 20));
          Set(env.status + 1284, BytesOf(n - 1));
          PartOf(env.status, STATUS_SIZE, SlotAt(env.status, i), 20);
          PartOf(env.status, STATUS_SIZE, env.status + 1284, 4);
          PartOf(SlotAt(env.status, i), 20, SlotAt(env.status, i) + 8, 8);
          return;
        }
        i := i + 1;
      }
    }

    /** The field stores of insert_breakpoint and the invalidation of the two words that will run. */
    method FillEntry(n: nat, addr: u32, kind: u8)
      requires Ready() && n < NBR_POINTS
      modifies ram, this`stale
      ensures ram[..] == FillFields(old(ram[..]), SlotAt(env.status, n), addr, kind)
      ensures stale <= old(stale) + Range(env.status, STATUS_SIZE)
      ensures Range(SlotAt(env.status, n) + 8, 8) !! stale
    {
      hide LoadWord, Write, Read, Wrap, GetBranch, BytesOf, Range, LineBytes;
      var a := SlotAt(env.status, n);
      Set(a, [kind]);
      Set(a + 4, BytesOf(addr));
      Set(a + 16, [1]);
      Set(a + 8, BytesOf(LoadWord(ram[..], addr)));
      Set(a + 12, BytesOf(GetBranch(a + 12, Wrap(addr + 4))));
      InvalidateCacheLine(a + 8);
      InvalidateCacheLine(a + 12);
      SlotParts(env.status, n);
      WordInLine(a + 8, iLine, dLine);
      WordInLine(a + 12, iLine, dLine);
    }

    /** A word of code is replaced and its line invalidated. */
    method PatchWord(addr: u32, w: u32)
      requires Ready()
      modifies ram, this`stale
      ensures ram[..] == StoreWord(old(ram[..]), addr, w)
      ensures stale <= old(stale) + Range(addr, 4)
      ensures addr % 4 == 0 ==> Range(addr, 4) !! stale
    {
      hide LoadWord, Write, BytesOf, Range, LineBytes;
      Set(addr, BytesOf(w));
      InvalidateCacheLine(addr);
      if addr % 4 == 0 { WordInLine(addr, iLine, dLine); }
    }

    method InsertBreakpoint(addr: u32, kind: u8) returns (e: ErrorCode)
      requires Valid()
      modifies ram, this`stale
      ensures (ram[..], e) == Insert(old(ram[..]), env.status, addr, kind)
      ensures Disjoint(addr, 4, env.status, STATUS_SIZE) ==> Valid()
      ensures stale <= old(stale) + Range(env.status, STATUS_SIZE) + Range(addr, 4)
      ensures e == Success && addr % 4 == 0 ==> Range(addr, 4) !! stale
      ensures e != Success ==> stale == old(stale)
      ensures e == Success && Disjoint(addr, 4, env.status, STATUS_SIZE) ==>
        var n := BpSize(old(ram[..]), env.status); n < NBR_POINTS && Range(SlotAt(env.status, n) + 8, 8) !! stale
    {
      hide LoadWord, Write, Read, Wrap, GetBranch, BytesOf, FillFields, Range, Disjoint, IndexOf, Patches, Remove,
           StoreWord;
      ghost var m: Memory := ram[..];
      var k := GetBreakpoint(addr);
      if k < BpSize(ram[..], env.status) {
        return BreakpointAlreadyExists;
      }
      var n, ok := AllocBreakpoint();
      if !ok {
        return NoMemoryAvailable;
      }
      FillEntry(n, addr, kind);
      PatchWord(addr, ARM_BKPT);
      if Disjoint(addr, 4, env.status, STATUS_SIZE) {
        TableRefinesMap(m, env.status, addr, kind);
        SlotApart(env.status, n, addr);
      }
      e := Success;
    }

    method RemoveBreakpoint(addr: u32) returns (e: ErrorCode)
      requires Valid()
      modifies ram, this`stale
      ensures (ram[..], e) == Remove(old(ram[..]), env.status, addr)
      ensures Valid()
      ensures stale <= old(stale) + Range(env.status, STATUS_SIZE) + Range(addr, 4)
      ensures e == Success && addr % 4 == 0 ==> Range(addr, 4) !! stale
      ensures e != Success ==> stale == old(stale)
      ensures e == Success ==>
        var k := IndexOf(Entries(old(ram[..]), env.status), addr);
        k < NBR_POINTS && Range(SlotAt(env.status, k) + 8, 8) <= stale
    {
      hide LoadWord, Write, Read, Wrap, BytesOf, Range, Free, Disjoint, IndexOf, Patches, Insert;
      ghost var m: Memory := ram[..];
      ghost var es := Entries(m, env.status);
      var k := GetBreakpoint(addr);
      if k == BpSize(ram[..], env.status) {
        return NoBreakpoint;
      }
      var saved := EntryAt(ram[..], env.status, k).saved;
      PatchWord(addr, saved);
      assert Disjoint(es[k].address, 4, env.status, STATUS_SIZE);
      TableUntouched(m, env.status, addr, BytesOf(saved));
      TableApart(env.status, addr);
      IndexOfEntry(es, k);
      FreeBreakpoint(k);
      TableRefinesMap(m, env.status, addr, 0);
      e := Success;
    }

    /** mmu_invalidate_cache_range: both caches, each by its own lines. */
    method InvalidateCacheRange(addr: u32, size: u32)
      requires Ready() && LoopStops(addr, size, iLine) && LoopStops(addr, size, dLine)
      modifies this`stale
      ensures stale <= old(stale)
      ensures addr + size < WORD_RANGE ==> Range(addr, size) !! stale
    {
      var iLines := InvalidateRange(addr, size, iLine);
      var dLines := InvalidateRange(addr, size, dLine);
      stale := stale - (InLines(iLines, iLine) * InLines(dLines, dLine));
      if addr + size < WORD_RANGE {
        forall b: u32 | InRange(addr, size, b) ensures LineOf(b, iLine) in iLines && LineOf(b, dLine) in dLines {
          WrapDifference(b, addr);
        }
      }
    }

    // ---- Commands

    method CmdRead(addr: u32, size: u32)
      requires Ready()
      modifies this`packets
      ensures Flatten(packets) == Flatten(old(packets)) + ReadReply(ram[..], env.mmu, addr, size)
      ensures forall k :: |old(packets)| < k < |packets| ==> |packets[k]| <= 1024
    {
      hide LoadWord, Wrap;
      var c := ReadMemory(addr, size);
      var ok := MmuProbeRead(ram, env.mmu, addr, size);
      if !ok {
        CmdError(c, UnmappedMemory);
        return;
      }
      CmdError(c, Success);
      ghost var sent := Flatten(packets);
      var at, count := addr, size;
      WrapDifference(addr, 0);
      while count > 0
        invariant 0 <= count <= size && at == Wrap(addr + (size - count))
        invariant Flatten(packets) == sent + Read(ram[..], addr, size - count)
        invariant |packets| > |old(packets)|
        invariant forall k :: |old(packets)| < k < |packets| ==> |packets[k]| <= 1024
        decreases count
      {
        var len := if count < 1024 then count else 1024;
        UsbSend(Read(ram[..], at, len));
        ReadChunk(ram[..], addr, size - count, len);
        count := count - len;
        at := Wrap(at + len);
        WrapTwice(addr, size - count - len, len);
      }
    }

    /** `data` is what follows the header in the command buffer; cmd_write asks mmu_probe_read, and
        its cache maintenance ends only if the range does not reach into the last line of memory. */
    method CmdWrite(addr: u32, data: seq<u8>)
      requires Ready() && |data| < WORD_RANGE
      requires ProbeRead(ram[..], env.mmu, addr, |data|) ==>
        LoopStops(addr, |data|, iLine) && LoopStops(addr, |data|, dLine)
      modifies this, ram
      ensures var ok := ProbeRead(old(ram[..]), env.mmu, addr, |data|);
        && ram[..] == (if ok then Write(old(ram[..]), addr, data) else old(ram[..]))
        && Flatten(packets) == Flatten(old(packets)) + [4, if ok then 0 else 7]
        && stale <= old(stale) + (if ok then Range(addr, |data|) else {})
        && (ok && addr + |data| < WORD_RANGE ==> Range(addr, |data|) !! stale)
    {
      hide LoadWord, Wrap, Write, Range, LoopStops;
      var c := WriteMemory(addr, data);
      var ok := MmuProbeRead(ram, env.mmu, addr, |data|);
      if !ok {
        CmdError(c, UnmappedMemory);
        return;
      }
      Set(addr, data);
      InvalidateCacheRange(addr, |data|);
      CmdError(c, Success);
    }

    /** int_install_exception_handlers: a branch to the handler, cut to 24 bits, at the vector. */
    method InstallExceptionHandlers()
      requires Ready()
      modifies ram, this`stale
      ensures ram[..] == StoreWord(old(ram[..]), PREFETCH_VECTOR, GetBranch(PREFETCH_VECTOR, env.handler % 0x100_0000))
      ensures stale <= old(stale) + Range(PREFETCH_VECTOR, 4) && Range(PREFETCH_VECTOR, 4) !! stale
    {
      PatchWord(PREFETCH_VECTOR, GetBranch(PREFETCH_VECTOR, env.handler % 0x100_0000));
    }

    method CmdAttach()
      requires Ready()
      modifies this, ram
      ensures ram[..] == AttachMemory(env, old(ram[..]))
      ensures Flatten(packets) == Flatten(old(packets)) + [1, 0]
      ensures stale <= old(stale) + Range(env.status, STATUS_SIZE) && Range(PREFETCH_VECTOR, 4) !! stale
    {
      hide Write, GetBranch, Range;
      DbgInit();
      InstallExceptionHandlers();
      CmdError(Attach, Success);
    }

    method CmdGetRegisters(ctx: u32)
      requires Ready()
      modifies this`packets
      ensures Flatten(packets) == Flatten(old(packets)) +
        if ctx == 0 then [8, 5] else [8, 0] + Read(ram[..], ctx, CONTEXT_SIZE)
    {
      if ctx == 0 {
        CmdError(GetRegisters, NoBreakpoint);
      } else {
        CmdError(GetRegisters, Success);
        UsbSend(Read(ram[..], ctx, CONTEXT_SIZE));
      }
    }

    method CmdContinue(ctx: u32)
      requires Ready()
      modifies this, ram
      ensures ram[..] == if ctx == 0 then old(ram[..])
        else StoreWord(old(ram[..]), Wrap(ctx + PC_OFFSET), ContinueAddress(old(ram[..]), env.status))
      ensures Flatten(packets) == Flatten(old(packets)) + [7, if ctx == 0 then 5 else 0]
      ensures stale == old(stale) + if ctx == 0 then {} else Range(Wrap(ctx + PC_OFFSET), 4)
    {
      hide LoadWord, Write, Range;
      if ctx == 0 {
        CmdError(Continue, NoBreakpoint);
      } else {
        Set(Wrap(ctx + PC_OFFSET), BytesOf(LoadWord(ram[..], env.status + 1288)));
        CmdError(Continue, Success);
      }
    }

    /** cmd_dispatcher, except for the foreign code behind call, reboot, break and flashlight. After a
        maintained command nothing is newly stale but the table and the frame's pc. */
    method Dispatcher(c: Command, ctx: u32)
      requires Valid()
      requires WriteEnds(env, iLine, dLine, ram[..], c)
      modifies this, ram
      ensures At(ctx) == Dispatch(env, old(At(ctx)), c)
      ensures Flatten(packets) == old(Flatten(packets)) + ExpectedReply(env, old(ram[..]), ctx, c)
      ensures Maintained(c) ==> stale <= old(stale) + Leftover(env, ctx)
    {
      hide LoadWord, Wrap, Write, Range, LoopStops, Read, Clear, Insert, Remove, ProbeRead, GetBranch, ExpectedReply;
      ghost var before := At(ctx);
      match c {
        case Attach => CmdAttach();
        case Detach => CmdError(c, Success);
        case ReadMemory(addr, size) => CmdRead(addr, size);
        case WriteMemory(addr, data) => CmdWrite(addr, data);
        case InsertBreakpoint(addr, kind) =>
          var e := InsertBreakpoint(addr, kind);
          CmdError(c, e);
        case RemoveBreakpoint(addr, _) =>
          var e := RemoveBreakpoint(addr);
          CmdError(c, e);
        case GetRegisters => CmdGetRegisters(ctx);
        case Continue => CmdContinue(ctx);
        case Call(_, _) =>
        case Break => CmdError(c, Success);
        case Flashlight(_) => CmdError(c, Success);
        case Reboot =>
        case Other(_) => CmdError(c, UnknownCmd);
      }
      DispatchReplies(env, before, c);
    }

    /** The start of breakpoint_handler: where a later continue goes is looked up and stored. */
    method EnterBreakpoint(ctx: u32)
      requires Valid()
      modifies ram, this`stale
      ensures Valid() && At(ctx) == AtEntry(env, old(At(ctx)))
      ensures stale <= old(stale) + Leftover(env, ctx)
    {
      hide LoadWord, Wrap, Write, CacheContinue;
      var pc: int := LoadWord(ram[..], Wrap(ctx + PC_OFFSET));
      CacheContinueEffect(ram[..], env.status, pc);
      var k := GetBreakpoint(pc);
      var to := if k == BpSize(ram[..], env.status) then Wrap(pc + 4) else SlotAt(env.status, k) + 8;
      Set(env.status + 1288, BytesOf(to));
      CacheContinueIs(old(ram[..]), env.status, pc, to);
      PartOf(env.status, STATUS_SIZE, env.status + 1288, 4);
    }

    /** breakpoint_handler on the commands that arrive while the target is halted. The source waits
        for ever; here `inbox` is what arrives, and `served` says how much of it was taken. */
    method BreakpointHandler(ctx: u32, inbox: seq<Command>) returns (served: nat)
      requires Valid()
      requires Servable(env, iLine, dLine, AtEntry(env, At(ctx)), inbox)
      modifies this, ram
      ensures (At(ctx), served) == Serve(env, iLine, dLine, AtEntry(env, old(At(ctx))), inbox)
      ensures (forall c :: c in inbox ==> Maintained(c)) ==> stale <= old(stale) + Leftover(env, ctx)
    {
      hide LoadWord, Wrap, Write, Dispatch, AtEntry, WellFormed, Leftover, Maintained;
      ghost var entry := AtEntry(env, At(ctx));
      EnterBreakpoint(ctx);
      served := 0;
      while served < |inbox|
        invariant served <= |inbox| && Valid()
        invariant (forall c :: c in inbox ==> Maintained(c)) ==> stale <= old(stale) + Leftover(env, ctx)
        invariant Servable(env, iLine, dLine, At(ctx), inbox[served..])
        invariant var (st, n) := Serve(env, iLine, dLine, At(ctx), inbox[served..]);
                  Serve(env, iLine, dLine, entry, inbox) == (st, served + n)
      {
        var c := inbox[served];
        assert inbox[served..][0] == c && inbox[served..][1..] == inbox[served + 1..];
        Dispatcher(c, ctx);
        served := served + 1;
        if Leaves(c) {
          return;
        }
      }
    }
  }

  /** A command after which the source has invalidated every byte of code that it changed: patches on
      aligned words, and writes that do not wrap. */
  predicate Maintained(c: Command) {
    match c
    case InsertBreakpoint(addr, _) => addr % 4 == 0
    case RemoveBreakpoint(addr, _) => addr % 4 == 0
    case WriteMemory(addr, data) => addr + |data| < WORD_RANGE
    case _ => true
  }

  /** What is written without cache maintenance: the table and the pc of the frame at ctx. */
  function Leftover(env: Env, ctx: u32): set<u32> {
    Range(env.status, STATUS_SIZE) + Range(Wrap(ctx + PC_OFFSET), 4)
  }

  lemma CacheContinueIs(m: Memory, s: u32, pc: u32, to: u32)
    requires TableOk(m, s)
    requires var k := IndexOf(Entries(m, s), pc); to == if k == BpSize(m, s) then Wrap(pc + 4) else SlotAt(s, k) + 8
    ensures CacheContinue(m, s, pc) == StoreWord(m, s + 1288, to)
  {
  }

  /** breakpoint_handler breaks its loop after these. */
  predicate Leaves(c: Command) {
    c.Continue? || c.Detach?
  }

  /** The state in which the first command is awaited. */
  function AtEntry(env: Env, st: State): State
    requires WellFormed(st.mem, env.status)
  {
    st.(mem := CacheContinue(st.mem, env.status, LoadWord(st.mem, Wrap(st.ctx + PC_OFFSET))))
  }

  /** What C demands of a write command: the cache loops end. */
  predicate WriteEnds(env: Env, iLine: int, dLine: int, m: Memory, c: Command)
    requires IsLineSize(iLine) && IsLineSize(dLine)
  {
    c.WriteMemory? ==>
      (|c.data| < WORD_RANGE &&
       (ProbeRead(m, env.mmu, c.addr, |c.data|) ==>
          LoopStops(c.addr, |c.data|, iLine) && LoopStops(c.addr, |c.data|, dLine)))
  }

  /** The table is intact before every command that is served. */
  predicate Servable(env: Env, iLine: int, dLine: int, st: State, inbox: seq<Command>)
    requires IsLineSize(iLine) && IsLineSize(dLine)
    decreases |inbox|
  {
    WellFormed(st.mem, env.status) &&
    (inbox == [] ||
     (WriteEnds(env, iLine, dLine, st.mem, inbox[0]) &&
      (Leaves(inbox[0]) || Servable(env, iLine, dLine, Dispatch(env, st, inbox[0]), inbox[1..]))))
  }

  /** The commands up to and including the first that leaves, and how many there were. */
  function Serve(env: Env, iLine: int, dLine: int, st: State, inbox: seq<Command>): (State, nat)
    requires IsLineSize(iLine) && IsLineSize(dLine) && Servable(env, iLine, dLine, st, inbox)
    decreases |inbox|
  {
    if inbox == [] then (st, 0)
    else
      var st1 := Dispatch(env, st, inbox[0]);
      if Leaves(inbox[0]) then (st1, 1)
      else
        var (st2, n) := Serve(env, iLine, dLine, st1, inbox[1..]);
        (st2, n + 1)
  }

  /** One reply of the dispatcher, which for a read does not depend on the table. */
  function ReadReply(m: Memory, mmu: MmuRegisters, addr: u32, size: u32): seq<u8> {
    if ProbeRead(m, mmu, addr, size) then [3, 0] + Read(m, addr, size) else [3, 7]
  }

  /** The bytes of all the listed lines. */
  function InLines(lines: seq<u32>, lineSize: int): set<u32>
    requires IsLineSize(lineSize)
  {
    set b: u32 | LineOf(b, lineSize) in lines
  }

  /** The four bytes of an aligned word lie in one line. */
  lemma WordInLine(a: u32, iLine: int, dLine: int)
    requires a % 4 == 0 && IsLineSize(iLine) && IsLineSize(dLine)
    ensures Range(a, 4) <= LineBytes(a, iLine) * LineBytes(a, dLine)
  {
    forall b: u32 | InRange(a, 4, b) ensures LineOf(b, iLine) == LineOf(a, iLine) && LineOf(b, dLine) == LineOf(a, dLine) {
      WrapDifference(b, a);
      SameLine(a, b, iLine);
      SameLine(a, b, dLine);
    }
  }

  lemma SameLine(a: u32, b: u32, lineSize: int)
    requires a % 4 == 0 && a <= b < a + 4 && IsLineSize(lineSize)
    ensures LineOf(b, lineSize) == LineOf(a, lineSize)
  {
    var c, j := a / 4, b - a;
    assert a == 4 * c;
    if lineSize == 8 {
      InLine8(c, j);
      InLine8(c, 0);
    } else if lineSize == 16 {
      InLine16(c, j);
      InLine16(c, 0);
    } else if lineSize == 32 {
      InLine32(c, j);
      InLine32(c, 0);
    } else {
      InLine64(c, j);
      InLine64(c, 0);
    }
  }

  // A word does not straddle a line.

  lemma InLine8(c: int, j: int)
    requires 0 <= j < 4
    ensures (4 * c + j) % 8 == 4 * (c % 2) + j
  {
    assert 4 * c + j == 8 * (c / 2) + (4 * (c % 2) + j);
  }

  lemma InLine16(c: int, j: int)
    requires 0 <= j < 4
    ensures (4 * c + j) % 16 == 4 * (c % 4) + j
  {
    assert 4 * c + j == 16 * (c / 4) + (4 * (c % 4) + j);
  }

  lemma InLine32(c: int, j: int)
    requires 0 <= j < 4
    ensures (4 * c + j) % 32 == 4 * (c % 8) + j
  {
    assert 4 * c + j == 32 * (c / 8) + (4 * (c % 8) + j);
  }

  lemma InLine64(c: int, j: int)
    requires 0 <= j < 4
    ensures (4 * c + j) % 64 == 4 * (c % 16) + j
  {
    assert 4 * c + j == 64 * (c / 16) + (4 * (c % 16) + j);
  }

  /** The pieces of a slot that are stored one by one. */
  lemma SlotParts(s: u32, n: nat)
    requires ValidStatus(s) && n < NBR_POINTS
    ensures var a := SlotAt(s, n);
      && Range(a, 1) <= Range(s, STATUS_SIZE) && Range(a + 4, 4) <= Range(s, STATUS_SIZE)
      && Range(a + 16, 1) <= Range(s, STATUS_SIZE) && Range(a + 8, 4) <= Range(s, STATUS_SIZE)
      && Range(a + 12, 4) <= Range(s, STATUS_SIZE) && Range(a + 8, 8) == Range(a + 8, 4) + Range(a + 12, 4)
  {
    hide Range;
    var a := SlotAt(s, n);
    PartOf(s, STATUS_SIZE, a, 1);
    PartOf(s, STATUS_SIZE, a + 4, 4);
    PartOf(s, STATUS_SIZE, a + 16, 1);
    PartOf(s, STATUS_SIZE, a + 8, 4);
    PartOf(s, STATUS_SIZE, a + 12, 4);
    SplitRange(a + 8, 4, 4);
  }

  lemma SplitRange(a: u32, n: nat, k: nat)
    requires a + n + k <= WORD_RANGE && k > 0
    ensures Range(a, n + k) == Range(a, n) + Range(a + n, k)
  {
    forall x: u32 ensures InRange(a, n + k, x) <==> InRange(a, n, x) || InRange(a + n, k, x) {
      WrapDifference(x, a);
      WrapDifference(x, a + n);
    }
  }

  lemma SlotApart(s: u32, n: nat, addr: u32)
    requires ValidStatus(s) && n < NBR_POINTS && Disjoint(addr, 4, s, STATUS_SIZE)
    ensures Range(SlotAt(s, n) + 8, 8) !! Range(addr, 4)
  {
    hide Range;
    TableApart(s, addr);
    PartOf(s, STATUS_SIZE, SlotAt(s, n) + 8, 8);
  }

  lemma TableApart(s: u32, addr: u32)
    requires ValidStatus(s) && Disjoint(addr, 4, s, STATUS_SIZE)
    ensures Range(addr, 4) !! Range(s, STATUS_SIZE)
  {
    RangesApart(addr, 4, s, STATUS_SIZE);
  }

  lemma IsFirst(es: seq<Entry>, a: u32, i: nat)
    requires i < |es| && es[i].address == a && forall j :: 0 <= j < i ==> es[j].address != a
    ensures IndexOf(es, a) == i
  {
  }

  lemma PartOf(a: u32, n: nat, b: u32, k: nat)
    requires a <= b && b + k <= a + n <= WORD_RANGE
    ensures Range(b, k) <= Range(a, n)
  {
    forall x: u32 | InRange(b, k, x) ensures InRange(a, n, x) {
      WrapDifference(x, a);
      WrapDifference(x, b);
    }
  }

  /** The bytes of the line that holds a. */
  function LineBytes(a: u32, lineSize: int): set<u32>
    requires IsLineSize(lineSize)
  {
    set b: u32 | LineOf(b, lineSize) == LineOf(a, lineSize)
  }
}

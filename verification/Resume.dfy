/** Hit, halt, commands, continue: the debuggee goes on as if the patched word were still there. */
module Resume {
  import opened Words
  import opened Memory
  import opened Branch
  import opened Table
  import opened Mmu
  import opened Commands
  import opened Session
  import opened Overlay
  import opened Trampoline

  // ---- While the target is halted

  /** A command that leaves slot i, the frame at ctx and the debuggee's own word at a as they are. A
      removal of the last slot copies it onto itself, so even that leaves its code in place. */
  ghost predicate Quiet(m: Memory, s: u32, i: nat, a: u32, ctx: u32, c: Command)
    requires WellFormed(m, s)
  {
    match c
    case Attach => false
    case Continue => false
    case Detach => false
    case InsertBreakpoint(addr, kind) => Insert(m, s, addr, kind).1 == Success ==> BpSize(m, s) != i
    case RemoveBreakpoint(addr, _) => IndexOf(Entries(m, s), addr) != i || i + 1 == BpSize(m, s)
    case WriteMemory(addr, data) => Range(addr, |data|) !! Range(ctx, CONTEXT_SIZE) && Range(addr, |data|) !! Range(a, 4)
    case _ => true
  }

  /** What a quiet command must not change. */
  ghost predicate SlotKept(m: Memory, m': Memory, s: u32, i: nat, ctx: u32)
    requires ValidStatus(s) && i < NBR_POINTS
  {
    && EntryAt(m', s, i).saved == EntryAt(m, s, i).saved && EntryAt(m', s, i).back == EntryAt(m, s, i).back
    && ContinueAddress(m', s) == ContinueAddress(m, s)
    && forall b: u32 :: InRange(ctx, CONTEXT_SIZE, b) ==> m'[b] == m[b]
  }

  lemma QuietKeepsSlot(env: Env, w: World, c: Command, i: nat, a: u32)
    requires Conserved(env, w) && w.st.ctx != 0 && i < NBR_POINTS
    requires Admissible(env, w, Host(c)) && Quiet(w.st.mem, env.status, i, a, w.st.ctx, c)
    ensures SlotKept(w.st.mem, Next(env, w, Host(c)).st.mem, env.status, i, w.st.ctx)
    ensures Next(env, w, Host(c)).st.ctx == w.st.ctx
    ensures SameWord(w.bare, Next(env, w, Host(c)).bare, a)
  {
    hide LoadWord, Patches, Insert, Remove, IndexOf, Write, Read, ProbeRead, Disjoint, Tracks, Wrap;
    var m, s := w.st.mem, env.status;
    match c
    case InsertBreakpoint(addr, kind) =>
      InsertFails(m, s, addr, kind);
      if Insert(m, s, addr, kind).1 == Success {
        InsertEffect(m, s, addr, kind);
        forall b: u32 | InRange(w.st.ctx, CONTEXT_SIZE, b) ensures Insert(m, s, addr, kind).0[b] == m[b] {
          assert b in w.scratch;
          assert !InRange(addr, 4, b);
        }
      }
    case RemoveBreakpoint(addr, _) =>
      RemoveFails(m, s, addr);
      if Remove(m, s, addr).1 == Success {
        RemoveQuiet(env, w, addr, i);
      }
    case WriteMemory(addr, data) =>
      TableUntouched(m, s, addr, data);
      forall b: u32 | InRange(w.st.ctx, CONTEXT_SIZE, b) ensures Write(m, addr, data)[b] == m[b] {
        assert b in Range(w.st.ctx, CONTEXT_SIZE);
        WrittenAt(m, addr, data, b);
      }
      forall b: u32 | InRange(a, 4, b) ensures Write(w.bare, addr, data)[b] == w.bare[b] {
        assert b in Range(a, 4);
        WrittenAt(w.bare, addr, data, b);
      }
    case _ =>
  }

  ghost predicate SameWord(m: Memory, m': Memory, a: u32) {
    forall b: u32 :: InRange(a, 4, b) ==> m'[b] == m[b]
  }

  lemma InsertFails(m: Memory, s: u32, addr: u32, kind: u8)
    requires TableOk(m, s)
    ensures Insert(m, s, addr, kind).1 != Success ==> Insert(m, s, addr, kind).0 == m
  {
  }

  lemma RemoveFails(m: Memory, s: u32, addr: u32)
    requires WellFormed(m, s)
    ensures Remove(m, s, addr).1 != Success ==> Remove(m, s, addr).0 == m
  {
  }

  lemma RemoveQuiet(env: Env, w: World, addr: u32, i: nat)
    requires Conserved(env, w) && w.st.ctx != 0 && i < NBR_POINTS && Remove(w.st.mem, env.status, addr).1 == Success
    requires IndexOf(Entries(w.st.mem, env.status), addr) != i || i + 1 == BpSize(w.st.mem, env.status)
    ensures SlotKept(w.st.mem, Remove(w.st.mem, env.status, addr).0, env.status, i, w.st.ctx)
  {
    hide LoadWord, Patches, Remove, IndexOf, Tracks, Wrap;
    var m, s := w.st.mem, env.status;
    RemoveEffect(m, s, addr);
    InPatches(Entries(m, s), addr);
    assert Live(m, addr, w.scratch);
    forall b: u32 | InRange(w.st.ctx, CONTEXT_SIZE, b) ensures Remove(m, s, addr).0[b] == m[b] {
      assert b in w.scratch;
      assert !InRange(addr, 4, b);
    }
  }

  function Hosts(cmds: seq<Command>): seq<Event> {
    seq(|cmds|, i requires 0 <= i < |cmds| => Host(cmds[i]))
  }

  /** Admissible commands, each quiet for slot i where it is served. */
  ghost predicate QuietRun(env: Env, w: World, cmds: seq<Command>, i: nat, a: u32)
    decreases |cmds|
  {
    cmds == [] ||
    (WellFormed(w.st.mem, env.status) && Admissible(env, w, Host(cmds[0])) &&
     Quiet(w.st.mem, env.status, i, a, w.st.ctx, cmds[0]) &&
     QuietRun(env, Next(env, w, Host(cmds[0])), cmds[1..], i, a))
  }

  lemma {:induction false} QuietRunKeepsSlot(env: Env, w: World, cmds: seq<Command>, i: nat, a: u32)
    requires Conserved(env, w) && w.st.ctx != 0 && i < NBR_POINTS && QuietRun(env, w, cmds, i, a)
    ensures AdmissibleRun(env, w, Hosts(cmds))
    ensures var w' := Run(env, w, Hosts(cmds));
            && Conserved(env, w') && w'.st.ctx == w.st.ctx && SameWord(w.bare, w'.bare, a)
            && SlotKept(w.st.mem, w'.st.mem, env.status, i, w.st.ctx)
    decreases |cmds|
  {
    hide LoadWord, Next, Admissible, Quiet, Conserved, EntryAt, InRange;
    if cmds != [] {
      var w1 := Next(env, w, Host(cmds[0]));
      NextConserves(env, w, Host(cmds[0]));
      QuietKeepsSlot(env, w, cmds[0], i, a);
      QuietRunKeepsSlot(env, w1, cmds[1..], i, a);
      assert Hosts(cmds)[1..] == Hosts(cmds[1..]);
    }
  }

  // ---- From the halt to the continue

  /** After a halt on the patch in slot i, any quiet commands and a continue, the frame is the one
      that was pushed except for its pc, which is the code of slot i, and that code is still the
      saved word followed by the branch that was in the slot at the halt. */
  lemma ContinueEntersSlot(env: Env, w: World, h: Stop, cmds: seq<Command>, i: nat)
    requires Conserved(env, w) && Admissible(env, w, Halt(h)) && i < BpSize(w.st.mem, env.status)
    requires WordOf(h.frame[64..]) == Entries(w.st.mem, env.status)[i].address
    requires QuietRun(env, Next(env, w, Halt(h)), cmds, i, Entries(w.st.mem, env.status)[i].address)
    ensures AdmissibleRun(env, Next(env, w, Halt(h)), Hosts(cmds))
    ensures var (s, entry) := (env.status, Entries(w.st.mem, env.status)[i]);
      var w1 := Run(env, Next(env, w, Halt(h)), Hosts(cmds));
      Conserved(env, w1) && w1.st.ctx == h.ctx &&
      var w2 := Next(env, w1, Host(Continue));
      && Conserved(env, w2) && w2.st.ctx == 0
      && Read(w2.st.mem, h.ctx, 64) == h.frame[..64]
      && LoadWord(w2.st.mem, Wrap(h.ctx + PC_OFFSET)) == SlotAt(s, i) + 8
      && EntryAt(w2.st.mem, s, i).saved == entry.saved && EntryAt(w2.st.mem, s, i).back == entry.back
      && LoadWord(w2.bare, entry.address) == entry.saved
  {
    hide LoadWord, Next, Patches, Wrap, Quiet, QuietRun, IndexOf, Read, WordOf, Tracks;
    var s, w0 := env.status, Next(env, w, Halt(h));
    NextConserves(env, w, Halt(h));
    HaltSetsContinue(env, w, h, i);
    QuietRunKeepsSlot(env, w0, cmds, i, Entries(w.st.mem, s)[i].address);
    var w1 := Run(env, w0, Hosts(cmds));
    NextConserves(env, w1, Host(Continue));
    ContinueWrites(env, w1, i);
    SameRead(w0.st.mem, w1.st.mem, h.ctx);
    BareWord(env, w, i);
    SameLoad(w.bare, w1.bare, Entries(w.st.mem, s)[i].address);
  }

  /** Without a debugger, a patched address holds the saved word. */
  lemma BareWord(env: Env, w: World, i: nat)
    requires Conserved(env, w) && i < BpSize(w.st.mem, env.status)
    ensures LoadWord(w.bare, Entries(w.st.mem, env.status)[i].address) == Entries(w.st.mem, env.status)[i].saved
  {
    hide LoadWord, BytesOf;
    var entry := Entries(w.st.mem, env.status)[i];
    PatchAligned(env, w, i);
    var found := BytesOf(LoadWord(w.bare, entry.address));
    forall k | 0 <= k < 4 ensures found[k] == BytesOf(entry.saved)[k] {
      ByteOfWord(w.bare, entry.address, k);
      BareByte(env, w, i, k);
    }
    assert found == BytesOf(entry.saved);
    WordOfBytesOf(entry.saved);
    WordOfBytesOf(LoadWord(w.bare, entry.address));
  }

  lemma BareByte(env: Env, w: World, i: nat, k: nat)
    requires Conserved(env, w) && i < BpSize(w.st.mem, env.status) && k < 4
    ensures var entry := Entries(w.st.mem, env.status)[i];
            entry.address + k < WORD_RANGE && w.bare[entry.address + k] == BytesOf(entry.saved)[k]
  {
    hide LoadWord, Patches, BytesOf, Live;
    var m, s := w.st.mem, env.status;
    var entry := Entries(m, s)[i];
    PatchAt(Entries(m, s), i);
    assert Live(m, entry.address, w.scratch);
    LiveByte(env, w, entry.address, k);
    assert w.bare[entry.address + k] == Unpatched(m, s, entry.address + k);
  }

  lemma LiveByte(env: Env, w: World, a: u32, k: nat)
    requires Conserved(env, w) && a in Patches(Entries(w.st.mem, env.status)) && k < 4
    ensures a + k < WORD_RANGE && WordBase(a + k) == a && (a + k) % 4 == k
    ensures !InStatus(env.status, a + k) && a + k !in w.scratch
  {
    hide LoadWord, Patches, Tracks;
    assert Live(w.st.mem, a, w.scratch);
    PatchOutsideTable(w.st.mem, env.status, a);
    assert WordBase(a + k) == a;
    WrapDifference(a + k, a);
    assert a + k in Range(a, 4);
  }

  lemma SameLoad(m: Memory, m': Memory, a: u32)
    requires SameWord(m, m', a)
    ensures LoadWord(m', a) == LoadWord(m, a)
  {
    forall k | 0 <= k < 4 ensures Read(m', a, 4)[k] == Read(m, a, 4)[k] {
      assert Wrap(Wrap(a + k) - a) == k;
      assert InRange(a, 4, Wrap(a + k));
    }
    assert Read(m', a, 4) == Read(m, a, 4);
  }

  /** Entering the debugger: the frame is in place and the continue address is the slot's code. */
  lemma HaltSetsContinue(env: Env, w: World, h: Stop, i: nat)
    requires Conserved(env, w) && Admissible(env, w, Halt(h)) && i < BpSize(w.st.mem, env.status)
    requires WordOf(h.frame[64..]) == Entries(w.st.mem, env.status)[i].address
    ensures var (m0, s) := (Next(env, w, Halt(h)).st.mem, env.status);
      && Next(env, w, Halt(h)).st.ctx == h.ctx && h.ctx != 0 && Next(env, w, Halt(h)).bare == w.bare
      && ContinueAddress(m0, s) == SlotAt(s, i) + 8 && EntryAt(m0, s, i) == Entries(w.st.mem, s)[i]
      && Read(m0, h.ctx, CONTEXT_SIZE) == h.frame
  {
    hide LoadWord, Patches, Write, Disjoint, Wrap, Read, WordOf, CacheContinue;
    var m, s := w.st.mem, env.status;
    var m2 := Write(Write(m, h.stack, h.spill), h.ctx, h.frame);
    HaltPushes(env, w, h);
    ReadWritten(Write(m, h.stack, h.spill), h.ctx, h.frame);
    PcOfFrame(m2, h.ctx, h.frame);
    var pc := LoadWord(m2, Wrap(h.ctx + PC_OFFSET));
    CacheContinueEffect(m2, s, pc);
    IndexOfEntry(Entries(m, s), i);
    var m3 := CacheContinue(m2, s, pc);
    RangeOffTable(s, h.ctx, CONTEXT_SIZE);
    forall b: u32 | InRange(h.ctx, CONTEXT_SIZE, b) ensures m3[b] == m2[b] {
      assert b in Range(h.ctx, CONTEXT_SIZE);
    }
    SameRead(m2, m3, h.ctx);
  }

  lemma PcOfFrame(m: Memory, ctx: u32, frame: seq<u8>)
    requires |frame| == CONTEXT_SIZE && Read(m, ctx, CONTEXT_SIZE) == frame
    ensures LoadWord(m, Wrap(ctx + PC_OFFSET)) == WordOf(frame[64..])
  {
    hide Wrap, WordOf, Read;
    ReadChunk(m, ctx, 64, 4);
    var parts := Read(m, ctx, 64) + Read(m, Wrap(ctx + 64), 4);
    assert parts[64..] == Read(m, Wrap(ctx + 64), 4);
  }

  lemma SameRead(m: Memory, m': Memory, ctx: u32)
    requires forall b: u32 :: InRange(ctx, CONTEXT_SIZE, b) ==> m'[b] == m[b]
    ensures Read(m', ctx, CONTEXT_SIZE) == Read(m, ctx, CONTEXT_SIZE)
  {
    forall k | 0 <= k < CONTEXT_SIZE ensures Read(m', ctx, CONTEXT_SIZE)[k] == Read(m, ctx, CONTEXT_SIZE)[k] {
      assert Wrap(Wrap(ctx + k) - ctx) == k;
      assert InRange(ctx, CONTEXT_SIZE, Wrap(ctx + k));
    }
  }

  /** cmd_breakpoint_continue: only the frame's pc changes. */
  lemma ContinueWrites(env: Env, w: World, i: nat)
    requires Conserved(env, w) && w.st.ctx != 0 && i < NBR_POINTS
    ensures var (m, s, ctx) := (w.st.mem, env.status, w.st.ctx);
      var m' := Next(env, w, Host(Continue)).st.mem;
      && Next(env, w, Host(Continue)).st.ctx == 0 && Next(env, w, Host(Continue)).bare == w.bare
      && LoadWord(m', Wrap(ctx + PC_OFFSET)) == ContinueAddress(m, s)
      && Read(m', ctx, 64) == Read(m, ctx, CONTEXT_SIZE)[..64]
      && EntryAt(m', s, i) == EntryAt(m, s, i)
  {
    hide LoadWord, Patches, Write, Wrap, BytesOf, Read, Tracks;
    var m, s, ctx := w.st.mem, env.status, w.st.ctx;
    var to := ContinueAddress(m, s);
    PcApart(env, w);
    LoadStored(m, Wrap(ctx + PC_OFFSET), to);
    ReadChunk(m, ctx, 64, 4);
    PcAbove(ctx);
    ReadElsewhere(m, ctx, 64, Wrap(ctx + PC_OFFSET), BytesOf(to));
    assert (Read(m, ctx, 64) + Read(m, Wrap(ctx + 64), 4))[..64] == Read(m, ctx, 64);
  }

  lemma PcAbove(ctx: u32)
    ensures Disjoint(ctx, 64, Wrap(ctx + PC_OFFSET), 4)
  {
  }

  // ---- One instruction further

  /** The registers and the status, without the pc. */
  datatype Core = Core(registers: seq<u32>, cpsr: u32)

  /** What one instruction does that neither reads nor writes the pc: a new core and one store, which
      is empty for most. The semantics of the instructions is a parameter of the theorem. */
  datatype Effect = Effect(core: Core, addr: u32, data: seq<u8>)

  type Semantics = (u32, Core, Memory) -> Effect

  datatype Machine = Machine(core: Core, mem: Memory, pc: u32)

  /** One step of the processor: fetch, then branch, or execute and fall through. */
  function Step(exec: Semantics, c: Machine): Machine {
    var w := LoadWord(c.mem, c.pc);
    if IsBranch(w) then c.(pc := BranchTarget(w, c.pc))
    else
      var e := exec(w, c.core, c.mem);
      Machine(e.core, Write(c.mem, e.addr, e.data), Plus(c.pc, 4))
  }

  /** What the instruction w does from this core depends on the bytes of `sources` only. */
  ghost predicate DependsOn(exec: Semantics, w: u32, core: Core, sources: set<u32>) {
    forall m1: Memory, m2: Memory :: (forall b :: b in sources ==> m1[b] == m2[b]) ==>
      exec(w, core, m1) == exec(w, core, m2)
  }

  /** The bytes are neither table nor patch nor left on the stack by the debugger. */
  ghost predicate Ordinary(env: Env, w: World, sources: set<u32>)
    requires TableOk(w.st.mem, env.status)
  {
    forall b: u32 :: b in sources ==>
      !InStatus(env.status, b) && b !in w.scratch && WordBase(b) !in Patches(Entries(w.st.mem, env.status))
  }

  /** The instruction reads ordinary bytes, and its store meets neither the table nor a patch. The
      store may well hit the stack where a frame lay, as that of a push does. */
  ghost predicate Undisturbed(env: Env, w: World, instr: u32, core: Core, exec: Semantics, sources: set<u32>)
    requires TableOk(w.st.mem, env.status)
  {
    var e := exec(instr, core, w.bare);
    && DependsOn(exec, instr, core, sources) && Ordinary(env, w, sources)
    && |e.data| < WORD_RANGE && Untouching(w.st.mem, env.status, e.addr, |e.data|)
  }

  /** c is the instrumented and d the bare machine after the same effect: the same core, the same
      store into both memories, and the overlay kept, the stored bytes no longer the debugger's. */
  ghost predicate SameEffect(env: Env, w: World, e: Effect, c: Machine, d: Machine) {
    && c.core == d.core == e.core
    && c.mem == Write(w.st.mem, e.addr, e.data) && d.mem == Write(w.bare, e.addr, e.data)
    && Conserved(env, World(State(c.mem, 0, w.st.sent), d.mem, w.scratch - Range(e.addr, |e.data|), w.homes))
  }

  /** The instruction of slot i and then its branch, run on the instrumented memory, do what the one
      instruction does on the memory without debugger; only the pc depends on where the entry's home
      was, and it is the next instruction's iff the entry still sits there. */
  lemma SlotSimulates(env: Env, w: World, i: nat, home: nat, a: u32, core: Core, exec: Semantics, sources: set<u32>)
    requires Conserved(env, w) && w.st.ctx == 0 && i < NBR_POINTS && home < NBR_POINTS && a % 4 == 0
    requires var entry := EntryAt(w.st.mem, env.status, i);
      && LoadWord(w.bare, a) == entry.saved && !IsBranch(entry.saved)
      && entry.back == BackFrom(env.status, home, a)
      && InReach(SlotAt(env.status, home) + 12, Wrap(a + 4))
      && Undisturbed(env, w, entry.saved, core, exec, sources)
    ensures var c := Step(exec, Step(exec, Machine(core, w.st.mem, SlotAt(env.status, i) + 8)));
      var d := Step(exec, Machine(core, w.bare, a));
      && SameEffect(env, w, exec(EntryAt(w.st.mem, env.status, i).saved, core, w.bare), c, d)
      && d.pc == Wrap(a + 4) && c.pc == Wrap(a + 4 + 20 * (i - home)) && (c.pc == d.pc <==> i == home)
  {
    hide LoadWord, Patches, Write, Disjoint, BranchTarget, GetBranch, InReach, Wrap, Range, Tracks, Live;
    var m, s := w.st.mem, env.status;
    var entry := EntryAt(m, s, i);
    Agree(env, w, sources);
    var e := exec(entry.saved, core, m);
    assert e == exec(entry.saved, core, w.bare);
    TableUntouched(m, s, e.addr, e.data);
    GetBranchIsBranch(SlotAt(s, home) + 12, Wrap(a + 4));
    ReturnFrom(s, home, i, a);
    NextConserves(env, w, Store(e.addr, e.data));
    SlotPcs(s, i, a);
  }

  /** On ordinary bytes the instrumented memory is the bare memory. */
  lemma Agree(env: Env, w: World, sources: set<u32>)
    requires Conserved(env, w) && Ordinary(env, w, sources)
    ensures forall b :: b in sources ==> w.st.mem[b] == w.bare[b]
  {
    hide LoadWord, Patches;
    forall b | b in sources ensures w.st.mem[b] == w.bare[b] {
      assert w.bare[b] == Unpatched(w.st.mem, env.status, b);
    }
  }

  lemma SlotPcs(s: u32, i: nat, a: u32)
    requires ValidStatus(s) && i < NBR_POINTS
    ensures Plus(SlotAt(s, i) + 8, 4) == SlotAt(s, i) + 12 && Plus(a, 4) == Wrap(a + 4)
  {
  }

  /** The resume theorem. The debuggee hits the patch in slot i, whose entry was inserted in slot
      `home`; quiet commands follow, then a continue. Restored to the frame's pc the processor runs
      the saved instruction once and comes out at address + 4 + 20 * (i - home), with the core and
      the store of one step of the uninstrumented debuggee at the address. With i == home the two go
      on at the same pc. */
  lemma TransparentResume(env: Env, w: World, h: Stop, cmds: seq<Command>, i: nat, core: Core,
                          exec: Semantics, sources: set<u32>)
    requires Conserved(env, w) && HomesOk(env, w) && Admissible(env, w, Halt(h)) && i < BpSize(w.st.mem, env.status)
    requires WordOf(h.frame[64..]) == Entries(w.st.mem, env.status)[i].address
    requires QuietRun(env, Next(env, w, Halt(h)), cmds, i, Entries(w.st.mem, env.status)[i].address)
    requires var entry := Entries(w.st.mem, env.status)[i];
      !IsBranch(entry.saved) && InReach(SlotAt(env.status, w.homes[i]) + 12, Wrap(entry.address + 4))
    ensures AdmissibleRun(env, Next(env, w, Halt(h)), Hosts(cmds))
    ensures var (s, entry) := (env.status, Entries(w.st.mem, env.status)[i]);
      var w1 := Run(env, Next(env, w, Halt(h)), Hosts(cmds));
      Conserved(env, w1) &&
      var w2 := Next(env, w1, Host(Continue));
      Conserved(env, w2) && (Undisturbed(env, w2, entry.saved, core, exec, sources) ==>
        var pc := LoadWord(w2.st.mem, Wrap(h.ctx + PC_OFFSET));
        var c := Step(exec, Step(exec, Machine(core, w2.st.mem, pc)));
        var d := Step(exec, Machine(core, w2.bare, entry.address));
        && SameEffect(env, w2, exec(entry.saved, core, w2.bare), c, d)
        && d.pc == Wrap(entry.address + 4) && c.pc == Wrap(entry.address + 4 + 20 * (i - w.homes[i]))
        && (c.pc == d.pc <==> i == w.homes[i]))
  {
    hide LoadWord, Next, Patches, Wrap, Quiet, QuietRun, IndexOf, Read, WordOf, Tracks, Step, InReach, Live, BackFrom,
         Undisturbed, SameEffect;
    var a := Entries(w.st.mem, env.status)[i].address;
    PatchAligned(env, w, i);
    ContinueEntersSlot(env, w, h, cmds, i);
    var w2 := Next(env, Run(env, Next(env, w, Halt(h)), Hosts(cmds)), Host(Continue));
    if Undisturbed(env, w2, Entries(w.st.mem, env.status)[i].saved, core, exec, sources) {
      SlotSimulates(env, w2, i, w.homes[i], a, core, exec, sources);
    }
  }

  lemma PatchAligned(env: Env, w: World, i: nat)
    requires Conserved(env, w) && i < BpSize(w.st.mem, env.status)
    ensures Entries(w.st.mem, env.status)[i].address % 4 == 0
  {
    hide LoadWord, Patches;
    PatchAt(Entries(w.st.mem, env.status), i);
    assert Live(w.st.mem, Entries(w.st.mem, env.status)[i].address, w.scratch);
  }

  /** A command that leaves the frame at ctx as it is, and the target halted. */
  predicate FrameQuiet(ctx: u32, c: Command) {
    match c
    case Attach => Range(PREFETCH_VECTOR, 4) !! Range(ctx, CONTEXT_SIZE)
    case Continue => false
    case Detach => false
    case WriteMemory(addr, data) => Range(addr, |data|) !! Range(ctx, CONTEXT_SIZE)
    case _ => true
  }

  ghost predicate FrameQuietRun(env: Env, w: World, cmds: seq<Command>)
    decreases |cmds|
  {
    cmds == [] ||
    (WellFormed(w.st.mem, env.status) && Admissible(env, w, Host(cmds[0])) && FrameQuiet(w.st.ctx, cmds[0]) &&
     FrameQuietRun(env, Next(env, w, Host(cmds[0])), cmds[1..]))
  }

  ghost predicate FrameKept(m: Memory, m': Memory, ctx: u32) {
    forall b: u32 :: InRange(ctx, CONTEXT_SIZE, b) ==> m'[b] == m[b]
  }

  lemma WriteKeepsFrame(m: Memory, ctx: u32, addr: u32, data: seq<u8>)
    requires Range(addr, |data|) !! Range(ctx, CONTEXT_SIZE)
    ensures FrameKept(m, Write(m, addr, data), ctx)
  {
    hide Write;
    forall b: u32 | InRange(ctx, CONTEXT_SIZE, b) ensures Write(m, addr, data)[b] == m[b] {
      assert b in Range(ctx, CONTEXT_SIZE);
      WrittenAt(m, addr, data, b);
    }
  }

  /** What changes only in the table and in a patch changes no frame. */
  lemma PatchKeepsFrame(env: Env, w: World, m': Memory, a: u32)
    requires Conserved(env, w) && w.st.ctx != 0 && OnlyTableAnd(w.st.mem, m', env.status, a)
    requires Range(a, 4) !! w.scratch
    ensures FrameKept(w.st.mem, m', w.st.ctx)
  {
    hide LoadWord, Patches, Tracks, Live;
    forall b: u32 | InRange(w.st.ctx, CONTEXT_SIZE, b) ensures m'[b] == w.st.mem[b] {
      assert b in Range(w.st.ctx, CONTEXT_SIZE) && b in w.scratch;
      assert !InRange(a, 4, b) by { assert b !in Range(a, 4); }
    }
  }

  lemma AttachKeepsFrame(env: Env, w: World)
    requires Conserved(env, w) && w.st.ctx != 0 && Range(PREFETCH_VECTOR, 4) !! Range(w.st.ctx, CONTEXT_SIZE)
    ensures FrameKept(w.st.mem, AttachMemory(env, w.st.mem), w.st.ctx)
  {
    hide LoadWord, Patches, Tracks, Live, Write, Clear, GetBranch, BytesOf;
    var m1 := Clear(w.st.mem, env.status);
    ClearEffect(w.st.mem, env.status);
    var branch := GetBranch(PREFETCH_VECTOR, env.handler % 0x100_0000);
    WriteKeepsFrame(m1, w.st.ctx, PREFETCH_VECTOR, BytesOf(branch));
    forall b: u32 | InRange(w.st.ctx, CONTEXT_SIZE, b) ensures AttachMemory(env, w.st.mem)[b] == w.st.mem[b] {
      assert b in Range(w.st.ctx, CONTEXT_SIZE) && b in w.scratch;
    }
  }

  lemma FrameQuietStep(env: Env, w: World, c: Command)
    requires Conserved(env, w) && w.st.ctx != 0 && Admissible(env, w, Host(c)) && FrameQuiet(w.st.ctx, c)
    ensures var w' := Next(env, w, Host(c));
      FrameKept(w.st.mem, w'.st.mem, w.st.ctx) && w'.st.ctx == w.st.ctx && w'.scratch == w.scratch
  {
    hide LoadWord, Patches, Tracks, Live, Write, Clear, GetBranch, BytesOf, Insert, Remove, ProbeRead, Read, Disjoint,
         IndexOf, Range, Untouching;
    var m, s := w.st.mem, env.status;
    match c
    case Attach => AttachKeepsFrame(env, w);
    case InsertBreakpoint(addr, kind) =>
      InsertFails(m, s, addr, kind);
      if Insert(m, s, addr, kind).1 == Success {
        InsertEffect(m, s, addr, kind);
        PatchKeepsFrame(env, w, Insert(m, s, addr, kind).0, addr);
      }
    case RemoveBreakpoint(addr, _) =>
      RemoveFails(m, s, addr);
      if Remove(m, s, addr).1 == Success {
        RemoveEffect(m, s, addr);
        InPatches(Entries(m, s), addr);
        assert Range(addr, 4) !! w.scratch by { PatchOffScratch(env, w, addr); }
        PatchKeepsFrame(env, w, Remove(m, s, addr).0, addr);
      }
    case WriteMemory(addr, data) => WriteKeepsFrame(m, w.st.ctx, addr, data);
    case _ =>
  }

  lemma PatchOffScratch(env: Env, w: World, a: u32)
    requires Conserved(env, w) && a in Patches(Entries(w.st.mem, env.status))
    ensures Range(a, 4) !! w.scratch
  {
    hide LoadWord, Patches, Tracks, Range;
    assert Live(w.st.mem, a, w.scratch);
  }

  lemma {:induction false} FrameQuietRunKeeps(env: Env, w: World, cmds: seq<Command>)
    requires Conserved(env, w) && w.st.ctx != 0 && FrameQuietRun(env, w, cmds)
    ensures AdmissibleRun(env, w, Hosts(cmds))
    ensures var w' := Run(env, w, Hosts(cmds));
      && Conserved(env, w') && FrameKept(w.st.mem, w'.st.mem, w.st.ctx) && w'.st.ctx == w.st.ctx
      && w'.scratch == w.scratch
    decreases |cmds|
  {
    hide LoadWord, Next, Patches, Tracks, Live, Admissible;
    if cmds != [] {
      var w1 := Next(env, w, Host(cmds[0]));
      NextConserves(env, w, Host(cmds[0]));
      FrameQuietStep(env, w, cmds[0]);
      FrameQuietRunKeeps(env, w1, cmds[1..]);
      assert Hosts(cmds)[1..] == Hosts(cmds[1..]);
    }
  }

  /** An aligned word off the table and the saved frames shows what the debuggee has there iff it is
      not patched, or was patched over a BKPT. */
  lemma WordShown(env: Env, w: World, a: u32)
    requires Conserved(env, w) && a % 4 == 0 && Range(a, 4) !! w.scratch
    requires forall b: u32 :: InRange(a, 4, b) ==> !InStatus(env.status, b)
    ensures var t := Patches(Entries(w.st.mem, env.status));
      LoadWord(w.st.mem, a) == LoadWord(w.bare, a) <==> (a in t ==> t[a] == ARM_BKPT)
  {
    hide LoadWord, Patches, BytesOf, IndexOf, Live;
    var m, s := w.st.mem, env.status;
    var t := Patches(Entries(m, s));
    if a in t {
      assert LoadWord(m, a) == ARM_BKPT by {
        assert Live(m, a, w.scratch);
        PatchIsBkpt(m, a, w.scratch);
      }
      InPatches(Entries(m, s), a);
      BareWord(env, w, IndexOf(Entries(m, s), a));
    } else {
      AlignedWord(m, a);
      forall b: u32 | WordBase(b) == a ensures w.bare[b] == m[b] {
        assert b in Range(a, 4);
        assert w.bare[b] == Unpatched(m, s, b);
      }
      LoadAligned(m, w.bare, a);
    }
  }

  lemma PatchIsBkpt(m: Memory, a: u32, scratch: set<u32>)
    requires Live(m, a, scratch)
    ensures LoadWord(m, a) == ARM_BKPT
  {
  }

  /** cmd_detach leaves the frame's pc on the patched address, whatever halted commands that spare
      the frame came before it: the next fetch is the debuggee's own word iff the breakpoint has been
      removed by then, or had been set on a BKPT. */
  lemma DetachFetches(env: Env, w: World, h: Stop, cmds: seq<Command>, i: nat)
    requires Conserved(env, w) && Admissible(env, w, Halt(h)) && i < BpSize(w.st.mem, env.status)
    requires WordOf(h.frame[64..]) == Entries(w.st.mem, env.status)[i].address
    requires FrameQuietRun(env, Next(env, w, Halt(h)), cmds)
    ensures AdmissibleRun(env, Next(env, w, Halt(h)), Hosts(cmds))
    ensures var w1 := Run(env, Next(env, w, Halt(h)), Hosts(cmds));
      Conserved(env, w1) &&
      var w2 := Next(env, w1, Host(Detach));
      && Conserved(env, w2) && w2.st.ctx == 0
      && var (t, pc) := (Patches(Entries(w2.st.mem, env.status)), LoadWord(w2.st.mem, Wrap(h.ctx + PC_OFFSET)));
      && pc == Entries(w.st.mem, env.status)[i].address
      && (LoadWord(w2.st.mem, pc) == LoadWord(w2.bare, pc) <==> (pc in t ==> t[pc] == ARM_BKPT))
  {
    hide LoadWord, Patches, Wrap, Read, WordOf, IndexOf, Tracks, Live, Range, Next, FrameQuietRun, Admissible;
    var w0 := Next(env, w, Halt(h));
    var a := Entries(w.st.mem, env.status)[i].address;
    NextConserves(env, w, Halt(h));
    HaltSetsContinue(env, w, h, i);
    FrameQuietRunKeeps(env, w0, cmds);
    var w1 := Run(env, w0, Hosts(cmds));
    SameRead(w0.st.mem, w1.st.mem, h.ctx);
    PcOfFrame(w1.st.mem, h.ctx, h.frame);
    DetachIdle(env, w1);
    PatchAligned(env, w, i);
    HitOffScratch(env, w, h, i);
    WordShown(env, Next(env, w1, Host(Detach)), a);
  }

  lemma DetachIdle(env: Env, w: World)
    requires Conserved(env, w)
    ensures Admissible(env, w, Host(Detach))
    ensures var w' := Next(env, w, Host(Detach));
      Conserved(env, w') && w'.st.mem == w.st.mem && w'.bare == w.bare && w'.scratch == w.scratch && w'.st.ctx == 0
  {
    hide LoadWord, Patches, Tracks, Live;
  }

  /** The word that was hit lies off the table and off every frame, the new one included. */
  lemma HitOffScratch(env: Env, w: World, h: Stop, i: nat)
    requires Conserved(env, w) && Admissible(env, w, Halt(h)) && i < BpSize(w.st.mem, env.status)
    ensures var a := Entries(w.st.mem, env.status)[i].address;
      && Range(a, 4) !! Next(env, w, Halt(h)).scratch
      && forall b: u32 :: InRange(a, 4, b) ==> !InStatus(env.status, b)
  {
    hide LoadWord, Patches, Tracks, Range, Disjoint, Wrap, Live;
    var m, s := w.st.mem, env.status;
    var a := Entries(m, s)[i].address;
    PatchAt(Entries(m, s), i);
    PatchAligned(env, w, i);
    PatchOffScratch(env, w, a);
    PatchOutsideTable(m, s, a);
    AlignedWord(m, a);
    RangesApart(a, 4, h.ctx, CONTEXT_SIZE);
    RangesApart(a, 4, h.stack, SPILL_SIZE);
  }

  /** cmd_detach changes nothing in memory, so the frame's pc stays the patched address: if its
      breakpoint is still live, the very next fetch is a BKPT again. */
  lemma DetachHitsAgain(env: Env, w: World, h: Stop, i: nat)
    requires Conserved(env, w) && Admissible(env, w, Halt(h)) && i < BpSize(w.st.mem, env.status)
    requires WordOf(h.frame[64..]) == Entries(w.st.mem, env.status)[i].address
    ensures var w0 := Next(env, w, Halt(h));
      Conserved(env, w0) &&
      var w1 := Next(env, w0, Host(Detach));
      && w1.st.ctx == 0 && w1.st.mem == w0.st.mem
      && LoadWord(w1.st.mem, LoadWord(w1.st.mem, Wrap(h.ctx + PC_OFFSET))) == ARM_BKPT
  {
    hide LoadWord, Patches, Wrap, Read, WordOf, IndexOf, Disjoint, Write, CacheContinue;
    var w0 := Next(env, w, Halt(h));
    NextConserves(env, w, Halt(h));
    HaltSetsContinue(env, w, h, i);
    PcOfFrame(w0.st.mem, h.ctx, h.frame);
    HaltPushes(env, w, h);
    var m2 := Write(Write(w.st.mem, h.stack, h.spill), h.ctx, h.frame);
    CacheContinueEffect(m2, env.status, LoadWord(m2, Wrap(h.ctx + PC_OFFSET)));
    assert Entries(w0.st.mem, env.status) == Entries(w.st.mem, env.status);
    PatchAt(Entries(w.st.mem, env.status), i);
    assert Live(w0.st.mem, Entries(w.st.mem, env.status)[i].address, w0.scratch);
  }

  // ---- The theorem without the invariants

  /** One breakpoint in a fresh session: the checks a caller can make beforehand. */
  ghost predicate CanHitFirst(env: Env, m: Memory, addr: u32, h: Stop) {
    var s := env.status;
    && ValidStatus(s) && BpSize(m, s) == 0 && addr % 4 == 0 && Disjoint(addr, 4, s, STATUS_SIZE)
    && ValidStop(h) && WordOf(h.frame[64..]) == addr
    && Disjoint(h.ctx, CONTEXT_SIZE, s, STATUS_SIZE) && Disjoint(h.stack, SPILL_SIZE, s, STATUS_SIZE)
    && Disjoint(h.ctx, CONTEXT_SIZE, addr, 4) && Disjoint(h.stack, SPILL_SIZE, addr, 4)
  }

  /** What the first insertion leaves in the table. */
  lemma FirstEntry(m: Memory, s: u32, addr: u32, kind: u8)
    requires WellFormed(m, s) && Entries(m, s) == [] && Patches([]) == map[] && Disjoint(addr, 4, s, STATUS_SIZE)
    ensures var (m', e) := Insert(m, s, addr, kind);
      && e == Success && WellFormed(m', s) && |Entries(m', s)| == 1
      && Entries(m', s)[0].address == addr && Entries(m', s)[0].saved == LoadWord(m, addr)
      && Patches(Entries(m', s)).Keys == {addr}
  {
    hide LoadWord, Disjoint, GetBranch, FillSlot, StoreWord, Patches, Insert, Remove, Wrap;
    TableRefinesMap(m, s, addr, kind);
    InsertEffect(m, s, addr, kind);
  }

  /** What an insertion does to the world around the table. */
  lemma InsertedWorld(env: Env, w: World, addr: u32, kind: u8)
    requires WellFormed(w.st.mem, env.status) && Admissible(env, w, Host(InsertBreakpoint(addr, kind)))
    requires Insert(w.st.mem, env.status, addr, kind).1 == Success
    ensures var w1 := Next(env, w, Host(InsertBreakpoint(addr, kind)));
      && w1.st.mem == Insert(w.st.mem, env.status, addr, kind).0 && w1.st.ctx == w.st.ctx && w1.bare == w.bare
      && w1.scratch == w.scratch && w1.homes == w.homes + [BpSize(w.st.mem, env.status)]
  {
    hide Insert, WellFormed, BpSize, LoadWord;
  }

  /** After the first insertion the table is one entry in its home slot. */
  lemma FirstInsertion(env: Env, m: Memory, addr: u32, kind: u8, h: Stop)
    requires CanHitFirst(env, m, addr, h)
    ensures WellFormed(m, env.status) && Admissible(env, Fresh(m), Host(InsertBreakpoint(addr, kind)))
    ensures var w1 := Next(env, Fresh(m), Host(InsertBreakpoint(addr, kind)));
      && Conserved(env, w1) && WellFormed(w1.st.mem, env.status) && HomesOk(env, w1) && w1.homes == [0]
      && w1.bare == m && w1.scratch == {} && BpSize(w1.st.mem, env.status) == 1
      && Entries(w1.st.mem, env.status)[0].address == addr && Entries(w1.st.mem, env.status)[0].saved == LoadWord(m, addr)
      && Patches(Entries(w1.st.mem, env.status)).Keys == {addr}
      && Admissible(env, w1, Halt(h))
  {
    hide LoadWord, Disjoint, Patches, Tracks, Live, WordOf, Insert, Next, HomesOk, Range, ValidStop;
    var s, w0 := env.status, Fresh(m);
    FreshTable(env, m);
    FirstEntry(m, s, addr, kind);
    assert Admissible(env, w0, Host(InsertBreakpoint(addr, kind)));
    InsertedWorld(env, w0, addr, kind);
    NextConserves(env, w0, Host(InsertBreakpoint(addr, kind)));
    NextKeepsHomes(env, w0, Host(InsertBreakpoint(addr, kind)));
    hide BpSize, Conserved;
    var w1 := Next(env, w0, Host(InsertBreakpoint(addr, kind)));
    assert Admissible(env, w1, Halt(h));
  }

  /** Halt and continue leave the table and what it patches as they were. */
  lemma HaltAndContinue(env: Env, w: World, h: Stop)
    requires Conserved(env, w) && Admissible(env, w, Halt(h))
    ensures var w1 := Next(env, w, Halt(h));
      && Conserved(env, w1) && WellFormed(w1.st.mem, env.status) && Admissible(env, w1, Host(Continue))
      && var w2 := Next(env, w1, Host(Continue));
      && WellFormed(w2.st.mem, env.status) && Entries(w2.st.mem, env.status) == Entries(w.st.mem, env.status)
      && w2.scratch == w.scratch + Range(h.stack, SPILL_SIZE) + Range(h.ctx, CONTEXT_SIZE) && w2.bare == w.bare
  {
    hide LoadWord, Disjoint, Write, Patches, Tracks, Live, Wrap, IndexOf, CacheContinue, Untouching, Range, StoreWord;
    var m, s := w.st.mem, env.status;
    NextConserves(env, w, Halt(h));
    HaltPushes(env, w, h);
    var m2 := Write(Write(m, h.stack, h.spill), h.ctx, h.frame);
    CacheContinueEffect(m2, s, LoadWord(m2, Wrap(h.ctx + PC_OFFSET)));
    var w1 := Next(env, w, Halt(h));
    PcApart(env, w1);
    NextConserves(env, w1, Host(Continue));
  }

  /** The first instruction may read anything but the table, its own word and the two places on the
      stack where the debugger was; its store may go anywhere but into the table and its own word. */
  ghost predicate FirstUndisturbed(env: Env, m: Memory, addr: u32, h: Stop, core: Core, exec: Semantics,
                                   sources: set<u32>)
    requires ValidStatus(env.status)
  {
    var e := exec(LoadWord(m, addr), core, m);
    && DependsOn(exec, LoadWord(m, addr), core, sources)
    && (forall b: u32 :: b in sources ==>
         !InStatus(env.status, b) && WordBase(b) != addr && b !in Range(h.stack, SPILL_SIZE) + Range(h.ctx, CONTEXT_SIZE))
    && |e.data| < WORD_RANGE && Disjoint(e.addr, |e.data|, env.status, STATUS_SIZE) && Disjoint(e.addr, |e.data|, addr, 4)
  }

  /**
   * From a cleared table: insert a breakpoint, hit it, continue. The processor then executes the
   * original instruction once and goes on behind the breakpoint, in the state in which the debuggee
   * on its own memory would be after that instruction: the same core, the same pc, and the same
   * bytes but for the table, the patched word and what the halt left on the two stacks.
   */
  lemma FirstBreakpointResumes(env: Env, m: Memory, addr: u32, kind: u8, h: Stop, core: Core, exec: Semantics,
                               sources: set<u32>)
    requires CanHitFirst(env, m, addr, h) && FirstUndisturbed(env, m, addr, h, core, exec, sources)
    requires !IsBranch(LoadWord(m, addr)) && InReach(SlotAt(env.status, 0) + 12, Wrap(addr + 4))
    ensures var events := [Host(InsertBreakpoint(addr, kind)), Halt(h), Host(Continue)];
      AdmissibleRun(env, Fresh(m), events) &&
      var w := Run(env, Fresh(m), events);
      var c := Step(exec, Step(exec, Machine(core, w.st.mem, LoadWord(w.st.mem, Wrap(h.ctx + PC_OFFSET)))));
      var d := Step(exec, Machine(core, m, addr));
      var e := exec(LoadWord(m, addr), core, m);
      && c.core == d.core == e.core && c.pc == d.pc == Wrap(addr + 4) && d.mem == Write(m, e.addr, e.data)
      && var left := Range(h.stack, SPILL_SIZE) + Range(h.ctx, CONTEXT_SIZE) - Range(e.addr, |e.data|);
      forall b: u32 :: Shared(env.status, addr, left, b) ==> c.mem[b] == d.mem[b]
  {
    hide LoadWord, Disjoint, Patches, Wrap, IndexOf, Read, WordOf, Tracks, Step, InReach, Live, BackFrom, IsBranch, Write,
         WordBase, Range, Next, Admissible, Conserved, HomesOk, InStatus, FirstUndisturbed, Undisturbed, SameEffect, Shared,
         Untouching;
    FirstInsertion(env, m, addr, kind, h);
    var w1 := Next(env, Fresh(m), Host(InsertBreakpoint(addr, kind)));
    assert QuietRun(env, Next(env, w1, Halt(h)), [], 0, addr);
    TransparentResume(env, w1, h, [], 0, core, exec, sources);
    HaltAndContinue(env, w1, h);
    ThreeEvents(env, Fresh(m), Host(InsertBreakpoint(addr, kind)), Halt(h), Host(Continue));
    var w := Next(env, Next(env, w1, Halt(h)), Host(Continue));
    FirstStore(env, m, w, addr, h, core, exec, sources);
    StoreMisses(env, w, LoadWord(m, addr), core, exec, sources);
    var c := Step(exec, Step(exec, Machine(core, w.st.mem, LoadWord(w.st.mem, Wrap(h.ctx + PC_OFFSET)))));
    AfterFirst(env, w, addr, exec(LoadWord(m, addr), core, m), c, Step(exec, Machine(core, m, addr)));
  }

  lemma StoreMisses(env: Env, w: World, instr: u32, core: Core, exec: Semantics, sources: set<u32>)
    requires TableOk(w.st.mem, env.status) && Undisturbed(env, w, instr, core, exec, sources)
    ensures var e := exec(instr, core, w.bare);
            |e.data| < WORD_RANGE && Untouching(w.st.mem, env.status, e.addr, |e.data|)
  {
  }

  lemma FirstStore(env: Env, m: Memory, w: World, addr: u32, h: Stop, core: Core, exec: Semantics, sources: set<u32>)
    requires CanHitFirst(env, m, addr, h) && FirstUndisturbed(env, m, addr, h, core, exec, sources)
    requires TableOk(w.st.mem, env.status) && w.bare == m && Patches(Entries(w.st.mem, env.status)).Keys == {addr}
    requires w.scratch == Range(h.stack, SPILL_SIZE) + Range(h.ctx, CONTEXT_SIZE)
    ensures Undisturbed(env, w, LoadWord(m, addr), core, exec, sources)
  {
    hide LoadWord, Disjoint, Patches, Wrap, WordBase, Range, InStatus, DependsOn, CanHitFirst, WordOf;
    var es := Entries(w.st.mem, env.status);
    forall i | 0 <= i < |es| ensures es[i].address == addr {
      Found(es, i);
      InPatches(es, es[i].address);
    }
  }

  /** The two memories agree but where the overlay promises nothing: table, patched word and scratch. */
  lemma AfterFirst(env: Env, w: World, addr: u32, e: Effect, c: Machine, d: Machine)
    requires SameEffect(env, w, e, c, d) && TableOk(w.st.mem, env.status)
    requires |e.data| < WORD_RANGE && Untouching(w.st.mem, env.status, e.addr, |e.data|)
    requires Patches(Entries(w.st.mem, env.status)).Keys == {addr}
    ensures c.core == d.core == e.core && d.mem == Write(w.bare, e.addr, e.data)
    ensures forall b: u32 :: Shared(env.status, addr, w.scratch - Range(e.addr, |e.data|), b) ==> c.mem[b] == d.mem[b]
  {
    hide LoadWord, Patches, Write, Range, WordBase, Live;
    TableUntouched(w.st.mem, env.status, e.addr, e.data);
    forall b: u32 | Shared(env.status, addr, w.scratch - Range(e.addr, |e.data|), b) ensures c.mem[b] == d.mem[b] {
      assert d.mem[b] == Unpatched(c.mem, env.status, b);
    }
  }

  /** The byte is neither the table's nor the patched word's nor among those given. */
  predicate Shared(s: u32, addr: u32, except: set<u32>, b: u32) {
    !InStatus(s, b) && WordBase(b) != addr && b !in except
  }
}

/** Hit, save, dispatch, restore as one transition: the abort handler around the debugger. */
module Transition {
  import opened Words
  import opened Memory
  import opened Table
  import opened Commands
  import opened Session
  import opened Branch
  import opened Mmu
  import opened Overlay
  import opened Trampoline
  import opened Resume
  import opened Cpu
  import opened Debugger

  /** What the handler will push when the processor, in its present state, aborts at `fault`. */
  ghost function StopOf(cpu: Cpu, fault: u32, handler: u32): Stop
    reads cpu
    requires cpu.Valid()
  {
    Stop(Plus(cpu.sp[cpu.Bank()], -68), Flat([cpu.cpsr] + cpu.Registers() + [fault]),
         Plus(cpu.sp[Abt], -12), Flat(cpu.low[..2] + [Plus(handler, 8)]))
  }

  ghost predicate CanStop(env: Env, m: Memory, h: Stop) {
    && WellFormed(m, env.status) && ValidStop(h)
    && Disjoint(h.stack, SPILL_SIZE, env.status, STATUS_SIZE)
    && Disjoint(h.ctx, CONTEXT_SIZE, env.status, STATUS_SIZE)
  }

  /** A call of C code by the procedure-call standard: r0-r3, r12, lr and the flags may change. */
  method Clobber(cpu: Cpu)
    requires cpu.Valid() && cpu.Bank() != Abt
    modifies cpu
    ensures cpu.Valid() && cpu.sp == old(cpu.sp) && cpu.spsrAbort == old(cpu.spsrAbort)
    ensures cpu.cpsr % 0x100_0000 == old(cpu.cpsr) % 0x100_0000 && cpu.Bank() == old(cpu.Bank())
    ensures cpu.lr == old(cpu.lr)[cpu.Bank() := cpu.lr[cpu.Bank()]]
    ensures cpu.cpsr % 0x20 == old(cpu.cpsr) % 0x20
    ensures if cpu.cpsr % 0x20 == MODE_FIQ then cpu.mid == old(cpu.mid) else cpu.fiq == old(cpu.fiq)
  {
    hide BankOf;
    var r0: u32, r1: u32, r2: u32, r3: u32, r12: u32, link: u32, flags: u8 := *, *, *, *, *, *, *;
    cpu.low := [r0, r1, r2, r3] + cpu.low[4..];
    if cpu.cpsr % 0x20 == MODE_FIQ { cpu.fiq := cpu.fiq[4 := r12]; } else { cpu.mid := cpu.mid[4 := r12]; }
    cpu.lr := cpu.lr[cpu.Bank() := link];
    var flagBits: int := flags;
    NewFlags(cpu.cpsr, flagBits);
    cpu.cpsr := flagBits * 0x100_0000 + cpu.cpsr % 0x100_0000;
  }

  lemma NewFlags(cpsr: u32, flags: int)
    requires 0 <= flags < 0x100
    ensures var c := flags * 0x100_0000 + cpsr % 0x100_0000;
            c < WORD_RANGE && c % 0x20 == cpsr % 0x20 && c % 0x100_0000 == cpsr % 0x100_0000
  {
    LowBits(flags * 0x8_0000, cpsr % 0x100_0000);
    LowBits(cpsr / 0x100_0000 * 0x8_0000, cpsr % 0x100_0000);
  }

  /** The whole transition. If the commands leave the saved registers of the frame alone, every
      register, stack pointer and the status of the aborted code come back, both stacks are
      balanced, and execution goes on at the pc that the frame holds by then. */
  method HandleAbort(cpu: Cpu, dbg: Debugger, fault: u32, inbox: seq<Command>) returns (served: nat)
    requires cpu.Valid() && dbg.Valid() && cpu.ram == dbg.ram && Interruptible(cpu.cpsr)
    requires var h := StopOf(cpu, fault, dbg.env.handler);
      && CanStop(dbg.env, dbg.ram[..], h)
      && var st := State(HaltMemory(dbg.ram[..], dbg.env.status, h), h.ctx, Flatten(dbg.packets));
      && Servable(dbg.env, dbg.iLine, dbg.dLine, st, inbox)
      && LoadWords(Serve(dbg.env, dbg.iLine, dbg.dLine, st, inbox).0.mem, h.ctx, 16) == [cpu.cpsr] + cpu.Registers()
    modifies cpu, dbg, dbg.ram
    ensures var h := old(StopOf(cpu, fault, dbg.env.handler));
      && cpu.Valid() && cpu.Registers() == old(cpu.Registers()) && cpu.cpsr == old(cpu.cpsr)
      && cpu.sp == old(cpu.sp) && cpu.lr == old(cpu.lr)[Abt := cpu.lr[Abt]]
      && (if cpu.cpsr % 0x20 == MODE_FIQ then cpu.mid == old(cpu.mid) else cpu.fiq == old(cpu.fiq))
      && cpu.pc == LoadWord(dbg.ram[..], Wrap(h.ctx + PC_OFFSET))
      && (dbg.At(h.ctx), served) ==
           old(Serve(dbg.env, dbg.iLine, dbg.dLine,
                     State(HaltMemory(dbg.ram[..], dbg.env.status, h), h.ctx, Flatten(dbg.packets)), inbox))
  {
    hide Write, LoadWord, Flat, LoadWords, Plus, Interruptible, Disjoint, BankOf, Serve, Servable, CacheContinue,
         FlagsAndControl;
    ghost var h, handler := StopOf(cpu, fault, dbg.env.handler), dbg.env.handler;
    ghost var m: Memory := dbg.ram[..];
    ghost var r, cpsr := cpu.Registers(), cpu.cpsr;
    CallerBank(cpu.cpsr);
    TableUntouched(m, dbg.env.status, h.stack, h.spill);
    TableUntouched(Write(m, h.stack, h.spill), dbg.env.status, h.ctx, h.frame);
    cpu.EnterHandler(fault, dbg.env.handler);
    var ctx := cpu.sp[cpu.Bank()];
    cpu.low := [1, ctx] + cpu.low[2..];         // mov r0, #EVENT_BREAKPOINT; mov r1, sp
    served := dbg.BreakpointHandler(ctx, inbox);
    Clobber(cpu);
    SavedFrame(dbg.ram[..], ctx, cpsr, r);
    SameStatus(cpu.cpsr, cpsr);
    cpu.RestoreContext();                       // blx restore_context
    PlusPlus(old(cpu.sp[cpu.Bank()]), -68, 68);
    PlusZero(old(cpu.sp[cpu.Bank()]));
    assert cpu.sp == old(cpu.sp);
    assert cpu.lr == old(cpu.lr)[Abt := cpu.lr[Abt]];
    assert cpu.Registers() == r;
  }

  /** The frame as words: the status, the registers, then the pc. */
  lemma SavedFrame(m: Memory, ctx: u32, cpsr: u32, r: seq<u32>)
    requires |r| == 15 && LoadWords(m, ctx, 16) == [cpsr] + r
    ensures var frame := LoadWords(m, ctx, 17);
      && frame[0] == cpsr && LoadWord(m, ctx) == cpsr && frame[1..14] == r[..13] && frame[15] == r[14]
      && frame[16] == LoadWord(m, Wrap(ctx + PC_OFFSET))
  {
    hide LoadWord, LoadWords;
    LoadWordsSplit(m, ctx, 16, 1);
    LoadWordsSplit(m, ctx, 1, 15);
    OneWord(m, ctx);
    OneWord(m, Plus(ctx, 64));
    assert LoadWords(m, ctx, 17) == [cpsr] + r + [LoadWord(m, Plus(ctx, 64))];
  }

  /** Restoring flags and control is enough when the other bits are as they were. */
  lemma SameStatus(now: u32, saved: u32)
    requires now % 0x100_0000 == saved % 0x100_0000
    ensures FlagsAndControl(now, saved) == saved
  {
    var n, v := now % 0x100_0000, saved % 0x100_0000;
    assert now / 0x100 % 0x1_0000 == n / 0x100 && v / 0x100 * 0x100 + saved % 0x100 == v;
  }

  // ---- From the hit to the resumed instruction

  /** Serving commands of which only the last leaves is the session's run on them, but that the run
      also notes that the target goes on. */
  lemma {:induction false} ServeIsRun(env: Env, iLine: int, dLine: int, w: World, cmds: seq<Command>, last: Command)
    requires IsLineSize(iLine) && IsLineSize(dLine) && Leaves(last) && forall c :: c in cmds ==> !Leaves(c)
    requires AdmissibleRun(env, w, Hosts(cmds)) && Servable(env, iLine, dLine, w.st, cmds + [last])
    ensures var w1 := Run(env, w, Hosts(cmds));
      && WellFormed(w1.st.mem, env.status) && Admissible(env, w1, Host(last))
      && Serve(env, iLine, dLine, w.st, cmds + [last]) == (Dispatch(env, w1.st, last), |cmds| + 1)
      && Next(env, w1, Host(last)).st == Dispatch(env, w1.st, last).(ctx := 0)
    decreases |cmds|
  {
    hide WellFormed, WriteEnds, Dispatch, Conserved;
    if cmds == [] {
      assert cmds + [last] == [last];
    } else {
      var all, c := cmds + [last], cmds[0];
      assert all[0] == c && all[1..] == cmds[1..] + [last] && c in cmds;
      assert Hosts(cmds)[0] == Host(c) && Hosts(cmds)[1..] == Hosts(cmds[1..]);
      SameDispatch(env, w, c);
      ServeIsRun(env, iLine, dLine, Next(env, w, Host(c)), cmds[1..], last);
    }
  }

  lemma SameDispatch(env: Env, w: World, c: Command)
    requires WellFormed(w.st.mem, env.status) && Admissible(env, w, Host(c)) && !Leaves(c)
    ensures Next(env, w, Host(c)).st == Dispatch(env, w.st, c)
  {
    hide WellFormed, Dispatch;
  }

  lemma {:induction false} QuietStays(env: Env, w: World, cmds: seq<Command>, i: nat, a: u32)
    requires QuietRun(env, w, cmds, i, a)
    ensures forall c :: c in cmds ==> !Leaves(c)
    decreases |cmds|
  {
    hide Next, Admissible;
    if cmds != [] {
      assert !Leaves(cmds[0]);
      QuietStays(env, Next(env, w, Host(cmds[0])), cmds[1..], i, a);
      assert cmds == [cmds[0]] + cmds[1..];
    }
  }

  /** The pushed frame as words: its first sixteen and the faulting pc. */
  lemma FrameWords(frame: seq<u8>, xs: seq<u32>, a: u32)
    requires |xs| == 16 && frame == Flat(xs + [a])
    ensures |frame| == 68 && frame[..64] == Flat(xs) && WordOf(frame[64..]) == a
  {
    FlatAppend(xs, [a]);
    OneFlat(a);
    WordOfBytesOf(a);
    hide Flat, WordOf, BytesOf;
  }

  lemma OneFlat(a: u32)
    ensures Flat([a]) == BytesOf(a)
  {
    assert [a][1..] == [];
  }

  /** After a hit, quiet commands and a continue, the frame holds the status and the registers that
      were pushed, and as pc the code of the slot. */
  lemma FrameAfterRun(env: Env, w: World, h: Stop, cmds: seq<Command>, i: nat, xs: seq<u32>)
    requires Conserved(env, w) && Admissible(env, w, Halt(h)) && i < BpSize(w.st.mem, env.status)
    requires |xs| == 16 && h.frame == Flat(xs + [Entries(w.st.mem, env.status)[i].address])
    requires QuietRun(env, Next(env, w, Halt(h)), cmds, i, Entries(w.st.mem, env.status)[i].address)
    ensures WordOf(h.frame[64..]) == Entries(w.st.mem, env.status)[i].address
    ensures AdmissibleRun(env, Next(env, w, Halt(h)), Hosts(cmds))
    ensures var w1 := Run(env, Next(env, w, Halt(h)), Hosts(cmds));
      && Conserved(env, w1) && WellFormed(w1.st.mem, env.status)
      && var w2 := Next(env, w1, Host(Continue));
      && LoadWords(w2.st.mem, h.ctx, 16) == xs
      && LoadWord(w2.st.mem, Wrap(h.ctx + PC_OFFSET)) == SlotAt(env.status, i) + 8
  {
    hide Flat, LoadWords, LoadWord, WordOf, Next, QuietRun, Read, Wrap, Run, AdmissibleRun, Tracks, Live,
         Patches;
    FrameWords(h.frame, xs, Entries(w.st.mem, env.status)[i].address);
    ContinueEntersSlot(env, w, h, cmds, i);
    WordsOfBytes(Next(env, Run(env, Next(env, w, Halt(h)), Hosts(cmds)), Host(Continue)).st.mem, h.ctx, xs);
  }

  /** The served commands leave the memory of the run. */
  lemma ServedMemory(env: Env, iLine: int, dLine: int, w: World, cmds: seq<Command>, i: nat, a: u32)
    requires IsLineSize(iLine) && IsLineSize(dLine) && QuietRun(env, w, cmds, i, a)
    requires AdmissibleRun(env, w, Hosts(cmds)) && Servable(env, iLine, dLine, w.st, cmds + [Continue])
    ensures var w1 := Run(env, w, Hosts(cmds));
      && WellFormed(w1.st.mem, env.status)
      && Serve(env, iLine, dLine, w.st, cmds + [Continue]).0.mem == Next(env, w1, Host(Continue)).st.mem
      && Serve(env, iLine, dLine, w.st, cmds + [Continue]).1 == |cmds| + 1
  {
    hide QuietRun, Servable, Serve, AdmissibleRun, Run, Dispatch, Next, WellFormed, Hosts;
    QuietStays(env, w, cmds, i, a);
    ServeIsRun(env, iLine, dLine, w, cmds, Continue);
  }

  /** The patch of slot i is hit with frame h, the commands spare the slot, and its branch was encoded in reach. */
  ghost predicate Hit(env: Env, w: World, i: nat, h: Stop, cmds: seq<Command>) {
    && Conserved(env, w) && HomesOk(env, w) && i < BpSize(w.st.mem, env.status) && Admissible(env, w, Halt(h))
    && var entry := Entries(w.st.mem, env.status)[i];
    && QuietRun(env, Next(env, w, Halt(h)), cmds, i, entry.address)
    && !IsBranch(entry.saved) && InReach(SlotAt(env.status, w.homes[i]) + 12, Wrap(entry.address + 4))
  }

  /** The processor aborts at the patch of slot i, with the debugger in the state of w. */
  ghost predicate CanResume(cpu: Cpu, dbg: Debugger, w: World, i: nat, cmds: seq<Command>, fault: u32)
    reads cpu, dbg, dbg.ram
  {
    && cpu.Valid() && dbg.Valid() && cpu.ram == dbg.ram && Interruptible(cpu.cpsr) && w.st == dbg.At(0)
    && var h := StopOf(cpu, fault, dbg.env.handler);
    && Hit(dbg.env, w, i, h, cmds) && fault == Entries(w.st.mem, dbg.env.status)[i].address
    && Servable(dbg.env, dbg.iLine, dbg.dLine, Next(dbg.env, w, Halt(h)).st, cmds + [Continue])
  }

  /** The world after the hit, the commands and the continue. */
  ghost function Resumed(env: Env, w: World, h: Stop, cmds: seq<Command>): World
    requires WellFormed(w.st.mem, env.status) && Admissible(env, w, Halt(h))
    requires AdmissibleRun(env, Next(env, w, Halt(h)), Hosts(cmds))
    requires WellFormed(Run(env, Next(env, w, Halt(h)), Hosts(cmds)).st.mem, env.status)
  {
    Next(env, Run(env, Next(env, w, Halt(h)), Hosts(cmds)), Host(Continue))
  }

  /** The processor as the resume theorem sees it. */
  ghost function CoreOf(cpu: Cpu): Core
    reads cpu
    requires cpu.Valid()
  {
    Core(cpu.Registers(), cpu.cpsr)
  }

  /** A hit as the processor and the debugger live through it: every register comes back, the pc is
      the slot's code, and from there two steps of the processor have the core, the store and, with
      the entry at home, the pc of one step of the uninstrumented debuggee. */
  method HitAndContinue(cpu: Cpu, dbg: Debugger, ghost w: World, ghost i: nat, cmds: seq<Command>,
                        fault: u32, ghost exec: Semantics, ghost sources: set<u32>) returns (served: nat)
    requires CanResume(cpu, dbg, w, i, cmds, fault)
    modifies cpu, dbg, dbg.ram
    ensures served == |cmds| + 1
    ensures cpu.Valid() && cpu.Registers() == old(cpu.Registers()) && cpu.cpsr == old(cpu.cpsr) && cpu.sp == old(cpu.sp)
    ensures cpu.pc == SlotAt(dbg.env.status, i) + 8
    ensures var (env, h) := (dbg.env, old(StopOf(cpu, fault, dbg.env.handler)));
      && AdmissibleRun(env, Next(env, w, Halt(h)), Hosts(cmds))
      && WellFormed(Run(env, Next(env, w, Halt(h)), Hosts(cmds)).st.mem, env.status)
      && var (w2, entry) := (Resumed(env, w, h, cmds), Entries(w.st.mem, env.status)[i]);
      && dbg.ram[..] == w2.st.mem && Conserved(env, w2)
      && (Undisturbed(env, w2, entry.saved, CoreOf(cpu), exec, sources) ==>
            var c := Step(exec, Step(exec, Machine(CoreOf(cpu), dbg.ram[..], cpu.pc)));
            var d := Step(exec, Machine(CoreOf(cpu), w2.bare, fault));
            && SameEffect(env, w2, exec(entry.saved, CoreOf(cpu), w2.bare), c, d)
            && d.pc == Wrap(fault + 4) && (c.pc == d.pc <==> i == w.homes[i]))
  {
    hide Conserved, HomesOk, Admissible, QuietRun, Servable, Serve, Next, Flat, LoadWords, LoadWord, Wrap, HaltMemory,
         Undisturbed, SameEffect, Step, InReach, IsBranch, BackFrom, Interruptible, WordOf, Plus, Dispatch;
    ghost var env, h := dbg.env, StopOf(cpu, fault, dbg.env.handler);
    ghost var xs := [cpu.cpsr] + cpu.Registers();
    HaltState(env, w, h);
    FrameAfterRun(env, w, h, cmds, i, xs);
    ServedMemory(env, dbg.iLine, dbg.dLine, Next(env, w, Halt(h)), cmds, i, fault);
    TransparentResume(env, w, h, cmds, i, CoreOf(cpu), exec, sources);
    served := HandleAbort(cpu, dbg, fault, cmds + [Continue]);
  }

  lemma HaltState(env: Env, w: World, h: Stop)
    requires Conserved(env, w) && Admissible(env, w, Halt(h))
    ensures CanStop(env, w.st.mem, h)
    ensures Next(env, w, Halt(h)).st == State(HaltMemory(w.st.mem, env.status, h), h.ctx, w.st.sent)
  {
    hide Tracks, Live, Patches, LoadWord;
  }
}

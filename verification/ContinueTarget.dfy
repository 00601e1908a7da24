/** Where a continue goes, whatever the host did while the target was halted. */
module ContinueTarget {
  import opened Words
  import opened Memory
  import opened Branch
  import opened Table
  import opened Mmu
  import opened Commands
  import opened Session
  import opened Overlay
  import opened Resume

  /** Admissible commands that neither continue nor detach. */
  ghost predicate HaltedRun(env: Env, w: World, cmds: seq<Command>)
    decreases |cmds|
  {
    cmds == [] ||
    (WellFormed(w.st.mem, env.status) && Admissible(env, w, Host(cmds[0])) &&
     !cmds[0].Continue? && !cmds[0].Detach? && HaltedRun(env, Next(env, w, Host(cmds[0])), cmds[1..]))
  }

  /** No command but attach, which clears the whole struct, changes the cached address. */
  lemma CachedStep(env: Env, w: World, c: Command)
    requires Conserved(env, w) && Admissible(env, w, Host(c)) && !c.Continue? && !c.Detach?
    ensures var w' := Next(env, w, Host(c));
            && w'.st.ctx == w.st.ctx
            && ContinueAddress(w'.st.mem, env.status) == if c.Attach? then 0 else ContinueAddress(w.st.mem, env.status)
  {
    hide LoadWord, Patches, Tracks, Live, Write, Clear, GetBranch, BytesOf, Insert, Remove, ProbeRead, Read, Disjoint,
         IndexOf, Range;
    var m, s := w.st.mem, env.status;
    match c
    case Attach =>
      ClearEffect(m, s);
      TableUntouched(Clear(m, s), s, PREFETCH_VECTOR, BytesOf(GetBranch(PREFETCH_VECTOR, env.handler % 0x100_0000)));
    case InsertBreakpoint(addr, kind) =>
      InsertFails(m, s, addr, kind);
      if Insert(m, s, addr, kind).1 == Success {
        InsertEffect(m, s, addr, kind);
      }
    case RemoveBreakpoint(addr, _) =>
      RemoveFails(m, s, addr);
      if Remove(m, s, addr).1 == Success {
        RemoveEffect(m, s, addr);
      }
    case WriteMemory(addr, data) => TableUntouched(m, s, addr, data);
    case _ =>
  }

  lemma {:induction false} CachedRun(env: Env, w: World, cmds: seq<Command>)
    requires Conserved(env, w) && HaltedRun(env, w, cmds)
    ensures AdmissibleRun(env, w, Hosts(cmds))
    ensures var w' := Run(env, w, Hosts(cmds));
            && Conserved(env, w') && w'.st.ctx == w.st.ctx
            && ContinueAddress(w'.st.mem, env.status) ==
                 if exists k :: 0 <= k < |cmds| && cmds[k].Attach? then 0 else ContinueAddress(w.st.mem, env.status)
    decreases |cmds|
  {
    hide LoadWord, Next, Patches, Tracks, Live, Admissible;
    if cmds != [] {
      var w1, rest := Next(env, w, Host(cmds[0])), cmds[1..];
      NextConserves(env, w, Host(cmds[0]));
      CachedStep(env, w, cmds[0]);
      CachedRun(env, w1, rest);
      assert Hosts(cmds)[1..] == Hosts(rest);
      AttachIn(cmds);
    }
  }

  lemma AttachIn(cmds: seq<Command>)
    requires cmds != []
    ensures (exists k :: 0 <= k < |cmds| && cmds[k].Attach?) <==>
            cmds[0].Attach? || exists k :: 0 <= k < |cmds| - 1 && cmds[1..][k].Attach?
  {
    if k :| 0 <= k < |cmds| && cmds[k].Attach? {
      if k > 0 {
        assert cmds[1..][k - 1].Attach?;
      }
    }
    if k :| 0 <= k < |cmds| - 1 && cmds[1..][k].Attach? {
      assert cmds[k + 1].Attach?;
    }
  }

  /** The code of the slot that patches the pc, or the address behind the pc. */
  function Cached(m: Memory, s: u32, pc: u32): int
    requires TableOk(m, s)
  {
    var k := IndexOf(Entries(m, s), pc);
    if k < BpSize(m, s) then s + 12 + 20 * k else Wrap(pc + 4)
  }

  lemma HaltCaches(env: Env, w: World, h: Stop)
    requires Conserved(env, w) && Admissible(env, w, Halt(h))
    ensures var w0 := Next(env, w, Halt(h));
            && w0.st.ctx == h.ctx != 0
            && ContinueAddress(w0.st.mem, env.status) == Cached(w.st.mem, env.status, WordOf(h.frame[64..]))
  {
    hide LoadWord, Patches, Write, Disjoint, Wrap, Read, WordOf, CacheContinue, IndexOf, Tracks, Live;
    var m, s := w.st.mem, env.status;
    var m2 := Write(Write(m, h.stack, h.spill), h.ctx, h.frame);
    HaltPushes(env, w, h);
    ReadWritten(Write(m, h.stack, h.spill), h.ctx, h.frame);
    PcOfFrame(m2, h.ctx, h.frame);
    var pc := LoadWord(m2, Wrap(h.ctx + PC_OFFSET));
    CacheContinueEffect(m2, s, pc);
    assert Entries(m2, s) == Entries(m, s) && BpSize(m2, s) == |Entries(m2, s)| && BpSize(m, s) == |Entries(m, s)|;
    assert IndexOf(Entries(m, s), pc) <= BpSize(m, s);
  }

  /** Halt, any halted commands, continue: the target goes on in the slot that patched its pc at the
      halt, or behind its pc if none did; but once there was an attach it goes on at address 0. */
  lemma ContinueGoesTo(env: Env, w: World, h: Stop, cmds: seq<Command>)
    requires Conserved(env, w) && Admissible(env, w, Halt(h)) && HaltedRun(env, Next(env, w, Halt(h)), cmds)
    ensures AdmissibleRun(env, Next(env, w, Halt(h)), Hosts(cmds))
    ensures var w1 := Run(env, Next(env, w, Halt(h)), Hosts(cmds));
            Conserved(env, w1) && Admissible(env, w1, Host(Continue)) &&
            LoadWord(Next(env, w1, Host(Continue)).st.mem, Wrap(h.ctx + 64)) ==
              if exists j :: 0 <= j < |cmds| && cmds[j].Attach? then 0
              else Cached(w.st.mem, env.status, WordOf(h.frame[64..]))
  {
    hide LoadWord, Wrap, WordOf, Next, HaltedRun, Admissible, Cached, Conserved, WellFormed, ContinueAddress;
    ConservedTable(env, w);
    NextConserves(env, w, Halt(h));
    HaltCaches(env, w, h);
    CachedRun(env, Next(env, w, Halt(h)), cmds);
    ContinueStores(env, Run(env, Next(env, w, Halt(h)), Hosts(cmds)));
  }

  lemma ContinueStores(env: Env, w: World)
    requires Conserved(env, w) && w.st.ctx != 0
    ensures WellFormed(w.st.mem, env.status) && Admissible(env, w, Host(Continue))
    ensures LoadWord(Next(env, w, Host(Continue)).st.mem, Wrap(w.st.ctx + 64)) == ContinueAddress(w.st.mem, env.status)
  {
    hide LoadWord, Wrap, Tracks, Live, Patches;
    ContinueWrites(env, w, 0);
  }

  lemma ConservedTable(env: Env, w: World)
    requires Conserved(env, w)
    ensures WellFormed(w.st.mem, env.status)
  {
  }
}

/** What the host gets to see, and what a command leaves in memory, byte by byte. */
module Replies {
  import opened Words
  import opened Memory
  import opened Branch
  import opened Table
  import opened Mmu
  import opened Commands
  import opened Session
  import opened Overlay

  /** The answer to a command, from the table seen as a map: the kind of the command, then the error,
      then what was asked for. */
  function ExpectedReply(env: Env, m: Memory, ctx: u32, c: Command): seq<u8>
    requires TableOk(m, env.status)
  {
    var t := Patches(Entries(m, env.status));
    match c
    case Attach => [1, 0]
    case Detach => [2, 0]
    case ReadMemory(addr, size) =>
      if !ProbeRead(m, env.mmu, addr, size) then [3, 7]
      else [3, 0] + seq<u8>(size, k requires 0 <= k => m[Wrap(addr + k)])
    case WriteMemory(addr, data) =>
      if |data| < WORD_RANGE && ProbeRead(m, env.mmu, addr, |data|) then [4, 0] else [4, 7]
    case InsertBreakpoint(addr, _) => if addr in t then [5, 4] else if |t| == 64 then [5, 6] else [5, 0]
    case RemoveBreakpoint(addr, _) => if addr in t then [6, 0] else [6, 5]
    case Continue => if ctx == 0 then [7, 5] else [7, 0]
    case GetRegisters =>
      if ctx == 0 then [8, 5] else [8, 0] + seq<u8>(68, k requires 0 <= k => m[Wrap(ctx + k)])
    case Call(_, _) => []
    case Reboot => []
    case Break => [55, 0]
    case Flashlight(_) => [80, 0]
    case Other(code) => [code, 1]
  }

  /** A command is answered as its effect on the map of patches says, and leaves the context alone. */
  lemma DispatchReplies(env: Env, st: State, c: Command)
    requires WellFormed(st.mem, env.status)
    requires c.WriteMemory? ==> |c.data| < WORD_RANGE
    ensures Dispatch(env, st, c).sent == st.sent + ExpectedReply(env, st.mem, st.ctx, c)
    ensures Dispatch(env, st, c).ctx == st.ctx
  {
    hide Patches, IndexOf, ProbeRead, Write, FillSlot, Free, AttachMemory, LoadWord, Wrap;
    var es := Entries(st.mem, env.status);
    PatchesCount(es);
    match c
    case InsertBreakpoint(addr, kind) => InPatches(es, addr);
    case RemoveBreakpoint(addr, kind) => InPatches(es, addr);
    case ReadMemory(addr, size) => Grouped(st.sent, [3, 0], Read(st.mem, addr, size));
    case GetRegisters => Grouped(st.sent, [8, 0], Read(st.mem, st.ctx, 68));
    case _ =>
  }

  lemma Grouped(a: seq<u8>, b: seq<u8>, c: seq<u8>)
    ensures a + b + c == a + (b + c)
  {
  }

  /** The byte at b after a command other than an insertion or a removal. */
  function ExpectedByte(env: Env, m: Memory, ctx: u32, c: Command, b: u32): u8
    requires ValidStatus(env.status)
  {
    if c.Attach? then
      if 12 <= b < 16 then BytesOf(GetBranch(12, env.handler % 0x100_0000))[b - 12]
      else if env.status <= b < env.status + 1292 then 0
      else m[b]
    else if c.WriteMemory? && |c.data| < WORD_RANGE && ProbeRead(m, env.mmu, c.addr, |c.data|) then
      if Wrap(b - c.addr) < |c.data| then c.data[Wrap(b - c.addr)] else m[b]
    else if c.Continue? && ctx != 0 && Wrap(b - ctx - 64) < 4 then m[env.status + 1288 + Wrap(b - ctx - 64)]
    else m[b]
  }

  lemma DispatchMemory(env: Env, st: State, c: Command, b: u32)
    requires WellFormed(st.mem, env.status) && !c.InsertBreakpoint? && !c.RemoveBreakpoint?
    requires c.WriteMemory? ==> |c.data| < WORD_RANGE
    ensures Dispatch(env, st, c).mem[b] == ExpectedByte(env, st.mem, st.ctx, c, b)
  {
    var m, s := st.mem, env.status;
    assert TableOk(m, s);
    hide Patches, IndexOf, ProbeRead, Write, FillSlot, Free, LoadWord, Wrap, GetBranch, WellFormed, BytesOf, Read,
         ContinueAddress, AttachMemory;
    match c
    case Attach => AttachedMemory(env, m, b);
    case WriteMemory(addr, data) => WrittenAt(m, addr, data, b);
    case Continue => ContinuedMemory(m, s, st.ctx, b);
    case _ =>
  }

  lemma AttachedMemory(env: Env, m: Memory, b: u32)
    requires ValidStatus(env.status)
    ensures AttachMemory(env, m)[b] ==
            if 12 <= b < 16 then BytesOf(GetBranch(12, env.handler % 0x100_0000))[b - 12]
            else if env.status <= b < env.status + 1292 then 0
            else m[b]
  {
    hide Write, Wrap, GetBranch, BytesOf;
    WrittenAt(Clear(m, env.status), 12, BytesOf(GetBranch(12, env.handler % 0x100_0000)), b);
    WrittenAt(m, env.status, seq<u8>(STATUS_SIZE, _ => 0), b);
    WrapDifference(b, 12);
    WrapDifference(b, env.status);
  }

  lemma ContinuedMemory(m: Memory, s: u32, ctx: u32, b: u32)
    requires ValidStatus(s)
    ensures StoreWord(m, Wrap(ctx + 64), ContinueAddress(m, s))[b] ==
            if Wrap(b - ctx - 64) < 4 then m[s + 1288 + Wrap(b - ctx - 64)] else m[b]
  {
    hide Write, Wrap, LoadWord, BytesOf;
    WrittenAt(m, Wrap(ctx + 64), BytesOf(ContinueAddress(m, s)), b);
    OffsetOfField(ctx, b);
    WordBytes(m, s + 1288);
  }

  lemma OffsetOfField(ctx: u32, b: u32)
    ensures Wrap(b - Wrap(ctx + 64)) == Wrap(b - ctx - 64)
  {
  }

  /** A word in memory is little-endian. */
  lemma WordBytes(m: Memory, a: u32)
    requires a + 4 <= WORD_RANGE
    ensures BytesOf(LoadWord(m, a)) == [m[a], m[a + 1], m[a + 2], m[a + 3]]
    ensures var b0: int, b1: int, b2: int, b3: int := m[a], m[a + 1], m[a + 2], m[a + 3];
            LoadWord(m, a) == b0 + 0x100 * b1 + 0x1_0000 * b2 + 0x100_0000 * b3
  {
    var r := Read(m, a, 4);
    BytesOfWordOf(r);
    assert r[0] == m[a] && r[1] == m[a + 1] && r[2] == m[a + 2] && r[3] == m[a + 3];
  }

  /** A successful insertion into a table of n patches fills the n-th slot of twenty bytes. */
  lemma InsertedBytes(m: Memory, s: u32, addr: u32, kind: u8)
    requires WellFormed(m, s) && Disjoint(addr, 4, s, STATUS_SIZE)
    requires addr !in Patches(Entries(m, s)) && |Patches(Entries(m, s))| < 64
    ensures var (m', e) := Insert(m, s, addr, kind); var n := |Patches(Entries(m, s))|; var a := s + 4 + 20 * n;
            && e == Success && n < 64 && a + 20 <= s + 1284 <= WORD_RANGE - 8
            && m'[a] == kind && LoadWord(m', a + 4) == addr && LoadWord(m', a + 8) == LoadWord(m, addr)
            && LoadWord(m', a + 12) == GetBranch(a + 12, Wrap(addr + 4)) && m'[a + 16] == 1
            && LoadWord(m', s + 1284) == n + 1 && LoadWord(m', s + 1288) == LoadWord(m, s + 1288)
            && LoadWord(m', addr) == 0xe120_0070
  {
    hide LoadWord, Disjoint, GetBranch, FillSlot, StoreWord, IndexOf, Wrap, Patches;
    var es := Entries(m, s);
    PatchesCount(es);
    InPatches(es, addr);
    InsertEffect(m, s, addr, kind);
    var m' := Insert(m, s, addr, kind).0;
    assert |Entries(m', s)| == |es| + 1;
    assert Entries(m', s)[|es|] == EntryAt(m', s, |es|);
  }

  /** A removal from a table of n patches moves the last slot to the place of the removed one. */
  lemma RemovedBytes(m: Memory, s: u32, addr: u32, k: nat)
    requires WellFormed(m, s) && k < BpSize(m, s) && LoadWord(m, s + 8 + 20 * k) == addr
    ensures var (m', e) := Remove(m, s, addr); var n := BpSize(m, s); var a, z := s + 4 + 20 * k, s + 4 + 20 * (n - 1);
            && e == Success && s + 1288 <= WORD_RANGE - 4 && a <= z && z + 20 <= s + 1284
            && LoadWord(m', addr) == LoadWord(m, a + 8)
            && m'[a] == m[z] && LoadWord(m', a + 4) == LoadWord(m, z + 4) && LoadWord(m', a + 8) == LoadWord(m, z + 8)
            && LoadWord(m', a + 12) == LoadWord(m, z + 12) && m'[a + 16] == m[z + 16]
            && LoadWord(m', s + 1284) == n - 1 && LoadWord(m', s + 1288) == LoadWord(m, s + 1288)
  {
    hide LoadWord, Disjoint, Free, StoreWord, IndexOf, Wrap, Patches;
    var es, n := Entries(m, s), BpSize(m, s);
    assert es[k] == EntryAt(m, s, k) && es[n - 1] == EntryAt(m, s, n - 1);
    IndexOfEntry(es, k);
    RemoveEffect(m, s, addr);
    var m' := Remove(m, s, addr).0;
    assert |Entries(m', s)| == n - 1;
  }
}

/** One debugging session as a state machine: host commands, halts and the debuggee's own stores. */
module Session {
  import opened Words
  import opened Memory
  import opened Branch
  import opened Table
  import opened Mmu
  import opened Commands

  /** Where `status` was linked, what the MMU registers hold and where the abort handler lies. */
  datatype Env = Env(status: u32, mmu: MmuRegisters, handler: u32)

  /** Memory, the context pointer passed to the commands (0 is NULL) and the bytes sent so far. */
  datatype State = State(mem: Memory, ctx: u32, sent: seq<u8>)

  const CONTEXT_SIZE := 68
  const PC_OFFSET := 64
  const SPILL_SIZE := 12
  const PREFETCH_VECTOR := 12

  function Reply(st: State, c: Command, e: ErrorCode): State {
    st.(sent := st.sent + [TypeByte(c), ErrorByte(e)])
  }

  /** cmd_attach: the table is cleared and the prefetch-abort vector overwritten. */
  function AttachMemory(env: Env, m: Memory): Memory
    requires ValidStatus(env.status)
  {
    StoreWord(Clear(m, env.status), PREFETCH_VECTOR, GetBranch(PREFETCH_VECTOR, env.handler % 0x100_0000))
  }

  /** One call of cmd_dispatcher. A call, reboot, nested break or flashlight runs foreign code,
      which is not part of this model: only the reply they send is. */
  function Dispatch(env: Env, st: State, c: Command): State
    requires WellFormed(st.mem, env.status)
    requires c.WriteMemory? ==> |c.data| < WORD_RANGE
  {
    var m, s := st.mem, env.status;
    match c
    case Attach => Reply(st.(mem := AttachMemory(env, m)), c, Success)
    case Detach => Reply(st, c, Success)
    case ReadMemory(addr, size) =>
      if !ProbeRead(m, env.mmu, addr, size) then Reply(st, c, UnmappedMemory)
      else var r := Reply(st, c, Success); r.(sent := r.sent + Read(m, addr, size))
    case WriteMemory(addr, data) =>
      if !ProbeRead(m, env.mmu, addr, |data|) then Reply(st, c, UnmappedMemory)
      else Reply(st.(mem := Write(m, addr, data)), c, Success)
    case InsertBreakpoint(addr, kind) =>
      var (m', e) := Insert(m, s, addr, kind); Reply(st.(mem := m'), c, e)
    case RemoveBreakpoint(addr, _) =>
      var (m', e) := Remove(m, s, addr); Reply(st.(mem := m'), c, e)
    case Continue =>
      if st.ctx == 0 then Reply(st, c, NoBreakpoint)
      else Reply(st.(mem := StoreWord(m, Wrap(st.ctx + PC_OFFSET), ContinueAddress(m, s))), c, Success)
    case GetRegisters =>
      if st.ctx == 0 then Reply(st, c, NoBreakpoint)
      else var r := Reply(st, c, Success); r.(sent := r.sent + Read(m, st.ctx, CONTEXT_SIZE))
    case Call(_, _) => st
    case Reboot => st
    case Break => Reply(st, c, Success)
    case Flashlight(_) => Reply(st, c, Success)
    case Other(_) => Reply(st, c, UnknownCmd)
  }

  /** The start of breakpoint_handler: where a later continue goes is fixed now. */
  function CacheContinue(m: Memory, s: u32, pc: u32): Memory
    requires TableOk(m, s)
  {
    var k := IndexOf(Entries(m, s), pc);
    StoreWord(m, s + 1288, if k == BpSize(m, s) then Wrap(pc + 4) else SlotAt(s, k) + 8)
  }

  /** A halt spills three words on the abort stack, pushes the 17-word frame at ctx and caches the
      continue address for the frame's pc. */
  function HaltMemory(m: Memory, s: u32, h: Stop): Memory
    requires WellFormed(m, s) && ValidStop(h)
    requires Disjoint(h.stack, SPILL_SIZE, s, STATUS_SIZE) && Disjoint(h.ctx, CONTEXT_SIZE, s, STATUS_SIZE)
  {
    var m1 := Write(m, h.stack, h.spill);
    TableUntouched(m, s, h.stack, h.spill);
    var m2 := Write(m1, h.ctx, h.frame);
    TableUntouched(m1, s, h.ctx, h.frame);
    CacheContinue(m2, s, LoadWord(m2, Wrap(h.ctx + PC_OFFSET)))
  }

  /** What the abort handler leaves in memory: where, and which bytes. */
  datatype Stop = Stop(ctx: u32, frame: seq<u8>, stack: u32, spill: seq<u8>)

  predicate ValidStop(h: Stop) {
    && h.ctx != 0 && |h.frame| == CONTEXT_SIZE && |h.spill| == SPILL_SIZE
    && Disjoint(h.ctx, CONTEXT_SIZE, h.stack, SPILL_SIZE)
  }

  datatype Event =
    | Host(c: Command)                      // a command reaches the dispatcher
    | Halt(h: Stop)                         // a prefetch abort enters the debugger
    | Store(addr: u32, data: seq<u8>)       // the debuggee writes its own memory

  /** The session together with what is only reasoned about: the memory the debuggee would have
      without a debugger, the frame bytes the debugger has left on the two stacks, and for every live
      entry the slot in which it was inserted. */
  datatype World = World(st: State, bare: Memory, scratch: set<u32>, homes: seq<nat>)

  /** A range meets neither the table nor a live patch. */
  ghost predicate Untouching(m: Memory, s: u32, a: u32, n: nat)
    requires TableOk(m, s)
  {
    && Disjoint(a, n, s, STATUS_SIZE)
    && forall i :: 0 <= i < BpSize(m, s) ==> Disjoint(a, n, Entries(m, s)[i].address, 4)
  }

  /** The conditions under which the debugger can keep its promise: breakpoints on aligned words
      outside the table and the saved frames, stores that miss table and patches, an attach only
      while nothing is patched. The debuggee itself stores only while it runs. Nothing
      is asked of the other commands. */
  ghost predicate Admissible(env: Env, w: World, e: Event)
    requires WellFormed(w.st.mem, env.status)
  {
    var m, s := w.st.mem, env.status;
    match e
    case Halt(h) =>
      ValidStop(h) && Untouching(m, s, h.ctx, CONTEXT_SIZE) && Untouching(m, s, h.stack, SPILL_SIZE)
    case Store(addr, data) => w.st.ctx == 0 && |data| < WORD_RANGE && Untouching(m, s, addr, |data|)
    case Host(c) =>
      match c
      case Attach => BpSize(m, s) == 0 && Disjoint(PREFETCH_VECTOR, 4, s, STATUS_SIZE)
      case WriteMemory(addr, data) => |data| < WORD_RANGE && Untouching(m, s, addr, |data|)
      case InsertBreakpoint(addr, _) =>
        addr % 4 == 0 && Disjoint(addr, 4, s, STATUS_SIZE) && Range(addr, 4) !! w.scratch
      case _ => true
  }

  /** Memory without the debugger after one event. */
  function BareAfter(env: Env, w: World, e: Event): Memory {
    match e
    case Halt(_) => w.bare
    case Store(addr, data) => Write(w.bare, addr, data)
    case Host(c) =>
      match c
      case Attach => StoreWord(w.bare, PREFETCH_VECTOR, GetBranch(PREFETCH_VECTOR, env.handler % 0x100_0000))
      case WriteMemory(addr, data) =>
        if |data| < WORD_RANGE && ProbeRead(w.st.mem, env.mmu, addr, |data|) then Write(w.bare, addr, data) else w.bare
      case _ => w.bare
  }

  function ScratchAfter(env: Env, w: World, e: Event): set<u32> {
    match e
    case Halt(h) => w.scratch + Range(h.stack, SPILL_SIZE) + Range(h.ctx, CONTEXT_SIZE)
    case Store(addr, data) => w.scratch - Range(addr, |data|)
    case Host(c) => w.scratch
  }

  /** The home slots after one event; a removal moves the last entry, home and all. */
  function HomesAfter(env: Env, w: World, e: Event): seq<nat>
    requires WellFormed(w.st.mem, env.status)
  {
    var m, s, n := w.st.mem, env.status, |w.homes|;
    if e.Host? && e.c.InsertBreakpoint? && Insert(m, s, e.c.addr, e.c.kind).1 == Success then
      w.homes + [BpSize(m, s)]
    else if e.Host? && e.c.RemoveBreakpoint? && IndexOf(Entries(m, s), e.c.addr) < n then
      w.homes[IndexOf(Entries(m, s), e.c.addr) := w.homes[n - 1]][..n - 1]
    else if e.Host? && e.c.Attach? then []
    else w.homes
  }

  function StateAfter(env: Env, w: World, e: Event): State
    requires WellFormed(w.st.mem, env.status) && Admissible(env, w, e)
  {
    match e
    case Halt(h) => w.st.(mem := HaltMemory(w.st.mem, env.status, h), ctx := h.ctx)
    case Store(addr, data) => w.st.(mem := Write(w.st.mem, addr, data))
    case Host(c) =>
      var st := Dispatch(env, w.st, c);
      if c.Continue? || c.Detach? then st.(ctx := 0) else st
  }

  function Next(env: Env, w: World, e: Event): World
    requires WellFormed(w.st.mem, env.status) && Admissible(env, w, e)
  {
    World(StateAfter(env, w, e), BareAfter(env, w, e), ScratchAfter(env, w, e), HomesAfter(env, w, e))
  }

  /** Every event of the run is admissible where it happens. */
  ghost predicate AdmissibleRun(env: Env, w: World, events: seq<Event>)
    decreases |events|
  {
    events == [] ||
    (WellFormed(w.st.mem, env.status) && Admissible(env, w, events[0]) &&
     AdmissibleRun(env, Next(env, w, events[0]), events[1..]))
  }

  ghost function Run(env: Env, w: World, events: seq<Event>): World
    requires AdmissibleRun(env, w, events)
    decreases |events|
  {
    if events == [] then w else Run(env, Next(env, w, events[0]), events[1..])
  }

  /** A session that begins on memory m: nothing sent, nothing left on a stack. */
  function Fresh(m: Memory): World {
    World(State(m, 0, []), m, {}, [])
  }

  lemma ThreeEvents(env: Env, w: World, e1: Event, e2: Event, e3: Event)
    requires WellFormed(w.st.mem, env.status) && Admissible(env, w, e1)
    requires var w1 := Next(env, w, e1); WellFormed(w1.st.mem, env.status) && Admissible(env, w1, e2)
    requires var w2 := Next(env, Next(env, w, e1), e2); WellFormed(w2.st.mem, env.status) && Admissible(env, w2, e3)
    ensures AdmissibleRun(env, w, [e1, e2, e3])
    ensures Run(env, w, [e1, e2, e3]) == Next(env, Next(env, Next(env, w, e1), e2), e3)
  {
    hide Next, Admissible, WellFormed;
    assert [e1, e2, e3][1..] == [e2, e3] && [e2, e3][1..] == [e3] && [e3][1..] == [];
    var w2 := Next(env, Next(env, w, e1), e2);
    assert AdmissibleRun(env, w2, [e3]) && Run(env, w2, [e3]) == Next(env, w2, e3);
  }
}

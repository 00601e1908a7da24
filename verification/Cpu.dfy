/** The abort handler's assembly (int.c) on a processor with banked registers. */
module Cpu {
  import opened Words
  import opened Memory
  import opened HbootLib

  // ---- Words on a descending stack

  function Flat(ws: seq<u32>): (b: seq<u8>)
    ensures |b| == 4 * |ws|
  {
    if ws == [] then [] else BytesOf(ws[0]) + Flat(ws[1..])
  }

  function LoadWords(m: Memory, a: u32, n: nat): (ws: seq<u32>)
    ensures |ws| == n
    decreases n
  {
    if n == 0 then [] else [LoadWord(m, a)] + LoadWords(m, Plus(a, 4), n - 1)
  }

  lemma {:induction false} FlatAppend(xs: seq<u32>, ys: seq<u32>)
    ensures Flat(xs + ys) == Flat(xs) + Flat(ys)
  {
    if xs == [] {
      assert xs + ys == ys;
    } else {
      assert (xs + ys)[1..] == xs[1..] + ys;
      FlatAppend(xs[1..], ys);
    }
  }

  lemma {:induction false} WordsOfBytes(m: Memory, a: u32, ws: seq<u32>)
    requires Read(m, a, 4 * |ws|) == Flat(ws)
    ensures LoadWords(m, a, |ws|) == ws
    decreases |ws|
  {
    hide LoadWord, Read;
    if ws != [] {
      var rest := 4 * |ws[1..]|;
      ReadChunk(m, a, 4, rest);
      var b := Read(m, a, 4) + Read(m, Wrap(a + 4), rest);
      assert Read(m, a, 4) == b[..4] == BytesOf(ws[0]);
      assert Read(m, Wrap(a + 4), rest) == b[4..] == Flat(ws[1..]);
      WordOfBytesOf(ws[0]);
      LoadIs(m, a);
      WordsOfBytes(m, Plus(a, 4), ws[1..]);
    }
  }

  lemma LoadIs(m: Memory, a: u32)
    ensures LoadWord(m, a) == WordOf(Read(m, a, 4))
  {
  }

  lemma {:induction false} WordsElsewhere(m: Memory, a: u32, n: nat, b: u32, data: seq<u8>)
    requires Disjoint(a, 4 * n, b, |data|) && 4 * n <= WORD_RANGE && |data| <= WORD_RANGE
    ensures LoadWords(Write(m, b, data), a, n) == LoadWords(m, a, n)
    decreases n
  {
    hide LoadWord, Write, Disjoint;
    if n > 0 {
      if data != [] && n > 1 {
        DisjointPart(a, 4 * n, b, |data|, 4, 4 * (n - 1));
      }
      FirstWord(a, n, b, |data|);
      LoadElsewhere(m, a, b, data);
      WordsElsewhere(m, Plus(a, 4), n - 1, b, data);
    }
  }

  lemma FirstWord(a: u32, n: nat, b: u32, k: nat)
    requires Disjoint(a, 4 * n, b, k) && n > 0
    ensures Disjoint(a, 4, b, k) && (n == 1 || k == 0 ==> Disjoint(Plus(a, 4), 4 * (n - 1), b, k))
  {
  }

  /** Two adjacent pushes are one push of both lists. */
  lemma PushJoins(m: Memory, a: u32, ws: seq<u32>, xs: seq<u32>)
    requires 4 * (|ws| + |xs|) <= WORD_RANGE
    ensures var b := Plus(a, -4 * |xs|);
            Write(Write(m, a, Flat(ws)), b, Flat(xs)) == Write(m, b, Flat(xs + ws))
  {
    hide Write, Wrap, Flat;
    assert Plus(a, -4 * |xs|) == Wrap(a - 4 * |xs|);
    FlatAppend(xs, ws);
    WriteJoins(m, a, Flat(ws), Flat(xs));
  }

  lemma WriteJoins(m: Memory, a: u32, ws: seq<u8>, xs: seq<u8>)
    requires |ws| + |xs| <= WORD_RANGE
    ensures var b := Wrap(a - |xs|); Write(Write(m, a, ws), b, xs) == Write(m, b, xs + ws)
  {
    hide Write;
    var b := Wrap(a - |xs|);
    var both, whole := Write(Write(m, a, ws), b, xs), Write(m, b, xs + ws);
    forall x | 0 <= x < WORD_RANGE ensures both[x] == whole[x] {
      WrittenAt(Write(m, a, ws), b, xs, x);
      WrittenAt(m, a, ws, x);
      WrittenAt(m, b, xs + ws, x);
      OffsetFrom(a, |xs|, x);
    }
  }

  /** Offsets from the lower of two adjacent ranges. */
  lemma OffsetFrom(a: u32, n: nat, x: u32)
    requires n <= WORD_RANGE
    ensures Wrap(x - Wrap(a - n)) >= n ==> Wrap(x - a) == Wrap(x - Wrap(a - n)) - n
    ensures Wrap(x - Wrap(a - n)) < n ==> Wrap(x - a) == Wrap(x - Wrap(a - n)) - n + WORD_RANGE
  {
  }

  // ---- Registers

  datatype Bank = Usr | Fiq | Irq | Svc | Abt | Und | Mon

  const MODE_FIQ := 0x11
  const MODE_ABORT := 0x17

  predicate ValidMode(mode: int) {
    mode == 0x10 || mode == 0x11 || mode == 0x12 || mode == 0x13 ||
    mode == 0x16 || mode == 0x17 || mode == 0x1b || mode == 0x1f
  }

  /** The bank of sp and lr in a mode; system mode shares the user's. */
  function BankOf(mode: int): Bank
    requires ValidMode(mode)
  {
    if mode == 0x11 then Fiq
    else if mode == 0x12 then Irq
    else if mode == 0x13 then Svc
    else if mode == 0x16 then Mon
    else if mode == 0x17 then Abt
    else if mode == 0x1b then Und
    else Usr
  }

  /** A mode in which code may be interrupted here: privileged, ARM state, not the abort mode. */
  predicate Interruptible(cpsr: u32) {
    ValidMode(cpsr % 0x20) && cpsr % 0x20 != 0x10 && cpsr % 0x20 != MODE_ABORT && cpsr / 0x20 % 2 == 0
  }

  /** `msr cpsr_c, v`: the mode and the interrupt masks are replaced. */
  function ControlByte(cpsr: u32, v: u32): u32 {
    cpsr - cpsr % 0x100 + v % 0x100
  }

  lemma ControlMode(cpsr: u32, v: u32)
    ensures ControlByte(cpsr, v) % 0x20 == v % 0x20
    ensures ControlByte(cpsr, v) % 0x100 == v % 0x100 && ControlByte(cpsr, v) / 0x100 == cpsr / 0x100
  {
    var q, c := cpsr / 0x100, v % 0x100;
    assert ControlByte(cpsr, v) == 0x100 * q + c;
    LowBits(8 * q, c);
    LowBits(8 * (v / 0x100), c);
    assert v == 0x20 * (8 * (v / 0x100)) + c;
    ByteAndRest(q, c);
    hide ControlByte;
  }

  lemma ByteAndRest(q: int, c: int)
    requires 0 <= c < 0x100
    ensures (0x100 * q + c) / 0x100 == q && (0x100 * q + c) % 0x100 == c
  {
  }

  /** `msr cpsr, v` as assembled without a field list: the flags and control bytes are replaced. */
  function FlagsAndControl(cpsr: u32, v: u32): u32 {
    v / 0x100_0000 * 0x100_0000 + (cpsr / 0x100 % 0x1_0000) * 0x100 + v % 0x100
  }

  class Cpu {
    const ram: array<u8>
    var low: seq<u32>       // r0-r7
    var mid: seq<u32>       // r8-r12
    var fiq: seq<u32>       // r8-r12 of the FIQ mode
    var sp: map<Bank, u32>
    var lr: map<Bank, u32>
    var pc: u32
    var cpsr: u32
    var spsrAbort: u32

    ghost predicate Valid()
      reads this
    {
      && ram.Length == WORD_RANGE && |low| == 8 && |mid| == 5 && |fiq| == 5
      && (forall b: Bank :: b in sp && b in lr) && ValidMode(cpsr % 0x20)
    }

    function Bank(): Bank
      reads this
      requires Valid()
    {
      BankOf(cpsr % 0x20)
    }

    /** r8-r12 as the current mode sees them. */
    function High(): seq<u32>
      reads this
    {
      if cpsr % 0x20 == MODE_FIQ then fiq else mid
    }

    /** r0-r12, sp and lr as the current mode sees them. */
    function Registers(): seq<u32>
      reads this
      requires Valid()
    {
      low + High() + [sp[Bank()], lr[Bank()]]
    }

    /** `stmfd sp!, {...}` */
    method Push(ws: seq<u32>)
      requires Valid() && 4 * |ws| <= WORD_RANGE
      modifies this`sp, ram
      ensures Valid() && sp == old(sp)[Bank() := Plus(old(sp)[Bank()], -4 * |ws|)]
      ensures ram[..] == Write(old(ram[..]), sp[Bank()], Flat(ws))
    {
      sp := sp[Bank() := Plus(sp[Bank()], -4 * |ws|)];
      Poke(ram, sp[Bank()], Flat(ws));
    }

    /** `ldmfd sp!, {...}` into n registers, to be assigned by the caller. */
    method Pop(n: nat) returns (ws: seq<u32>)
      requires Valid()
      modifies this`sp
      ensures Valid() && sp == old(sp)[Bank() := Plus(old(sp)[Bank()], 4 * n)]
      ensures ws == LoadWords(ram[..], old(sp)[Bank()], n)
    {
      ws := LoadWords(ram[..], sp[Bank()], n);
      sp := sp[Bank() := Plus(sp[Bank()], 4 * n)];
    }

    /** `msr cpsr_c, v` */
    method MsrControl(v: u32)
      requires Valid() && ValidMode(v % 0x20)
      modifies this`cpsr
      ensures Valid() && cpsr == ControlByte(old(cpsr), v) && cpsr % 0x20 == v % 0x20
    {
      ControlMode(cpsr, v);
      cpsr := ControlByte(cpsr, v);
    }

    /** What the aborted code's registers were, as the abort handler finds them. */
    ghost function Aborted(): seq<u32>
      reads this
      requires Valid() && Interruptible(spsrAbort)
    {
      var mode := spsrAbort % 0x20;
      low + (if mode == MODE_FIQ then fiq else mid) + [sp[BankOf(mode)], lr[BankOf(mode)]]
    }

    /** The four pushes of save_context on the aborted mode's stack: r0 holds the pc, r1 the sp. */
    method PushUpper()
      requires Valid()
      modifies this`sp, ram
      ensures Valid() && sp == old(sp)[Bank() := Plus(old(sp)[Bank()], -56)]
      ensures ram[..] == Write(old(ram[..]), sp[Bank()], Flat(low[2..] + High() + [low[1], lr[Bank()], low[0]]))
    {
      hide Write, Flat, BankOf, Plus;
      ghost var m: Memory, top := ram[..], sp[Bank()];
      ghost var link, r0, r1 := lr[Bank()], low[0], low[1];
      Push([low[0]]);                           // stmfd sp!, {r0}
      Push([lr[Bank()]]);                       // stmfd sp!, {lr}
      Join(m, top, [r0], [link]);
      assert [link] + [r0] == [link, r0];
      Push([low[1]]);                           // stmfd sp!, {r1}
      Join(m, top, [link, r0], [r1]);
      assert [r1] + [link, r0] == [r1, link, r0];
      Push(low[2..] + High());                  // stmfd sp!, {r2-r12}
      Join(m, top, [r1, link, r0], low[2..] + High());
    }

    /** The first half of save_context: r0-r1 are spilled on the abort stack to make room, then the
        upper fourteen words of the frame are pushed on the aborted mode's own stack. */
    method SaveUpper()
      requires Valid() && cpsr % 0x20 == MODE_ABORT && Interruptible(spsrAbort)
      modifies this, ram
      ensures Valid() && cpsr % 0x20 == MODE_ABORT && spsrAbort == old(spsrAbort)
      ensures var b := BankOf(old(spsrAbort) % 0x20);
        && sp == old(sp)[Abt := Plus(old(sp)[Abt], -8)][b := Plus(old(sp)[b], -56)]
        && lr == old(lr)[Abt := spsrAbort]
        && ram[..] == Write(Write(old(ram[..]), Plus(old(sp)[Abt], -8), Flat(old(low)[..2])), sp[b],
                            Flat(old(Aborted())[2..] + [Plus(old(lr)[Abt], -4)]))
      ensures low[2..] == old(low)[2..] && mid == old(mid) && fiq == old(fiq)
    {
      hide Write, LoadWord, Flat, LoadWords, BankOf, Plus, BytesOf, ControlByte, Interruptible;
      CallerBank(spsrAbort);
      AbortBank(cpsr);
      ghost var r := Aborted();
      Push(low[..2]);                           // stmfd sp!, {r0-r1}
      low := low[0 := Plus(lr[Abt], -4)];       // sub r0, lr, #4
      lr := lr[Abt := spsrAbort];               // mrs lr, spsr
      MsrControl(lr[Abt]);                      // msr cpsr_c, lr
      low := low[1 := sp[Bank()]];              // mov r1, sp
      assert low[2..] + High() + [low[1], lr[Bank()], low[0]] == r[2..] + [low[0]];
      PushUpper();
      MsrControl(0xd7);                         // msr cpsr_c, #0xd7
    }

    /** save_context. It is entered in abort mode with the return address on the abort stack and
        returns in the mode that was aborted, whose stack then holds the complete frame. */
    method SaveContext()
      requires Valid() && cpsr % 0x20 == MODE_ABORT && Interruptible(spsrAbort)
      requires Disjoint(Plus(sp[BankOf(spsrAbort % 0x20)], -68), 68, Plus(sp[Abt], -8), 12)
      modifies this, ram
      ensures Valid() && cpsr == old(spsrAbort) && pc == LoadWord(old(ram[..]), old(sp)[Abt])
      ensures var b := BankOf(old(spsrAbort) % 0x20);
        && sp == old(sp)[b := Plus(old(sp)[b], -68)][Abt := Plus(old(sp)[Abt], 4)]
        && lr == old(lr)[Abt := pc]
        && ram[..] == Write(Write(old(ram[..]), Plus(old(sp)[Abt], -8), Flat(old(low)[..2])), sp[b],
                            Flat([cpsr] + old(Aborted()) + [Plus(old(lr)[Abt], -4)]))
      ensures low == old(low)[2 := cpsr] && mid == old(mid) && fiq == old(fiq) && spsrAbort == old(spsrAbort)
    {
      hide Write, LoadWord, Flat, LoadWords, BankOf, Plus, BytesOf, ControlByte, Interruptible, Disjoint;
      CallerBank(spsrAbort);
      AbortBank(cpsr);
      ghost var b := BankOf(spsrAbort % 0x20);
      ghost var a0, c0, r, m: Memory := sp[Abt], sp[b], Aborted(), ram[..];
      ghost var upper := r[2..] + [Plus(lr[Abt], -4)];
      SaveUpper();
      assert r[..2] == old(low)[..2];
      SaveLower(m, a0, c0, r[..2], upper);
      assert [spsrAbort] + r[..2] + upper == [spsrAbort] + r + [Plus(old(lr)[Abt], -4)];
      AbortBank(cpsr);
      ReturnAddressKept(m, a0, c0, r[..2], [spsrAbort] + r[..2] + upper);
      var back := Pop(1);                       // ldmfd sp!, {lr}
      lr := lr[Abt := back[0]];
      pc := lr[Abt];                            // subs pc, lr, #0
      cpsr := spsrAbort;
      PlusPlus(a0, -8, 8);
      PlusPlus(Plus(a0, -8), 8, 4);
      PlusPlus(a0, -8, 12);
      assert sp == old(sp)[b := Plus(c0, -68)][Abt := Plus(a0, 4)];
      assert r[..2] + old(low)[2..] == old(low);
    }

    /** The second half of save_context up to its last pop: r0-r1 come back from the abort stack and
        the lower three words of the frame are pushed. */
    method SaveLower(ghost m: Memory, ghost a0: u32, ghost c0: u32, ghost spill: seq<u32>, ghost upper: seq<u32>)
      requires Valid() && cpsr % 0x20 == MODE_ABORT && Interruptible(spsrAbort) && lr[Abt] == spsrAbort
      requires |spill| == 2 && |upper| == 14
      requires Disjoint(Plus(c0, -68), 68, Plus(a0, -8), 12)
      requires sp[Abt] == Plus(a0, -8) && sp[BankOf(spsrAbort % 0x20)] == Plus(c0, -56)
      requires ram[..] == Write(Write(m, Plus(a0, -8), Flat(spill)), Plus(c0, -56), Flat(upper))
      modifies this, ram
      ensures Valid() && cpsr % 0x20 == MODE_ABORT && spsrAbort == old(spsrAbort)
      ensures lr == old(lr) && mid == old(mid) && fiq == old(fiq)
      ensures low == (spill + old(low)[2..])[2 := spsrAbort]
      ensures sp == old(sp)[Abt := Plus(Plus(a0, -8), 8)][BankOf(spsrAbort % 0x20) := Plus(c0, -68)]
      ensures ram[..] == Write(Write(m, Plus(a0, -8), Flat(spill)), Plus(c0, -68), Flat([spsrAbort] + spill + upper))
    {
      hide Write, LoadWord, Flat, LoadWords, BankOf, Plus, BytesOf, ControlByte, Interruptible, Disjoint;
      CallerBank(spsrAbort);
      AbortBank(cpsr);
      AbortStackKept(m, a0, c0, spill, upper);
      var r01 := Pop(2);                        // ldmfd sp!, {r0-r1}
      low := r01 + low[2..];
      low := low[2 := spsrAbort];               // mrs r2, spsr
      MsrControl(lr[Abt]);                      // msr cpsr_c, lr
      PushLower(Write(m, Plus(a0, -8), Flat(spill)), c0, upper);
      assert low[2..3] == [spsrAbort] && low[..2] == spill;
      MsrControl(0xd7);                         // msr cpsr_c, #0xd7
    }

    /** The last two pushes of save_context complete the frame. */
    method PushLower(ghost m1: Memory, ghost c0: u32, ghost upper: seq<u32>)
      requires Valid() && |upper| == 14 && sp[Bank()] == Plus(c0, -56)
      requires ram[..] == Write(m1, Plus(c0, -56), Flat(upper))
      modifies this`sp, ram
      ensures Valid() && sp == old(sp)[Bank() := Plus(c0, -68)]
      ensures ram[..] == Write(m1, Plus(c0, -68), Flat(low[2..3] + low[..2] + upper))
    {
      hide Write, Flat, BankOf, Plus;
      Push(low[..2]);                           // stmfd sp!, {r0-r1}
      Join(m1, c0, upper, low[..2]);
      Push(low[2..3]);                          // stmfd sp!, {r2}
      Join(m1, c0, low[..2] + upper, low[2..3]);
      assert low[2..3] + (low[..2] + upper) == low[2..3] + low[..2] + upper;
    }

    /** Taking a prefetch abort at `fault`: the return address and the status are banked. */
    method PrefetchAbort(fault: u32)
      requires Valid() && Interruptible(cpsr)
      modifies this`lr, this`cpsr, this`spsrAbort, this`pc
      ensures Valid() && cpsr % 0x20 == MODE_ABORT && spsrAbort == old(cpsr)
      ensures lr == old(lr)[Abt := Plus(fault, 4)] && pc == 12
    {
      lr := lr[Abt := Plus(fault, 4)];
      spsrAbort := cpsr;
      AbortControl(cpsr);
      cpsr := cpsr / 0x200 * 0x200 + 0x180 + cpsr / 0x40 % 2 * 0x40 + MODE_ABORT;
      pc := 12;
    }

    /** From the abort to the instruction after `b save_context` in the handler at `handler`: the
        saved state is complete, only r2, sp and the abort bank differ from the aborted state. */
    method EnterHandler(fault: u32, handler: u32)
      requires Valid() && Interruptible(cpsr)
      requires Disjoint(Plus(sp[Bank()], -68), 68, Plus(sp[Abt], -12), 12)
      modifies this, ram
      ensures Valid() && cpsr == old(cpsr) && pc == Plus(handler, 8)
      ensures sp == old(sp)[old(Bank()) := Plus(old(sp[Bank()]), -68)]
      ensures lr == old(lr)[Abt := pc]
      ensures ram[..] == Write(Write(old(ram[..]), Plus(old(sp)[Abt], -12), Flat(old(low)[..2] + [pc])),
                               sp[Bank()], Flat([cpsr] + old(Registers()) + [fault]))
      ensures low == old(low)[2 := cpsr] && mid == old(mid) && fiq == old(fiq)
    {
      hide Write, LoadWord, Flat, LoadWords, Plus, BytesOf, Interruptible, Disjoint, BankOf;
      ghost var m: Memory, a0 := ram[..], sp[Abt];
      CallerBank(cpsr);
      PrefetchAbort(fault);
      AbortBank(cpsr);
      Push([Plus(handler, 8)]);                 // stmfd sp!, {pc}
      PushedWord(m, sp[Abt], Plus(handler, 8));
      PlusPlus(a0, -4, -8);
      PlusPlus(fault, 4, -4);
      PlusZero(fault);
      SaveContext();                            // b save_context
      Join(m, a0, [Plus(handler, 8)], old(low)[..2]);
      PlusPlus(a0, -4, 4);
      PlusZero(a0);
      assert sp == old(sp)[old(Bank()) := Plus(old(sp[Bank()]), -68)];
    }

    /** restore_context on the frame at sp. */
    method RestoreContext()
      requires Valid() && LoadWord(ram[..], sp[Bank()]) % 0x20 == cpsr % 0x20
      modifies this
      ensures var frame := LoadWords(ram[..], old(sp[Bank()]), 17);
        && Valid() && Bank() == old(Bank()) && cpsr == FlagsAndControl(old(cpsr), frame[0])
        && low + High() == frame[1..14] && lr == old(lr)[Bank() := frame[15]] && pc == frame[16]
        && sp == old(sp)[Bank() := Plus(old(sp[Bank()]), 68)]
      ensures if cpsr % 0x20 == MODE_FIQ then mid == old(mid) else fiq == old(fiq)
      ensures spsrAbort == old(spsrAbort)
    {
      hide LoadWord, LoadWords, Plus, BankOf, FlagsAndControl;
      FramePieces(ram[..], sp[Bank()]);
      FlagsMode(cpsr, LoadWord(ram[..], sp[Bank()]));
      var first := Pop(1);                      // ldmfd sp!, {r12}
      cpsr := FlagsAndControl(cpsr, first[0]);  // msr cpsr, r12
      PopGeneral();
      PopLink();
    }

    /** `ldmfd sp!, {r0-r12}` */
    method PopGeneral()
      requires Valid()
      modifies this`sp, this`low, this`mid, this`fiq
      ensures Valid() && sp == old(sp)[Bank() := Plus(old(sp[Bank()]), 52)]
      ensures low + High() == LoadWords(ram[..], old(sp[Bank()]), 13)
      ensures if cpsr % 0x20 == MODE_FIQ then mid == old(mid) else fiq == old(fiq)
    {
      hide LoadWord, LoadWords, Plus, BankOf;
      var general := Pop(13);
      low := general[..8];
      if cpsr % 0x20 == MODE_FIQ { fiq := general[8..]; } else { mid := general[8..]; }
    }

    /** The end of restore_context: the saved sp is dropped, lr and pc are loaded. */
    method PopLink()
      requires Valid()
      modifies this`sp, this`lr, this`pc
      ensures Valid() && sp == old(sp)[Bank() := Plus(Plus(old(sp[Bank()]), 4), 8)]
      ensures var link := LoadWords(ram[..], Plus(old(sp[Bank()]), 4), 2);
              lr == old(lr)[Bank() := link[0]] && pc == link[1]
    {
      hide LoadWord, LoadWords, Plus, BankOf;
      var dropped := Pop(1);                    // ldmfd sp!, {lr}
      lr := lr[Bank() := dropped[0]];
      var link := Pop(2);                       // ldmfd sp!, {lr, pc}
      lr := lr[Bank() := link[0]];
      pc := link[1];
    }
  }

  lemma PushedWord(m: Memory, a: u32, w: u32)
    ensures LoadWord(Write(m, a, Flat([w])), a) == w
  {
    hide Write, LoadWord;
    assert [w][1..] == [];
    assert Flat([w]) == BytesOf(w);
    LoadStored(m, a, w);
  }

  lemma AbortControl(cpsr: u32)
    ensures var c := cpsr / 0x200 * 0x200 + 0x180 + cpsr / 0x40 % 2 * 0x40 + MODE_ABORT;
            c < WORD_RANGE && c % 0x20 == MODE_ABORT
  {
    var q, f := cpsr / 0x200, cpsr / 0x40 % 2;
    LowBits(16 * q + 12 + 2 * f, MODE_ABORT);
  }

  lemma FlagsMode(cpsr: u32, v: u32)
    ensures FlagsAndControl(cpsr, v) % 0x20 == v % 0x20
  {
    var c := v % 0x100;
    LowBits(v / 0x100_0000 * 0x8_0000 + (cpsr / 0x100 % 0x1_0000) * 8, c);
    LowBits(v / 0x100 * 8, c);
  }

  /** The frame as restore_context takes it apart. */
  lemma FramePieces(m: Memory, a: u32)
    ensures var frame := LoadWords(m, a, 17);
      && LoadWords(m, a, 1) == frame[..1] && frame[0] == LoadWord(m, a)
      && LoadWords(m, Plus(a, 4), 13) == frame[1..14]
      && LoadWords(m, Plus(Plus(a, 4), 52), 1) == frame[14..15]
      && LoadWords(m, Plus(Plus(Plus(a, 4), 52), 4), 2) == frame[15..]
      && Plus(Plus(Plus(Plus(a, 4), 52), 4), 8) == Plus(a, 68)
  {
    hide LoadWord, Plus, LoadWords;
    var b := Plus(a, 4);
    var c := Plus(b, 52);
    var d := Plus(c, 4);
    LoadWordsSplit(m, a, 1, 16);
    LoadWordsSplit(m, b, 13, 3);
    LoadWordsSplit(m, c, 1, 2);
    OneWord(m, a);
    var w1, w13, w3, w2 := LoadWords(m, a, 1), LoadWords(m, b, 13), LoadWords(m, c, 1), LoadWords(m, d, 2);
    assert LoadWords(m, a, 17) == w1 + (w13 + (w3 + w2));
    PlusPlus(Plus(Plus(a, 4), 52), 4, 8);
    PlusPlus(Plus(a, 4), 52, 12);
    PlusPlus(a, 4, 64);
  }

  lemma OneWord(m: Memory, a: u32)
    ensures LoadWords(m, a, 1) == [LoadWord(m, a)]
  {
    hide LoadWord;
    assert LoadWords(m, Plus(a, 4), 0) == [];
  }

  lemma {:induction false} LoadWordsSplit(m: Memory, a: u32, n: nat, k: nat)
    ensures LoadWords(m, a, n + k) == LoadWords(m, a, n) + LoadWords(m, Plus(a, 4 * n), k)
    decreases n
  {
    hide LoadWord, Plus;
    if n == 0 {
      PlusZero(a);
    } else {
      LoadWordsSplit(m, Plus(a, 4), n - 1, k);
      PlusPlus(a, 4, 4 * (n - 1));
    }
  }

  /** Pushing xs below a frame ws that ends at top. */
  lemma Join(m: Memory, top: u32, ws: seq<u32>, xs: seq<u32>)
    requires |ws| + |xs| <= 17
    ensures Write(Write(m, Plus(top, -4 * |ws|), Flat(ws)), Plus(Plus(top, -4 * |ws|), -4 * |xs|), Flat(xs))
         == Write(m, Plus(top, -4 * (|ws| + |xs|)), Flat(xs + ws))
    ensures Plus(Plus(top, -4 * |ws|), -4 * |xs|) == Plus(top, -4 * (|ws| + |xs|))
  {
    hide Write, Flat, Plus;
    PushJoins(m, Plus(top, -4 * |ws|), ws, xs);
    PlusPlus(top, -4 * |ws|, -4 * |xs|);
  }

  lemma CallerBank(spsr: u32)
    requires Interruptible(spsr)
    ensures ValidMode(spsr % 0x20) && BankOf(spsr % 0x20) != Abt
  {
  }

  lemma AbortBank(cpsr: u32)
    requires cpsr % 0x20 == MODE_ABORT
    ensures ValidMode(cpsr % 0x20) && BankOf(cpsr % 0x20) == Abt
  {
  }

  /** The abort stack below the frame: the spilled r0-r1 and, above them, the return address. */
  lemma AbortStackKept(m: Memory, a0: u32, c0: u32, spill: seq<u32>, upper: seq<u32>)
    requires |spill| == 2 && |upper| == 14
    requires Disjoint(Plus(c0, -68), 68, Plus(a0, -8), 12)
    ensures var m2 := Write(Write(m, Plus(a0, -8), Flat(spill)), Plus(c0, -56), Flat(upper));
            LoadWords(m2, Plus(a0, -8), 2) == spill
  {
    hide Write, Flat, Read, LoadWords;
    var m1 := Write(m, Plus(a0, -8), Flat(spill));
    ReadWritten(m, Plus(a0, -8), Flat(spill));
    WordsOfBytes(m1, Plus(a0, -8), spill);
    Closer(a0, c0);
    WordsElsewhere(m1, Plus(a0, -8), 2, Plus(c0, -56), Flat(upper));
  }

  lemma ReturnAddressKept(m: Memory, a0: u32, c0: u32, spill: seq<u32>, frame: seq<u32>)
    requires |spill| == 2 && |frame| == 17
    requires Disjoint(Plus(c0, -68), 68, Plus(a0, -8), 12)
    ensures var m2 := Write(Write(m, Plus(a0, -8), Flat(spill)), Plus(c0, -68), Flat(frame));
            LoadWords(m2, Plus(Plus(a0, -8), 8), 1) == [LoadWord(m, a0)]
  {
    hide Write, Flat, LoadWord, Disjoint;
    var m1 := Write(m, Plus(a0, -8), Flat(spill));
    PlusPlus(a0, -8, 8);
    PlusZero(a0);
    Closer(a0, c0);
    LoadElsewhere(m1, a0, Plus(c0, -68), Flat(frame));
    Below(a0);
    LoadElsewhere(m, a0, Plus(a0, -8), Flat(spill));
    var m2 := Write(m1, Plus(c0, -68), Flat(frame));
    assert LoadWords(m2, a0, 1) == [LoadWord(m2, a0)] + LoadWords(m2, Plus(a0, 4), 0);
  }

  lemma Below(a0: u32)
    ensures Disjoint(a0, 4, Plus(a0, -8), 8)
  {
  }

  lemma Closer(a0: u32, c0: u32)
    requires Disjoint(Plus(c0, -68), 68, Plus(a0, -8), 12)
    ensures Disjoint(Plus(a0, -8), 8, Plus(c0, -56), 56) && Disjoint(a0, 4, Plus(c0, -68), 68)
  {
    hide Disjoint, Plus;
    PlusPlus(c0, -68, 12);
    PlusPlus(c0, -68, 0);
    PlusPlus(a0, -8, 0);
    PlusPlus(a0, -8, 8);
    PlusZero(a0);
    DisjointParts(Plus(c0, -68), 68, Plus(a0, -8), 12, 12, 56, 0, 8);
    DisjointParts(Plus(c0, -68), 68, Plus(a0, -8), 12, 0, 68, 8, 4);
    DisjointSwap(Plus(c0, -56), 56, Plus(a0, -8), 8);
    DisjointSwap(Plus(c0, -68), 68, a0, 4);
  }

  lemma PlusZero(a: u32)
    ensures Plus(a, 0) == a
  {
  }

  lemma DisjointSwap(a: u32, n: nat, b: u32, k: nat)
    requires Disjoint(a, n, b, k)
    ensures Disjoint(b, k, a, n)
  {
  }
}

/** Where encoded branches are used: read back by the disassembler, put at the vector, built by the host. */
module Vectors {
  import opened Words
  import opened Branch
  import opened Armv7
  import opened Armv7Tables
  import opened Reloc
  import opened Session

  /** Disassembling an encoded branch: an unconditional b whose offset is right modulo 2^26, and right in reach. */
  method DisasmEncoded(from: u32, to: u32) returns (ok: bool, d: Darm)
    requires (to - from) % 4 == 0
    ensures ok && d.instr.B? && d.cond == 14
    ensures d.imm % 0x400_0000 == (to - from - 8) % 0x400_0000
    ensures d.imm == Wrap(to - from - 8) <==> InReach(from, to)
  {
    var w := GetBranch(from, to);
    BranchRoundTrip(from, to);
    GetBranchIsBranch(from, to);
    EncodedHeader(w);
    SameDisplacement(from, to, BranchImm(w));
    hide GetBranch, BranchImm, InReach, Wrap;
    ok, d := DisasmBranch(w);
  }

  lemma EncodedHeader(w: u32)
    requires IsBranch(w)
    ensures IsBranchWord(w) && !IsLink(w) && w / 0x1000_0000 == 14
  {
    var h := w / 0x100_0000;
    assert w / 0x1000_0000 == h / 16;
  }

  /** The branch that int_install_exception_handlers stores goes to the handler's address cut to 24 bits. */
  lemma VectorTarget(handler: u32)
    requires handler % 4 == 0
    ensures var w := GetBranch(PREFETCH_VECTOR, handler % 0x100_0000);
            && IsBranch(w)
            && BranchTarget(w, PREFETCH_VECTOR) == handler % 0x100_0000
            && (BranchTarget(w, PREFETCH_VECTOR) == handler <==> handler < 0x100_0000)
  {
    var to: u32 := handler % 0x100_0000;
    NearVector(handler, to);
    hide GetBranch, BranchTarget, InReach, IsBranch, BranchImm, Wrap;
    BranchRoundTrip(PREFETCH_VECTOR, to);
    GetBranchIsBranch(PREFETCH_VECTOR, to);
  }

  lemma NearVector(handler: u32, to: u32)
    requires handler % 4 == 0 && to == handler % 0x100_0000
    ensures (to - PREFETCH_VECTOR) % 4 == 0 && InReach(PREFETCH_VECTOR, to)
    ensures to == handler <==> handler < 0x100_0000
  {
    assert handler == 4 * (0x40_0000 * (handler / 0x100_0000)) + to;
    var d: int := to - PREFETCH_VECTOR - 8;
    assert Wrap(d) == if d >= 0 then d else d + WORD_RANGE;
  }

  datatype Packed = Packed(bytes: seq<u8>) | StructError

  /** get_branch_instr: struct.pack('=I', ...) raises struct.error for a negative number. */
  function HostBranch(target: int, start: int): Packed {
    var d := target % 0x100_0000 - start % 0x100_0000 - 8;
    if d < 0 then StructError else Packed(BytesOf(0xea00_0000 + d / 4))
  }

  /** It agrees with cpu_get_branch on the low 24 bits of the addresses, or fails: never a third case. */
  lemma HostBranchAgrees(target: u32, start: u32)
    ensures var t, s := target % 0x100_0000, start % 0x100_0000;
            if t - s >= 8 then HostBranch(target, start) == Packed(BytesOf(GetBranch(s, t)))
            else HostBranch(target, start).StructError?
  {
    var t: u32, s: u32 := target % 0x100_0000, start % 0x100_0000;
    if t - s >= 8 {
      var d := t - s - 8;
      assert Wrap(t - s - 8) == d && d / 4 % 0x100_0000 == d / 4;
    }
  }

  /** On the addresses themselves it agrees exactly when bits 24 and 25 of the two are equal. */
  lemma HostBranchInRegion(target: u32, start: u32)
    requires target % 0x100_0000 - start % 0x100_0000 >= 8
    ensures HostBranch(target, start) == Packed(BytesOf(GetBranch(start, target))) <==>
            target / 0x100_0000 % 4 == start / 0x100_0000 % 4
  {
    var d := target % 0x100_0000 - start % 0x100_0000 - 8;
    var a, b := target / 0x100_0000, start / 0x100_0000;
    var x := Wrap(target - start - 8);
    var v: u32, w: u32 := 0xea00_0000 + d / 4, GetBranch(start, target);
    assert v == w <==> d / 4 == x / 4 % 0x100_0000;
    hide Wrap, BytesOf, GetBranch;
    assert target - start - 8 == d + 0x100_0000 * (a - b);
    FieldOfDifference(d, a - b, x);
    SameModulo4(a, b);
    WordOfBytesOf(v);
    WordOfBytesOf(w);
  }

  lemma SameModulo4(a: int, b: int)
    ensures (a - b) % 4 == 0 <==> a % 4 == b % 4
  {
    assert a - b == 4 * (a / 4 - b / 4) + (a % 4 - b % 4);
  }

  lemma FieldOfDifference(d: int, k: int, x: int)
    requires 0 <= d < 0x100_0000 && -256 < k < 256 && x == Wrap(d + 0x100_0000 * k)
    ensures d / 4 == x / 4 % 0x100_0000 <==> k % 4 == 0
  {
    var j := k % 256;
    assert x == d + 0x100_0000 * j;
    assert x / 4 == d / 4 + 0x40_0000 * j;
    var i, r := j / 4, j % 4;
    assert x / 4 == 0x100_0000 * i + (0x40_0000 * r + d / 4);
    assert x / 4 % 0x100_0000 == 0x40_0000 * r + d / 4;
    assert k % 4 == r;
  }
}

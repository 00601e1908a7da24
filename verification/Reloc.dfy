/** Moving a branch from one address to another (reloc.c). */
module Reloc {
  import opened Words
  import opened Branch
  import opened Armv7Tables
  import opened Armv7
  import opened Armv7Encode
  import opened Armv7Decode

  /** b or bl with a condition: bits 28 to 31 are not 1111 and bits 24 to 27 are 1010 or 1011. */
  predicate IsBranchWord(w: u32) {
    w / 0x1000_0000 != 15 && (w / 0x100_0000 % 16 == 10 || w / 0x100_0000 % 16 == 11)
  }

  predicate IsLink(w: u32) {
    w / 0x100_0000 % 16 == 11
  }

  lemma FieldOfWord(w: u32)
    ensures ValidWord(WordAt(w)) && SignExtended(Low24(WordAt(w))) == BranchImm(w)
  {
    WholeOfWord(w);
    hide WordAt, Low24;
  }

  lemma HeaderOfWord(w: u32)
    ensures w / 0x10_0000 % 256 / 16 == w / 0x100_0000 % 16
  {
    var x := w / 0x10_0000;
    assert w / 0x100_0000 == x / 16;
    assert x == 256 * (x / 256) + x % 256;
    assert x / 16 == 16 * (x / 256) + x % 256 / 16;
  }

  lemma BranchParts(w: u32)
    ensures var p := WordAt(w);
            && ValidWord(p) && p.cond == w / 0x1000_0000
            && (160 <= Op(p) < 176 <==> w / 0x100_0000 % 16 == 10) && (176 <= Op(p) < 192 <==> w / 0x100_0000 % 16 == 11)
            && SignExtended(Low24(p)) == BranchImm(w)
  {
    FieldOfWord(w);
    WordBits(w);
    HeaderOfWord(w);
    assert WordAt(w).cond == w / 0x1000_0000;
    hide WordAt, Op, Low24, BranchImm, SignExtended;
  }

  lemma BranchesDecode(w: u32)
    requires IsBranchWord(w)
    ensures !Undecodable(WordAt(w))
  {
    BranchParts(w);
    hide WordAt, Op;
  }

  /**
   * Among the words, exactly those of the form of b and bl are decoded as such, and the offset is
   * the one that the processor adds.
   */
  method DisasmBranch(w: u32) returns (ok: bool, d: Darm)
    ensures ok && d.instr.B? <==> IsBranchWord(w) && !IsLink(w)
    ensures ok && d.instr.Bl? <==> IsBranchWord(w) && IsLink(w)
    ensures ok && (d.instr.B? || d.instr.Bl?) ==> d.cond == w / 0x1000_0000 && d.imm == BranchImm(w)
  {
    BranchParts(w);
    if IsBranchWord(w) {
      BranchesDecode(w);
    }
    hide WordAt, Undecodable, Op, Low24, InRange, Represents, BranchImm;
    ok, d := Disasm(w);
  }

  /** darm_armv7_update: only b and bl can be written back. */
  method Update(d0: Darm) returns (ok: bool, w: u32)
    requires 0 <= d0.cond < 16 && 0 <= d0.imm < WORD_RANGE
    ensures ok <==> d0.instr.B? || d0.instr.Bl?
    ensures ok ==> w == d0.cond * 0x1000_0000 + (if d0.instr.B? then 10 else 11) * 0x100_0000 + d0.imm % 0x100_0000
  {
    w := d0.cond * 0x1000_0000;
    if d0.instr.B? {
      w := w + 10 * 0x100_0000;
      w := w + d0.imm % 0x100_0000;
    } else if d0.instr.Bl? {
      w := w + 11 * 0x100_0000;
      w := w + d0.imm % 0x100_0000;
    } else {
      return false, w;
    }
    ok := true;
  }

  /** The word that relocate_instruction leaves: the low 24 bits of the new offset, not divided by four. */
  function Relocated(w: u32, src: u32, dst: u32): u32 {
    w / 0x100_0000 * 0x100_0000 + Wrap(BranchImm(w) + src - dst) % 0x100_0000
  }

  /** The same with the offset in words. */
  function RelocatedInWords(w: u32, src: u32, dst: u32): u32 {
    w / 0x100_0000 * 0x100_0000 + Wrap(BranchImm(w) + src - dst) / 4 % 0x100_0000
  }

  /** relocate_instruction: instr is *instr afterwards. */
  method RelocateInstruction(w: u32, src: u32, dst: u32) returns (ok: bool, instr: u32)
    ensures ok <==> IsBranchWord(w)
    ensures instr == if ok then Relocated(w, src, dst) else w
  {
    hide BranchImm;
    instr := w;
    var decoded, d := DisasmBranch(w);
    if !decoded {
      return false, instr;
    }
    if d.instr.B? || d.instr.Bl? {
      d := d.(imm := Wrap(d.imm + (src - dst)));
    } else {
      return false, instr;
    }
    var updated, v := Update(d);
    if !updated {
      return false, instr;
    }
    assert w / 0x100_0000 == w / 0x1000_0000 * 16 + w / 0x100_0000 % 16;
    instr := v;
    ok := true;
  }

  /** Neither form changes the condition or the link bit. */
  lemma HeaderKept(w: u32, src: u32, dst: u32)
    requires IsBranchWord(w)
    ensures var r := Relocated(w, src, dst);
            IsBranchWord(r) && r / 0x1000_0000 == w / 0x1000_0000 && (IsLink(r) <==> IsLink(w))
    ensures var r := RelocatedInWords(w, src, dst);
            IsBranchWord(r) && r / 0x1000_0000 == w / 0x1000_0000 && (IsLink(r) <==> IsLink(w))
  {
    var offset := Wrap(BranchImm(w) + src - dst);
    SameHeader(w, offset % 0x100_0000);
    SameHeader(w, offset / 4 % 0x100_0000);
  }

  lemma SameHeader(w: u32, f: int)
    requires 0 <= f < 0x100_0000
    ensures var r := w / 0x100_0000 * 0x100_0000 + f;
            r < WORD_RANGE && r / 0x100_0000 == w / 0x100_0000 && r / 0x1000_0000 == w / 0x1000_0000 &&
            r % 0x100_0000 == f
  {
    var h := w / 0x100_0000;
    assert 0 <= h < 256 && h / 16 == w / 0x1000_0000;
    var r := h * 0x100_0000 + f;
    assert r / 0x100_0000 == h;
    assert r / 0x1000_0000 == r / 0x100_0000 / 16;
  }

  /** The offset that the moved branch needs. */
  lemma NeededOffset(w: u32, r: u32, src: u32, dst: u32)
    ensures BranchTarget(r, dst) == BranchTarget(w, src) <==> BranchImm(r) == Wrap(BranchImm(w) + src - dst)
  {
    hide BranchImm;
    var x, y := BranchImm(w), BranchImm(r);
    assert (dst + 8 + y) - (src + 8 + x) == y - (x + src - dst);
    SameRemainder(dst + 8 + y, src + 8 + x, y, x + src - dst);
    assert Wrap(y) == y;
  }

  lemma SameRemainder(a: int, b: int, c: int, d: int)
    requires a - b == c - d
    ensures Wrap(a) == Wrap(b) <==> Wrap(c) == Wrap(d)
  {
  }

  /**
   * As written, the moved branch lands where the original did exactly when the original lands on
   * the moved branch's own address plus 8, that is when the new offset is 0.
   */
  lemma RelocationAsWritten(w: u32, src: u32, dst: u32)
    ensures BranchTarget(Relocated(w, src, dst), dst) == BranchTarget(w, src) <==> BranchTarget(w, src) == Wrap(dst + 8)
  {
    var offset := Wrap(BranchImm(w) + src - dst);
    var f, r := offset % 0x100_0000, Relocated(w, src, dst);
    SameHeader(w, f);
    NeededOffset(w, r, src, dst);
    FieldMeans(r, f);
    assert BranchTarget(w, src) == Wrap(dst + 8) <==> offset == 0 by {
      var x := BranchImm(w);
      hide BranchImm;
      assert (src + 8 + x) - (dst + 8) == (x + src - dst) - 0;
      SameRemainder(src + 8 + x, dst + 8, x + src - dst, 0);
      assert Wrap(0) == 0;
    }
    hide Relocated, BranchImm, BranchTarget;
    BytesAreNotWords(offset, f);
  }

  lemma FieldMeans(r: u32, f: int)
    requires r % 0x100_0000 == f
    ensures BranchImm(r) == if f >= 0x80_0000 then 0xfc00_0000 + 4 * f else 4 * f
  {
  }

  /** A byte offset equals four times its own low 24 bits, sign-extended, only when it is 0. */
  lemma BytesAreNotWords(offset: u32, f: int)
    requires f == offset % 0x100_0000
    ensures offset == (if f >= 0x80_0000 then 0xfc00_0000 + 4 * f else 4 * f) <==> offset == 0
  {
    var h := offset / 0x100_0000;
    assert offset == h * 0x100_0000 + f;
  }

  /** With the offset in words, the target is kept exactly when it is in reach of the new address. */
  lemma RelocationInWords(w: u32, src: u32, dst: u32)
    requires src % 4 == 0 && dst % 4 == 0
    ensures BranchTarget(RelocatedInWords(w, src, dst), dst) == BranchTarget(w, src) <==>
            InReach(dst, BranchTarget(w, src))
  {
    var x := BranchImm(w);
    var offset := Wrap(x + src - dst);
    var q, r := offset / 4, RelocatedInWords(w, src, dst);
    assert x % 4 == 0;
    assert offset == 4 * q by {
      hide BranchImm;
      WholeWords(x, src, dst);
    }
    SameHeader(w, q % 0x100_0000);
    NeededOffset(w, r, src, dst);
    FieldMeans(r, q % 0x100_0000);
    assert Wrap(BranchTarget(w, src) - dst - 8) == offset by {
      hide BranchImm;
      Displacement(x, src, dst);
    }
    FieldInReach(q, q % 0x100_0000);
  }

  lemma FourTimes(n: int)
    ensures Wrap(4 * n) % 4 == 0
  {
    assert 4 * n == WORD_RANGE * (4 * n / WORD_RANGE) + Wrap(4 * n);
  }

  lemma WholeWords(x: int, src: u32, dst: u32)
    requires x % 4 == 0 && src % 4 == 0 && dst % 4 == 0
    ensures Wrap(x + src - dst) % 4 == 0
  {
    var n := x / 4 + src / 4 - dst / 4;
    assert x + src - dst == 4 * n;
    FourTimes(n);
  }

  lemma Displacement(x: u32, src: u32, dst: u32)
    ensures Wrap(Wrap(src + 8 + x) - dst - 8) == Wrap(x + src - dst)
  {
  }

  lemma FieldInReach(q: int, f: int)
    requires 0 <= q < 0x4000_0000 && f == q % 0x100_0000
    ensures 4 * q == (if f >= 0x80_0000 then 0xfc00_0000 + 4 * f else 4 * f) <==> q < 0x80_0000 || 0x3f80_0000 <= q
  {
    var h := q / 0x100_0000;
    assert q == h * 0x100_0000 + f && 0 <= h < 64;
  }

  /** `b .+8` at 0x1000, moved to 0x2000, no longer goes to 0x1008. */
  lemma RelocationMisses()
    ensures BranchTarget(0xea00_0000, 0x1000) == 0x1008
    ensures BranchTarget(Relocated(0xea00_0000, 0x1000, 0x2000), 0x2000) != 0x1008
    ensures BranchTarget(RelocatedInWords(0xea00_0000, 0x1000, 0x2000), 0x2000) == 0x1008
  {
    assert BranchImm(0xea00_0000) == 0;
    assert Relocated(0xea00_0000, 0x1000, 0x2000) == 0xeaff_f000;
    assert RelocatedInWords(0xea00_0000, 0x1000, 0x2000) == 0xeaff_fc00;
  }
}

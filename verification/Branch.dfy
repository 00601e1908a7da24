/** The ARM `b` instruction: how the debugger encodes it and where the processor then goes. */
module Branch {
  import opened Words

  /** cpu_get_branch: `0xea000000 | (((to - from - 8) >> 2) & 0x00ffffff)` on 32-bit words. */
  function GetBranch(from: u32, to: u32): u32 {
    0xea00_0000 + Wrap(to - from - 8) / 4 % 0x100_0000
  }

  /** The 24-bit field of a branch, sign-extended and multiplied by four, as a 32-bit word. */
  function BranchImm(w: u32): u32 {
    var imm24 := w % 0x100_0000;
    if imm24 >= 0x80_0000 then (0xff00_0000 + imm24) * 4 % 0x1_0000_0000 else imm24 * 4
  }

  /** Where the processor goes when it executes branch w at address a; it reads PC as a + 8. */
  function BranchTarget(w: u32, a: u32): u32 {
    Wrap(a + 8 + BranchImm(w))
  }

  /** The displacement fits the signed 26-bit range of a branch. */
  predicate InReach(from: u32, to: u32) {
    var d := Wrap(to - from - 8);
    d < 0x200_0000 || 0xfe00_0000 <= d
  }

  /** The decoded offset is congruent to the displacement modulo 2^26, and equal exactly in reach. */
  lemma BranchRoundTrip(from: u32, to: u32)
    requires (to - from) % 4 == 0
    ensures BranchImm(GetBranch(from, to)) % 0x400_0000 == (to - from - 8) % 0x400_0000
    ensures BranchTarget(GetBranch(from, to), from) == to <==> InReach(from, to)
  {
    var d := Wrap(to - from - 8);
    var q := d / 4;
    assert d == 4 * q;
    FieldOfBranch(q);
    var imm := BranchImm(GetBranch(from, to));
    WrapKeepsLow(to - from - 8);
    SameDisplacement(from, to, imm);
    hide BranchImm, Wrap;
  }

  lemma WrapKeepsLow(x: int)
    ensures Wrap(x) % 0x400_0000 == x % 0x400_0000
  {
    assert x == 0x400_0000 * (64 * (x / WORD_RANGE)) + Wrap(x);
  }

  /** An always-executed `b`. */
  predicate IsBranch(w: u32) {
    w / 0x100_0000 == 0xea
  }

  lemma GetBranchIsBranch(from: u32, to: u32)
    ensures IsBranch(GetBranch(from, to))
  {
  }

  /** A branch copied to an address delta bytes further on lands delta bytes further on. */
  lemma BranchMoved(from: u32, to: u32, delta: int)
    requires (to - from) % 4 == 0 && InReach(from, to) && 0 <= from + delta < WORD_RANGE
    ensures BranchTarget(GetBranch(from, to), from + delta) == Wrap(to + delta)
  {
    hide GetBranch, InReach, BranchImm, Wrap;
    BranchRoundTrip(from, to);
    var imm := BranchImm(GetBranch(from, to));
    assert Wrap(from + 8 + imm) == to;
    WrapPlus(from + 8 + imm, delta);
  }

  lemma WrapPlus(x: int, delta: int)
    ensures Wrap(x + delta) == Wrap(Wrap(x) + delta)
  {
    assert x + delta == WORD_RANGE * (x / WORD_RANGE) + (Wrap(x) + delta);
  }

  lemma SameDisplacement(from: u32, to: u32, imm: u32)
    ensures Wrap(from + 8 + imm) == to <==> imm == Wrap(to - from - 8)
  {
    var d: int := to - from - 8;
    assert imm - d == from + 8 + imm - to;
  }

  /** The immediate of the branch that encodes the word displacement q. */
  lemma FieldOfBranch(q: int)
    requires 0 <= q < 0x4000_0000
    ensures var imm := BranchImm(0xea00_0000 + q % 0x100_0000);
            imm % 0x400_0000 == 4 * q % 0x400_0000 &&
            (imm == 4 * q <==> q < 0x80_0000 || 0x3f80_0000 <= q)
  {
    var f, h := q % 0x100_0000, q / 0x100_0000;
    var w: u32 := 0xea00_0000 + f;
    assert w % 0x100_0000 == f;
    assert BranchImm(w) == if f >= 0x80_0000 then 0xfc00_0000 + 4 * f else 4 * f;
    assert 4 * q == 0x400_0000 * h + 4 * f;
    assert 0xfc00_0000 == 63 * 0x400_0000;
  }
}

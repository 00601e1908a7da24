/**
 * What the ARM disassembler of darm says about a 32-bit word (darm.h, armv7.c): the decoded
 * instruction, and, as an independent reference for the decoder, the word that a decoded
 * instruction stands for.
 *
 * A word is taken apart once into single bits and 4-bit digits, named by the number of their
 * lowest bit, so that `(w >> 21) & b111` is `b23 * 4 + b22 * 2 + b21`.
 */
module Armv7 {
  import opened Words
  import opened Armv7Tables

  const NO_REG := -1
  const NO_BIT := 2
  const NO_SHIFT := -1
  const SP := 13
  const PC := 15
  const UNCONDITIONAL := 15

  /** A word: bits 28-31, then each of the bits 27 to 20, bits 16-19, 12-15, 8-11, each of 7 to 4, and bits 0-3. */
  datatype Word = Word(cond: int, b27: int, b26: int, b25: int, b24: int, b23: int, b22: int, b21: int, b20: int,
                       a16: int, a12: int, a8: int, b7: int, b6: int, b5: int, b4: int, a0: int)

  predicate Bit(x: int) {
    x == 0 || x == 1
  }

  predicate Digit(x: int) {
    0 <= x < 16
  }

  predicate ValidWord(p: Word) {
    && Digit(p.cond) && Bit(p.b27) && Bit(p.b26) && Bit(p.b25) && Bit(p.b24) && Bit(p.b23) && Bit(p.b22) && Bit(p.b21)
    && Bit(p.b20) && Digit(p.a16) && Digit(p.a12) && Digit(p.a8) && Bit(p.b7) && Bit(p.b6) && Bit(p.b5) && Bit(p.b4)
    && Digit(p.a0)
  }

  /** Bits 20 to 27, and bits 4 to 7. */
  function Op(p: Word): int {
    p.b27 * 128 + p.b26 * 64 + p.b25 * 32 + p.b24 * 16 + p.b23 * 8 + p.b22 * 4 + p.b21 * 2 + p.b20
  }

  function Nibble4(p: Word): int {
    p.b7 * 8 + p.b6 * 4 + p.b5 * 2 + p.b4
  }

  /** The low 12, 16 and 24 bits. */
  function Low12(p: Word): int {
    p.a8 * 0x100 + Nibble4(p) * 16 + p.a0
  }

  function Low16(p: Word): int {
    p.a12 * 0x1000 + Low12(p)
  }

  function Low24(p: Word): int {
    (p.b23 * 8 + p.b22 * 4 + p.b21 * 2 + p.b20) * 0x10_0000 + p.a16 * 0x1_0000 + Low16(p)
  }

  function Whole(p: Word): int {
    p.cond * 0x1000_0000 + Op(p) * 0x10_0000 + p.a16 * 0x1_0000 + Low16(p)
  }

  function WordAt(w: u32): Word {
    var op, a4 := w / 0x10_0000, w / 16;
    Word(w / 0x1000_0000, op / 128 % 2, op / 64 % 2, op / 32 % 2, op / 16 % 2, op / 8 % 2, op / 4 % 2, op / 2 % 2,
         op % 2, w / 0x1_0000 % 16, w / 0x1000 % 16, w / 0x100 % 16, a4 / 8 % 2, a4 / 4 % 2, a4 / 2 % 2, a4 % 2,
         w % 16)
  }

  /** darm_t, without the members that only the Thumb decoders set. */
  datatype Darm = Darm(
    w: u32, instr: Instr, encoding: Encoding, cond: int,
    bBit: int, sBit: int, eBit: int, mBit: int, nBit: int, uBit: int, hBit: int, pBit: int, rBit: int, tBit: int,
    wBit: int, iBit: int, option: int, rotate: int,
    rd: int, rn: int, rm: int, ra: int, rt: int, rt2: int, rdHi: int, rdLo: int,
    imm: int, shiftType: int, rs: int, shift: int, lsb: int, width: int, reglist: int,
    coproc: int, opc1: int, opc2: int, crd: int, crn: int, crm: int)

  /** darm_init, and the two members that darm_armv7_disasm sets first */
  function Init(w: u32): Darm {
    Darm(w, Invld, NoEncoding, w / 0x1000_0000,
         NO_BIT, NO_BIT, NO_BIT, NO_BIT, NO_BIT, NO_BIT, NO_BIT, NO_BIT, NO_BIT, NO_BIT, NO_BIT, NO_BIT, -1, 0,
         NO_REG, NO_REG, NO_REG, NO_REG, NO_REG, NO_REG, NO_REG, NO_REG,
         0, NO_SHIFT, NO_REG, 0, 0, 0, 0, 0, 0, 0, NO_REG, NO_REG, NO_REG)
  }

  predicate Register(r: int) {
    -1 <= r <= 15
  }

  predicate Flag(b: int) {
    0 <= b <= NO_BIT
  }

  /** Every member holds a value of its type in darm.h. */
  predicate InRange(d: Darm) {
    && Register(d.rd) && Register(d.rn) && Register(d.rm) && Register(d.ra) && Register(d.rt) && Register(d.rt2)
    && Register(d.rdHi) && Register(d.rdLo) && Register(d.rs) && Register(d.crd) && Register(d.crn) && Register(d.crm)
    && Flag(d.bBit) && Flag(d.sBit) && Flag(d.eBit) && Flag(d.mBit) && Flag(d.nBit) && Flag(d.uBit) && Flag(d.hBit)
    && Flag(d.pBit) && Flag(d.rBit) && Flag(d.tBit) && Flag(d.wBit) && Flag(d.iBit)
    && -1 <= d.shiftType <= 3 && 0 <= d.shift <= 31 && 0 <= d.lsb <= 31 && d.rotate % 8 == 0 && 0 <= d.rotate <= 24
    && -1 <= d.option <= 15 && Digit(d.coproc) && Digit(d.opc1) && 0 <= d.opc2 <= 7
    && 0 <= d.imm < 0x1_0000_0000 && 0 <= d.width < 0x1_0000_0000 && 0 <= d.reglist < 0x1_0000
  }

  /** Rotate a word to the right by two bits. */
  function RotateTwo(x: int): int {
    x / 4 + x % 4 * 0x4000_0000
  }

  function Pow4(k: nat): nat {
    if k == 0 then 1 else 4 * Pow4(k - 1)
  }

  lemma {:induction false} Pow4Positive(k: nat)
    ensures Pow4(k) > 0
  {
    if k > 0 {
      Pow4Positive(k - 1);
    }
  }

  /** ROR(v, 2k) of an 8-bit value: `v >> 2k | v << (32 - 2k)` on 32-bit words. */
  function Ror8(v: int, k: int): int
    requires 0 <= v < 256 && 0 <= k < 16
  {
    Pow4Positive(k);
    v / Pow4(k) + v % Pow4(k) * Pow4(16 - k)
  }

  /** ARMExpandImm */
  function ExpandImm(imm12: int): int
    requires 0 <= imm12 < 4096
  {
    Ror8(imm12 % 256, imm12 / 256)
  }

  function RotateSteps(x: int, k: nat): int {
    if k == 0 then x else RotateTwo(RotateSteps(x, k - 1))
  }

  lemma {:induction false} Pow4Values()
    ensures Pow4(0) == 1 && Pow4(1) == 4 && Pow4(2) == 0x10 && Pow4(3) == 0x40 && Pow4(4) == 0x100
    ensures Pow4(5) == 0x400 && Pow4(6) == 0x1000 && Pow4(7) == 0x4000 && Pow4(8) == 0x1_0000
    ensures Pow4(9) == 0x4_0000 && Pow4(10) == 0x10_0000 && Pow4(11) == 0x40_0000 && Pow4(12) == 0x100_0000
    ensures Pow4(13) == 0x400_0000 && Pow4(14) == 0x1000_0000 && Pow4(15) == 0x4000_0000
    ensures Pow4(16) == 0x1_0000_0000
  {
    assert Pow4(4) == 0x100;
    assert Pow4(8) == 0x1_0000;
    assert Pow4(12) == 0x100_0000;
  }

  /** One step: the lowest base-4 digit moves to the top. */
  lemma RotateDigit(y: int, d: int)
    requires 0 <= d < 4
    ensures RotateTwo(4 * y + d) == y + d * 0x4000_0000
  {
    assert (4 * y + d) / 4 == y;
  }

  lemma NextDigit4(v: int)
    requires 0 <= v < 256
    ensures v / 4 == 4 * (v / 16) + v / 4 % 4 && v % 16 == v % 4 + 4 * (v / 4 % 4)
  {
    assert v / 16 == v / 4 / 4;
  }

  lemma NextDigit16(v: int)
    requires 0 <= v < 256
    ensures v / 16 == 4 * (v / 64) + v / 16 % 4 && v % 64 == v % 16 + 16 * (v / 16 % 4)
  {
    assert v / 64 == v / 16 / 4;
  }

  lemma NextDigit64(v: int)
    requires 0 <= v < 256
    ensures v / 64 == 4 * (v / 256) + v / 64 % 4 && v % 256 == v % 64 + 64 * (v / 64 % 4)
  {
    assert v / 64 < 4 && v / 256 == 0;
  }

  /** The base-4 digit of v that is next to leave. */
  lemma NextDigit(v: int, a: int)
    requires 0 <= v < 256 && (a == 1 || a == 4 || a == 16 || a == 64)
    ensures v / a == 4 * (v / (4 * a)) + v / a % 4 && v % (4 * a) == v % a + a * (v / a % 4)
    ensures 0 <= v / (4 * a) < 64 && 0 <= v % a < a
  {
    if a == 1 {
      assert v % 1 == 0;
    } else if a == 4 {
      NextDigit4(v);
    } else if a == 16 {
      NextDigit16(v);
    } else {
      NextDigit64(v);
    }
  }

  /** While some of the eight bits are still at the bottom. */
  lemma DigitMoves(high: int, low: int, d: int, a: int, b: int)
    requires 0 <= high < 64 && 0 <= d < 4 && 0 <= low < a
    requires (a == 1 && b == 0x4000_0000) || (a == 4 && b == 0x1000_0000) || (a == 16 && b == 0x400_0000) ||
             (a == 64 && b == 0x100_0000)
    ensures RotateTwo(4 * high + d + low * (4 * b)) == high + (low + a * d) * b
    ensures 0 <= high + (low + a * d) * b < 0x1_0000_0000
  {
    hide RotateTwo;
    if a == 1 {
      RotateDigit(high + low * 0x4000_0000, d);
    } else if a == 4 {
      RotateDigit(high + low * 0x1000_0000, d);
    } else if a == 16 {
      RotateDigit(high + low * 0x400_0000, d);
    } else {
      RotateDigit(high + low * 0x100_0000, d);
    }
  }

  lemma {:induction false} LargePower(k: nat)
    requires k >= 4
    ensures Pow4(k) >= 256
  {
    if k > 4 {
      LargePower(k - 1);
    } else {
      Pow4Values();
    }
  }

  lemma SmallQuotient(v: int, p: int)
    requires 0 <= v < p
    ensures v / p == 0 && v % p == v
  {
  }

  lemma Product(v: int, b: int)
    requires 0 <= v < 256 && 0 <= b <= 0x100_0000
    ensures v * (4 * b) == 4 * (v * b) && 0 <= v * b <= 255 * 0x100_0000
  {
    assert 0 <= v * b <= 255 * b;
  }

  /** Once all bits have left the bottom. */
  lemma LargeRor(v: int, a: int, b: int)
    requires 0 <= v < 256 <= a && 0 <= b <= 0x100_0000
    ensures RotateTwo(v / a + v % a * (4 * b)) == v / (4 * a) + v % (4 * a) * b
    ensures 0 <= v / (4 * a) + v % (4 * a) * b < 0x1_0000_0000
  {
    SmallQuotient(v, a);
    SmallQuotient(v, 4 * a);
    Product(v, b);
    RotateDigit(v * b, 0);
    hide RotateTwo;
  }

  lemma SmallRor(v: int, a: int, b: int)
    requires 0 <= v < 256
    requires (a == 1 && b == 0x4000_0000) || (a == 4 && b == 0x1000_0000) || (a == 16 && b == 0x400_0000) ||
             (a == 64 && b == 0x100_0000)
    ensures RotateTwo(v / a + v % a * (4 * b)) == v / (4 * a) + v % (4 * a) * b
    ensures 0 <= v / (4 * a) + v % (4 * a) * b < 0x1_0000_0000
  {
    hide RotateTwo;
    NextDigit(v, a);
    DigitMoves(v / (4 * a), v % a, v / a % 4, a, b);
    SameSum(v / a, v / (4 * a), v % a, v % (4 * a), v / a % 4, a, b);
  }

  lemma SameSum(x: int, high: int, low: int, rest: int, d: int, a: int, b: int)
    requires x == 4 * high + d && rest == low + a * d
    ensures x + low * (4 * b) == 4 * high + d + low * (4 * b) && high + rest * b == high + (low + a * d) * b
  {
  }

  lemma {:induction false} PowersOf(k: nat)
    requires 0 < k < 16
    ensures Pow4(k - 1) > 0 && Pow4(k) == 4 * Pow4(k - 1) && Pow4(17 - k) == 4 * Pow4(16 - k) && Pow4(16 - k) > 0
    ensures k >= 5 ==> Pow4(k - 1) >= 256 && Pow4(16 - k) <= 0x100_0000
    ensures k < 5 ==> var a, b := Pow4(k - 1), Pow4(16 - k);
              (a == 1 && b == 0x4000_0000) || (a == 4 && b == 0x1000_0000) || (a == 16 && b == 0x400_0000) ||
              (a == 64 && b == 0x100_0000)
  {
    Pow4Positive(k - 1);
    Pow4Positive(16 - k);
    if k >= 5 {
      LargePower(k - 1);
      PowMonotone(16 - k, 12);
    }
    Pow4Values();
  }

  lemma {:induction false} RorStep(v: int, k: int)
    requires 0 <= v < 256 && 0 < k < 16
    ensures Ror8(v, k) == RotateTwo(Ror8(v, k - 1))
    ensures 0 <= Ror8(v, k) < 0x1_0000_0000
  {
    PowersOf(k);
    hide Pow4, RotateTwo;
    var a, b := Pow4(k - 1), Pow4(16 - k);
    if k < 5 {
      SmallRor(v, a, b);
    } else {
      LargeRor(v, a, b);
    }
  }

  lemma {:induction false} PowMonotone(i: nat, j: nat)
    requires i <= j
    ensures Pow4(i) <= Pow4(j)
    decreases j
  {
    if i < j {
      PowMonotone(i, j - 1);
      Pow4Positive(j - 1);
    }
  }

  lemma {:induction false} RorIsSteps(v: int, k: int)
    requires 0 <= v < 256 && 0 <= k < 16
    ensures Ror8(v, k) == RotateSteps(v, k) && 0 <= Ror8(v, k) < 0x1_0000_0000
  {
    if k == 0 {
      Pow4Values();
    } else {
      hide Ror8, RotateTwo, Pow4;
      RorIsSteps(v, k - 1);
      RorStep(v, k);
    }
  }

  /** A modified immediate is its low byte rotated right twice per unit of its high digit. */
  lemma {:induction false} ExpandImmRotates(imm12: int)
    requires 0 <= imm12 < 4096
    ensures ExpandImm(imm12) == RotateSteps(imm12 % 256, imm12 / 256)
    ensures 0 <= ExpandImm(imm12) < 0x1_0000_0000
  {
    hide Ror8, RotateSteps;
    RorIsSteps(imm12 % 256, imm12 / 256);
  }

  /** A shift by 4 + n bits is a shift by 4 bits and then by n. */
  lemma Shifts(w: int)
    requires 0 <= w < WORD_RANGE
    ensures w / 0x100 == w / 16 / 16 && w / 0x1000 == w / 0x100 / 16 && w / 0x1_0000 == w / 0x1000 / 16
    ensures w / 0x10_0000 == w / 0x1_0000 / 16 && w / 0x1000_0000 == w / 0x10_0000 / 256
  {
  }

  lemma BitsOf(x: int)
    requires 0 <= x
    ensures x % 256 == x / 128 % 2 * 128 + x / 64 % 2 * 64 + x / 32 % 2 * 32 + x / 16 % 2 * 16 + x / 8 % 2 * 8 +
                       x / 4 % 2 * 4 + x / 2 % 2 * 2 + x % 2
    ensures x % 16 == x / 8 % 2 * 8 + x / 4 % 2 * 4 + x / 2 % 2 * 2 + x % 2
  {
    assert x / 4 == x / 2 / 2 && x / 8 == x / 4 / 2 && x / 16 == x / 8 / 2 && x / 32 == x / 16 / 2;
    assert x / 64 == x / 32 / 2 && x / 128 == x / 64 / 2 && x / 256 == x / 128 / 2;
    Halves(x, x / 2, x / 4, x / 8, x / 16);
    Halves(x / 16, x / 32, x / 64, x / 128, x / 256);
  }

  lemma Halves(x: int, x1: int, x2: int, x3: int, x4: int)
    requires x1 == x / 2 && x2 == x1 / 2 && x3 == x2 / 2 && x4 == x3 / 2
    ensures x == 16 * x4 + x3 % 2 * 8 + x2 % 2 * 4 + x1 % 2 * 2 + x % 2
  {
  }

  lemma WordBits(w: u32)
    ensures Op(WordAt(w)) == w / 0x10_0000 % 256 && Nibble4(WordAt(w)) == w / 16 % 16
  {
    BitsOf(w / 0x10_0000);
    BitsOf(w / 16);
  }

  lemma ValidWordAt(w: u32)
    ensures ValidWord(WordAt(w))
  {
  }

  /** Nothing is lost by taking a word apart. */
  lemma WholeOfWord(w: u32)
    ensures ValidWord(WordAt(w)) && Whole(WordAt(w)) == w
    ensures Low12(WordAt(w)) == w % 0x1000 && Low16(WordAt(w)) == w % 0x1_0000
    ensures Low24(WordAt(w)) == w % 0x100_0000
  {
    WordBits(w);
    ValidWordAt(w);
    var p := WordAt(w);
    assert Whole(p) == w by {
      hide Op, Nibble4, ValidWord;
      SumOfDigits(w);
    }
    hide WordAt;
    LowParts(p, w);
  }

  lemma SumOfDigits(w: int)
    requires 0 <= w < WORD_RANGE
    ensures w == w / 0x1000_0000 * 0x1000_0000 + w / 0x10_0000 % 256 * 0x10_0000 + w / 0x1_0000 % 16 * 0x1_0000 +
                 w / 0x1000 % 16 * 0x1000 + w / 0x100 % 16 * 0x100 + w / 16 % 16 * 16 + w % 16
  {
    Shifts(w);
    var x1, x2, x3, x4, x5 := w / 16, w / 0x100, w / 0x1000, w / 0x1_0000, w / 0x10_0000;
    assert x5 == 256 * (x5 / 256) + x5 % 256;
    assert x4 == 16 * x5 + x4 % 16 && x3 == 16 * x4 + x3 % 16 && x2 == 16 * x3 + x2 % 16;
    assert x1 == 16 * x2 + x1 % 16 && w == 16 * x1 + w % 16;
  }

  lemma LowParts(p: Word, w: int)
    requires ValidWord(p) && Whole(p) == w
    ensures Low12(p) == w % 0x1000 && Low16(p) == w % 0x1_0000 && Low24(p) == w % 0x100_0000
  {
    var high := p.cond * 16 + p.b27 * 8 + p.b26 * 4 + p.b25 * 2 + p.b24;
    assert w == high * 0x100_0000 + Low24(p);
    var middle := high * 256 + (p.b23 * 8 + p.b22 * 4 + p.b21 * 2 + p.b20) * 16 + p.a16;
    assert w == middle * 0x1_0000 + Low16(p);
    assert w == (middle * 16 + p.a12) * 0x1000 + Low12(p);
    Remainders(high, Low24(p), middle, Low16(p), middle * 16 + p.a12, Low12(p));
  }

  lemma Remainders(h: int, l24: int, m: int, l16: int, n: int, l12: int)
    requires 0 <= l24 < 0x100_0000 && 0 <= l16 < 0x1_0000 && 0 <= l12 < 0x1000
    ensures (h * 0x100_0000 + l24) % 0x100_0000 == l24
    ensures (m * 0x1_0000 + l16) % 0x1_0000 == l16
    ensures (n * 0x1000 + l12) % 0x1000 == l12
  {
  }
}

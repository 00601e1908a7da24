/**
 * Which members of darm_t each instruction uses: a form is a blank darm_t with the label, the
 * encoding and the members of that instruction taken over. `d == Form...(d)` says that every other
 * member of d is as darm_init leaves it. Labels that an encoding does not have give a form without
 * an encoding, which no decoded instruction equals.
 */
module Armv7Forms {
  import opened Armv7Tables
  import opened Armv7

  function Blank(d: Darm, encoding: Encoding): Darm {
    Init(d.w).(instr := d.instr, encoding := encoding)
  }

  /** The members of a register operand that is shifted by Rs or by an immediate. */
  function WithShift(b: Darm, d: Darm): Darm {
    if d.rs != NO_REG then b.(rm := d.rm, shiftType := d.shiftType, rs := d.rs)
    else b.(rm := d.rm, shiftType := d.shiftType, shift := d.shift)
  }

  function WithImmediate(b: Darm, d: Darm): Darm {
    b.(imm := d.imm, iBit := 1)
  }

  function FormMul(d: Darm): Darm {
    var b := Blank(d, ArmMul).(sBit := d.sBit, rm := d.rm, rn := d.rn);
    if d.instr.Mul? then b.(rd := d.rd)
    else if d.instr.Mla? || d.instr.Mls? then b.(rd := d.rd, ra := d.ra)
    else if d.instr.Umaal? || d.instr.Umull? || d.instr.Umlal? || d.instr.Smull? || d.instr.Smlal? then
      b.(rdHi := d.rdHi, rdLo := d.rdLo)
    else Init(d.w)
  }

  function FormHalf(d: Darm, b: Darm): Darm {
    if d.iBit == 1 then WithImmediate(b, d) else b.(rm := d.rm)
  }

  function FormStack1(d: Darm): Darm {
    FormHalf(d, Blank(d, ArmStack1).(rn := d.rn, rt := d.rt, pBit := d.pBit, uBit := d.uBit))
  }

  function FormStack2(d: Darm): Darm {
    FormHalf(d, Blank(d, ArmStack2).(rn := d.rn, rt := d.rt, pBit := d.pBit, uBit := d.uBit, wBit := d.wBit))
  }

  function FormSync(d: Darm): Darm {
    var b := Blank(d, ArmSync).(rn := d.rn, rt := d.rt);
    if d.instr.Swp? || d.instr.Swpb? then b.(bBit := d.bBit, rt2 := d.rt2)
    else if d.instr.Ldrex? || d.instr.Ldrexd? || d.instr.Ldrexb? || d.instr.Ldrexh? then b
    else if d.instr.Strex? || d.instr.Strexd? || d.instr.Strexb? || d.instr.Strexh? then b.(rd := d.rd)
    else Init(d.w)
  }

  function FormStack0(d: Darm): Darm {
    var b := Blank(d, ArmStack0).(rn := d.rn, rt := d.rt, pBit := d.pBit, uBit := d.uBit, wBit := d.wBit);
    if d.iBit == 1 then WithImmediate(b, d) else b.(rm := d.rm, shiftType := d.shiftType, shift := d.shift)
  }

  function FormThree(d: Darm, encoding: Encoding): Darm {
    Blank(d, encoding).(rn := d.rn, rd := d.rd, rm := d.rm)
  }

  function FormPusr(d: Darm): Darm {
    var b := Blank(d, ArmPusr).(rd := d.rd);
    if d.instr.Ssat? || d.instr.Usat? then
      WithImmediate(b, d).(rn := d.rn, shiftType := d.shiftType, shift := d.shift)
    else if d.instr.Ssat16? || d.instr.Usat16? then WithImmediate(b, d).(rn := d.rn)
    else b.(rn := d.rn, rm := d.rm, rotate := d.rotate)
  }

  function FormArithShift(d: Darm): Darm {
    WithShift(Blank(d, ArmArithShift).(sBit := d.sBit, rd := d.rd, rn := d.rn), d)
  }

  function FormArithImm(d: Darm): Darm {
    var b := WithImmediate(Blank(d, ArmArithImm), d).(sBit := d.sBit, rd := d.rd);
    if d.instr.Adr? then b.(uBit := d.uBit) else b.(rn := d.rn)
  }

  function FormBits(d: Darm): Darm {
    var b := Blank(d, ArmBits).(rd := d.rd, lsb := d.lsb, width := d.width);
    if d.instr.Bfc? then b
    else if d.instr.Sbfx? || d.instr.Ubfx? || d.instr.Bfi? then b.(rn := d.rn)
    else Init(d.w)
  }

  function FormBranch(d: Darm): Darm {
    if d.instr.B? || d.instr.Bl? || d.instr.Svc? then WithImmediate(Blank(d, ArmBrnchsc), d) else Init(d.w)
  }

  function FormBranchMisc(d: Darm): Darm {
    var b := Blank(d, ArmBrnchmisc);
    if d.instr.Bkpt? then WithImmediate(b, d)
    else if d.instr.Bx? || d.instr.Bxj? || d.instr.Blx? then b.(rm := d.rm)
    else if d.instr.Msr? then WithImmediate(b, d).(rn := d.rn)
    else Init(d.w)
  }

  function FormMovImm(d: Darm): Darm {
    var b := WithImmediate(Blank(d, ArmMovImm), d).(rd := d.rd);
    if d.instr.Mov? || d.instr.Mvn? then b.(sBit := d.sBit)
    else if d.instr.Movw? || d.instr.Movt? then b
    else Init(d.w)
  }

  function FormCmpOp(d: Darm): Darm {
    WithShift(Blank(d, ArmCmpOp).(rn := d.rn), d)
  }

  function FormCmpImm(d: Darm): Darm {
    WithImmediate(Blank(d, ArmCmpImm), d).(rn := d.rn)
  }

  function FormDstSrc(d: Darm): Darm {
    var b := Blank(d, ArmDstSrc).(sBit := d.sBit, rd := d.rd, rm := d.rm, shiftType := d.shiftType);
    if d.rn != NO_REG then b.(rn := d.rn) else b.(shift := d.shift)
  }

  function FormLdstregs(d: Darm): Darm {
    Blank(d, ArmLdstregs).(wBit := d.wBit, rn := d.rn, reglist := d.reglist)
  }

  function FormBitrev(d: Darm): Darm {
    Blank(d, ArmBitrev).(rd := d.rd, rm := d.rm)
  }

  function FormMisc(d: Darm): Darm {
    var b := Blank(d, ArmMisc);
    if d.instr.Mvn? then WithShift(b.(sBit := d.sBit, rd := d.rd), d)
    else if d.instr.Smc? then WithImmediate(b, d)
    else if d.instr.Clz? then b.(rm := d.rm, rd := d.rd)
    else if d.instr.Sel? then FormThree(d, ArmMisc)
    else if d.instr.Pkh? then FormThree(d, ArmMisc).(shiftType := d.shiftType, shift := d.shift, tBit := d.tBit)
    else Init(d.w)
  }

  function FormSm(d: Darm): Darm {
    var b := Blank(d, ArmSm).(rm := d.rm, rn := d.rn);
    if d.instr.Smul? then b.(rd := d.rd, mBit := d.mBit, nBit := d.nBit)
    else if d.instr.Smla? then b.(rd := d.rd, ra := d.ra, mBit := d.mBit, nBit := d.nBit)
    else if d.instr.Smlal? then b.(rdHi := d.rdHi, rdLo := d.rdLo, mBit := d.mBit, nBit := d.nBit)
    else if d.instr.Smmul? || d.instr.Smmla? || d.instr.Smmls? then b.(rd := d.rd, ra := d.ra, rBit := d.rBit)
    else if d.instr.Smusd? || d.instr.Smlsd? || d.instr.Smuad? || d.instr.Smlad? then
      b.(rd := d.rd, ra := d.ra, mBit := d.mBit)
    else if d.instr.Smlsld? || d.instr.Smlald? then b.(rdHi := d.rdHi, rdLo := d.rdLo, mBit := d.mBit)
    else Init(d.w)
  }

  function FormMvcr(d: Darm): Darm {
    var b := Blank(d, ArmMvcr).(crn := d.crn, coproc := d.coproc, opc2 := d.opc2, crm := d.crm, opc1 := d.opc1);
    if d.instr.Cdp? then b.(crd := d.crd)
    else if d.instr.Mcr? || d.instr.Mrc? then b.(rt := d.rt)
    else Init(d.w)
  }

  function FormUdf(d: Darm): Darm {
    if d.instr.Udf? then WithImmediate(Blank(d, ArmUdf), d) else Init(d.w)
  }

  function FormPreload(d: Darm): Darm {
    var b := Blank(d, ArmUncond).(rn := d.rn, uBit := d.uBit);
    if d.iBit == 1 then WithImmediate(b, d) else b.(rm := d.rm, shiftType := d.shiftType, shift := d.shift)
  }

  function FormUncond(d: Darm): Darm {
    var b := Blank(d, ArmUncond);
    if d.instr.Setend? then b.(eBit := d.eBit)
    else if d.instr.Clrex? then b
    else if d.instr.Dsb? || d.instr.Dmb? || d.instr.Isb? then b.(option := d.option)
    else if d.instr.Pld? || d.instr.Pldw? || d.instr.Pli? then FormPreload(d)
    else if d.instr.Blx? then WithImmediate(b, d).(hBit := d.hBit)
    else if d.instr.Cdp2? then
      b.(crn := d.crn, coproc := d.coproc, opc2 := d.opc2, crm := d.crm, opc1 := d.opc1, crd := d.crd)
    else if d.instr.Mcr2? || d.instr.Mrc2? then
      b.(crn := d.crn, coproc := d.coproc, opc2 := d.opc2, crm := d.crm, opc1 := d.opc1, rt := d.rt)
    else Init(d.w)
  }
}

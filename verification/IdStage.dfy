/** The decode stage: input capture and the early JAL/JALR target (rtl/core/friscv_id_stage.sv). */
module IdStage {
  import opened Words
  import opened Isa

  datatype Regs = Regs(ir: Instr, pc: Word, nextPc: Word, valid: bool)

  const RESET: Regs := Regs(NOP, 0, 0, false)

  datatype In = In(flush: bool, stall: bool, ir: Instr, pc: Word, nextPc: Word)

  function Next(r: Regs, i: In): Regs {
    if i.flush then RESET
    else if !i.stall then Regs(i.ir, i.pc, i.nextPc, true)
    else r
  }

  /** The target of a JAL or JALR in ID; the value being written back is forwarded to JALR's base. */
  function JumpTarget(r: Regs, rs1: Word, wbRd: Reg, wbValue: Word): Word {
    match r.ir
    case Jal(_, imm) => Trunc(r.pc + imm)
    case Jalr(_, rs, imm) =>
      var base := if wbRd != 0 && rs == wbRd then wbValue else rs1;
      var t := Trunc(base + imm);
      t - t % 2
    case _ => 0
  }

  predicate JumpOk(r: Regs, rs1: Word, wbRd: Reg, wbValue: Word) {
    (r.ir.Jal? || r.ir.Jalr?) && !(JumpTarget(r, rs1, wbRd, wbValue) / 2 % 2 == 1 && r.valid)
  }

  class Stage {
    var ir: Instr
    var pc: Word
    var nextPc: Word
    var valid: bool

    function State(): Regs
      reads this
    {
      Regs(ir, pc, nextPc, valid)
    }

    constructor ()
      ensures State() == RESET
    {
      ir, pc, nextPc, valid := NOP, 0, 0, false;
    }

    method Clock(i: In)
      modifies this
      ensures State() == Next(old(State()), i)
    {
      if i.flush {
        ir, pc, nextPc, valid := NOP, 0, 0, false;
      } else if !i.stall {
        ir, pc, nextPc, valid := i.ir, i.pc, i.nextPc, true;
      }
    }
  }
}

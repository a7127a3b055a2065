/** The writeback stage (rtl/core/friscv_wb_stage.sv). */
module WbStage {
  import opened Words
  import opened Isa
  import opened Decoder

  datatype Regs = Regs(nextPc: Word, aluData: Word, loadData: Word, scRes: Word, sel: WbSel, rd: Reg, valid: bool)

  const RESET: Regs := Regs(0, 0, 0, 0, AluData, 0, false)

  function Next(r: Regs, stall: bool, i: Regs): Regs {
    if stall then r else i
  }

  function Result(r: Regs): Word {
    match r.sel
    case PcPlus4 => r.nextPc
    case AluData => r.aluData
    case MemData => r.loadData
    case ScRes => r.scRes
  }

  /** An instruction retires in the one cycle it leaves WB. */
  predicate Retires(r: Regs, stall: bool) {
    r.valid && !stall
  }

  class Stage {
    var nextPc: Word
    var aluData: Word
    var loadData: Word
    var scRes: Word
    var sel: WbSel
    var rd: Reg
    var valid: bool

    function State(): Regs
      reads this
    {
      Regs(nextPc, aluData, loadData, scRes, sel, rd, valid)
    }

    constructor ()
      ensures State() == RESET
    {
      nextPc, aluData, loadData, scRes, sel, rd, valid := 0, 0, 0, 0, AluData, 0, false;
    }

    method Clock(stall: bool, i: Regs)
      modifies this
      ensures State() == Next(old(State()), stall, i)
    {
      if !stall {
        nextPc, aluData, loadData, scRes := i.nextPc, i.aluData, i.loadData, i.scRes;
        sel, rd, valid := i.sel, i.rd, i.valid;
      }
    }
  }
}

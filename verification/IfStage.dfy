/** The fetch stage (rtl/core/friscv_if_stage.sv). */
module IfStage {
  import opened Words
  import opened Isa

  datatype Regs = Regs(pc: Word, ir: Instr, fetchActive: bool, flushPending: bool)

  datatype In = In(flush: bool, stall: bool, wait: bool, jump: bool, jumpTarget: Word,
                   trap: bool, trapVector: Word, ret: bool, epc: Word, data: Instr)

  function Reset(vector: Word): Regs {
    Regs(vector, NOP, true, false)
  }

  function NextPc(r: Regs): Word {
    Trunc(r.pc + 4)
  }

  predicate Redirects(i: In) {
    i.flush || i.jump || i.trap || i.ret
  }

  function RedirectPc(r: Regs, i: In): Word {
    if i.ret then i.epc else if i.trap then i.trapVector else if i.jump then i.jumpTarget else r.pc
  }

  /** The word offered to ID in this cycle. */
  function Ir(r: Regs, i: In): Instr {
    if r.flushPending then NOP
    else if r.fetchActive then (if i.wait then NOP else i.data)
    else r.ir
  }

  function Next(r: Regs, i: In): Regs {
    if Redirects(i) then Regs(RedirectPc(r, i), NOP, true, r.fetchActive && i.wait)
    else if r.flushPending && !i.wait then r.(fetchActive := true, flushPending := false)
    else if !i.stall then r.(pc := NextPc(r), fetchActive := true)
    else if r.fetchActive && !i.wait then r.(ir := i.data, fetchActive := false)
    else r
  }

  class Stage {
    var pc: Word
    var ir: Instr
    var fetchActive: bool
    var flushPending: bool

    function State(): Regs
      reads this
    {
      Regs(pc, ir, fetchActive, flushPending)
    }

    constructor (vector: Word)
      ensures State() == Reset(vector)
    {
      pc, ir, fetchActive, flushPending := vector, NOP, true, false;
    }

    method Clock(i: In)
      modifies this
      ensures State() == Next(old(State()), i)
    {
      if i.flush || i.jump || i.trap || i.ret {
        if i.ret {
          pc := i.epc;
        } else if i.trap {
          pc := i.trapVector;
        } else if i.jump {
          pc := i.jumpTarget;
        }
        flushPending := fetchActive && i.wait;
        fetchActive, ir := true, NOP;
      } else if flushPending && !i.wait {
        fetchActive, flushPending := true, false;
      } else if !i.stall {
        pc, fetchActive := Trunc(pc + 4), true;
      } else if fetchActive && !i.wait {
        ir, fetchActive := i.data, false;
      }
    }
  }
}

/** Control words and their decoding (rtl/core/friscv_pkg.sv, rtl/core/friscv_decoder.sv). */
module Decoder {
  import opened Words
  import opened Isa

  datatype BranchSel = NoBranch | BranchInstr | JalInstr
  datatype ASel = Rs1 | ZeroA | PcA
  datatype BSel = Rs2 | Imm
  datatype MemSel = NoMem | LoadMem | StoreMem
  datatype WbSel = PcPlus4 | AluData | MemData | ScRes
  datatype AmoOp = AmoNone | AmoSwap | AmoAdd | AmoXor | AmoAnd | AmoOr | AmoMin | AmoMax | AmoMinu | AmoMaxu

  datatype Ctrl = Ctrl(
    valid: bool, branch: BranchSel, cond: Cond, jalr: bool, a: ASel, b: BSel, alu: AluOp,
    memSel: MemSel, width: Width, wb: WbSel, reserve: bool, conditional: bool, amo: AmoOp)

  const NOP_CTRL: Ctrl :=
    Ctrl(false, NoBranch, Ne, false, Rs1, Rs2, Add, NoMem, I32, AluData, false, false, AmoNone)

  function Decode(i: Instr, valid: bool): Ctrl {
    var c := NOP_CTRL.(valid := valid);
    match i
    case Op(op, _, _, _) => c.(alu := op)
    case OpImm(op, _, _, _) => c.(b := Imm, alu := op)
    case Lui(_, _) => c.(b := Imm)
    case Auipc(_, _) => c.(a := PcA, b := Imm)
    case Load(width, _, _, _) => c.(b := Imm, memSel := LoadMem, width := width, wb := MemData)
    case Store(width, _, _, _) => c.(b := Imm, memSel := StoreMem, width := width)
    case Branch(cond, _, _, _) => c.(branch := BranchInstr, cond := cond, a := PcA, b := Imm)
    case Jal(_, _) => c.(branch := JalInstr, a := PcA, b := Imm, wb := PcPlus4)
    case Jalr(_, _, _) => c.(branch := JalInstr, jalr := true, b := Imm, wb := PcPlus4)
  }

  // Register selects; zero when the format has no such field.
  function Rs1Sel(i: Instr): Reg {
    if i.Lui? || i.Auipc? || i.Jal? then 0 else i.rs1
  }

  function Rs2Sel(i: Instr): Reg {
    if i.Op? || i.Store? || i.Branch? then i.rs2 else 0
  }

  function RdSel(i: Instr): Reg {
    if i.Store? || i.Branch? then 0 else i.rd
  }

  function ImmOf(i: Instr): Word {
    if i.Op? then 0 else i.imm
  }
}

/** The memory stage (rtl/core/friscv_mem_stage.sv): one bus operation per instruction, load expansion, LR/SC. */
module MemStage {
  import opened Words
  import opened Isa
  import opened Decoder
  import ExStage

  datatype Fault = NoFault | LoadPage | StorePage | LoadMisaligned | StoreMisaligned | LoadAccess | StoreAccess

  datatype Pipe = Pipe(
    pc: Word, nextPc: Word, aluData: Word, storeData: Word, rd: Reg, memSel: MemSel, width: Width, wb: WbSel,
    conditional: bool, clearReserve: bool, misaligned: bool, amo: AmoOp, valid: bool)

  const BUBBLE: Pipe := Pipe(0, 0, 0, 0, 0, NoMem, I32, AluData, false, false, false, AmoNone, false)

  datatype Regs = Regs(
    pipe: Pipe, active: bool, loadValid: bool, loadBuff: Word, reserveValid: bool, reserveAddr: Word,
    scResValid: bool, scRes: bool, condValid: bool, fault: Fault, faultPc: Word, faultVa: Word)

  const RESET: Regs := Regs(BUBBLE, false, false, 0, false, 0, false, false, false, NoFault, 0, 0)

  datatype In = In(
    stall: bool, trapCommit: bool, clearReserve: bool, addrVirtual: bool, ex: ExStage.Out,
    loadFault: bool, storeFault: bool, faultAddr: Word, accessFault: bool, wait: bool, data: Word)

  // ----- conditions -----

  predicate PageFault(i: In) {
    i.loadFault || i.storeFault
  }

  predicate Faulty(r: Regs, i: In) {
    PageFault(i) || i.accessFault || r.pipe.misaligned
  }

  predicate CompletionFault(r: Regs, i: In) {
    r.active && !i.wait && Faulty(r, i)
  }

  predicate MisalignedIn(ex: ExStage.Out) {
    !Aligned(ex.aluData, ex.width)
  }

  predicate IsMem(ex: ExStage.Out) {
    ex.memSel != NoMem
  }

  predicate Rejected(ex: ExStage.Out) {
    ex.valid && IsMem(ex) && MisalignedIn(ex)
  }

  predicate PrevScSuccess(r: Regs) {
    r.pipe.valid && r.pipe.conditional && r.condValid
  }

  /** An SC may write only with a valid reservation of its own address; every other instruction may. */
  predicate CondValid(r: Regs, ex: ExStage.Out) {
    ex.conditional ==> r.reserveValid && !PrevScSuccess(r) && r.reserveAddr == ex.aluData
  }

  predicate StoreLike(memSel: MemSel, amo: AmoOp) {
    memSel == StoreMem || amo != AmoNone
  }

  function AccessKind(storeLike: bool): Fault {
    if storeLike then StoreAccess else LoadAccess
  }

  function MisalignedKind(asAccess: bool, storeLike: bool): Fault {
    if asAccess then AccessKind(storeLike) else if storeLike then StoreMisaligned else LoadMisaligned
  }

  /** The fault of the operation completing now, and the address it reports. */
  function FaultOf(p: Pipe, i: In): (Fault, Word) {
    var storeLike := StoreLike(p.memSel, p.amo);
    if PageFault(i) then (if i.storeFault then StorePage else LoadPage, i.faultAddr)
    else if i.accessFault then (AccessKind(storeLike), p.aluData)
    else (MisalignedKind(p.clearReserve || p.conditional || p.amo != AmoNone, storeLike), p.aluData)
  }

  // ----- load expansion -----

  function Extend(v: Word, bits: nat): Word
    requires bits == 8 || bits == 16
  {
    if bits == 8 then (if v % 0x100 < 0x80 then v % 0x100 else v % 0x100 + 0xFFFF_FF00)
    else (if v % 0x1_0000 < 0x8000 then v % 0x1_0000 else v % 0x1_0000 + 0xFFFF_0000)
  }

  function Expand(width: Width, addr: Word, data: Word): Word {
    match width
    case I8 => Extend(ByteOf(data, addr % 4), 8)
    case U8 => ByteOf(data, addr % 4)
    case I16 => Extend(if addr / 2 % 2 == 1 then data / 0x1_0000 else data, 16)
    case U16 => (if addr / 2 % 2 == 1 then data / 0x1_0000 else data) % 0x1_0000
    case I32 => data
  }

  // ----- outputs -----

  function LoadOut(r: Regs, i: In): Word {
    if r.loadValid then r.loadBuff else Expand(r.pipe.width, r.pipe.aluData, i.data)
  }

  function ScOut(r: Regs): Word {
    if (if r.scResValid then r.scRes else !r.condValid) then 1 else 0
  }

  function RdOut(r: Regs, i: In): Reg {
    if CompletionFault(r, i) then 0 else r.pipe.rd
  }

  predicate ValidOut(r: Regs, i: In) {
    r.pipe.valid && !CompletionFault(r, i)
  }

  predicate Writes(r: Regs) {
    r.active && r.pipe.memSel == StoreMem && (!r.pipe.conditional || r.condValid)
  }

  function BusAddr(r: Regs): Word {
    var a := r.pipe.aluData;
    if !r.active then 0
    else match r.pipe.width
      case I8 | U8 => a
      case I16 | U16 => a - a % 2
      case I32 => a - a % 4
  }

  // ----- the clock edge -----

  function PipeOf(ex: ExStage.Out, clearReserve: bool): Pipe {
    Pipe(ex.pc, ex.nextPc, ex.aluData, ex.storeData, ex.rd, ex.memSel, ex.width, ex.wb, ex.conditional, clearReserve,
         MisalignedIn(ex), ex.amo, ex.valid)
  }

  /** A bubble with the given fault held for the trap logic. */
  function Faulted(r: Regs, fault: Fault, pc: Word, va: Word): Regs {
    r.(pipe := BUBBLE, active := false, loadValid := false, scResValid := false, condValid := false,
       fault := fault, faultPc := pc, faultVa := va)
  }

  /** EX's instruction, its bus operation still to do. */
  function Accepted(r: Regs, i: In, ok: bool): Regs {
    r.(pipe := PipeOf(i.ex, i.clearReserve), active := IsMem(i.ex) && (ok || i.ex.conditional),
       loadValid := false, scResValid := false, condValid := ok, fault := NoFault)
  }

  function Advance(r: Regs, i: In, ok: bool): Regs {
    if r.active && (PageFault(i) || (!i.wait && Faulty(r, i))) then
      var f := FaultOf(r.pipe, i);
      Faulted(r, f.0, r.pipe.pc, f.1)
    else if Rejected(i.ex) then
      var asAccess := i.addrVirtual && (i.ex.reserve || i.ex.conditional || i.ex.amo != AmoNone);
      Faulted(r, MisalignedKind(asAccess, StoreLike(i.ex.memSel, i.ex.amo)), i.ex.pc, i.ex.aluData)
    else
      Accepted(r, i, ok)
  }

  /** LR takes the reservation when it enters MEM; a successful SC consumes it. */
  function Reserve(i: In, ok: bool, valid: bool, addr: Word): (bool, Word) {
    if i.clearReserve || Rejected(i.ex) then (valid, addr)
    else if i.ex.reserve then (true, i.ex.aluData)
    else if i.ex.conditional && ok then (false, addr)
    else (valid, addr)
  }

  function Complete(r: Regs, i: In, valid: bool): Regs {
    if Faulty(r, i) then
      var f := FaultOf(r.pipe, i);
      r.(active := false, fault := f.0, faultPc := r.pipe.pc, faultVa := f.1, pipe := r.pipe.(rd := 0, valid := false),
         reserveValid := valid)
    else
      var sc, load := r.pipe.conditional, r.pipe.memSel == LoadMem;
      r.(active := false,
         reserveValid := if sc && r.condValid then false else valid,
         scRes := if sc then !r.condValid else r.scRes,
         scResValid := r.scResValid || sc,
         loadBuff := if load then Expand(r.pipe.width, r.pipe.aluData, i.data) else r.loadBuff,
         loadValid := r.loadValid || load)
  }

  function Committed(r: Regs): Regs {
    r.(pipe := BUBBLE, active := false, loadValid := false, scResValid := false, condValid := false,
       fault := NoFault, reserveValid := false)
  }

  function HeldFault(r: Regs, valid: bool): Regs {
    r.(active := false, loadValid := false, scResValid := false, pipe := r.pipe.(valid := false), reserveValid := valid)
  }

  function Next(r: Regs, i: In): Regs {
    var valid := r.reserveValid && !i.clearReserve;
    if i.trapCommit then Committed(r)
    else if r.fault != NoFault then HeldFault(r, valid)
    else if !i.stall then
      var res := Reserve(i, CondValid(r, i.ex), valid, r.reserveAddr);
      Advance(r, i, CondValid(r, i.ex)).(reserveValid := res.0, reserveAddr := res.1)
    else if r.active && !i.wait then Complete(r, i, valid)
    else r.(reserveValid := valid)
  }

  class Stage {
    var pipe: Pipe
    var active: bool
    var loadValid: bool
    var loadBuff: Word
    var reserveValid: bool
    var reserveAddr: Word
    var scResValid: bool
    var scRes: bool
    var condValid: bool
    var fault: Fault
    var faultPc: Word
    var faultVa: Word

    function State(): Regs
      reads this
    {
      Regs(pipe, active, loadValid, loadBuff, reserveValid, reserveAddr, scResValid, scRes, condValid,
           fault, faultPc, faultVa)
    }

    constructor ()
      ensures State() == RESET
    {
      pipe, active, loadValid, loadBuff := BUBBLE, false, false, 0;
      reserveValid, reserveAddr, scResValid, scRes, condValid := false, 0, false, false, false;
      fault, faultPc, faultVa := NoFault, 0, 0;
    }

    method Clock(i: In)
      modifies this
      ensures State() == Next(old(State()), i)
    {
      hide CondValid, Advance, Complete, Reserve, Committed, HeldFault;
      var ok, valid := CondValid(State(), i.ex), reserveValid && !i.clearReserve;
      if i.trapCommit {
        CommitTrap();
      } else if fault != NoFault {
        HoldFault(valid);
      } else if !i.stall {
        var res := Reserve(i, ok, valid, reserveAddr);
        AcceptFromEx(i, ok);
        reserveValid, reserveAddr := res.0, res.1;
      } else if active && !i.wait {
        CompleteInPlace(i, valid);
      } else {
        reserveValid := valid;
      }
    }

    method CommitTrap()
      modifies this
      ensures State() == Committed(old(State()))
    {
      pipe, active, loadValid, scResValid, condValid := BUBBLE, false, false, false, false;
      fault, reserveValid := NoFault, false;
    }

    method HoldFault(valid: bool)
      modifies this
      ensures State() == HeldFault(old(State()), valid)
    {
      active, loadValid, scResValid, reserveValid := false, false, false, valid;
      pipe := pipe.(valid := false);
    }

    method TakeFault(f: Fault, pc: Word, va: Word)
      modifies this
      ensures State() == Faulted(old(State()), f, pc, va)
    {
      fault, faultPc, faultVa := f, pc, va;
      pipe, active, loadValid, scResValid, condValid := BUBBLE, false, false, false, false;
    }

    method Accept(i: In, ok: bool)
      modifies this
      ensures State() == Accepted(old(State()), i, ok)
    {
      hide MisalignedIn, PipeOf;
      pipe := PipeOf(i.ex, i.clearReserve);
      active := IsMem(i.ex) && (ok || i.ex.conditional);
      loadValid, scResValid, condValid, fault := false, false, ok, NoFault;
    }

    method AcceptFromEx(i: In, ok: bool)
      modifies this
      ensures State() == Advance(old(State()), i, ok)
    {
      hide FaultOf, MisalignedIn, MisalignedKind, Faulted, Accepted, Faulty, PageFault, Rejected;
      if active && (PageFault(i) || (!i.wait && Faulty(State(), i))) {
        var f := FaultOf(pipe, i);
        TakeFault(f.0, pipe.pc, f.1);
      } else if Rejected(i.ex) {
        var asAccess := i.addrVirtual && (i.ex.reserve || i.ex.conditional || i.ex.amo != AmoNone);
        TakeFault(MisalignedKind(asAccess, StoreLike(i.ex.memSel, i.ex.amo)), i.ex.pc, i.ex.aluData);
      } else {
        Accept(i, ok);
      }
    }

    method CompleteInPlace(i: In, valid: bool)
      modifies this
      ensures State() == Complete(old(State()), i, valid)
    {
      hide FaultOf, Expand;
      active, reserveValid := false, valid;
      if Faulty(State(), i) {
        var f := FaultOf(pipe, i);
        fault, faultPc, faultVa := f.0, pipe.pc, f.1;
        pipe := pipe.(rd := 0, valid := false);
      } else {
        if pipe.conditional {
          if condValid {
            reserveValid := false;
          }
          scRes, scResValid := !condValid, true;
        }
        if pipe.memSel == LoadMem {
          loadBuff, loadValid := Expand(pipe.width, pipe.aluData, i.data), true;
        }
      }
    }
  }
}

/** Stalls, flushes and redirect selection (rtl/core/friscv_control_unit.sv), without traps, returns and CSRs. */
module ControlUnit {
  import opened Words
  import opened Isa

  datatype In = In(
    idRs1: Reg, idRs2: Reg, jalOk: bool, jalTarget: Word,
    exRd: Reg, branchOk: bool, branchTarget: Word, mdActive: bool,
    memRd: Reg, wbRd: Reg, imemWait: bool, dmemWait: bool)

  predicate MemStall(i: In) {
    i.imemWait || i.dmemWait
  }

  predicate Matches(rd: Reg, i: In) {
    rd != 0 && (i.idRs1 == rd || i.idRs2 == rd)
  }

  /** No forwarding: wait while any older stage holds a matching destination. */
  predicate RegHazard(i: In) {
    Matches(i.exRd, i) || Matches(i.memRd, i) || Matches(i.wbRd, i)
  }

  predicate IdStall(i: In) {
    MemStall(i) || RegHazard(i) || i.mdActive
  }

  predicate ExStall(i: In) {
    MemStall(i) || i.mdActive
  }

  predicate EffectiveJal(i: In) {
    i.jalOk && !IdStall(i)
  }

  /** IF and ID are flushed together, by the same redirects. */
  predicate Flush(i: In) {
    i.branchOk || EffectiveJal(i)
  }

  predicate FlushEx(i: In) {
    RegHazard(i) && !MemStall(i) && !i.mdActive
  }

  /** A taken branch in EX is older than a jump in ID. */
  function JumpTarget(i: In): Word {
    if i.branchOk then i.branchTarget else i.jalTarget
  }
}

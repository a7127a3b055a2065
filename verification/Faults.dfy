/** Traps raised behind decode: how EX and MEM capture a fault once, hold it, and keep the instruction from acting. */
module Faults {
  import opened Isa
  import opened Decoder
  import ExStage
  import MemStage

  // ----- EX: a taken branch to a misaligned target -----

  /** Nothing leaves EX while it holds a trap: no redirect, no write, no memory operation. */
  predicate ExSilent(x: ExStage.Regs) {
    && x.trap && !ExStage.BranchOk(x)
    && var o := ExStage.Output(x); !o.valid && o.rd == 0 && o.memSel == NoMem
  }

  /** The offending branch does not redirect, and becomes a held trap in the first cycle EX is not stalled. */
  lemma MisalignedBranchTraps(x: ExStage.Regs, i: ExStage.In)
    requires !x.trap && x.op.ctrl.valid && ExStage.Misaligned(x.op)
    ensures !ExStage.BranchOk(x)
    ensures !i.stall && !i.trapCommit ==>
              var x' := ExStage.Next(x, i); ExSilent(x') && x'.op.ctrl == NOP_CTRL && x'.op.rd == 0
    ensures i.stall && !i.trapCommit ==> ExStage.Next(x, i).op == x.op && !ExStage.Next(x, i).trap
  {
    hide ExStage.BranchUnit, ExStage.Handshake, ExStage.UnitIn, ExStage.StoreLanes, ExStage.AluOut,
         ExStage.BranchTarget;
  }

  function ExRun(x: ExStage.Regs, ins: seq<ExStage.In>): ExStage.Regs
    decreases ins
  {
    if ins == [] then x else ExRun(ExStage.Next(x, ins[0]), ins[1..])
  }

  lemma ExStaysSilent(x: ExStage.Regs, i: ExStage.In)
    requires ExSilent(x) && x.op.ctrl == NOP_CTRL && x.op.rd == 0 && !i.trapCommit
    ensures ExSilent(ExStage.Next(x, i)) && ExStage.Next(x, i).op == x.op
  {
    hide ExStage.Handshake, ExStage.UnitIn, ExStage.StoreLanes, ExStage.AluOut, ExStage.BranchTarget;
  }

  /** It stays so, whatever ID offers, until the trap is committed. */
  lemma {:induction false} ExHoldsTrap(x: ExStage.Regs, ins: seq<ExStage.In>)
    requires ExSilent(x) && x.op.ctrl == NOP_CTRL && x.op.rd == 0
    requires forall k :: 0 <= k < |ins| ==> !ins[k].trapCommit
    ensures ExSilent(ExRun(x, ins))
    decreases ins
  {
    hide ExSilent, ExStage.Next, NOP_CTRL;
    if ins == [] {
    } else {
      ExStaysSilent(x, ins[0]);
      ExHoldsTrap(ExStage.Next(x, ins[0]), ins[1..]);
    }
  }

  lemma ExCommitClears(x: ExStage.Regs, i: ExStage.In)
    requires i.trapCommit
    ensures var x' := ExStage.Next(x, i); var o := ExStage.Output(x');
            !x'.trap && !ExStage.BranchOk(x') && !o.valid && o.rd == 0 && o.memSel == NoMem
  {
    hide ExStage.Handshake, ExStage.UnitIn, ExStage.StoreLanes, ExStage.AluOut, ExStage.BranchTarget;
  }

  /** The trap's whole life: held and silent until its commit, and gone, with the branch, after it. */
  lemma ExTrapLifetime(x: ExStage.Regs, ins: seq<ExStage.In>, commit: ExStage.In)
    requires ExSilent(x) && x.op.ctrl == NOP_CTRL && x.op.rd == 0
    requires (forall k :: 0 <= k < |ins| ==> !ins[k].trapCommit) && commit.trapCommit
    ensures var held := ExRun(x, ins); var x' := ExStage.Next(held, commit); var o := ExStage.Output(x');
            && ExSilent(held)
            && !x'.trap && !ExStage.BranchOk(x') && !o.valid && o.rd == 0 && o.memSel == NoMem
  {
    hide ExStage.Next, ExSilent, ExRun, NOP_CTRL, ExStage.Output, ExStage.BranchOk;
    ExHoldsTrap(x, ins);
    ExCommitClears(ExRun(x, ins), commit);
  }

  // ----- MEM -----

  /** The kind reported: page fault before access fault before misalignment, of a load or of a store. */
  function Kind(page: bool, access: bool, store: bool): MemStage.Fault {
    if page then (if store then MemStage.StorePage else MemStage.LoadPage)
    else if access then (if store then MemStage.StoreAccess else MemStage.LoadAccess)
    else if store then MemStage.StoreMisaligned else MemStage.LoadMisaligned
  }

  /** Operations whose misalignment is reported as an access fault on completion. */
  predicate AtomicLike(p: MemStage.Pipe) {
    p.clearReserve || p.conditional || p.amo != AmoNone
  }

  predicate MemSilent(r: MemStage.Regs, i: MemStage.In) {
    !r.active && !MemStage.Writes(r) && !MemStage.ValidOut(r, i)
  }

  /**
   * An operation that completes with a fault writes no register and does not retire; what is recorded is its own
   * address and PC and the kind its error has precedence for, whether or not MEM was about to advance.
   */
  lemma FaultIsCaptured(r: MemStage.Regs, i: MemStage.In, i': MemStage.In)
    requires r.fault == MemStage.NoFault && MemStage.CompletionFault(r, i) && !i.trapCommit
    ensures MemStage.RdOut(r, i) == 0 && !MemStage.ValidOut(r, i)
    ensures var r', page, p := MemStage.Next(r, i), i.loadFault || i.storeFault, r.pipe;
            && r'.faultPc == p.pc && r'.faultVa == (if page then i.faultAddr else p.aluData)
            && r'.fault == Kind(page, i.accessFault || AtomicLike(p),
                                if page then i.storeFault else MemStage.StoreLike(p.memSel, p.amo))
            && MemSilent(r', i') && r'.pipe.rd == 0
  {
    hide MemStage.Expand, MemStage.CondValid, MemStage.Reserve, MemStage.Rejected, MemStage.MisalignedIn;
  }

  /** A misaligned operation never reaches the bus: taken from EX, it is at once a held fault at its own address. */
  lemma MisalignedIsRejected(r: MemStage.Regs, i: MemStage.In, i': MemStage.In)
    requires r.fault == MemStage.NoFault && !i.stall && !i.trapCommit
    requires r.active ==> !MemStage.PageFault(i) && (i.wait || !MemStage.Faulty(r, i))
    requires i.ex.valid && i.ex.memSel != NoMem && !Aligned(i.ex.aluData, i.ex.width)
    ensures var r', ex := MemStage.Next(r, i), i.ex;
            && r'.faultPc == ex.pc && r'.faultVa == ex.aluData && MemSilent(r', i') && r'.pipe.rd == 0
            && r'.fault == Kind(false, i.addrVirtual && (ex.reserve || ex.conditional || ex.amo != AmoNone),
                                ex.memSel == StoreMem || ex.amo != AmoNone)
            && (!i.clearReserve ==> r'.reserveValid == r.reserveValid && r'.reserveAddr == r.reserveAddr)
  {
    hide MemStage.CondValid, MemStage.FaultOf, MemStage.Expand;
  }

  function MemRun(r: MemStage.Regs, ins: seq<MemStage.In>): MemStage.Regs
    decreases ins
  {
    if ins == [] then r else MemRun(MemStage.Next(r, ins[0]), ins[1..])
  }

  lemma FaultStays(r: MemStage.Regs, i: MemStage.In, i': MemStage.In)
    requires r.fault != MemStage.NoFault && !i.trapCommit
    ensures var r' := MemStage.Next(r, i);
            && r'.fault == r.fault && r'.faultPc == r.faultPc && r'.faultVa == r.faultVa
            && MemSilent(r', i') && r'.pipe.rd == r.pipe.rd
  {
    hide MemStage.Advance, MemStage.Complete, MemStage.Reserve, MemStage.CondValid;
  }

  /** The oldest fault is held, and MEM does nothing more, until the trap is committed, whatever EX offers. */
  lemma {:induction false} FaultHeld(r: MemStage.Regs, i: MemStage.In, ins: seq<MemStage.In>, last: MemStage.In)
    requires r.fault != MemStage.NoFault && !i.trapCommit && forall k :: 0 <= k < |ins| ==> !ins[k].trapCommit
    ensures var r' := MemRun(MemStage.Next(r, i), ins);
            && r'.fault == r.fault && r'.faultPc == r.faultPc && r'.faultVa == r.faultVa
            && MemSilent(r', last) && r'.pipe.rd == r.pipe.rd
    decreases ins
  {
    hide MemStage.Next, MemSilent;
    if ins == [] {
      FaultStays(r, i, last);
    } else {
      FaultStays(r, i, ins[0]);
      FaultHeld(MemStage.Next(r, i), ins[0], ins[1..], last);
    }
  }

  lemma CommitClears(r: MemStage.Regs, i: MemStage.In, i': MemStage.In)
    requires i.trapCommit
    ensures var r' := MemStage.Next(r, i);
            r'.fault == MemStage.NoFault && !r'.reserveValid && MemSilent(r', i') && r'.pipe.rd == 0
  {
    hide MemStage.Advance, MemStage.Complete, MemStage.Reserve, MemStage.CondValid;
  }

  /** A fault's whole life: one trap is reported however long its commit takes, and the commit leaves nothing of it. */
  lemma FaultLifetime(r: MemStage.Regs, i: MemStage.In, ins: seq<MemStage.In>, commit: MemStage.In, last: MemStage.In)
    requires r.fault != MemStage.NoFault && !i.trapCommit && forall k :: 0 <= k < |ins| ==> !ins[k].trapCommit
    requires commit.trapCommit
    ensures var held := MemRun(MemStage.Next(r, i), ins);
            var r' := MemStage.Next(held, commit);
            && held.fault == r.fault && held.faultPc == r.faultPc && held.faultVa == r.faultVa
            && MemSilent(held, commit) && held.pipe.rd == r.pipe.rd
            && r'.fault == MemStage.NoFault && !r'.reserveValid && MemSilent(r', last) && r'.pipe.rd == 0
  {
    hide MemStage.Next, MemSilent, MemRun;
    FaultHeld(r, i, ins, commit);
    CommitClears(MemRun(MemStage.Next(r, i), ins), commit, last);
  }
}

/**
 * Where a trap's privilege mode comes from: the mode registers carried by ID, EX and MEM
 * (rtl/core/friscv_id_stage.sv, friscv_ex_stage.sv, friscv_mem_stage.sv), the trap controller's source selection and
 * its once-only flag (rtl/core/friscv_trap_controller.sv), and the stalls and flushes between them
 * (rtl/core/friscv_control_unit.sv).
 */
module TrapOrder {
  import opened Privilege
  import opened TrapStack
  import Decoder
  import ExStage
  import IdStage
  import MemStage

  /** What the instruction in a stage can do to the mode registers; a stray jump is taken to a misaligned target. */
  datatype Kind = Plain | Memory | Jump | StrayJump

  datatype Id = Id(valid: bool, fault: bool, mode: Mode)
  datatype Ex = Ex(kind: Kind, mode: Mode, branchPrev: bool, trap: bool)
  datatype Mem = Mem(active: bool, mode: Mode, fault: bool, faultMode: Mode)

  /** medeleg0 is the delegation bit of misaligned instruction addresses, the cause of every trap of EX. */
  datatype Core = Core(hart: Regs, trapSeen: bool, medeleg0: bool, id: Id, ex: Ex, mem: Mem)

  const START: Core :=
    Core(RESET, false, false, Id(false, false, M), Ex(Plain, M, false, false), Mem(false, M, false, M))

  /** What may happen in a cycle beside the instruction in ID. */
  datatype Signal =
    | ImemWait | DmemWait | MulDivActive
    | Hazard            // a register or CSR hazard stalls ID
    | Halt              // stalls ID, and EX takes its instruction once more
    | TrapHazard        // a register or CSR write still in flight holds a trap back
    | InterruptSafe     // no return just before, and no single step
    | MachineLine | SupervisorLine
    | DebugRequest | DebugBreak
    | FetchFault        // the word offered to ID comes with a fault
    | FetchInhibit      // a fault already trapped for is not trapped for again
    | CauseDelegated    // the delegation bit of the causes other than medeleg0
    | OperationFaults   // the operation completing in MEM fails
    | PageFault         // a page fault is reported, waiting or not
    | OperationStray    // the memory operation in EX is misaligned

  /** The instruction in ID: what it will be in EX, whether it raises an exception, jumps early, or returns. */
  datatype In = In(kind: Kind, raises: bool, jal: bool, ret: Return, signals: set<Signal>, write: CsrWrite)

  // ----- EX and the stalls -----

  predicate Redirects(e: Ex) {
    e.kind == Jump || e.kind == StrayJump
  }

  predicate BranchOk(r: Core) {
    r.ex.kind == Jump && !r.ex.branchPrev
  }

  predicate MemStall(i: In) {
    ImemWait in i.signals || DmemWait in i.signals
  }

  predicate Returning(r: Core, i: In) {
    r.id.valid && i.ret != NoReturn
  }

  /** Memory operations in EX or MEM hold traps and returns back. */
  predicate Inflight(r: Core) {
    r.ex.kind == Memory || r.mem.active
  }

  predicate HazardStall(r: Core, i: In) {
    Hazard in i.signals || (Returning(r, i) && (Inflight(r) || DmemWait in i.signals))
  }

  predicate ExStall(i: In) {
    MemStall(i) || MulDivActive in i.signals
  }

  // ----- the trap controller -----

  datatype Source = FromMem | FromEx | FromIf | FromId | NoException

  function SourceOf(r: Core, i: In): Source {
    if r.mem.fault then FromMem
    else if r.ex.trap then FromEx
    else if r.id.fault && FetchInhibit !in i.signals && !BranchOk(r) then FromIf
    else if r.id.valid && i.raises && !BranchOk(r) then FromId
    else NoException
  }

  function TrapMode(r: Core, i: In): Mode {
    match SourceOf(r, i)
    case FromMem => r.mem.faultMode
    case FromEx => r.ex.mode
    case FromIf => r.id.mode
    case FromId => r.hart.mode
    case NoException => r.hart.mode
  }

  predicate Interruptible(r: Core, i: In) {
    InterruptSafe in i.signals && !Returning(r, i) && !BranchOk(r) && r.id.valid && !r.hart.debug
  }

  predicate DebugEntry(r: Core, i: In) {
    || (DebugBreak in i.signals && r.id.valid && !BranchOk(r) && !r.hart.debug && !r.mem.fault && !r.ex.trap
        && SourceOf(r, i) != FromIf)
    || (DebugRequest in i.signals && Interruptible(r, i) && SourceOf(r, i) == NoException)
  }

  function Irqs(i: In): Lines {
    Lines(MachineLine in i.signals, false, false, SupervisorLine in i.signals, false, false)
  }

  predicate Held(r: Core, i: In) {
    r.trapSeen || Inflight(r) || TrapHazard in i.signals || MulDivActive in i.signals
  }

  /** The requests as the trap controller sees them; a return commits when nothing stalls ID. */
  function HartIn(r: Core, i: In): TrapStack.In {
    TrapStack.In(SourceOf(r, i) != NoException,
                 if SourceOf(r, i) == FromEx then r.medeleg0 else CauseDelegated in i.signals,
                 TrapMode(r, i), Irqs(i), Irqs(i), Irqs(i), Interruptible(r, i), DebugEntry(r, i), !Held(r, i),
                 if ReturnCommits(r, i) then i.ret else NoReturn, i.write)
  }

  predicate Raw(r: Core, i: In) {
    || (Interruptible(r, i) && MachineLine in i.signals && (r.hart.status.mie || r.hart.mode != M))
    || (Interruptible(r, i) && SupervisorLine in i.signals && r.hart.mode != M
        && (r.hart.status.sie || r.hart.mode == U))
    || SourceOf(r, i) != NoException
    || DebugEntry(r, i)
  }

  predicate Traps(r: Core, i: In) {
    Raw(r, i) && !Held(r, i)
  }

  predicate TrapPending(r: Core, i: In) {
    Raw(r, i) && Held(r, i) && !r.trapSeen
  }

  predicate IdStall(r: Core, i: In) {
    MemStall(i) || HazardStall(r, i) || TrapPending(r, i) || MulDivActive in i.signals || Halt in i.signals
  }

  predicate ReturnCommits(r: Core, i: In) {
    Returning(r, i) && !IdStall(r, i)
  }

  /** The controller's own condition is the model's of the trap stack. */
  lemma TrapsAreTaken(r: Core, i: In)
    ensures Traps(r, i) == Takes(r.hart, HartIn(r, i))
  {
    hide SourceOf, DebugEntry, Held, TrapMode, ReturnCommits;
  }

  predicate FlushId(r: Core, i: In) {
    BranchOk(r) || (i.jal && r.id.valid && !IdStall(r, i)) || Traps(r, i) || ReturnCommits(r, i)
  }

  predicate FlushEx(r: Core, i: In) {
    Traps(r, i) || ((HazardStall(r, i) || TrapPending(r, i)) && !ExStall(i))
  }

  // ----- the clock edge -----

  function NextId(r: Core, i: In): Id {
    if FlushId(r, i) then Id(false, false, M)
    else if IdStall(r, i) then r.id
    else Id(true, FetchFault in i.signals, r.hart.mode)
  }

  function KindInId(r: Core, i: In): Kind {
    if !r.id.valid || i.ret != NoReturn then Plain else i.kind
  }

  function NextEx(r: Core, i: In): Ex {
    var e := r.ex;
    if Traps(r, i) && SourceOf(r, i) in {FromEx, FromMem} then e.(kind := Plain, trap := false)
    else if e.trap then e
    else if ExStall(i) then e.(branchPrev := Redirects(e))
    else if e.kind == StrayJump then e.(kind := Plain, branchPrev := false, trap := true)
    else if FlushEx(r, i) || BranchOk(r) then Ex(Plain, M, Redirects(e), false)
    else Ex(KindInId(r, i), r.hart.mode, Redirects(e), false)
  }

  function NextMem(r: Core, i: In): Mem {
    var m := r.mem;
    if Traps(r, i) then m.(active := false, fault := false)
    else if m.fault then m.(active := false)
    else if !MemStall(i) then
      if m.active && (PageFault in i.signals || OperationFaults in i.signals) then
        m.(active := false, fault := true, faultMode := m.mode)
      else if r.ex.kind == Memory && OperationStray in i.signals then
        m.(active := false, fault := true, faultMode := r.ex.mode)
      else Mem(r.ex.kind == Memory, r.ex.mode, false, m.faultMode)
    else if m.active && DmemWait !in i.signals then
      if PageFault in i.signals || OperationFaults in i.signals then
        m.(active := false, fault := true, faultMode := m.mode)
      else m.(active := false)
    else m
  }

  function Step(r: Core, i: In): Core {
    Core(TrapStack.Next(r.hart, HartIn(r, i)),
         Traps(r, i) || (Raw(r, i) && r.trapSeen),
         if i.write.Medeleg? && !Traps(r, i) && !ReturnCommits(r, i) then i.write.misaligned else r.medeleg0,
         NextId(r, i), NextEx(r, i), NextMem(r, i))
  }

  class Unit {
    const hart: Hart
    var trapSeen: bool
    var medeleg0: bool
    var id: Id
    var ex: Ex
    var mem: Mem

    function State(): Core
      reads this, hart
    {
      Core(hart.State(), trapSeen, medeleg0, id, ex, mem)
    }

    constructor ()
      ensures State() == START
    {
      hart := new Hart();
      trapSeen, medeleg0, id := false, false, Id(false, false, M);
      ex, mem := Ex(Plain, M, false, false), Mem(false, M, false, M);
    }

    /** The trap controller's flag and the delegation register. */
    method ClockTrap(r: Core, i: In)
      requires r.trapSeen == trapSeen && r.medeleg0 == medeleg0
      modifies `trapSeen, `medeleg0
      ensures trapSeen == (Traps(r, i) || (Raw(r, i) && r.trapSeen))
      ensures medeleg0 ==
              if i.write.Medeleg? && !Traps(r, i) && !ReturnCommits(r, i) then i.write.misaligned else r.medeleg0
    {
      hide Traps, Raw, ReturnCommits;
      if !Raw(r, i) { trapSeen := false; }
      if Traps(r, i) { trapSeen := true; }
      if i.write.Medeleg? && !Traps(r, i) && !ReturnCommits(r, i) { medeleg0 := i.write.misaligned; }
    }

    method ClockId(r: Core, i: In)
      requires r.id == id
      modifies `id
      ensures id == NextId(r, i)
    {
      hide FlushId, IdStall;
      if FlushId(r, i) {
        id := Id(false, false, M);
      } else if !IdStall(r, i) {
        id := Id(true, FetchFault in i.signals, r.hart.mode);
      }
    }

    method Clock(i: In)
      modifies this, hart
      ensures State() == Step(old(State()), i)
    {
      hide HartIn, NextId, NextEx, NextMem, TrapStack.Next, Traps, Raw, ReturnCommits;
      var r := State();
      ClockTrap(r, i);
      ClockId(r, i);
      ex, mem := NextEx(r, i), NextMem(r, i);
      hart.Clock(HartIn(r, i));
    }
  }

  function Run(r: Core, ins: seq<In>): Core
    decreases ins
  {
    if ins == [] then r else Run(Step(r, ins[0]), ins[1..])
  }

  // ----- what every run keeps -----

  /**
   * Memory operations and fetch faults belong to the current mode; while a trap is remembered as taken nothing that
   * could raise another is in flight, but for a trap held in EX.
   */
  predicate Inv(r: Core) {
    && LegalRegs(r.hart)
    && (r.id.fault ==> r.id.valid && r.id.mode == r.hart.mode)
    && (r.ex.kind == Memory ==> r.ex.mode == r.hart.mode && !r.ex.trap)
    && (r.mem.active ==> r.mem.mode == r.hart.mode)
    && (r.mem.fault ==> r.mem.faultMode == r.hart.mode)
    && (r.trapSeen ==> !Inflight(r) && !r.mem.fault && (r.ex.trap || !r.id.valid))
  }

  lemma ModeChanges(r: Core, i: In)
    ensures TrapStack.Next(r.hart, HartIn(r, i)).mode != r.hart.mode ==> Traps(r, i) || ReturnCommits(r, i)
  {
    hide Traps, Takes, ReturnCommits, SourceOf, TrapMode, Held, Interruptible, DebugEntry, Irqs, Delegated;
    TrapsAreTaken(r, i);
  }

  /** A return commits only with nothing that can fault in flight. */
  lemma ReturnIsQuiet(r: Core, i: In)
    requires Inv(r) && ReturnCommits(r, i) && !Traps(r, i)
    ensures !Inflight(r) && !r.mem.fault && DmemWait !in i.signals && !MemStall(i) && KindInId(r, i) == Plain
  {
    hide Interruptible, DebugEntry;
  }

  /** A remembered trap outlasts the next cycle only if EX holds another. */
  lemma SeenNeedsEx(r: Core, i: In)
    requires Inv(r) && r.trapSeen && Raw(r, i)
    ensures r.ex.trap && !Traps(r, i)
  {
  }

  lemma InvKept(r: Core, i: In)
    requires Inv(r)
    ensures Inv(Step(r, i))
  {
    hide Raw, SourceOf, TrapMode, IdStall, HazardStall, Returning, ReturnCommits, HartIn, LegalRegs, BranchOk,
         TrapStack.Next;
    StepLegal(r.hart, HartIn(r, i));
    ModeChanges(r, i);
    if r.trapSeen && Raw(r, i) { SeenNeedsEx(r, i); }
    if ReturnCommits(r, i) && !Traps(r, i) { ReturnIsQuiet(r, i); }
  }

  lemma {:induction false} RunKeeps(r: Core, ins: seq<In>)
    requires Inv(r)
    ensures Inv(Run(r, ins))
    decreases ins
  {
    hide Inv, Step;
    if ins == [] {
    } else {
      InvKept(r, ins[0]);
      RunKeeps(Step(r, ins[0]), ins[1..]);
    }
  }

  lemma StartInv()
    ensures Inv(START)
  {
    hide RESET;
    ResetLegal();
  }

  // ----- what is kept here of EX and MEM is what the stages do -----

  function KindOf(o: ExStage.Issue): Kind {
    if ExStage.BranchRaw(o) then (if ExStage.Misaligned(o) then StrayJump else Jump)
    else if o.ctrl.memSel != Decoder.NoMem then Memory
    else Plain
  }

  predicate LikeEx(e: Ex, x: ExStage.Regs) {
    e.kind == KindOf(x.op) && e.branchPrev == x.branchPrev && e.trap == x.trap
  }

  /** EX with the lines of this cycle and an instruction from ID of the kind it has here. */
  lemma ExFollows(r: Core, i: In, x: ExStage.Regs, j: ExStage.In)
    requires LikeEx(r.ex, x) && (ExStage.BranchRaw(x.op) ==> x.op.ctrl.valid) && KindOf(j.issue) == KindInId(r, i)
    requires j.stall == ExStall(i) && j.flush == FlushEx(r, i)
    requires j.trapCommit == (Traps(r, i) && SourceOf(r, i) in {FromEx, FromMem})
    ensures ExStage.BranchOk(x) == BranchOk(r)
    ensures LikeEx(NextEx(r, i), ExStage.Next(x, j))
  {
    hide ExStage.BranchUnit, ExStage.BranchTarget, ExStage.Handshake, ExStage.UnitIn, Traps, FlushEx, SourceOf,
         KindInId;
  }

  predicate LikeMem(m: Mem, x: MemStage.Regs) {
    m.active == x.active && m.fault == (x.fault != MemStage.NoFault)
  }

  /** MEM with the lines of this cycle; a trap taken commits whatever it holds. */
  lemma MemFollows(r: Core, i: In, x: MemStage.Regs, j: MemStage.In)
    requires LikeMem(r.mem, x) && j.stall == MemStall(i) && j.trapCommit == Traps(r, i)
             && j.wait == (DmemWait in i.signals)
    requires MemStage.PageFault(j) == (PageFault in i.signals)
    requires (j.accessFault || x.pipe.misaligned) == (OperationFaults in i.signals)
    requires MemStage.IsMem(j.ex) == (r.ex.kind == Memory)
    requires MemStage.Rejected(j.ex) == (r.ex.kind == Memory && OperationStray in i.signals)
    ensures LikeMem(NextMem(r, i), MemStage.Next(x, j))
  {
    hide MemStage.Next, MemStage.Rejected, MemStage.PageFault, MemStage.IsMem, Traps;
    MemHeld(x, j);
    if !j.trapCommit && x.fault == MemStage.NoFault {
      if j.stall { MemStalled(x, j); } else { MemAdvances(x, j); }
    }
  }

  lemma MemHeld(x: MemStage.Regs, j: MemStage.In)
    ensures var x' := MemStage.Next(x, j);
            && (j.trapCommit ==> !x'.active && x'.fault == MemStage.NoFault)
            && (!j.trapCommit && x.fault != MemStage.NoFault ==> !x'.active && x'.fault == x.fault)
  {
    hide MemStage.Advance, MemStage.Complete, MemStage.Reserve, MemStage.CondValid;
  }

  lemma MemStalled(x: MemStage.Regs, j: MemStage.In)
    requires !j.trapCommit && x.fault == MemStage.NoFault && j.stall
    ensures var x', done := MemStage.Next(x, j), x.active && !j.wait;
            && x'.active == (x.active && j.wait)
            && (x'.fault != MemStage.NoFault <==> done && MemStage.Faulty(x, j))
  {
    hide MemStage.Faulty, MemStage.Expand, MemStage.FaultOf;
    Reported(x.pipe, j);
  }

  lemma MemAdvances(x: MemStage.Regs, j: MemStage.In)
    requires !j.trapCommit && x.fault == MemStage.NoFault && !j.stall
    ensures var x' := MemStage.Next(x, j);
            var fails := x.active && (MemStage.PageFault(j) || (!j.wait && MemStage.Faulty(x, j)));
            && (x'.fault != MemStage.NoFault <==> fails || MemStage.Rejected(j.ex))
            && x'.active == (!fails && !MemStage.Rejected(j.ex) && MemStage.IsMem(j.ex))
  {
    hide MemStage.Faulty, MemStage.PageFault, MemStage.Rejected, MemStage.IsMem, MemStage.FaultOf, MemStage.Reserve,
         MemStage.PipeOf, MemStage.MisalignedKind;
    Reported(x.pipe, j);
  }

  lemma Reported(p: MemStage.Pipe, j: MemStage.In)
    ensures MemStage.FaultOf(p, j).0 != MemStage.NoFault
    ensures forall a, b :: MemStage.MisalignedKind(a, b) != MemStage.NoFault
  {
  }

  /** ID holds an instruction whenever the stage does. */
  lemma IdFollows(r: Core, i: In, x: IdStage.Regs, j: IdStage.In)
    requires r.id.valid == x.valid && j.flush == FlushId(r, i) && j.stall == IdStall(r, i)
    ensures NextId(r, i).valid == IdStage.Next(x, j).valid
  {
    hide FlushId, IdStall;
  }

  // ----- the oldest goes first -----

  /**
   * Nothing is taken over something older: a fault of MEM before a trap of EX, both before anything of ID and before
   * debug mode, and in the cycle in which a jump redirects nothing behind it traps at all.
   */
  lemma OldestFirst(r: Core, i: In)
    ensures r.mem.fault ==> SourceOf(r, i) == FromMem
    ensures !r.mem.fault && r.ex.trap ==> SourceOf(r, i) == FromEx
    ensures r.id.valid && r.id.fault && FetchInhibit !in i.signals ==> SourceOf(r, i) != FromId
    ensures DebugEntry(r, i) ==> !r.mem.fault && !r.ex.trap && r.id.valid && !r.hart.debug && SourceOf(r, i) != FromIf
    ensures r.ex.kind == Jump && !r.ex.branchPrev && !r.mem.fault && !r.ex.trap ==> !Traps(r, i)
    ensures r.ex.kind == Jump && !r.ex.branchPrev ==> !Step(r, i).id.valid
    ensures r.ex.kind == Jump && !r.ex.branchPrev && !r.ex.trap ==> !BranchOk(Step(r, i))
  {
    hide HartIn, TrapStack.Next, Held, NextMem, IdStall;
  }

  /** Every jump that comes to EX behind another instruction redirects in its first cycle there. */
  lemma JumpRedirects(r: Core, i: In)
    requires Step(r, i).ex.kind == Jump && r.ex.kind != Jump && r.ex.kind != StrayJump
    ensures BranchOk(Step(r, i))
  {
    hide HartIn, TrapStack.Next, Traps, NextMem, NextId, FlushEx, KindInId;
  }

  // ----- whose mode a trap has -----

  predicate Lowers(r: Core, i: In) {
    Traps(r, i) && Rank(Step(r, i).hart.mode) < Rank(r.hart.mode)
  }

  /** Interrupts, and exceptions of every stage but EX, are raised in the current mode. */
  lemma TrapModeIsCurrent(r: Core, i: In)
    requires Inv(r) && SourceOf(r, i) != FromEx
    ensures TrapMode(r, i) == r.hart.mode
  {
  }

  /**
   * After any run from reset a trap lowers the privilege mode exactly when it is EX's, delegated, raised in another
   * mode, and finds the hart in machine mode, with no machine interrupt or debug entry beside it.
   */
  lemma OnlyExLowers(ins: seq<In>, i: In)
    ensures var r := Run(START, ins);
            Lowers(r, i) <==>
              Traps(r, i) && SourceOf(r, i) == FromEx && r.medeleg0 && r.ex.mode != M && r.hart.mode == M
              && !r.hart.debug && !DebugEntry(r, i) && !MInterrupt(r.hart, HartIn(r, i))
  {
    hide Inv, START, Run, Traps, Takes, SourceOf, Held, ReturnCommits, DebugEntry, Interruptible;
    var r := Run(START, ins);
    StartInv();
    RunKeeps(START, ins);
    TrapsAreTaken(r, i);
    InvLegal(r);
    if Traps(r, i) {
      LowersExactly(r.hart, HartIn(r, i));
      if SourceOf(r, i) != FromEx { TrapModeIsCurrent(r, i); }
    }
  }

  lemma InvLegal(r: Core)
    requires Inv(r)
    ensures LegalRegs(r.hart)
  {
  }

  // ----- when EX's mode is out of date -----

  /** A stray jump in EX, or its trap while it can still be taken, is of the current mode. */
  predicate ExCurrent(r: Core) {
    (r.ex.kind == StrayJump || (r.ex.trap && !r.trapSeen)) ==> r.ex.mode == r.hart.mode
  }

  /** The mode changes, by a younger instruction's trap or return or by an interrupt, over a stray jump in EX. */
  predicate Overtakes(r: Core, i: In) {
    r.ex.kind == StrayJump && Step(r, i).hart.mode != r.hart.mode
  }

  lemma ExCurrentKept(r: Core, i: In)
    requires Inv(r) && ExCurrent(r) && !Overtakes(r, i)
    ensures ExCurrent(Step(r, i))
  {
    hide HartIn, LegalRegs, TrapStack.Next, HazardStall, Interruptible, TrapMode;
    ModeChanges(r, i);
  }

  ghost predicate NeverOvertaken(r: Core, ins: seq<In>)
    decreases ins
  {
    ins == [] || (!Overtakes(r, ins[0]) && NeverOvertaken(Step(r, ins[0]), ins[1..]))
  }

  lemma {:induction false} RunKeepsCurrent(r: Core, ins: seq<In>)
    requires Inv(r) && ExCurrent(r) && NeverOvertaken(r, ins)
    ensures Inv(Run(r, ins)) && ExCurrent(Run(r, ins))
    decreases ins
  {
    hide Inv, ExCurrent, Step, Overtakes;
    if ins == [] {
    } else {
      InvKept(r, ins[0]);
      ExCurrentKept(r, ins[0]);
      RunKeepsCurrent(Step(r, ins[0]), ins[1..]);
    }
  }

  /** In every run in which no stray jump in EX is overtaken, each trap has the current mode, and none lowers it. */
  lemma NeverLowers(ins: seq<In>, i: In)
    requires NeverOvertaken(START, ins)
    ensures var r := Run(START, ins);
            Traps(r, i) ==> TrapMode(r, i) == r.hart.mode && Rank(Step(r, i).hart.mode) >= Rank(r.hart.mode)
  {
    hide Inv, START, Run, Takes, NeverOvertaken;
    var r := Run(START, ins);
    StartInv();
    assert ExCurrent(START) by { StartCurrent(); }
    RunKeepsCurrent(START, ins);
    if Traps(r, i) {
      TrapsAreTaken(r, i);
      InvLegal(r);
      LowersExactly(r.hart, HartIn(r, i));
      if SourceOf(r, i) != FromEx { TrapModeIsCurrent(r, i); }
    }
  }

  lemma StartCurrent()
    ensures ExCurrent(START)
  {
  }

  // ----- when EX's trap is never taken -----

  /** The trap EX holds counts as taken already, and so does every later one. */
  predicate Wedged(r: Core) {
    r.trapSeen && r.ex.trap
  }

  /** EX captures the trap of a stray jump in the very cycle in which a trap of ID or IF, or an interrupt, is taken. */
  predicate Collides(r: Core, i: In) {
    r.ex.kind == StrayJump && !r.ex.trap && Traps(r, i) && SourceOf(r, i) != FromMem && !ExStall(i)
  }

  /** The controller forgets a trap in the cycle after it, but for that case. */
  lemma FlagClears(r: Core, i: In)
    requires Inv(r) && r.trapSeen
    ensures Step(r, i).trapSeen <==> Wedged(r)
  {
    hide HartIn, TrapStack.Next, FlushId, IdStall;
    if Raw(r, i) { SeenNeedsEx(r, i); }
  }

  lemma WedgesExactly(r: Core, i: In)
    requires Inv(r) && !Wedged(r)
    ensures Wedged(Step(r, i)) <==> Collides(r, i)
  {
    hide HartIn, TrapStack.Next;
  }

  lemma WedgedStays(r: Core, i: In)
    requires Wedged(r)
    ensures !Traps(r, i) && Wedged(Step(r, i))
  {
    hide HartIn, TrapStack.Next;
  }

  /** From then on no trap and no interrupt is taken. */
  lemma {:induction false} WedgedForGood(r: Core, ins: seq<In>, i: In)
    requires Wedged(r)
    ensures Wedged(Run(r, ins)) && !Traps(Run(r, ins), i)
    decreases ins
  {
    hide Wedged, Traps, Step;
    if ins == [] {
      WedgedStays(r, i);
    } else {
      WedgedStays(r, ins[0]);
      WedgedForGood(Step(r, ins[0]), ins[1..], i);
    }
  }

  ghost predicate CollidesInRun(r: Core, ins: seq<In>) {
    exists k :: 0 <= k < |ins| && Collides(Run(r, ins[..k]), ins[k])
  }

  lemma RunWedges(r: Core, ins: seq<In>)
    requires ins != []
    ensures CollidesInRun(r, ins) <==> Collides(r, ins[0]) || CollidesInRun(Step(r, ins[0]), ins[1..])
  {
    hide Step, Collides;
    var r', rest := Step(r, ins[0]), ins[1..];
    assert ins[..0] == [] && Run(r, []) == r;
    forall k | 0 <= k < |rest| ensures Run(r, ins[..k + 1]) == Run(r', rest[..k]) {
      assert ins[..k + 1][1..] == rest[..k];
    }
    if CollidesInRun(r', rest) {
      var k :| 0 <= k < |rest| && Collides(Run(r', rest[..k]), rest[k]);
      assert Collides(Run(r, ins[..k + 1]), ins[k + 1]);
    }
    if CollidesInRun(r, ins) && !Collides(r, ins[0]) {
      var k :| 0 <= k < |ins| && Collides(Run(r, ins[..k]), ins[k]);
      assert k != 0;
      assert Collides(Run(r', rest[..k - 1]), rest[k - 1]);
    }
  }

  lemma {:induction false} WedgedByCollision(r: Core, ins: seq<In>)
    requires Inv(r) && !Wedged(r)
    ensures Wedged(Run(r, ins)) <==> CollidesInRun(r, ins)
    decreases ins
  {
    hide Inv, Wedged, Collides, Step, Traps, CollidesInRun;
    if ins == [] {
      assert !CollidesInRun(r, ins) by { NothingCollides(r); }
    } else {
      var r' := Step(r, ins[0]);
      WedgesExactly(r, ins[0]);
      InvKept(r, ins[0]);
      RunWedges(r, ins);
      if Wedged(r') {
        WedgedForGood(r', ins[1..], ins[0]);
      } else {
        WedgedByCollision(r', ins[1..]);
      }
    }
  }

  lemma NothingCollides(r: Core)
    ensures !CollidesInRun(r, [])
  {
  }

  /**
   * Over any run from reset, traps and interrupts are off for good exactly when in some cycle EX captured its trap
   * while another was taken.
   */
  lemma WedgedExactly(ins: seq<In>)
    ensures Wedged(Run(START, ins)) <==> CollidesInRun(START, ins)
  {
    hide Inv, Run, CollidesInRun;
    StartInv();
    WedgedByCollision(START, ins);
  }

  /** From reset: a jump to a misaligned target, and an instruction right behind it that raises an exception in ID. */
  lemma WedgingRun()
    ensures Wedged(Run(START, [IDLE, Cycle(StrayJump, NoReturn, {}), IDLE.(raises := true)]))
  {
    hide Quiet, START, Step, Wedged, IDLE, Cycle, Run;
    var a, b, c := IDLE, Cycle(StrayJump, NoReturn, {}), IDLE.(raises := true);
    StartQuiet();
    IdleIs();
    Moves(START, M, M, Plain);
    var r1 := Step(START, a);
    Moves(r1, M, M, StrayJump);
    Raises(Step(r1, b));
    RunOfThree(START, a, b, c);
  }

  lemma Raises(r: Core)
    requires Quiet(r, M, StrayJump, M) && r.id.valid
    ensures Wedged(Step(r, IDLE.(raises := true)))
  {
    hide RESET, Rank, TrapStack.Next;
  }

  lemma RunOfThree(r: Core, a: In, b: In, c: In)
    ensures Run(r, [a, b, c]) == Step(Step(Step(r, a), b), c)
  {
    hide Step;
    assert [a, b, c][1..] == [b, c] && [b, c][1..] == [c] && [c][1..] == [];
    assert Run(Step(r, a), [b, c]) == Run(Step(Step(r, a), b), [c]);
  }

  // ----- a run in which a trap lowers the mode -----

  function Cycle(kind: Kind, ret: Return, signals: set<Signal>): In {
    In.In(kind, false, false, ret, signals, NoWrite)
  }

  /** Nothing that could fault or trap is about, and EX holds what is said. */
  predicate Quiet(r: Core, mode: Mode, ex: Kind, exMode: Mode) {
    && r.hart.mode == mode && !r.hart.debug && !r.id.fault && !r.mem.active && !r.mem.fault
    && r.ex.kind == ex && r.ex.mode == exMode && !r.ex.trap && !r.trapSeen && ex != Memory && ex != Jump
  }

  /** An ordinary instruction, or a stray jump, moves from ID to EX. */
  lemma Moves(r: Core, mode: Mode, exMode: Mode, kind: Kind)
    requires Quiet(r, mode, Plain, exMode) && (kind == Plain || kind == StrayJump)
    ensures var r' := Step(r, Cycle(kind, NoReturn, {}));
            && Quiet(r', mode, if r.id.valid then kind else Plain, mode) && r'.id.valid
            && r'.hart.status == r.hart.status && r'.medeleg0 == r.medeleg0
  {
    hide RESET, Rank;
  }

  /** A CSR write drains while ID waits for it, and in its last cycle sets the delegation bit. */
  function Drain(writes: bool): In {
    Cycle(Plain, NoReturn, {Hazard}).(write := if writes then Medeleg(true) else NoWrite)
  }

  lemma Drains(r: Core, mode: Mode, exMode: Mode, writes: bool)
    requires Quiet(r, mode, Plain, exMode) && r.id.valid
    ensures var r' := Step(r, Drain(writes));
            && Quiet(r', mode, Plain, M) && r'.id.valid && r'.hart.status == r.hart.status
            && r'.medeleg0 == (r.medeleg0 || writes)
  {
    hide RESET, Rank;
  }

  /** MRET to the stacked mode. */
  lemma Mrets(r: Core, mode: Mode, exMode: Mode)
    requires Quiet(r, mode, Plain, exMode) && r.id.valid
    ensures var r' := Step(r, Cycle(Plain, Mret, {}));
            && Quiet(r', r.hart.status.mpp, Plain, mode) && !r'.id.valid && r'.medeleg0 == r.medeleg0
  {
    hide RESET, Rank;
  }

  /** A machine interrupt in user mode, while a fetch waits and so EX keeps its stray jump. */
  lemma Interrupted(r: Core)
    requires Quiet(r, U, StrayJump, U) && r.id.valid
    ensures var r' := Step(r, Cycle(Plain, NoReturn, {ImemWait, MachineLine, InterruptSafe}));
            Quiet(r'.(trapSeen := false), M, StrayJump, U) && !r'.id.valid && r'.medeleg0 == r.medeleg0
  {
    hide RESET, Rank;
  }

  /** The fetch still waits; with nothing left to trap, the once-only flag clears. */
  lemma Forgets(r: Core)
    requires Quiet(r.(trapSeen := false), M, StrayJump, U) && !r.id.valid
    ensures var r' := Step(r, Cycle(Plain, NoReturn, {ImemWait}));
            Quiet(r', M, StrayJump, U) && !r'.id.valid && r'.medeleg0 == r.medeleg0
  {
    hide RESET, Rank;
  }

  /** The fetch ends, and EX captures the trap of the jump, in its own mode. */
  lemma Captures(r: Core)
    requires Quiet(r, M, StrayJump, U) && !r.id.valid
    ensures var r' := Step(r, Cycle(Plain, NoReturn, {}));
            && r'.hart.mode == M && !r'.hart.debug && r'.ex.trap && r'.ex.mode == U && !r'.trapSeen && !Inflight(r')
            && !r'.mem.fault && r'.medeleg0 == r.medeleg0
  {
    hide RESET, Rank;
  }

  lemma Delegates(r: Core)
    requires r.hart.mode == M && !r.hart.debug && r.ex.trap && r.ex.mode == U && !r.trapSeen && !Inflight(r)
             && !r.mem.fault
    requires r.medeleg0
    ensures Lowers(r, Cycle(Plain, NoReturn, {}))
  {
    hide RESET;
  }

  lemma RunSteps(r: Core, ins: seq<In>, n: nat)
    requires n < |ins|
    ensures Run(r, ins[..n + 1]) == Step(Run(r, ins[..n]), ins[n]) && Run(r, ins[..0]) == r
    decreases n
  {
    hide Step;
    if n == 0 {
      assert ins[..1] == [ins[0]] && ins[..0] == [];
      assert ins[..1][1..] == [];
    } else {
      RunSteps(Step(r, ins[0]), ins[1..], n - 1);
      assert ins[..n + 1][1..] == ins[1..][..n] && ins[..n][1..] == ins[1..][..n - 1] && ins[1..][n - 1] == ins[n];
    }
  }

  lemma {:induction false} RunAppend(r: Core, a: seq<In>, b: seq<In>)
    ensures Run(r, a + b) == Run(Run(r, a), b)
    decreases a
  {
    hide Step;
    if a == [] {
      assert a + b == b;
    } else {
      assert (a + b)[1..] == a[1..] + b;
      RunAppend(Step(r, a[0]), a[1..], b);
    }
  }

  const IDLE: In := Cycle(Plain, NoReturn, {})

  /** Machine mode writes the delegation bit and returns to user mode. */
  function Setup(): seq<In> {
    [IDLE, IDLE, Drain(false), Drain(false), Drain(true), Cycle(Plain, Mret, {})]
  }

  /** User mode takes a stray jump, and is interrupted while a fetch waits. */
  function Overtaking(): seq<In> {
    [IDLE, Cycle(StrayJump, NoReturn, {}), Cycle(Plain, NoReturn, {ImemWait, MachineLine, InterruptSafe}),
     Cycle(Plain, NoReturn, {ImemWait}), IDLE]
  }

  lemma StartQuiet()
    ensures Quiet(START, M, Plain, M) && START.hart.status.mpp == U
  {
    hide RESET;
    ResetLegal();
  }

  lemma SetupRuns(ins: seq<In>)
    requires ins == Setup()
    ensures var r := Run(START, ins); Quiet(r, U, Plain, M) && !r.id.valid && r.medeleg0
  {
    hide Step, START, Quiet, Run, Cycle, IDLE;
    forall k | 0 <= k < 6 ensures Run(START, ins[..k + 1]) == Step(Run(START, ins[..k]), ins[k]) {
      RunSteps(START, ins, k);
    }
    RunSteps(START, ins, 0);
    StartQuiet();
    IdleIs();
    Moves(START, M, M, Plain);
    Moves(Run(START, ins[..1]), M, M, Plain);
    Drains(Run(START, ins[..2]), M, M, false);
    Drains(Run(START, ins[..3]), M, M, false);
    Drains(Run(START, ins[..4]), M, M, true);
    Mrets(Run(START, ins[..5]), M, M);
    assert ins[..6] == ins;
  }

  lemma IdleIs()
    ensures IDLE == Cycle(Plain, NoReturn, {})
  {
  }

  lemma OvertakingRuns(r: Core, ins: seq<In>)
    requires ins == Overtaking() && Quiet(r, U, Plain, M) && !r.id.valid && r.medeleg0
    ensures Lowers(Run(r, ins), IDLE)
  {
    hide Step, Quiet, Run, Cycle, IDLE, Inflight, Lowers;
    forall k | 0 <= k < 5 ensures Run(r, ins[..k + 1]) == Step(Run(r, ins[..k]), ins[k]) {
      RunSteps(r, ins, k);
    }
    RunSteps(r, ins, 0);
    IdleIs();
    Moves(r, U, M, Plain);
    Moves(Run(r, ins[..1]), U, U, StrayJump);
    Interrupted(Run(r, ins[..2]));
    Forgets(Run(r, ins[..3]));
    Captures(Run(r, ins[..4]));
    assert ins[..5] == ins;
    Delegates(Run(r, ins));
  }

  /**
   * From reset: machine mode delegates misaligned jump targets and returns to user mode; user mode takes a jump to a
   * misaligned target, and a machine interrupt is taken while a waiting fetch holds that jump in EX. When the fetch
   * ends, the older jump traps over the interrupt's handler, and the hart goes from machine to supervisor mode.
   */
  lemma LoweringRun()
    ensures Lowers(Run(START, Setup() + Overtaking()), IDLE)
  {
    hide Step, START, Lowers, Quiet, Run, Setup, Overtaking;
    RunAppend(START, Setup(), Overtaking());
    SetupRuns(Setup());
    OvertakingRuns(Run(START, Setup()), Overtaking());
  }
}

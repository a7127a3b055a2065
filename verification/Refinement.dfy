/**
 * The pipeline refines one-at-a-time execution. Which stages hold an instruction of the sequential run
 * is tracked beside the machine; everything else in flight (bubbles, the NOP of a discarded fetch,
 * instructions a taken branch is about to kill) is inert.
 */
module Refinement {
  import opened Words
  import opened Isa
  import opened Decoder
  import opened Pipeline
  import ControlUnit
  import IfStage
  import IdStage
  import ExStage
  import MemStage
  import WbStage
  import MulDiv

  /** How many instructions have retired, and which stages hold one that will. */
  datatype Marks = Marks(retired: nat, id: bool, ex: bool, mem: bool, wb: bool)

  const NO_MARKS: Marks := Marks(0, false, false, false, false)

  function One(b: bool): nat {
    if b then 1 else 0
  }

  // The position in the sequential run of the instruction a stage holds, or is to hold next.
  function MemAt(m: Marks): nat { m.retired + One(m.wb) }
  function ExAt(m: Marks): nat { MemAt(m) + One(m.mem) }
  function IdAt(m: Marks): nat { ExAt(m) + One(m.ex) }
  function FetchAt(m: Marks): nat { IdAt(m) + One(m.id) }

  /** The stall and flush lines of a cycle, and whether IF is discarding a fetch. */
  datatype Lines = Lines(memStall: bool, mdActive: bool, idStall: bool, flush: bool, flushEx: bool, branchOk: bool,
                         discard: bool)

  function LinesOf(c: Machine, y: Cycle): Lines {
    var u := Control(c, y);
    Lines(ControlUnit.MemStall(u), u.mdActive, ControlUnit.IdStall(u), ControlUnit.Flush(u), ControlUnit.FlushEx(u),
          u.branchOk, c.fetch.flushPending)
  }

  /** The marks move with those lines. */
  function Track(m: Marks, l: Lines): Marks {
    Marks(
      if l.memStall then m.retired else MemAt(m),
      if l.flush then false else if l.idStall then m.id else !l.discard,
      if l.memStall || l.mdActive then m.ex else m.id && !l.flushEx && !l.branchOk,
      if l.memStall then m.mem else m.ex && !l.mdActive,
      if l.memStall then m.wb else m.mem)
  }

  // ----- one instruction alone in the datapath -----

  /** What ID issues for the next instruction of the sequential state s. */
  function IssueOf(code: Code, s: Arch): ExStage.Issue {
    var i := code(s.pc);
    ExStage.Issue(s.pc, Trunc(s.pc + 4), Read(s.regs, Rs1Sel(i)), Read(s.regs, Rs2Sel(i)), ImmOf(i), RdSel(i),
                  Decode(i, true))
  }

  function ResultOf(o: ExStage.Issue): Word {
    Compute(o.ctrl.alu, ExStage.ABus(o), ExStage.BBus(o))
  }

  function OutOf(o: ExStage.Issue): ExStage.Out {
    var c := o.ctrl;
    ExStage.Out(o.pc, o.nextPc, ResultOf(o), ExStage.StoreLanes(c.width, ResultOf(o), o.rs2), o.rd, c.memSel, c.width,
                c.wb, c.reserve, c.conditional, c.amo, c.valid)
  }

  function PipeOf(code: Code, s: Arch): MemStage.Pipe {
    MemStage.PipeOf(OutOf(IssueOf(code, s)), false)
  }

  predicate InertIssue(o: ExStage.Issue) {
    o.rd == 0 && o.ctrl.branch != BranchInstr && o.ctrl.memSel == NoMem && !IsM(o.ctrl.alu) && !o.ctrl.conditional
    && !o.ctrl.reserve
  }

  predicate InertPipe(p: MemStage.Pipe) {
    p.rd == 0 && p.memSel == NoMem && !p.conditional
  }

  /** The decoder and the ALU compute the ISA's value, address and jump target. */
  lemma AloneInDatapath(code: Code, s: Arch)
    ensures var i, o := code(s.pc), IssueOf(code, s);
            && (i.Load? || i.Store? ==> ResultOf(o) == EffectiveAddress(i, s.regs))
            && (o.ctrl.wb == AluData && o.rd != 0 ==> ResultOf(o) == Value(i, s))
            && (o.ctrl.wb == PcPlus4 ==> o.nextPc == Value(i, s))
            && (o.ctrl.wb == MemData <==> i.Load?)
            && (o.ctrl.wb != ScRes)
            && (o.ctrl.memSel == LoadMem <==> i.Load?) && (o.ctrl.memSel == StoreMem <==> i.Store?)
            && (i.Load? || i.Store? ==> o.ctrl.width == i.width)
            && (i.Store? ==> o.rs2 == Read(s.regs, i.rs2))
            && o.rd == Dest(i)
  {
    hide Compute, LoadValue;
    ComputeAdd(code, s);
  }

  lemma ComputeAdd(code: Code, s: Arch)
    ensures forall a: Word, b: Word :: Compute(Add, a, b) == Trunc(a + b)
  {
  }

  // ----- the invariant, stage by stage -----

  ghost predicate RegsInv(code: Code, s0: Arch, c: Machine, m: Marks) {
    c.regs == After(code, s0, m.retired).regs
  }

  ghost predicate WbInv(code: Code, s0: Arch, c: Machine, m: Marks) {
    if m.wb then
      var s := After(code, s0, m.retired);
      var i := code(s.pc);
      && c.wb.valid && c.wb.rd == Dest(i) && c.wb.nextPc == Trunc(s.pc + 4)
      && (Dest(i) != 0 ==> WbStage.Result(c.wb) == Value(i, s))
    else c.wb.rd == 0
  }

  ghost predicate MemInv(code: Code, s0: Arch, c: Machine, m: Marks) {
    var s := After(code, s0, MemAt(m));
    && c.mem.fault == MemStage.NoFault
    && (if m.mem then c.mem.pipe == PipeOf(code, s) else InertPipe(c.mem.pipe))
    && (c.mem.active ==> m.mem && c.mem.pipe.memSel != NoMem && !c.mem.loadValid)
    && (m.mem && !c.mem.active && code(s.pc).Load? ==> c.mem.loadValid && c.mem.loadBuff == Value(code(s.pc), s))
  }

  /** The memory has absorbed every operation up to MEM's, and MEM's own once it has completed. */
  ghost predicate RamInv(code: Code, s0: Arch, c: Machine, m: Marks) {
    c.ram == After(code, s0, if c.mem.active then MemAt(m) else ExAt(m)).mem
  }

  ghost predicate ExInv(code: Code, s0: Arch, c: Machine, m: Marks) {
    && !c.ex.trap
    && (if m.ex then c.ex.op == IssueOf(code, After(code, s0, ExAt(m))) else InertIssue(c.ex.op))
    && (c.ex.branchPrev && m.ex ==> ExStage.BranchRaw(c.ex.op) && !m.id)
  }

  function Request(o: ExStage.Issue): MulDiv.Req {
    ExStage.MdRequest(o.ctrl.alu, ExStage.ABus(o), ExStage.BBus(o))
  }

  predicate UnitIdle(u: MulDiv.Regs) {
    u.phase == MulDiv.Idle && !u.done
  }

  /** The multiply/divide unit is idle, at work on EX's own operands, or holding their result. */
  ghost predicate MdInv(x: ExStage.Regs) {
    if !ExStage.MdEnable(x.op) then !x.started && !x.doneHold && UnitIdle(x.unit)
    else if x.doneHold then UnitIdle(x.unit) && x.unit.result == MulDiv.Spec(Request(x.op))
    else if x.started then MulDiv.Working(Request(x.op), x.unit) || MulDiv.Delivered(Request(x.op), x.unit)
    else UnitIdle(x.unit)
  }

  /** A taken branch is in EX for its first cycle: what IF and ID hold is about to be killed. */
  predicate Diverted(x: ExStage.Regs, m: Marks) {
    m.ex && ExStage.BranchRaw(x.op) && !x.branchPrev
  }

  ghost predicate IdInv(code: Code, s0: Arch, c: Machine, m: Marks) {
    && (!m.id ==> c.id.ir == NOP)
    && (m.id && !Diverted(c.ex, m) ==>
          var s := After(code, s0, IdAt(m));
          c.id == IdStage.Regs(code(s.pc), s.pc, Trunc(s.pc + 4), true))
  }

  ghost predicate FetchInv(code: Code, s0: Arch, c: Machine, m: Marks) {
    && (!c.fetch.fetchActive ==> c.fetch.ir == code(c.fetch.pc))
    && (c.fetch.flushPending ==> c.fetch.fetchActive)
    && (!Diverted(c.ex, m) ==>
          var s := After(code, s0, IdAt(m));
          c.fetch.pc == if m.id then Trunc(s.pc + 4) else s.pc)
  }

  ghost predicate Inv(code: Code, s0: Arch, c: Machine, m: Marks) {
    && RegsInv(code, s0, c, m) && WbInv(code, s0, c, m) && MemInv(code, s0, c, m) && RamInv(code, s0, c, m)
    && ExInv(code, s0, c, m) && MdInv(c.ex) && IdInv(code, s0, c, m) && FetchInv(code, s0, c, m)
  }

  // ----- each stage keeps its part -----

  lemma AfterNext(code: Code, s0: Arch, k: nat)
    ensures var s := After(code, s0, k); After(code, s0, k + 1) == Exec(code(s.pc), s)
  {
  }

  /** What the lines are, in terms of the stages. */
  lemma LinesMean(c: Machine, y: Cycle)
    ensures var l := LinesOf(c, y);
            && l.memStall == (y.imemWait || y.dmemWait)
            && l.mdActive == ExStage.MdActive(c.ex)
            && l.branchOk == ExStage.BranchOk(c.ex)
            && l.discard == c.fetch.flushPending
            && (l.memStall || l.mdActive ==> l.idStall && !l.flushEx)
            && (l.branchOk ==> l.flush)
            && (!l.memStall && !l.mdActive ==> l.flushEx == l.idStall)
  {
    hide ExStage.MdActive, ExStage.BranchOk, ExStage.BranchTarget, MemStage.RdOut, IdStage.JumpOk, IdStage.JumpTarget,
         ExStage.Output, WbStage.Result, ControlUnit.RegHazard, MemIn;
  }

  /** Writing back an instruction's value is its effect on the registers. */
  lemma RetireWrites(i: Instr, s: Arch, rd: Reg, v: Word)
    requires rd == Dest(i) && (rd != 0 ==> v == Value(i, s))
    ensures Write(s.regs, rd, v) == Exec(i, s).regs
  {
    hide Value, Target;
  }

  /** Without traps no operation in MEM faults. */
  lemma MemCompletes(code: Code, s0: Arch, n: nat, c: Machine, m: Marks, y: Cycle)
    requires TrapFree(code, s0, n) && FetchAt(m) <= n && MemInv(code, s0, c, m)
    ensures !MemStage.CompletionFault(c.mem, MemIn(c, y))
    ensures c.mem.active ==> !c.mem.pipe.misaligned
  {
    hide After, Target, ExStage.Output;
    if c.mem.active {
      var s := After(code, s0, MemAt(m));
      assert !Traps(code(s.pc), s);
      AloneInDatapath(code, s);
    }
  }

  lemma RegsStep(code: Code, s0: Arch, c: Machine, m: Marks, l: Lines)
    requires RegsInv(code, s0, c, m) && WbInv(code, s0, c, m)
    ensures NextRegs(c, l.memStall) == After(code, s0, Track(m, l).retired).regs
  {
    hide After, Value, WbStage.Result, Target, Write, Exec;
    var v := WbStage.Result(c.wb);
    assert Track(m, l).retired == if l.memStall then m.retired else MemAt(m);
    if l.memStall {
      assert NextRegs(c, l.memStall) == c.regs;
    } else if m.wb {
      var s := After(code, s0, m.retired);
      AfterNext(code, s0, m.retired);
      RetireWrites(code(s.pc), s, c.wb.rd, v);
      assert NextRegs(c, l.memStall) == Write(c.regs, c.wb.rd, v);
    } else {
      WriteNothing(c.regs, v);
      assert NextRegs(c, l.memStall) == c.regs;
    }
  }

  lemma WriteNothing(regs: RegFile, v: Word)
    ensures Write(regs, 0, v) == regs
  {
  }

  /** The load result MEM offers, buffered or live, is the ISA's. */
  lemma LoadIsIsa(code: Code, s0: Arch, n: nat, c: Machine, m: Marks, y: Cycle)
    requires TrapFree(code, s0, n) && FetchAt(m) <= n
    requires MemInv(code, s0, c, m) && RamInv(code, s0, c, m) && m.mem && !y.dmemWait
    requires code(After(code, s0, MemAt(m)).pc).Load?
    ensures var s := After(code, s0, MemAt(m)); MemStage.LoadOut(c.mem, MemIn(c, y)) == Value(code(s.pc), s)
  {
    hide After, Target, ExStage.Output, MemStage.Expand, BusRead, ResultOf, IssueOf;
    if c.mem.active {
      var s := After(code, s0, MemAt(m));
      var i := code(s.pc);
      assert !Traps(i, s);
      AloneInDatapath(code, s);
      AlignedBusAddr(c.mem);
      LoadFindsItsBytes(c.ram, EffectiveAddress(i, s.regs), i.width);
    }
  }

  lemma AlignedBusAddr(r: MemStage.Regs)
    requires r.active && Aligned(r.pipe.aluData, r.pipe.width)
    ensures MemStage.BusAddr(r) == r.pipe.aluData
  {
  }

  /** What leaves MEM for WB is the instruction's own result. */
  lemma WbStep(code: Code, s0: Arch, n: nat, c: Machine, m: Marks, y: Cycle)
    requires TrapFree(code, s0, n) && FetchAt(m) <= n
    requires MemInv(code, s0, c, m) && RamInv(code, s0, c, m) && !y.imemWait && !y.dmemWait && m.mem
    ensures var s := After(code, s0, MemAt(m)); var i, w := code(s.pc), ToWb(c, y);
            && w.valid && w.rd == Dest(i) && w.nextPc == Trunc(s.pc + 4)
            && (Dest(i) != 0 ==> WbStage.Result(w) == Value(i, s))
  {
    hide After, Value, Target, ResultOf, MemStage.LoadOut, MemStage.CompletionFault, MemIn, MemStage.ScOut, RamInv,
         TrapFree, Read, EffectiveAddress;
    var s := After(code, s0, MemAt(m));
    AloneInDatapath(code, s);
    MemCompletes(code, s0, n, c, m, y);
    if code(s.pc).Load? { LoadIsIsa(code, s0, n, c, m, y); }
  }

  // ----- EX to MEM -----

  /** What EX offers MEM: the finished instruction, or nothing that acts. */
  lemma OutputStep(code: Code, s0: Arch, c: Machine, m: Marks)
    requires ExInv(code, s0, c, m) && MdInv(c.ex)
    ensures var out := ExStage.Output(c.ex);
            && !out.conditional && !out.reserve
            && if m.ex && !ExStage.MdActive(c.ex) then out == OutOf(IssueOf(code, After(code, s0, ExAt(m))))
               else out.rd == 0 && out.memSel == NoMem
  {
    hide After, Read, ExStage.StoreLanes, ExStage.MdWord, MulDiv.Spec, MulDivResult, Alu, ExStage.AluRaw,
         ExStage.ABus, ExStage.BBus, ExStage.BranchRaw, ExStage.MdRequest;
    var o := c.ex.op;
    if m.ex && IsM(o.ctrl.alu) && c.ex.doneHold {
      ExStage.MdWordIsIsa(o.ctrl.alu, ExStage.ABus(o), ExStage.BBus(o));
    }
    if !IsM(o.ctrl.alu) { ExStage.AluIsIsa(o.ctrl.alu, ExStage.ABus(o), ExStage.BBus(o)); }
  }

  /** MEM without faults, traps and LR/SC. */
  lemma MemNext(r: MemStage.Regs, i: MemStage.In)
    requires r.fault == MemStage.NoFault && !r.pipe.conditional && !i.trapCommit && !i.clearReserve
    requires (r.active ==> !MemStage.Faulty(r, i)) && !MemStage.PageFault(i) && (i.wait ==> i.stall)
    requires !MemStage.Rejected(i.ex) && !i.ex.conditional
    ensures var r' := MemStage.Next(r, i);
            && r'.fault == MemStage.NoFault
            && (i.stall ==> r'.pipe == r.pipe && r'.active == (r.active && i.wait))
            && (i.stall && r.active && !i.wait && r.pipe.memSel == LoadMem ==>
                  r'.loadValid && r'.loadBuff == MemStage.Expand(r.pipe.width, r.pipe.aluData, i.data))
            && (i.stall && (!r.active || i.wait) ==> r'.loadValid == r.loadValid && r'.loadBuff == r.loadBuff)
            && (!i.stall ==>
                  r'.pipe == MemStage.PipeOf(i.ex, false) && r'.active == MemStage.IsMem(i.ex) && !r'.loadValid)
  {
    hide MemStage.Expand, MemStage.MisalignedIn, MemStage.FaultOf, MemStage.MisalignedKind;
  }

  /** An instruction of the run that reaches MEM is aligned, so MEM takes it. */
  lemma OutputAccepted(code: Code, s0: Arch, n: nat, c: Machine, m: Marks)
    requires TrapFree(code, s0, n) && FetchAt(m) <= n
    requires ExInv(code, s0, c, m) && MdInv(c.ex)
    ensures !MemStage.Rejected(ExStage.Output(c.ex)) && !ExStage.Output(c.ex).conditional
  {
    hide After, Target, Read, ResultOf, IssueOf, ExInv, MdInv, ExStage.StoreLanes, ExStage.Output, ExStage.MdActive;
    OutputStep(code, s0, c, m);
    if m.ex && !ExStage.MdActive(c.ex) {
      var s := After(code, s0, ExAt(m));
      assert !Traps(code(s.pc), s);
      AloneInDatapath(code, s);
    }
  }

  /** MEM holds the operation while the bus waits, completes it once, and takes EX's next when nothing stalls. */
  lemma MemStep(code: Code, s0: Arch, n: nat, c: Machine, m: Marks, y: Cycle)
    requires TrapFree(code, s0, n) && FetchAt(m) <= n
    requires MemInv(code, s0, c, m) && RamInv(code, s0, c, m) && ExInv(code, s0, c, m) && MdInv(c.ex)
    ensures var r, r', i := c.mem, MemStage.Next(c.mem, MemIn(c, y)), MemIn(c, y);
            && r'.fault == MemStage.NoFault
            && (i.stall ==> r'.pipe == r.pipe && r'.active == (r.active && y.dmemWait))
            && (i.stall && (!r.active || y.dmemWait) ==> r'.loadValid == r.loadValid && r'.loadBuff == r.loadBuff)
            && (i.stall && r.active && !y.dmemWait && r.pipe.memSel == LoadMem ==>
                  var s := After(code, s0, MemAt(m));
                  r'.loadValid && code(s.pc).Load? && r'.loadBuff == Value(code(s.pc), s))
            && (!i.stall ==>
                  !r'.loadValid && r'.active == MemStage.IsMem(i.ex) && r'.pipe == MemStage.PipeOf(i.ex, false))
  {
    hide After, TrapFree, ExInv, MdInv, RamInv, Value, MemStage.Expand, MemStage.Next, BusData, ResultOf, IssueOf,
         OutOf, MemStage.Rejected, ExStage.Output, MemStage.PipeOf;
    var r, i := c.mem, MemIn(c, y);
    OutputAccepted(code, s0, n, c, m);
    MemCompletes(code, s0, n, c, m, y);
    PipeFields(code, After(code, s0, MemAt(m)));
    MemNext(r, i);
    if r.active && !y.dmemWait && r.pipe.memSel == LoadMem {
      LoadIsIsa(code, s0, n, c, m, y);
    }
  }

  /** The latched operation, in the ISA's terms. */
  lemma PipeFields(code: Code, s: Arch)
    ensures var i, p := code(s.pc), PipeOf(code, s);
            && !p.conditional
            && (p.memSel == LoadMem <==> i.Load?) && (p.memSel == StoreMem <==> i.Store?)
            && (i.Load? || i.Store? ==> p.width == i.width && p.aluData == EffectiveAddress(i, s.regs))
            && (i.Store? ==> p.storeData == ExStage.StoreLanes(i.width, p.aluData, Read(s.regs, i.rs2)))
  {
    hide ResultOf, ExStage.StoreLanes, Read, EffectiveAddress, Value, Target;
    AloneInDatapath(code, s);
  }

  lemma OnlyStoresWrite(i: Instr, s: Arch)
    ensures !i.Store? ==> Exec(i, s).mem == s.mem
    ensures i.Store? ==>
              Exec(i, s).mem == StoreValue(s.mem, EffectiveAddress(i, s.regs), i.width, Read(s.regs, i.rs2))
  {
    hide Value, Target, Read, StoreValue, EffectiveAddress;
  }

  /** The memory takes exactly the store in MEM, in the cycle its bus operation completes. */
  lemma RamStep(code: Code, s0: Arch, n: nat, c: Machine, m: Marks, y: Cycle)
    requires TrapFree(code, s0, n) && FetchAt(m) <= n
    requires MemInv(code, s0, c, m) && RamInv(code, s0, c, m)
    ensures NextRam(c, y) == After(code, s0, if c.mem.active && y.dmemWait then MemAt(m) else ExAt(m)).mem
  {
    hide After, TrapFree, Value, StoreValue, BusWrite, PipeOf, ExStage.StoreLanes, EffectiveAddress, Read, Exec;
    if c.mem.active && !y.dmemWait {
      var s := After(code, s0, MemAt(m));
      var i := code(s.pc);
      AfterNext(code, s0, MemAt(m));
      PipeFields(code, s);
      OnlyStoresWrite(i, s);
      if i.Store? {
        AccessAligned(code, s0, n, MemAt(m));
        AlignedBusAddr(c.mem);
        StoreReachesItsBytes(s.mem, EffectiveAddress(i, s.regs), i.width, Read(s.regs, i.rs2));
      }
    }
  }

  lemma AccessAligned(code: Code, s0: Arch, n: nat, k: nat)
    requires TrapFree(code, s0, n) && k < n
    ensures var s := After(code, s0, k); var i := code(s.pc);
            && (i.Load? || i.Store? ==> Aligned(EffectiveAddress(i, s.regs), i.width))
            && After(code, s0, k + 1).pc == Target(i, s) && Target(i, s) % 4 == 0
  {
    hide Target, EffectiveAddress, Value;
    assert !Traps(code(After(code, s0, k).pc), After(code, s0, k));
  }

  // ----- ID to EX -----

  /** A branch in EX decides and aims as the ISA does; its redirect fires in its first cycle. */
  lemma BranchStep(code: Code, s0: Arch, n: nat, c: Machine, m: Marks)
    requires TrapFree(code, s0, n) && FetchAt(m) <= n && ExInv(code, s0, c, m)
    ensures !ExStage.Misaligned(c.ex.op)
    ensures ExStage.BranchRaw(c.ex.op) ==> m.ex
    ensures ExStage.BranchOk(c.ex) == Diverted(c.ex, m)
    ensures ExStage.BranchRaw(c.ex.op) ==> ExStage.BranchTarget(c.ex.op) == After(code, s0, IdAt(m)).pc
  {
    hide After, TrapFree, ExStage.BranchUnit, Taken;
    if m.ex && ExStage.BranchRaw(c.ex.op) {
      var s := After(code, s0, ExAt(m));
      AccessAligned(code, s0, n, ExAt(m));
      match code(s.pc)
      case Branch(cond, rs1, rs2, imm) => ExStage.BranchUnitDecides(cond, Read(s.regs, rs1), Read(s.regs, rs2));
      case _ =>
    }
  }

  /** An instruction that is neither a taken branch nor a jump falls through. */
  lemma FallsThrough(code: Code, s0: Arch, k: nat)
    ensures var s := After(code, s0, k); var i := code(s.pc);
            !i.Jal? && !i.Jalr? && !ExStage.BranchRaw(IssueOf(code, s)) ==> After(code, s0, k + 1).pc == Trunc(s.pc + 4)
  {
    hide After, ExStage.BranchUnit, Taken, Value;
    var s := After(code, s0, k);
    AfterNext(code, s0, k);
    match code(s.pc)
    case Branch(cond, rs1, rs2, imm) => ExStage.BranchUnitDecides(cond, Read(s.regs, rs1), Read(s.regs, rs2));
    case _ =>
  }

  lemma ReadUnchanged(code: Code, s0: Arch, k: nat, rs: Reg)
    ensures var s := After(code, s0, k);
            Dest(code(s.pc)) != rs || rs == 0 ==> Read(After(code, s0, k + 1).regs, rs) == Read(s.regs, rs)
  {
    hide After, Value, Target, Write;
    var s := After(code, s0, k);
    AfterNext(code, s0, k);
    var i := code(s.pc);
    if !i.Store? && !i.Branch? {
      assert Read(Write(s.regs, i.rd, Value(i, s)), rs)
             == if rs == i.rd && i.rd != 0 then Value(i, s) else Read(s.regs, rs);
    }
  }

  function DestAt(code: Code, s0: Arch, k: nat): Reg {
    Dest(code(After(code, s0, k).pc))
  }

  lemma Undisturbed(code: Code, s0: Arch, k: nat, present: bool, rd: Reg, rs: Reg)
    requires (present ==> rd == DestAt(code, s0, k)) && (rs == 0 || rd != rs)
    ensures Read(After(code, s0, k + One(present)).regs, rs) == Read(After(code, s0, k).regs, rs)
  {
    hide After, Read;
    if present { ReadUnchanged(code, s0, k, rs); }
  }

  /** The hazard inputs show the destination of every instruction in flight. */
  lemma DestsAreVisible(code: Code, s0: Arch, c: Machine, m: Marks, y: Cycle)
    requires WbInv(code, s0, c, m) && MemInv(code, s0, c, m) && ExInv(code, s0, c, m)
    requires !ExStage.MdActive(c.ex) && !MemStage.CompletionFault(c.mem, MemIn(c, y))
    ensures m.wb ==> c.wb.rd == DestAt(code, s0, m.retired)
    ensures m.mem ==> MemStage.RdOut(c.mem, MemIn(c, y)) == DestAt(code, s0, MemAt(m))
    ensures m.ex ==> ExStage.Output(c.ex).rd == DestAt(code, s0, ExAt(m))
  {
    hide After, Value, WbStage.Result, ResultOf, Read, ExStage.AluOut, ExStage.StoreLanes, MemIn,
         MemStage.CompletionFault;
  }

  /** The interlock: a register ID may use has no older write in flight, so the file already holds its value. */
  lemma OperandIsCurrent(code: Code, s0: Arch, k: nat, wb: bool, mem: bool, ex: bool, wbRd: Reg, memRd: Reg,
                         exRd: Reg, rs: Reg)
    requires (rs == 0 || (wbRd != rs && memRd != rs && exRd != rs))
    requires wb ==> wbRd == DestAt(code, s0, k)
    requires mem ==> memRd == DestAt(code, s0, k + One(wb))
    requires ex ==> exRd == DestAt(code, s0, k + One(wb) + One(mem))
    ensures Read(After(code, s0, k + One(wb) + One(mem) + One(ex)).regs, rs) == Read(After(code, s0, k).regs, rs)
  {
    hide After, Read, DestAt;
    Undisturbed(code, s0, k, wb, wbRd, rs);
    Undisturbed(code, s0, k + One(wb), mem, memRd, rs);
    Undisturbed(code, s0, k + One(wb) + One(mem), ex, exRd, rs);
  }

  /** What ID issues when it is not stalled: the next instruction of the run with its own operands. */
  lemma IssueStep(code: Code, s0: Arch, n: nat, c: Machine, m: Marks, y: Cycle)
    requires TrapFree(code, s0, n) && FetchAt(m) <= n && Inv(code, s0, c, m)
    ensures !m.id ==> InertIssue(IssueFromId(c))
    ensures m.id && !Diverted(c.ex, m) && !ControlUnit.IdStall(Control(c, y)) ==>
              IssueFromId(c) == IssueOf(code, After(code, s0, IdAt(m)))
  {
    hide After, TrapFree, WbInv, MemInv, RamInv, ExInv, MdInv, FetchInv, Read, MemIn, ExStage.Output, MemStage.RdOut,
         MemStage.CompletionFault, ExStage.MdActive, IdStage.JumpOk, IdStage.JumpTarget, WbStage.Result;
    if m.id && !Diverted(c.ex, m) && !ControlUnit.IdStall(Control(c, y)) {
      var exRd, memRd := ExStage.Output(c.ex).rd, MemStage.RdOut(c.mem, MemIn(c, y));
      MemCompletes(code, s0, n, c, m, y);
      DestsAreVisible(code, s0, c, m, y);
      OperandIsCurrent(code, s0, m.retired, m.wb, m.mem, m.ex, c.wb.rd, memRd, exRd, Rs1Sel(c.id.ir));
      OperandIsCurrent(code, s0, m.retired, m.wb, m.mem, m.ex, c.wb.rd, memRd, exRd, Rs2Sel(c.id.ir));
    }
  }

  /** ID never issues an instruction that reads a register an older one in EX, MEM or WB is still to write. */
  lemma NoOlderWriter(code: Code, s0: Arch, n: nat, c: Machine, m: Marks, y: Cycle, rs: Reg)
    requires TrapFree(code, s0, n) && FetchAt(m) <= n && Inv(code, s0, c, m)
    requires !ControlUnit.IdStall(Control(c, y)) && rs != 0 && (rs == Rs1Sel(c.id.ir) || rs == Rs2Sel(c.id.ir))
    ensures m.ex ==> DestAt(code, s0, ExAt(m)) != rs
    ensures m.mem ==> DestAt(code, s0, MemAt(m)) != rs
    ensures m.wb ==> DestAt(code, s0, m.retired) != rs
  {
    hide After, TrapFree, RegsInv, WbInv, MemInv, RamInv, ExInv, MdInv, FetchInv, IdInv, Read, MemIn, ExStage.Output,
         MemStage.RdOut, MemStage.CompletionFault, ExStage.MdActive, IdStage.JumpOk, IdStage.JumpTarget, WbStage.Result,
         ExStage.BranchOk, ExStage.BranchTarget, DestAt;
    MemCompletes(code, s0, n, c, m, y);
    DestsAreVisible(code, s0, c, m, y);
  }

  /** EX without traps. */
  lemma ExNext(x: ExStage.Regs, i: ExStage.In)
    requires !x.trap && !i.trapCommit && !ExStage.Misaligned(x.op)
    ensures var x' := ExStage.Next(x, i);
            && !x'.trap && x'.branchPrev == ExStage.BranchRaw(x.op)
            && (i.stall ==> x'.op == x.op)
            && (!i.stall && (i.flush || ExStage.BranchOk(x)) ==> InertIssue(x'.op))
            && (!i.stall && !i.flush && !ExStage.BranchOk(x) ==> x'.op == i.issue)
  {
    hide ExStage.BranchRaw, ExStage.Misaligned, ExStage.BranchOk, MulDiv.Next, ExStage.Handshake, ExStage.UnitIn;
  }

  lemma InertIsNoBranch(o: ExStage.Issue)
    requires InertIssue(o)
    ensures !ExStage.BranchRaw(o)
  {
  }

  /** EX keeps its instruction while stalled and takes ID's, or a bubble, otherwise. */
  lemma ExStep(code: Code, s0: Arch, n: nat, c: Machine, m: Marks, y: Cycle)
    requires TrapFree(code, s0, n) && FetchAt(m) <= n && Inv(code, s0, c, m)
    ensures var x', m' := NextEx(c, y), Track(m, LinesOf(c, y));
            && !x'.trap
            && (if m'.ex then x'.op == IssueOf(code, After(code, s0, ExAt(m'))) else InertIssue(x'.op))
            && (x'.branchPrev && m'.ex ==> ExStage.BranchRaw(x'.op) && !m'.id)
  {
    hide After, TrapFree, RegsInv, WbInv, MemInv, RamInv, MdInv, IdInv, FetchInv, InertIssue, Control, IssueFromId,
         ExStage.Next, ExStage.BranchRaw, ExStage.BranchOk, IssueOf, ExStage.MdActive, ControlUnit.RegHazard;
    var u, l := Control(c, y), LinesOf(c, y);
    LinesMean(c, y);
    BranchStep(code, s0, n, c, m);
    IssueStep(code, s0, n, c, m, y);
    ExNext(c.ex, ExStage.In(ControlUnit.ExStall(u), ControlUnit.FlushEx(u), false, IssueFromId(c)));
    if !m.ex { InertIsNoBranch(c.ex.op); }
  }

  lemma UnitStays(u: MulDiv.Regs, i: MulDiv.In)
    requires u.phase == MulDiv.Idle && (i.flush || !i.start)
    ensures UnitIdle(MulDiv.Next(u, i)) && MulDiv.Next(u, i).result == u.result
  {
    hide MulDiv.Launch, MulDiv.Iterate, MulDiv.Finish;
  }

  lemma UnitStarts(u: MulDiv.Regs, i: MulDiv.In)
    requires u.phase == MulDiv.Idle && !i.flush && i.start
    ensures MulDiv.Working(i.req, MulDiv.Next(u, i))
  {
    hide MulDiv.Launch, MulDiv.Iterate, MulDiv.Finish, MulDiv.Working, MulDiv.Latency;
    MulDiv.LaunchWorks(u, i.req);
  }

  lemma UnitWorks(req: MulDiv.Req, u: MulDiv.Regs, i: MulDiv.In)
    requires MulDiv.Working(req, u) && !i.flush
    ensures MulDiv.Working(req, MulDiv.Next(u, i)) || MulDiv.Delivered(req, MulDiv.Next(u, i))
    ensures !u.done
  {
    hide MulDiv.Next, MulDiv.Working, MulDiv.Left;
    MulDiv.NextKeeps(req, u, i);
    MulDiv.WorkingIsBusy(req, u);
  }

  /** The handshake runs the unit once per multiply or divide, and holds its result until EX moves on. */
  lemma MdStep(x: ExStage.Regs, i: ExStage.In)
    requires MdInv(x) && !i.trapCommit && !x.trap
    requires (i.flush ==> !i.stall) && (ExStage.MdActive(x) ==> i.stall)
    ensures MdInv(ExStage.Next(x, i))
  {
    hide MulDiv.Next, MulDiv.Working, MulDiv.Spec, UnitIdle, Request, ExStage.Capture;
    var req, ui := Request(x.op), ExStage.UnitIn(x, i);
    if i.stall { CaptureHolds(x, i); }
    assert ui.req == req by { RequestIs(x, i); }
    if !ExStage.MdActive(x) {
      UnitIsIdle(x.unit);
      UnitStays(x.unit, ui);
    } else if x.started {
      if MulDiv.Working(req, x.unit) {
        UnitWorks(req, x.unit, ui);
      } else {
        UnitStays(x.unit, ui);
      }
    } else {
      UnitIsIdle(x.unit);
      UnitStarts(x.unit, ui);
    }
  }

  lemma UnitIsIdle(u: MulDiv.Regs)
    ensures UnitIdle(u) ==> u.phase == MulDiv.Idle && !u.done
  {
  }

  lemma RequestIs(x: ExStage.Regs, i: ExStage.In)
    ensures ExStage.UnitIn(x, i).req == Request(x.op)
  {
    hide ExStage.MdRequest, ExStage.ABus, ExStage.BBus;
  }

  lemma CaptureHolds(x: ExStage.Regs, i: ExStage.In)
    requires !x.trap && !i.trapCommit && i.stall
    ensures ExStage.Capture(x, i).op == x.op
  {
    hide ExStage.BranchRaw, ExStage.Misaligned;
  }

  // ----- IF and ID -----

  /** Where ID's instruction stands after the cycle: it moves on exactly when EX takes it. */
  lemma IdAtMoves(c: Machine, m: Marks, y: Cycle)
    ensures var l := LinesOf(c, y);
            IdAt(Track(m, l)) == if l.idStall || l.branchOk then IdAt(m) else FetchAt(m)
  {
    hide LinesOf;
    LinesMean(c, y);
  }

  /** With no write back to its base register, a jump in ID has the ISA's target, and is taken if that is aligned. */
  lemma JumpIsIsa(i: Instr, s: Arch, id: IdStage.Regs, rs1: Word, wbRd: Reg, wbValue: Word)
    requires id.ir == i && id.pc == s.pc && Target(i, s) % 4 == 0
    requires i.Jalr? ==> rs1 == Read(s.regs, i.rs1) && (wbRd == 0 || wbRd != i.rs1)
    ensures IdStage.JumpOk(id, rs1, wbRd, wbValue) == (i.Jal? || i.Jalr?)
    ensures i.Jal? || i.Jalr? ==> IdStage.JumpTarget(id, rs1, wbRd, wbValue) == Target(i, s)
  {
    hide Read, Trunc, Target, IdStage.JumpTarget;
    if i.Jal? || i.Jalr? {
      JumpTargetIsIsa(i, s, id, rs1, wbRd, wbValue);
      AlignedHalves(Target(i, s));
    }
  }

  lemma JumpTargetIsIsa(i: Instr, s: Arch, id: IdStage.Regs, rs1: Word, wbRd: Reg, wbValue: Word)
    requires id.ir == i && id.pc == s.pc && (i.Jal? || i.Jalr?)
    requires i.Jalr? ==> rs1 == Read(s.regs, i.rs1) && (wbRd == 0 || wbRd != i.rs1)
    ensures IdStage.JumpTarget(id, rs1, wbRd, wbValue) == Target(i, s)
  {
    hide Read, Trunc;
  }

  lemma AlignedHalves(t: Word)
    requires t % 4 == 0
    ensures t / 2 % 2 == 0
  {
  }

  /** A jump in ID redirects, to the ISA's target, exactly when it is not stalled; nothing else in ID does. */
  lemma JumpStep(code: Code, s0: Arch, n: nat, c: Machine, m: Marks, y: Cycle)
    requires TrapFree(code, s0, n) && FetchAt(m) <= n && Inv(code, s0, c, m)
    ensures !m.id ==> !Control(c, y).jalOk
    ensures m.id && !Diverted(c.ex, m) && !ControlUnit.IdStall(Control(c, y)) ==>
              var u, i := Control(c, y), code(After(code, s0, IdAt(m)).pc);
              && u.jalOk == (i.Jal? || i.Jalr?)
              && (u.jalOk ==> u.jalTarget == After(code, s0, IdAt(m) + 1).pc)
  {
    hide After, TrapFree, RegsInv, WbInv, MemInv, RamInv, ExInv, MdInv, FetchInv, MemIn, ExStage.Output,
         MemStage.RdOut, ExStage.MdActive, ExStage.BranchTarget, ExStage.BranchOk, WbStage.Result, Read, Target,
         IdStage.JumpTarget;
    if m.id && !Diverted(c.ex, m) && !ControlUnit.IdStall(Control(c, y)) {
      IssueStep(code, s0, n, c, m, y);
      AccessAligned(code, s0, n, IdAt(m));
      JumpIsIsa(code(c.id.pc), After(code, s0, IdAt(m)), c.id, Rs1Value(c), c.wb.rd, WbStage.Result(c.wb));
    }
  }

  /** Every redirect lands on the next instruction of the run. */
  lemma RedirectStep(code: Code, s0: Arch, n: nat, c: Machine, m: Marks, y: Cycle)
    requires TrapFree(code, s0, n) && FetchAt(m) <= n && Inv(code, s0, c, m)
    ensures var l := LinesOf(c, y);
            l.flush ==> ControlUnit.JumpTarget(Control(c, y)) == After(code, s0, IdAt(Track(m, l))).pc
  {
    hide After, TrapFree, RegsInv, WbInv, MemInv, RamInv, ExInv, MdInv, FetchInv, IdInv, Track, IdAt, FetchAt,
         ExStage.BranchRaw, ExStage.BranchTarget, ExStage.MdActive, ExStage.Output, MemStage.RdOut, IdStage.JumpOk,
         IdStage.JumpTarget;
    IdAtMoves(c, m, y);
    BranchStep(code, s0, n, c, m);
    JumpStep(code, s0, n, c, m, y);
    NextPosition(m);
  }

  lemma NextPosition(m: Marks)
    ensures FetchAt(m) == IdAt(m) + One(m.id)
  {
  }

  /** Without a redirect IF's address is the next instruction's, unless the instruction leaving ID is a taken branch. */
  lemma FallThroughStep(code: Code, s0: Arch, n: nat, c: Machine, m: Marks, y: Cycle)
    requires TrapFree(code, s0, n) && FetchAt(m) <= n && Inv(code, s0, c, m)
    requires !LinesOf(c, y).flush && !LinesOf(c, y).idStall
    ensures Diverted(NextEx(c, y), Track(m, LinesOf(c, y))) || c.fetch.pc == After(code, s0, FetchAt(m)).pc
  {
    hide After, TrapFree, RegsInv, WbInv, MemInv, RamInv, MdInv, IdInv, Control, IdAt, FetchAt, ExStage.Next,
         IssueFromId, ExStage.BranchRaw, ExStage.BranchOk, ExStage.MdActive, IssueOf;
    var u, l := Control(c, y), LinesOf(c, y);
    LinesMean(c, y);
    BranchStep(code, s0, n, c, m);
    NextPosition(m);
    if m.id {
      IssueStep(code, s0, n, c, m, y);
      JumpStep(code, s0, n, c, m, y);
      ExNext(c.ex, ExStage.In(ControlUnit.ExStall(u), ControlUnit.FlushEx(u), false, IssueFromId(c)));
      FallsThrough(code, s0, IdAt(m));
    }
  }

  /** IF without traps: redirected, discarding, advancing, or holding. */
  lemma FetchNext(code: Code, c: Machine, y: Cycle)
    requires c.fetch.flushPending ==> c.fetch.fetchActive
    requires !c.fetch.fetchActive ==> c.fetch.ir == code(c.fetch.pc)
    ensures var f, f', l := c.fetch, NextFetch(code, c, y), LinesOf(c, y);
            && (f'.flushPending ==> f'.fetchActive)
            && (!f'.fetchActive ==> f'.ir == code(f'.pc))
            && f'.pc == (if l.flush then ControlUnit.JumpTarget(Control(c, y))
                        else if l.idStall || f.flushPending then f.pc
                        else Trunc(f.pc + 4))
            && (!l.flush && !l.idStall ==>
                  IfStage.Ir(f, FetchIn(code, c, y)) == if f.flushPending then NOP else code(f.pc))
  {
    hide Control, ControlUnit.JumpTarget, ControlUnit.Flush;
    assert y.imemWait ==> ControlUnit.IdStall(Control(c, y)) by { LinesMean(c, y); }
  }

  lemma FetchStep(code: Code, s0: Arch, n: nat, c: Machine, m: Marks, y: Cycle)
    requires TrapFree(code, s0, n) && FetchAt(m) <= n && Inv(code, s0, c, m)
    ensures var m' := Track(m, LinesOf(c, y));
            !Diverted(NextEx(c, y), m') ==>
              var s := After(code, s0, IdAt(m'));
              NextFetch(code, c, y).pc == if m'.id then Trunc(s.pc + 4) else s.pc
  {
    hide After, TrapFree, RegsInv, WbInv, MemInv, RamInv, MdInv, IdInv, ExInv, IdAt, FetchAt, NextFetch, NextEx,
         LinesOf, ExStage.BranchRaw, ControlUnit.JumpTarget;
    var l := LinesOf(c, y);
    LinesMean(c, y);
    IdAtMoves(c, m, y);
    FetchNext(code, c, y);
    if l.flush {
      RedirectStep(code, s0, n, c, m, y);
    } else if !l.idStall {
      FallThroughStep(code, s0, n, c, m, y);
    } else {
      BranchStep(code, s0, n, c, m);
    }
  }

  lemma IdStep(code: Code, s0: Arch, n: nat, c: Machine, m: Marks, y: Cycle)
    requires TrapFree(code, s0, n) && FetchAt(m) <= n && Inv(code, s0, c, m)
    ensures var id', m' := NextId(code, c, y), Track(m, LinesOf(c, y));
            && (!m'.id ==> id'.ir == NOP)
            && (m'.id && !Diverted(NextEx(c, y), m') ==>
                  var s := After(code, s0, IdAt(m'));
                  id' == IdStage.Regs(code(s.pc), s.pc, Trunc(s.pc + 4), true))
  {
    hide After, TrapFree, RegsInv, WbInv, MemInv, RamInv, MdInv, ExInv, IdAt, FetchAt, NextFetch, NextEx, Control,
         FetchIn, ExStage.BranchRaw, ControlUnit.JumpTarget, ControlUnit.Flush, ControlUnit.IdStall;
    var l := LinesOf(c, y);
    LinesMean(c, y);
    IdAtMoves(c, m, y);
    FetchNext(code, c, y);
    BranchStep(code, s0, n, c, m);
    if !l.flush && !l.idStall {
      FallThroughStep(code, s0, n, c, m, y);
    }
  }

  // ----- one cycle keeps the invariant -----

  lemma BackPositions(m: Marks, l: Lines)
    ensures var m' := Track(m, l);
            && m'.retired == (if l.memStall then m.retired else MemAt(m))
            && MemAt(m') == (if l.memStall then MemAt(m) else ExAt(m))
            && ExAt(m') == (if l.memStall then ExAt(m) else ExAt(m) + One(m.ex && !l.mdActive))
  {
  }

  lemma WbKeeps(code: Code, s0: Arch, n: nat, c: Machine, m: Marks, y: Cycle)
    requires TrapFree(code, s0, n) && FetchAt(m) <= n && Inv(code, s0, c, m)
    ensures WbInv(code, s0, Next(code, c, y), Track(m, LinesOf(c, y)))
  {
    hide After, TrapFree, RegsInv, RamInv, MdInv, ExInv, IdInv, FetchInv, Value, WbStage.Result, ToWb, NextFetch,
         NextId, NextEx, NextRegs, NextRam, MemStage.Next, MemIn, LinesOf;
    LinesMean(c, y);
    BackPositions(m, LinesOf(c, y));
    if !y.imemWait && !y.dmemWait {
      if m.mem { WbStep(code, s0, n, c, m, y); } else { BubbleToWb(c, y); }
    }
  }

  lemma BubbleToWb(c: Machine, y: Cycle)
    ensures c.mem.pipe.rd == 0 ==> ToWb(c, y).rd == 0
  {
    hide MemStage.CompletionFault;
  }

  lemma MemKeeps(code: Code, s0: Arch, n: nat, c: Machine, m: Marks, y: Cycle)
    requires TrapFree(code, s0, n) && FetchAt(m) <= n && Inv(code, s0, c, m)
    ensures MemInv(code, s0, Next(code, c, y), Track(m, LinesOf(c, y)))
  {
    hide After, TrapFree, RegsInv, RamInv, MdInv, ExInv, IdInv, FetchInv, WbInv, Value, ToWb, NextFetch, NextId,
         IssueOf, NextEx, NextRegs, NextRam, MemStage.Next, LinesOf, OutOf, MemStage.PipeOf, ExStage.Output,
         ExStage.MdActive, BusData;
    LinesMean(c, y);
    BackPositions(m, LinesOf(c, y));
    MemStep(code, s0, n, c, m, y);
    OutputStep(code, s0, c, m);
    PipeFields(code, After(code, s0, MemAt(m)));
    PipeFields(code, After(code, s0, ExAt(m)));
    PipeOfFields(ExStage.Output(c.ex));
  }

  lemma PipeOfFields(o: ExStage.Out)
    ensures var p := MemStage.PipeOf(o, false); p.rd == o.rd && p.memSel == o.memSel && p.conditional == o.conditional
  {
  }

  lemma RamKeeps(code: Code, s0: Arch, n: nat, c: Machine, m: Marks, y: Cycle)
    requires TrapFree(code, s0, n) && FetchAt(m) <= n && Inv(code, s0, c, m)
    ensures RamInv(code, s0, Next(code, c, y), Track(m, LinesOf(c, y)))
  {
    hide After, TrapFree, RegsInv, MdInv, ExInv, IdInv, FetchInv, WbInv, Value, ToWb, NextFetch, NextId, IssueOf,
         NextEx, NextRegs, NextRam, MemStage.Next, LinesOf, OutOf, MemStage.PipeOf, ExStage.Output, ExStage.MdActive,
         BusData, Exec;
    var l := LinesOf(c, y);
    LinesMean(c, y);
    BackPositions(m, l);
    MemStep(code, s0, n, c, m, y);
    OutputStep(code, s0, c, m);
    RamStep(code, s0, n, c, m, y);
    if !l.memStall && m.ex && !l.mdActive {
      var s := After(code, s0, ExAt(m));
      AfterNext(code, s0, ExAt(m));
      OnlyStoresWrite(code(s.pc), s);
      PipeFields(code, s);
      PipeOfFields(OutOf(IssueOf(code, s)));
    }
  }

  lemma MdKeeps(code: Code, s0: Arch, n: nat, c: Machine, m: Marks, y: Cycle)
    requires TrapFree(code, s0, n) && FetchAt(m) <= n && Inv(code, s0, c, m)
    ensures MdInv(NextEx(c, y))
  {
    hide After, TrapFree, RegsInv, WbInv, MemInv, RamInv, MdInv, IdInv, FetchInv, InertIssue, Control, IssueFromId,
         ExStage.Next, IssueOf, ExStage.MdActive, ControlUnit.RegHazard;
    var u := Control(c, y);
    LinesMean(c, y);
    MdStep(c.ex, ExStage.In(ControlUnit.ExStall(u), ControlUnit.FlushEx(u), false, IssueFromId(c)));
  }

  lemma FrontKeeps(code: Code, s0: Arch, n: nat, c: Machine, m: Marks, y: Cycle)
    requires TrapFree(code, s0, n) && FetchAt(m) <= n && Inv(code, s0, c, m)
    ensures var c', m' := Next(code, c, y), Track(m, LinesOf(c, y));
            ExInv(code, s0, c', m') && IdInv(code, s0, c', m') && FetchInv(code, s0, c', m')
  {
    hide After, TrapFree, RegsInv, WbInv, MemInv, RamInv, MdInv, NextFetch, NextId, NextEx, NextRegs, NextRam,
         MemStage.Next, ToWb, LinesOf, Track, IssueOf, InertIssue, Diverted, IdAt, ExAt, ExStage.BranchRaw, MemIn;
    ExStep(code, s0, n, c, m, y);
    IdStep(code, s0, n, c, m, y);
    FetchStep(code, s0, n, c, m, y);
    FetchNext(code, c, y);
  }

  /** One cycle, whatever the two wait lines do, keeps the whole invariant. */
  lemma CycleKeeps(code: Code, s0: Arch, n: nat, c: Machine, m: Marks, y: Cycle)
    requires TrapFree(code, s0, n) && FetchAt(m) <= n && Inv(code, s0, c, m)
    ensures Inv(code, s0, Next(code, c, y), Track(m, LinesOf(c, y)))
    ensures FetchAt(Track(m, LinesOf(c, y))) <= FetchAt(m) + 1
  {
    hide After, TrapFree, RegsInv, WbInv, MemInv, RamInv, MdInv, ExInv, IdInv, FetchInv, LinesOf, NextFetch, NextId,
         NextEx, NextRegs, NextRam, MemStage.Next, ToWb, MemIn;
    RegsKeeps(code, s0, n, c, m, y);
    WbKeeps(code, s0, n, c, m, y);
    MemKeeps(code, s0, n, c, m, y);
    RamKeeps(code, s0, n, c, m, y);
    FrontKeeps(code, s0, n, c, m, y);
    MdKeeps(code, s0, n, c, m, y);
    FetchAtMoves(c, m, y);
  }

  lemma RegsKeeps(code: Code, s0: Arch, n: nat, c: Machine, m: Marks, y: Cycle)
    requires Inv(code, s0, c, m)
    ensures RegsInv(code, s0, Next(code, c, y), Track(m, LinesOf(c, y)))
  {
    hide After, WbInv, MemInv, RamInv, MdInv, ExInv, IdInv, FetchInv, LinesOf, NextFetch, NextId, NextEx, NextRegs,
         NextRam, MemStage.Next, ToWb, MemIn, Track;
    LinesMean(c, y);
    RegsStep(code, s0, c, m, LinesOf(c, y));
  }

  lemma FetchAtMoves(c: Machine, m: Marks, y: Cycle)
    ensures FetchAt(Track(m, LinesOf(c, y))) <= FetchAt(m) + 1
  {
    hide LinesOf;
    LinesMean(c, y);
  }
}

/** The pipeline never deadlocks: whatever is in flight, 42 cycles without a wait retire an instruction. */
module Progress {
  import opened Isa
  import opened Pipeline
  import opened Refinement
  import opened Program
  import ControlUnit
  import IdStage
  import ExStage
  import MemStage
  import WbStage
  import MulDiv

  /** Cycles until EX's multiply or divide releases it. */
  function MdLeft(x: ExStage.Regs): nat {
    if !ExStage.MdActive(x) then 0
    else if !x.started then 36
    else 1 + MulDiv.Left(x.unit)
  }

  const LONGEST: nat := 42

  /** Cycles, at most, until the oldest instruction in flight (or else the next one) retires. */
  function Rank(c: Machine, m: Marks): nat {
    if m.wb then 1
    else if m.mem then 2
    else if m.ex then 3 + MdLeft(c.ex)
    else if m.id then 40
    else if !c.fetch.flushPending then 41
    else 42
  }

  lemma UnitLeft(req: MulDiv.Req, u: MulDiv.Regs, i: MulDiv.In)
    requires MulDiv.Working(req, u) && !i.flush
    ensures MulDiv.Left(MulDiv.Next(u, i)) < MulDiv.Left(u) <= 34
  {
    hide MulDiv.Next, MulDiv.MulInvariant, MulDiv.DivInvariant, MulDiv.Spec;
    MulDiv.NextKeeps(req, u, i);
    MulDiv.WorkingIsBusy(req, u);
  }

  lemma UnitLaunch(u: MulDiv.Regs, i: MulDiv.In)
    requires u.phase == MulDiv.Idle && !i.flush && i.start
    ensures MulDiv.Left(MulDiv.Next(u, i)) <= 34
  {
    hide MulDiv.Launch, MulDiv.Iterate, MulDiv.Finish, MulDiv.Working;
    MulDiv.LaunchWorks(u, i.req);
  }

  /** The unit works through every cycle, waiting or not. */
  lemma MdLeftFalls(x: ExStage.Regs, i: ExStage.In)
    requires MdInv(x) && !x.trap && !i.trapCommit && ExStage.MdActive(x) && i.stall && !i.flush
    ensures MdLeft(ExStage.Next(x, i)) < MdLeft(x)
  {
    hide MulDiv.Next, MulDiv.Working, MulDiv.Spec, Request, ExStage.Capture, MulDiv.Left;
    var req, ui := Request(x.op), ExStage.UnitIn(x, i);
    CaptureHolds(x, i);
    if !x.started {
      UnitLaunch(x.unit, ui);
    } else if MulDiv.Working(req, x.unit) {
      UnitLeft(req, x.unit, ui);
    }
  }

  lemma MdLeftBound(x: ExStage.Regs)
    requires MdInv(x)
    ensures MdLeft(x) <= 36 && (MdLeft(x) > 0 <==> ExStage.MdActive(x))
  {
    hide MulDiv.Spec, Request, MulDiv.MulInvariant, MulDiv.DivInvariant;
  }

  lemma MdHolds(x: ExStage.Regs, i: ExStage.In)
    requires !x.trap && !i.trapCommit && !ExStage.MdActive(x) && i.stall && !i.flush
    ensures !ExStage.MdActive(ExStage.Next(x, i))
  {
    hide MulDiv.Next, ExStage.Capture;
    CaptureHolds(x, i);
  }

  lemma ExLeft(code: Code, s0: Arch, c: Machine, m: Marks, y: Cycle)
    requires Inv(code, s0, c, m)
    ensures var l, x' := LinesOf(c, y), NextEx(c, y);
            && (l.mdActive ==> MdLeft(x') < MdLeft(c.ex))
            && (!l.mdActive && l.memStall ==> MdLeft(x') == 0)
  {
    hide After, RegsInv, WbInv, MemInv, RamInv, MdInv, IdInv, FetchInv, InertIssue, Control, IssueFromId,
         ExStage.Next, IssueOf, ExStage.MdActive, ControlUnit.RegHazard, ExStage.BranchRaw;
    var u := Control(c, y);
    var i := ExStage.In(ControlUnit.ExStall(u), ControlUnit.FlushEx(u), false, IssueFromId(c));
    LinesMean(c, y);
    if ExStage.MdActive(c.ex) {
      MdLeftFalls(c.ex, i);
    } else if ControlUnit.MemStall(u) {
      MdHolds(c.ex, i);
    }
  }

  lemma InertOutput(x: ExStage.Regs)
    requires InertIssue(x.op)
    ensures !ExStage.MdActive(x) && ExStage.Output(x).rd == 0
  {
  }

  lemma InertRd(c: Machine, y: Cycle)
    ensures c.mem.pipe.rd == 0 ==> MemStage.RdOut(c.mem, MemIn(c, y)) == 0
  {
    hide MemIn, MemStage.CompletionFault;
  }

  /** With nothing of the run in EX, MEM and WB, nothing but the wait lines stalls ID. */
  lemma EmptyIsFree(code: Code, s0: Arch, n: nat, c: Machine, m: Marks, y: Cycle)
    requires TrapFree(code, s0, n) && FetchAt(m) <= n && Inv(code, s0, c, m)
    requires !m.ex && !m.mem && !m.wb
    ensures var l := LinesOf(c, y);
            && !l.mdActive && !l.branchOk
            && (l.idStall ==> y.imemWait || y.dmemWait)
            && (!m.id || l.idStall ==> !l.flush)
  {
    hide After, TrapFree, RegsInv, RamInv, MdInv, IdInv, FetchInv, InertIssue, ExStage.MdActive, ExStage.BranchRaw,
         MemIn, ExStage.Output, ExStage.BranchOk, MemStage.RdOut, IdStage.JumpOk, IdStage.JumpTarget,
         ExStage.BranchTarget, WbStage.Result;
    InertOutput(c.ex);
    InertRd(c, y);
    BranchStep(code, s0, n, c, m);
    JumpStep(code, s0, n, c, m, y);
  }

  lemma RankBound(code: Code, s0: Arch, c: Machine, m: Marks)
    requires Inv(code, s0, c, m)
    ensures 1 <= Rank(c, m) <= LONGEST
  {
    hide RegsInv, WbInv, MemInv, RamInv, ExInv, MdInv, IdInv, FetchInv, MdLeft, After;
    MdLeftBound(c.ex);
  }

  lemma DiscardEnds(code: Code, c: Machine, y: Cycle)
    requires !LinesOf(c, y).flush
    ensures NextFetch(code, c, y).flushPending ==> c.fetch.flushPending && y.imemWait
  {
    hide Control;
  }

  /** Every cycle without a wait retires the oldest instruction or brings it closer; a wait loses nothing. */
  lemma RankStep(code: Code, s0: Arch, n: nat, c: Machine, m: Marks, y: Cycle)
    requires TrapFree(code, s0, n) && FetchAt(m) <= n && Inv(code, s0, c, m)
    ensures var c', m' := Next(code, c, y), Track(m, LinesOf(c, y));
            if y.imemWait || y.dmemWait then m'.retired == m.retired && Rank(c', m') <= Rank(c, m)
            else m'.retired == m.retired + One(m.wb) && (m.wb || Rank(c', m') < Rank(c, m))
  {
    hide After, TrapFree, RegsInv, WbInv, MemInv, RamInv, ExInv, MdInv, IdInv, FetchInv, MdLeft, LinesOf, NextFetch,
         NextEx, NextId, NextRegs, NextRam, MemStage.Next, ToWb, MemIn, ExStage.MdActive;
    LinesMean(c, y);
    ExLeft(code, s0, c, m, y);
    MdLeftBound(c.ex);
    CycleKeeps(code, s0, n, c, m, y);
    MdLeftBound(NextEx(c, y));
    if !m.ex && !m.mem && !m.wb {
      EmptyIsFree(code, s0, n, c, m, y);
      if !m.id { DiscardEnds(code, c, y); }
    }
  }

  function Live(ys: seq<Cycle>): nat {
    if ys == [] then 0 else One(!ys[0].imemWait && !ys[0].dmemWait) + Live(ys[1..])
  }

  function Potential(c: Machine, m: Marks): int {
    LONGEST * m.retired + LONGEST - Rank(c, m)
  }

  lemma {:induction false} RunProgresses(code: Code, s0: Arch, n: nat, c: Machine, m: Marks, ys: seq<Cycle>)
    requires TrapFree(code, s0, n) && Reach(code, c, m, ys) <= n && Inv(code, s0, c, m)
    ensures Potential(c, m) + Live(ys) <= Potential(Run(code, c, ys), MarksAfter(code, c, m, ys))
    decreases ys
  {
    hide After, TrapFree, Inv, Next, Track, LinesOf, FetchAt, Rank;
    if ys == [] {
    } else {
      var c1, m1 := Next(code, c, ys[0]), Track(m, LinesOf(c, ys[0]));
      CycleKeeps(code, s0, n, c, m, ys[0]);
      RankStep(code, s0, n, c, m, ys[0]);
      RankBound(code, s0, c, m);
      RankBound(code, s0, c1, m1);
      RunProgresses(code, s0, n, c1, m1, ys[1..]);
    }
  }

  /** From reset, k + 1 rounds of 42 wait-free cycles, however they are spread, retire more than k instructions. */
  lemma Progresses(code: Code, s0: Arch, ys: seq<Cycle>, k: nat)
    requires TrapFree(code, s0, Reach(code, Boot(s0), NO_MARKS, ys)) && Live(ys) >= LONGEST * (k + 1)
    ensures MarksAfter(code, Boot(s0), NO_MARKS, ys).retired > k
  {
    hide After, TrapFree, Inv, NO_MARKS, MarksAfter, Reach, Run, Boot, Rank, Live, FetchAt, IsaWrites, IsaStores,
         Performed;
    var c, m := Run(code, Boot(s0), ys), MarksAfter(code, Boot(s0), NO_MARKS, ys);
    BootState(code, s0);
    RankBound(code, s0, Boot(s0), NO_MARKS);
    RunKeeps(code, s0, Reach(code, Boot(s0), NO_MARKS, ys), Boot(s0), NO_MARKS, ys);
    RankBound(code, s0, c, m);
    RunProgresses(code, s0, Reach(code, Boot(s0), NO_MARKS, ys), Boot(s0), NO_MARKS, ys);
    ResetValues();
  }
}

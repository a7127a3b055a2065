/** Whole runs of the pipeline: what they do, in what order, and that they get on with it. */
module Program {
  import opened Words
  import opened Isa
  import opened Decoder
  import opened Pipeline
  import opened Refinement
  import IdStage
  import IfStage
  import ExStage
  import MemStage
  import WbStage
  import MulDiv

  function MarksAfter(code: Code, c: Machine, m: Marks, ys: seq<Cycle>): Marks
    decreases ys
  {
    if ys == [] then m else MarksAfter(code, Next(code, c, ys[0]), Track(m, LinesOf(c, ys[0])), ys[1..])
  }

  function Max(a: nat, b: nat): nat {
    if a < b then b else a
  }

  /** How many instructions of the sequential run have reached ID by the start of the last cycle. */
  function Reach(code: Code, c: Machine, m: Marks, ys: seq<Cycle>): nat
    decreases ys
  {
    if ys == [] then 0
    else Max(FetchAt(m), Reach(code, Next(code, c, ys[0]), Track(m, LinesOf(c, ys[0])), ys[1..]))
  }

  /** No more than one a cycle. */
  lemma {:induction false} ReachWithin(code: Code, c: Machine, m: Marks, ys: seq<Cycle>)
    ensures Reach(code, c, m, ys) <= FetchAt(m) + |ys|
    decreases ys
  {
    hide Next, Track, LinesOf, FetchAt;
    if ys == [] {
    } else {
      FetchAtMoves(c, m, ys[0]);
      ReachWithin(code, Next(code, c, ys[0]), Track(m, LinesOf(c, ys[0])), ys[1..]);
    }
  }

  // ----- what can be seen of a run: register writes and bus writes, in order -----

  datatype RegWrite = RegWrite(rd: Reg, value: Word)
  datatype BusStore = BusStore(addr: Word, width: Width, lanes: Word)

  function RegWriteOf(c: Machine, y: Cycle): seq<RegWrite> {
    if WbStage.Retires(c.wb, y.imemWait || y.dmemWait) && c.wb.rd != 0 then [RegWrite(c.wb.rd, WbStage.Result(c.wb))]
      else []
  }

  function BusStoreOf(c: Machine, y: Cycle): seq<BusStore> {
    if MemStage.Writes(c.mem) && !y.dmemWait then
      [BusStore(MemStage.BusAddr(c.mem), c.mem.pipe.width, c.mem.pipe.storeData)]
    else []
  }

  function RegWrites(code: Code, c: Machine, ys: seq<Cycle>): seq<RegWrite>
    decreases ys
  {
    if ys == [] then [] else RegWriteOf(c, ys[0]) + RegWrites(code, Next(code, c, ys[0]), ys[1..])
  }

  function BusStores(code: Code, c: Machine, ys: seq<Cycle>): seq<BusStore>
    decreases ys
  {
    if ys == [] then [] else BusStoreOf(c, ys[0]) + BusStores(code, Next(code, c, ys[0]), ys[1..])
  }

  // ----- the same, of the sequential run -----

  function IsaWrite(code: Code, s: Arch): seq<RegWrite> {
    var i := code(s.pc);
    if Dest(i) != 0 then [RegWrite(Dest(i), Value(i, s))] else []
  }

  function IsaStore(code: Code, s: Arch): seq<BusStore> {
    var i := code(s.pc);
    if i.Store? then
      var addr := EffectiveAddress(i, s.regs);
      [BusStore(addr, i.width, ExStage.StoreLanes(i.width, addr, Read(s.regs, i.rs2)))]
    else []
  }

  function IsaWrites(code: Code, s0: Arch, n: nat): seq<RegWrite> {
    if n == 0 then [] else IsaWrites(code, s0, n - 1) + IsaWrite(code, After(code, s0, n - 1))
  }

  function IsaStores(code: Code, s0: Arch, n: nat): seq<BusStore> {
    if n == 0 then [] else IsaStores(code, s0, n - 1) + IsaStore(code, After(code, s0, n - 1))
  }

  /** How many instructions have had their effect on memory. */
  function Performed(c: Machine, m: Marks): nat {
    if c.mem.active then MemAt(m) else ExAt(m)
  }

  lemma CycleWrites(code: Code, s0: Arch, c: Machine, m: Marks, y: Cycle)
    requires WbInv(code, s0, c, m)
    ensures IsaWrites(code, s0, m.retired) + RegWriteOf(c, y) == IsaWrites(code, s0, Track(m, LinesOf(c, y)).retired)
  {
    hide After, Value, WbStage.Result, LinesOf;
    LinesMean(c, y);
  }

  /** The operation completing on the bus is the store of the instruction in MEM, or no store at all. */
  lemma BusStoreIsIsa(code: Code, s0: Arch, n: nat, c: Machine, m: Marks, y: Cycle)
    requires TrapFree(code, s0, n) && FetchAt(m) <= n && MemInv(code, s0, c, m)
    ensures BusStoreOf(c, y) == if c.mem.active && !y.dmemWait then IsaStore(code, After(code, s0, MemAt(m))) else []
  {
    hide After, TrapFree, EffectiveAddress, Read, ExStage.StoreLanes, PipeOf, MemStage.BusAddr;
    if c.mem.active && !y.dmemWait {
      var s := After(code, s0, MemAt(m));
      PipeFields(code, s);
      AccessAligned(code, s0, n, MemAt(m));
      if code(s.pc).Store? { AlignedBusAddr(c.mem); }
    }
  }

  lemma PerformedMoves(code: Code, s0: Arch, n: nat, c: Machine, m: Marks, y: Cycle)
    requires TrapFree(code, s0, n) && FetchAt(m) <= n && Inv(code, s0, c, m)
    ensures var j := Performed(Next(code, c, y), Track(m, LinesOf(c, y)));
            && (c.mem.active && y.dmemWait ==> j == MemAt(m))
            && (!(c.mem.active && y.dmemWait) ==>
                  j == ExAt(m) || (j == ExAt(m) + 1 && !code(After(code, s0, ExAt(m)).pc).Store?))
  {
    hide After, TrapFree, RegsInv, RamInv, MdInv, ExInv, IdInv, FetchInv, WbInv, MemInv, Value, ToWb, NextFetch,
         NextId, IssueOf, NextEx, NextRegs, NextRam, MemStage.Next, LinesOf, OutOf, MemStage.PipeOf, ExStage.Output,
         ExStage.MdActive, BusData;
    LinesMean(c, y);
    BackPositions(m, LinesOf(c, y));
    MemStep(code, s0, n, c, m, y);
    OutputStep(code, s0, c, m);
    var s := After(code, s0, ExAt(m));
    PipeFields(code, s);
    PipeOfFields(OutOf(IssueOf(code, s)));
  }

  lemma CycleStores(code: Code, s0: Arch, n: nat, c: Machine, m: Marks, y: Cycle)
    requires TrapFree(code, s0, n) && FetchAt(m) <= n && Inv(code, s0, c, m)
    ensures IsaStores(code, s0, Performed(c, m)) + BusStoreOf(c, y)
         == IsaStores(code, s0, Performed(Next(code, c, y), Track(m, LinesOf(c, y))))
  {
    hide After, TrapFree, RegsInv, RamInv, MdInv, ExInv, IdInv, FetchInv, WbInv, BusStoreOf, Next, Track, LinesOf,
         PipeOf, EffectiveAddress;
    PerformedMoves(code, s0, n, c, m, y);
    BusStoreIsIsa(code, s0, n, c, m, y);
    assert c.mem.active ==> ExAt(m) == MemAt(m) + 1;
  }

  // ----- the run -----

  lemma {:induction false} RunKeeps(code: Code, s0: Arch, n: nat, c: Machine, m: Marks, ys: seq<Cycle>)
    requires TrapFree(code, s0, n) && Reach(code, c, m, ys) <= n && Inv(code, s0, c, m)
    ensures Inv(code, s0, Run(code, c, ys), MarksAfter(code, c, m, ys))
    decreases ys
  {
    hide After, TrapFree, Inv, Next, Track, LinesOf, FetchAt;
    if ys == [] {
    } else {
      CycleKeeps(code, s0, n, c, m, ys[0]);
      RunKeeps(code, s0, n, Next(code, c, ys[0]), Track(m, LinesOf(c, ys[0])), ys[1..]);
    }
  }

  lemma {:induction false} RunWrites(code: Code, s0: Arch, n: nat, c: Machine, m: Marks, ys: seq<Cycle>)
    requires TrapFree(code, s0, n) && Reach(code, c, m, ys) <= n && Inv(code, s0, c, m)
    ensures IsaWrites(code, s0, m.retired) + RegWrites(code, c, ys)
         == IsaWrites(code, s0, MarksAfter(code, c, m, ys).retired)
    decreases ys
  {
    hide After, TrapFree, Inv, IsaWrites, RegWriteOf, Next, Track, LinesOf, FetchAt;
    if ys == [] {
    } else {
      InvHasWb(code, s0, c, m);
      CycleKeeps(code, s0, n, c, m, ys[0]);
      CycleWrites(code, s0, c, m, ys[0]);
      RunWrites(code, s0, n, Next(code, c, ys[0]), Track(m, LinesOf(c, ys[0])), ys[1..]);
    }
  }

  lemma {:induction false} RunStores(code: Code, s0: Arch, n: nat, c: Machine, m: Marks, ys: seq<Cycle>)
    requires TrapFree(code, s0, n) && Reach(code, c, m, ys) <= n && Inv(code, s0, c, m)
    ensures IsaStores(code, s0, Performed(c, m)) + BusStores(code, c, ys)
         == IsaStores(code, s0, Performed(Run(code, c, ys), MarksAfter(code, c, m, ys)))
    decreases ys
  {
    hide After, TrapFree, Inv, Performed, IsaStores, BusStoreOf, Next, Track, LinesOf, FetchAt;
    if ys == [] {
    } else {
      CycleKeeps(code, s0, n, c, m, ys[0]);
      CycleStores(code, s0, n, c, m, ys[0]);
      RunStores(code, s0, n, Next(code, c, ys[0]), Track(m, LinesOf(c, ys[0])), ys[1..]);
    }
  }

  lemma InvHasWb(code: Code, s0: Arch, c: Machine, m: Marks)
    requires Inv(code, s0, c, m)
    ensures WbInv(code, s0, c, m)
  {
  }

  lemma AfterNone(code: Code, s0: Arch)
    ensures After(code, s0, 0) == s0
  {
  }

  /** What the reset values say, field by field. */
  lemma ResetValues()
    ensures var m := NO_MARKS; m.retired == 0 && !m.id && !m.ex && !m.mem && !m.wb
    ensures var x := ExStage.RESET;
            !x.trap && !x.branchPrev && !x.started && !x.doneHold && InertIssue(x.op) && UnitIdle(x.unit)
    ensures var x := MemStage.RESET; x.fault == MemStage.NoFault && InertPipe(x.pipe) && !x.active
    ensures WbStage.RESET.rd == 0 && IdStage.RESET.ir == NOP
  {
    assert ExStage.BUBBLE.ctrl == NOP_CTRL;
  }

  lemma EmptyBack(code: Code, s0: Arch, c: Machine, m: Marks)
    requires m.retired == 0 && !m.ex && !m.mem && !m.wb
    requires c.regs == s0.regs && c.ram == s0.mem && c.wb.rd == 0
    requires c.mem.fault == MemStage.NoFault && InertPipe(c.mem.pipe) && !c.mem.active
    requires !c.ex.trap && InertIssue(c.ex.op)
    ensures RegsInv(code, s0, c, m) && WbInv(code, s0, c, m) && MemInv(code, s0, c, m) && RamInv(code, s0, c, m)
    ensures ExInv(code, s0, c, m)
  {
    hide After, PipeOf, IssueOf, Value, InertIssue, InertPipe, ExStage.BranchRaw, WbStage.Result;
    AfterNone(code, s0);
  }

  lemma EmptyFront(code: Code, s0: Arch, c: Machine, m: Marks)
    requires m.retired == 0 && !m.id && !m.ex && !m.mem && !m.wb
    requires c.id.ir == NOP && c.fetch == IfStage.Reset(s0.pc)
    ensures IdInv(code, s0, c, m) && FetchInv(code, s0, c, m)
  {
    hide After, ExStage.BranchRaw, Trunc, NOP;
    AfterNone(code, s0);
  }

  lemma EmptyInv(code: Code, s0: Arch, c: Machine, m: Marks)
    requires m.retired == 0 && !m.id && !m.ex && !m.mem && !m.wb
    requires c.regs == s0.regs && c.ram == s0.mem && c.wb.rd == 0 && c.id.ir == NOP && c.fetch == IfStage.Reset(s0.pc)
    requires c.mem.fault == MemStage.NoFault && InertPipe(c.mem.pipe) && !c.mem.active
    requires !c.ex.trap && !c.ex.started && !c.ex.doneHold && InertIssue(c.ex.op) && UnitIdle(c.ex.unit)
    ensures Inv(code, s0, c, m)
  {
    hide InertIssue, InertPipe, UnitIdle, RegsInv, WbInv, MemInv, RamInv, ExInv, IdInv, FetchInv, MdInv, NOP,
         IfStage.Reset;
    EmptyBack(code, s0, c, m);
    EmptyFront(code, s0, c, m);
    IdleUnit(c.ex);
  }

  lemma IdleUnit(x: ExStage.Regs)
    requires !x.started && !x.doneHold && InertIssue(x.op) && UnitIdle(x.unit)
    ensures MdInv(x)
  {
    hide InertIssue, UnitIdle, ExStage.MdEnable;
    InertIsNoMd(x.op);
  }

  lemma ResetInv(code: Code, s0: Arch)
    ensures Inv(code, s0, Reset(s0.pc, s0.regs, s0.mem), NO_MARKS)
  {
    hide Inv, NO_MARKS, ExStage.RESET, MemStage.RESET, WbStage.RESET, IdStage.RESET, IfStage.Reset, InertIssue,
         InertPipe, UnitIdle;
    ResetValues();
    EmptyInv(code, s0, Reset(s0.pc, s0.regs, s0.mem), NO_MARKS);
  }

  lemma InertIsNoMd(o: ExStage.Issue)
    requires InertIssue(o)
    ensures !ExStage.MdEnable(o)
  {
  }

  function Boot(s0: Arch): Machine {
    Reset(s0.pc, s0.regs, s0.mem)
  }

  lemma NothingDone(code: Code, s0: Arch, c: Machine, m: Marks)
    requires !c.mem.active && m.retired == 0 && !m.id && !m.ex && !m.mem && !m.wb
    ensures FetchAt(m) == 0 && IsaWrites(code, s0, m.retired) == [] && IsaStores(code, s0, Performed(c, m)) == []
  {
  }

  lemma BootState(code: Code, s0: Arch)
    ensures Inv(code, s0, Boot(s0), NO_MARKS) && FetchAt(NO_MARKS) == 0
    ensures IsaWrites(code, s0, NO_MARKS.retired) == [] && IsaStores(code, s0, Performed(Boot(s0), NO_MARKS)) == []
  {
    hide Inv, After, IsaWrites, IsaStores, Performed, FetchAt, NO_MARKS, ExStage.RESET, MemStage.RESET, WbStage.RESET,
         IdStage.RESET;
    ResetInv(code, s0);
    ResetValues();
    NothingDone(code, s0, Boot(s0), NO_MARKS);
  }

  lemma InvMeans(code: Code, s0: Arch, c: Machine, m: Marks)
    requires Inv(code, s0, c, m)
    ensures m.retired <= Performed(c, m) <= m.retired + 2
    ensures c.regs == After(code, s0, m.retired).regs && c.ram == After(code, s0, Performed(c, m)).mem
  {
    hide After, WbInv, MemInv, ExInv, MdInv, IdInv, FetchInv;
  }

  /**
   * For every program, every initial state and every schedule of fetch and data waits, as long as no instruction
   * that has reached ID traps in the sequential run: the registers are those
   * of executing the retired instructions one at a time, the memory is that of executing the performed ones, and
   * the register writes and the bus writes of the run are exactly theirs, each once and in program order.
   */
  lemma Refines(code: Code, s0: Arch, ys: seq<Cycle>)
    requires TrapFree(code, s0, Reach(code, Boot(s0), NO_MARKS, ys))
    ensures var c, m := Run(code, Boot(s0), ys), MarksAfter(code, Boot(s0), NO_MARKS, ys);
            && m.retired <= Performed(c, m) <= m.retired + 2
            && c.regs == After(code, s0, m.retired).regs
            && c.ram == After(code, s0, Performed(c, m)).mem
            && RegWrites(code, Boot(s0), ys) == IsaWrites(code, s0, m.retired)
            && BusStores(code, Boot(s0), ys) == IsaStores(code, s0, Performed(c, m))
  {
    hide After, TrapFree, Inv, NO_MARKS, MarksAfter, Reach, Run, RegWrites, BusStores, IsaWrites, IsaStores,
         Performed, Boot;
    BootState(code, s0);
    RunKeeps(code, s0, Reach(code, Boot(s0), NO_MARKS, ys), Boot(s0), NO_MARKS, ys);
    RunWrites(code, s0, Reach(code, Boot(s0), NO_MARKS, ys), Boot(s0), NO_MARKS, ys);
    RunStores(code, s0, Reach(code, Boot(s0), NO_MARKS, ys), Boot(s0), NO_MARKS, ys);
    InvMeans(code, s0, Run(code, Boot(s0), ys), MarksAfter(code, Boot(s0), NO_MARKS, ys));
  }
}

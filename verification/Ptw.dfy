/** The page table walker (rtl/core/friscv_ptw.sv) in its Sv32 geometry, without PMP checks of the walk. */
module Ptw {
  import opened Words
  import opened Sv32

  datatype State = Idle | Read | Decode | Fill | PageFault | AccessFault

  datatype Regs = Regs(state: State, pte: Pte, level: nat, satp: Satp, itlbMiss: bool, dtlbMiss: bool, va: Word,
                       isWrite: bool)

  datatype In = In(satp: Satp, itlbMiss: bool, dtlbMiss: bool, va: Word, isWrite: bool, wait: bool, rdata: Word,
                   err: bool)

  const ROOT_PERM: Perm := Perm(false, false, false, false, false, false, false, true)
  const RESET: Regs :=
    Regs(Idle, Pte(0, Perm(false, false, false, false, false, false, false, false)), 0, Satp(false, 0, 0), false,
         false, 0, false)

  // ----- combinational -----

  predicate Malformed(p: Perm) {
    !p.v || (p.w && !p.r)
  }

  predicate IsLeaf(p: Perm) {
    p.r || p.x
  }

  predicate StartWalk(r: Regs, i: In) {
    i.satp.mode && r.state == Idle && (i.itlbMiss || i.dtlbMiss)
  }

  predicate Descends(r: Regs) {
    r.state == Decode && !Malformed(r.pte.perm) && !IsLeaf(r.pte.perm)
    && !(r.pte.perm.d || r.pte.perm.a || r.pte.perm.u) && r.level != 0
  }

  function EffPpn(r: Regs, i: In): Ppn {
    if StartWalk(r, i) then i.satp.ppn else r.pte.ppn
  }

  function EffVa(r: Regs, i: In): Word {
    if StartWalk(r, i) then i.va else r.va
  }

  function EffLevel(r: Regs, i: In): nat {
    if StartWalk(r, i) then 1 else if Descends(r) then r.level - 1 else r.level
  }

  function WalkAddr(r: Regs, i: In): Word {
    PteAddr(EffPpn(r, i), EffVa(r, i), EffLevel(r, i))
  }

  /** The upper two bits of a 22-bit frame number, which a 32-bit address cannot hold. */
  predicate OutOfReach(ppn: Ppn) {
    ppn / 0x10_0000 != 0
  }

  predicate Oob(r: Regs, i: In) {
    OutOfReach(EffPpn(r, i))
  }

  function NextState(r: Regs, i: In): State {
    match r.state
    case Idle => if StartWalk(r, i) then (if Oob(r, i) then AccessFault else Read) else Idle
    case Read => if i.wait then Read else if i.err then Idle else Decode
    case Decode =>
      if Malformed(r.pte.perm) then PageFault
      else if IsLeaf(r.pte.perm) then
        (if r.level != 0 && r.pte.ppn % 1024 != 0 then PageFault else if Oob(r, i) then AccessFault else Fill)
      else if !Descends(r) then PageFault
      else if Oob(r, i) then AccessFault
      else Read
    case Fill => Idle
    case PageFault => Idle
    case AccessFault => Idle
  }

  /** The bus is asked one cycle before the read state samples it. */
  predicate WalkEn(r: Regs, i: In) {
    r.state == Read || NextState(r, i) == Read
  }

  predicate Stall(r: Regs, i: In) {
    match r.state
    case Idle => StartWalk(r, i)
    case Read => !(!i.wait && i.err)
    case Decode => true
    case Fill => true
    case PageFault => false
    case AccessFault => false
  }

  predicate Fills(r: Regs) {
    r.state == Fill
  }

  predicate Faults(r: Regs, kind: Kind) {
    r.state == PageFault &&
    match kind
    case Fetch => r.itlbMiss
    case Load => r.dtlbMiss && !r.isWrite
    case Store => r.dtlbMiss && r.isWrite
  }

  // ----- the clock edge -----

  function Next(r: Regs, i: In): Regs {
    if StartWalk(r, i) then
      Regs(NextState(r, i), Pte(i.satp.ppn, ROOT_PERM), 1, i.satp, i.itlbMiss, i.dtlbMiss, i.va, i.isWrite)
    else
      r.(state := NextState(r, i),
         pte := if r.state == Read && !i.wait then PteOf(i.rdata) else r.pte,
         level := if Descends(r) then r.level - 1 else r.level)
  }

  class Walker {
    var state: State
    var pte: Pte
    var level: nat
    var satp: Satp
    var itlbMiss: bool
    var dtlbMiss: bool
    var va: Word
    var isWrite: bool

    function Value(): Regs
      reads this
    {
      Regs(state, pte, level, satp, itlbMiss, dtlbMiss, va, isWrite)
    }

    constructor ()
      ensures Value() == RESET
    {
      state, level, va, isWrite, itlbMiss, dtlbMiss := Idle, 0, 0, false, false, false;
      pte := Pte(0, Perm(false, false, false, false, false, false, false, false));
      satp := Satp(false, 0, 0);
    }

    method Clock(i: In)
      modifies this
      ensures Value() == Next(old(Value()), i)
    {
      var start := i.satp.mode && state == Idle && (i.itlbMiss || i.dtlbMiss);
      var oob := OutOfReach(if start then i.satp.ppn else pte.ppn);
      var descend := false;
      var next := state;
      match state {
        case Idle =>
          if start { next := if oob then AccessFault else Read; }
        case Read =>
          if !i.wait { next := if i.err then Idle else Decode; }
        case Decode =>
          if !pte.perm.v || (pte.perm.w && !pte.perm.r) {
            next := PageFault;
          } else if pte.perm.r || pte.perm.x {
            next := if level != 0 && pte.ppn % 1024 != 0 then PageFault else if oob then AccessFault else Fill;
          } else if pte.perm.d || pte.perm.a || pte.perm.u || level == 0 {
            next := PageFault;
          } else {
            descend := true;
            next := if oob then AccessFault else Read;
          }
        case Fill => next := Idle;
        case PageFault => next := Idle;
        case AccessFault => next := Idle;
      }
      if start {
        pte, level, satp := Pte(i.satp.ppn, ROOT_PERM), 1, i.satp;
        itlbMiss, dtlbMiss, va, isWrite := i.itlbMiss, i.dtlbMiss, i.va, i.isWrite;
      } else if state == Read && !i.wait {
        pte := PteOf(i.rdata);
      } else if descend {
        level := level - 1;
      }
      state := next;
    }
  }

  // ----- what is left of the walk -----

  /** The outcome of the specification's walk from where the walker stands. */
  function Rest(table: Table, r: Regs): Outcome {
    match r.state
    case Idle => Failed
    case Read => FromTable(table, r.pte.ppn, r.va, r.level)
    case Decode => FromPte(table, r.pte, r.va, r.level)
    case Fill => Leaf(r.pte.ppn, r.pte.perm, r.level)
    case PageFault => Invalid
    case AccessFault => Unreachable
  }

  /** The memory answers the address on the bus when it does not wait. */
  predicate Honest(table: Table, r: Regs, i: In) {
    r.state == Read && !i.wait ==> table(WalkAddr(r, i)) == if i.err then BusError else Fine(i.rdata)
  }

  predicate Sound(r: Regs) {
    && r.level <= 1
    && (r.state == Read ==> Reachable(r.pte.ppn))
  }

  /** States still to pass, outside waits. */
  function Steps(r: Regs): nat {
    match r.state
    case Idle => 0
    case Read => 2 * r.level + 3
    case Decode => 2 * r.level + 2
    case Fill => 1
    case PageFault => 1
    case AccessFault => 1
  }

  /** What the walker reports in a cycle. */
  function Report(r: Regs, i: In): seq<Outcome> {
    match r.state
    case Idle => []
    case Read => if !i.wait && i.err then [Failed] else []
    case Decode => []
    case Fill => [Leaf(r.pte.ppn, r.pte.perm, r.level)]
    case PageFault => [Invalid]
    case AccessFault => [Unreachable]
  }

  lemma StartSteps(table: Table, r: Regs, i: In)
    requires StartWalk(r, i)
    ensures var r' := Next(r, i);
            && r'.state != Idle && Sound(r') && Rest(table, r') == Walk(table, i.satp.ppn, i.va) && Steps(r') <= 5
            && r'.va == i.va && r'.itlbMiss == i.itlbMiss && r'.dtlbMiss == i.dtlbMiss && r'.isWrite == i.isWrite
            && r'.satp == i.satp
  {
    hide FromPte, PteAddr;
  }

  /** One cycle either reports the walk's outcome and rests, or gets closer to it without changing it. */
  lemma StepKeepsRest(table: Table, r: Regs, i: In)
    requires r.state != Idle && Sound(r) && Honest(table, r, i)
    ensures var r' := Next(r, i);
            && Sound(r')
            && r'.va == r.va && r'.itlbMiss == r.itlbMiss && r'.dtlbMiss == r.dtlbMiss && r'.isWrite == r.isWrite
            && r'.satp == r.satp
            && (if r'.state == Idle then Report(r, i) == [Rest(table, r)]
                else Report(r, i) == [] && Rest(table, r') == Rest(table, r))
            && (if r.state == Read && i.wait then Steps(r') == Steps(r) else Steps(r') < Steps(r))
  {
    hide PteAddr, PteOf;
  }

  /** From the cycle before the read until it completes, the walk drives one address. */
  lemma AddressStable(r: Regs, i: In, i': In)
    requires NextState(r, i) == Read
    ensures WalkEn(r, i) && WalkEn(Next(r, i), i') && WalkAddr(Next(r, i), i') == WalkAddr(r, i)
  {
    hide PteAddr;
  }

  // ----- whole walks -----

  function RunWalk(r: Regs, ins: seq<In>): Regs
    decreases ins
  {
    if ins == [] || r.state == Idle then r else RunWalk(Next(r, ins[0]), ins[1..])
  }

  function Reports(r: Regs, ins: seq<In>): seq<Outcome>
    decreases ins
  {
    if ins == [] || r.state == Idle then [] else Report(r, ins[0]) + Reports(Next(r, ins[0]), ins[1..])
  }

  ghost predicate HonestRun(table: Table, r: Regs, ins: seq<In>)
    decreases ins
  {
    ins == [] || (Honest(table, r, ins[0]) && HonestRun(table, Next(r, ins[0]), ins[1..]))
  }

  function Ready(ins: seq<In>): nat {
    if ins == [] then 0 else (if ins[0].wait then 0 else 1) + Ready(ins[1..])
  }

  lemma {:induction false} RunReportsRest(table: Table, r: Regs, ins: seq<In>)
    requires r.state != Idle && Sound(r) && HonestRun(table, r, ins)
    ensures if RunWalk(r, ins).state == Idle then Reports(r, ins) == [Rest(table, r)] else Reports(r, ins) == []
    ensures Ready(ins) >= Steps(r) ==> RunWalk(r, ins).state == Idle
    decreases ins
  {
    hide Next, Report, Rest, Sound, Honest, Steps;
    if ins == [] {
      assert Steps(r) > 0 by { BusyHasSteps(r); }
    } else {
      var r1 := Next(r, ins[0]);
      StepKeepsRest(table, r, ins[0]);
      if r1.state == Idle {
        assert RunWalk(r1, ins[1..]) == r1 && Reports(r1, ins[1..]) == [];
      } else {
        RunReportsRest(table, r1, ins[1..]);
      }
    }
  }

  lemma BusyHasSteps(r: Regs)
    requires r.state != Idle
    ensures Steps(r) > 0
  {
  }

  /**
   * For every page table and every wait schedule: a walk reports nothing until it ends, ends after at most five
   * cycles without a wait, and then reports, once, the outcome of the specification's walk.
   */
  lemma Walks(table: Table, r: Regs, start: In, ins: seq<In>)
    requires StartWalk(r, start) && HonestRun(table, Next(r, start), ins)
    ensures var r1 := Next(r, start);
            && (RunWalk(r1, ins).state == Idle ==> Reports(r1, ins) == [Walk(table, start.satp.ppn, start.va)])
            && (RunWalk(r1, ins).state != Idle ==> Reports(r1, ins) == [])
            && (Ready(ins) >= 5 ==> RunWalk(r1, ins).state == Idle)
  {
    hide Next, Report, Rest, Sound, Honest, Steps, Walk, StartWalk;
    StartSteps(table, r, start);
    RunReportsRest(table, Next(r, start), ins);
  }
}

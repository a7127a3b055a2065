/** The atomic memory operation unit (rtl/core/friscv_amo_unit.sv). */
module AmoUnit {
  import opened Words
  import opened Decoder
  import Isa
  import ExStage

  datatype State = Idle | Load | Store

  datatype Regs = Regs(state: State, loadData: Word, op: AmoOp, rs2: Word)

  datatype In = In(op: AmoOp, rs2: Word, wait: bool, err: bool, data: Word)

  datatype Rw = RwIdle | RwRead | RwWrite

  const RESET: Regs := Regs(Idle, 0, AmoNone, 0)

  // ----- outputs -----

  predicate LoadCompletes(r: Regs, i: In) {
    r.state == Load && !i.wait
  }

  function CoreData(r: Regs, i: In): Word {
    if LoadCompletes(r, i) then i.data else r.loadData
  }

  predicate CoreWait(r: Regs, i: In) {
    || (r.state == Idle && i.op != AmoNone)
    || (r.state == Load && !i.err)
    || (r.state == Store && i.wait)
  }

  function Bus(r: Regs, i: In): Rw {
    match r.state
    case Idle => if i.op != AmoNone then RwRead else RwIdle
    case Load => RwRead
    case Store => RwWrite
  }

  function StoreData(r: Regs): Word {
    match r.op
    case AmoNone => r.loadData
    case AmoSwap => r.rs2
    case AmoAdd => Trunc(r.loadData + r.rs2)
    case AmoXor => Gated(XorGate, r.loadData, r.rs2)
    case AmoAnd => Gated(AndGate, r.loadData, r.rs2)
    case AmoOr => Gated(OrGate, r.loadData, r.rs2)
    case AmoMin => if Signed(r.loadData) < Signed(r.rs2) then r.loadData else r.rs2
    case AmoMax => if Signed(r.loadData) > Signed(r.rs2) then r.loadData else r.rs2
    case AmoMinu => if r.loadData < r.rs2 then r.loadData else r.rs2
    case AmoMaxu => if r.loadData > r.rs2 then r.loadData else r.rs2
  }

  // ----- the clock edge -----

  function NextState(r: Regs, i: In): State {
    match r.state
    case Idle => if i.op != AmoNone then Load else Idle
    case Load => if i.wait then Load else if i.err then Idle else Store
    case Store => if i.wait then Store else Idle
  }

  function Next(r: Regs, i: In): Regs {
    var starts := r.state == Idle && i.op != AmoNone;
    Regs(NextState(r, i),
         if LoadCompletes(r, i) then i.data else r.loadData,
         if NextState(r, i) == Idle then AmoNone else if starts then i.op else r.op,
         if starts then i.rs2 else r.rs2)
  }

  class Unit {
    var state: State
    var loadData: Word
    var op: AmoOp
    var rs2: Word

    function Value(): Regs
      reads this
    {
      Regs(state, loadData, op, rs2)
    }

    constructor ()
      ensures Value() == RESET
    {
      state, loadData, op, rs2 := Idle, 0, AmoNone, 0;
    }

    method Clock(i: In)
      modifies this
      ensures Value() == Next(old(Value()), i)
    {
      if state == Idle && i.op != AmoNone {
        op, rs2 := i.op, i.rs2;
      }
      if state == Load && !i.wait {
        loadData := i.data;
      }
      match state {
        case Idle =>
          if i.op != AmoNone { state := Load; }
        case Load =>
          if !i.wait { state := if i.err then Idle else Store; }
        case Store =>
          if !i.wait { state := Idle; }
      }
      if state == Idle { op := AmoNone; }
    }
  }

  // ----- the specification: RISC-V Unprivileged ISA, section 8.4 -----

  /** What an atomic operation writes, from the old memory word and the source register. */
  function Result(op: AmoOp, mem: Word, rs2: Word): Word
    requires op != AmoNone
  {
    match op
    case AmoSwap => rs2
    case AmoAdd => Isa.Alu(Isa.Add, mem, rs2)
    case AmoXor => Isa.Alu(Isa.Xor, mem, rs2)
    case AmoAnd => Isa.Alu(Isa.And, mem, rs2)
    case AmoOr => Isa.Alu(Isa.Or, mem, rs2)
    case AmoMin => if Isa.Taken(Isa.Lt, rs2, mem) then rs2 else mem
    case AmoMax => if Isa.Taken(Isa.Lt, mem, rs2) then rs2 else mem
    case AmoMinu => if Isa.Taken(Isa.Ltu, rs2, mem) then rs2 else mem
    case AmoMaxu => if Isa.Taken(Isa.Ltu, mem, rs2) then rs2 else mem
  }

  lemma SignedInjective(a: Word, b: Word)
    ensures Signed(a) == Signed(b) ==> a == b
  {
  }

  lemma StoreDataIsResult(r: Regs)
    requires r.op != AmoNone
    ensures StoreData(r) == Result(r.op, r.loadData, r.rs2)
  {
    hide Isa.Alu, Gated;
    SumIsAlu(r.loadData, r.rs2);
    match r.op
    case AmoXor => ExStage.GatesAreLogic(Isa.Xor, r.loadData, r.rs2);
    case AmoAnd => ExStage.GatesAreLogic(Isa.And, r.loadData, r.rs2);
    case AmoOr => ExStage.GatesAreLogic(Isa.Or, r.loadData, r.rs2);
    case _ =>
    SignedInjective(r.loadData, r.rs2);
  }

  lemma SumIsAlu(a: Word, b: Word)
    ensures Isa.Alu(Isa.Add, a, b) == Trunc(a + b)
  {
  }

  // ----- whole runs -----

  /** What happens at the memory and at the core in a cycle. */
  datatype Event = Started(op: AmoOp, rs2: Word) | Loaded(word: Word) | Failed | Stored(value: Word, returned: Word)

  function EventOf(r: Regs, i: In): seq<Event> {
    match r.state
    case Idle => if i.op != AmoNone then [Started(i.op, i.rs2)] else []
    case Load => if i.wait then [] else if i.err then [Failed] else [Loaded(i.data)]
    case Store => if i.wait then [] else [Stored(StoreData(r), CoreData(r, i))]
  }

  function Events(r: Regs, ins: seq<In>): seq<Event>
    decreases ins
  {
    if ins == [] then [] else EventOf(r, ins[0]) + Events(Next(r, ins[0]), ins[1..])
  }

  datatype Phase = Free | Reading(op: AmoOp, rs2: Word) | Writing(op: AmoOp, rs2: Word, word: Word)

  /** One read, then one write of the result of the operands frozen at the start; no write after a failed read. */
  predicate Atomic(p: Phase, events: seq<Event>)
    decreases events
  {
    if events == [] then true
    else match (p, events[0])
      case (Free, Started(op, rs2)) => op != AmoNone && Atomic(Reading(op, rs2), events[1..])
      case (Reading(op, rs2), Loaded(word)) => Atomic(Writing(op, rs2, word), events[1..])
      case (Reading(_, _), Failed) => Atomic(Free, events[1..])
      case (Writing(op, rs2, word), Stored(value, returned)) =>
        op != AmoNone && value == Result(op, word, rs2) && returned == word && Atomic(Free, events[1..])
      case _ => false
  }

  function PhaseOf(r: Regs): Phase {
    match r.state
    case Idle => Free
    case Load => Reading(r.op, r.rs2)
    case Store => Writing(r.op, r.rs2, r.loadData)
  }

  predicate Valid(r: Regs) {
    r.state != Idle ==> r.op != AmoNone
  }

  lemma StepIsAtomic(r: Regs, i: In, more: seq<Event>)
    requires Valid(r) && Atomic(PhaseOf(Next(r, i)), more)
    ensures Valid(Next(r, i)) && Atomic(PhaseOf(r), EventOf(r, i) + more)
  {
    hide Result, StoreData;
    if r.op != AmoNone { StoreDataIsResult(r); }
    var e := EventOf(r, i);
    assert (e + more)[|e|..] == more;
    if e == [] { assert e + more == more; }
  }

  /** For every sequence of requests, waits and errors. */
  lemma {:induction false} RunIsAtomic(r: Regs, ins: seq<In>)
    requires Valid(r)
    ensures Atomic(PhaseOf(r), Events(r, ins))
    decreases ins
  {
    hide Next, EventOf, PhaseOf, Valid;
    if ins == [] {
    } else {
      StepValid(r, ins[0]);
      RunIsAtomic(Next(r, ins[0]), ins[1..]);
      StepIsAtomic(r, ins[0], Events(Next(r, ins[0]), ins[1..]));
    }
  }

  lemma StepValid(r: Regs, i: In)
    requires Valid(r)
    ensures Valid(Next(r, i))
  {
  }

  /**
   * With errors only in cycles without wait, the core is released exactly when the write completes or the read
   * fails; and the bus carries a write exactly while one is under way, and nothing exactly when nothing is asked.
   */
  lemma ReleasedAtTheEnd(r: Regs, i: In)
    requires i.err ==> !i.wait
    ensures !CoreWait(r, i) <==>
              (r.state == Idle && i.op == AmoNone) || EventOf(r, i) == [Failed]
                || (r.state == Store && EventOf(r, i) != [])
    ensures Bus(r, i) == RwWrite <==> PhaseOf(r).Writing?
    ensures Bus(r, i) == RwIdle <==> PhaseOf(r).Free? && EventOf(r, i) == []
  {
  }

  /** An error raised together with wait releases the core while the read is still under way, and only that does. */
  lemma EarlyErrorReleases(r: Regs, i: In)
    requires r.state != Idle || i.op != AmoNone
    ensures !CoreWait(r, i) && NextState(r, i) != Idle <==> r.state == Load && i.wait && i.err
  {
  }

  /** While the write waits, its data, whatever the request inputs do, does not change. */
  lemma {:induction false} WriteHeld(r: Regs, waits: seq<In>)
    requires r.state == Store && forall k :: 0 <= k < |waits| ==> waits[k].wait
    ensures var r' := Run(r, waits); r'.state == Store && StoreData(r') == StoreData(r)
    decreases waits
  {
    hide StoreData;
    if waits == [] {
    } else {
      WriteHeld(Next(r, waits[0]), waits[1..]);
    }
  }

  function Run(r: Regs, ins: seq<In>): Regs
    decreases ins
  {
    if ins == [] then r else Run(Next(r, ins[0]), ins[1..])
  }
}

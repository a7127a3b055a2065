/** Load-reserved and store-conditional in the memory stage, over whole runs. */
module Reservation {
  import opened Words
  import opened Wrappers
  import opened Isa
  import opened Decoder
  import opened MemStage
  import ExStage

  /** What has happened to the reservation, oldest first. */
  datatype Event = Lr(addr: Word) | Sc(addr: Word) | Trap

  /** The reservation in force: a successful SC uses it up, a failing one leaves it. */
  function Reserved(h: seq<Event>): Option<Word> {
    if h == [] then None
    else match h[|h| - 1]
      case Lr(a) => Some(a)
      case Trap => None
      case Sc(a) => var before := Reserved(h[..|h| - 1]); if before == Some(a) then None else before
  }

  /** The LR at k reserved the address, with no trap and no SC to that address since. */
  ghost predicate HoldsSince(h: seq<Event>, a: Word, k: nat) {
    k < |h| && h[k] == Lr(a) && forall j :: k < j < |h| ==> h[j].Sc? && h[j].addr != a
  }

  ghost predicate LatestLrHolds(h: seq<Event>, a: Word) {
    exists k: nat :: HoldsSince(h, a, k)
  }

  lemma HoldsOneMore(h: seq<Event>, a: Word, k: nat)
    requires k < |h| - 1
    ensures var p, last := h[..|h| - 1], h[|h| - 1];
            HoldsSince(h, a, k) <==> last.Sc? && last.addr != a && HoldsSince(p, a, k)
  {
    var n, p := |h| - 1, h[..|h| - 1];
    assert forall j :: 0 <= j < n ==> p[j] == h[j];
  }

  lemma LatestLrStep(h: seq<Event>, a: Word)
    requires h != []
    ensures var p, last := h[..|h| - 1], h[|h| - 1];
            LatestLrHolds(h, a) <==> last == Lr(a) || (last.Sc? && last.addr != a && LatestLrHolds(p, a))
  {
    var n, p := |h| - 1, h[..|h| - 1];
    assert HoldsSince(h, a, n) <==> h[n] == Lr(a);
    assert forall k: nat :: HoldsSince(h, a, k) ==> k <= n;
    assert forall k: nat :: HoldsSince(p, a, k) ==> k < n;
    hide HoldsSince;
    forall k: nat | k < n
      ensures HoldsSince(h, a, k) <==> h[n].Sc? && h[n].addr != a && HoldsSince(p, a, k)
    {
      HoldsOneMore(h, a, k);
    }
  }

  lemma {:induction false} ReservedIsLatestLr(h: seq<Event>, a: Word)
    ensures Reserved(h) == Some(a) <==> LatestLrHolds(h, a)
  {
    if h == [] {
    } else {
      hide LatestLrHolds;
      ReservedIsLatestLr(h[..|h| - 1], a);
      LatestLrStep(h, a);
    }
  }

  // ----- the memory stage's run -----

  /** The instruction in EX is taken into MEM, not displaced by a fault. */
  predicate Accepts(r: Regs, i: In) {
    && !i.trapCommit && r.fault == NoFault && !i.stall
    && !(r.active && (PageFault(i) || (!i.wait && Faulty(r, i)))) && !Rejected(i.ex)
  }

  function EventOf(r: Regs, i: In): seq<Event> {
    if i.trapCommit then [Trap]
    else if !Accepts(r, i) then []
    else if i.ex.reserve then [Lr(i.ex.aluData)]
    else if i.ex.conditional then [Sc(i.ex.aluData)]
    else []
  }

  function Run(r: Regs, ins: seq<In>): Regs
    decreases ins
  {
    if ins == [] then r else Run(Next(r, ins[0]), ins[1..])
  }

  function History(r: Regs, h: seq<Event>, ins: seq<In>): seq<Event>
    decreases ins
  {
    if ins == [] then h else History(Next(r, ins[0]), h + EventOf(r, ins[0]), ins[1..])
  }

  /** Whether an SC at the end of the history found its reservation. */
  predicate Succeeded(h: seq<Event>) {
    |h| > 0 && h[|h| - 1].Sc? && Reserved(h[..|h| - 1]) == Some(h[|h| - 1].addr)
  }

  predicate Inv(r: Regs, h: seq<Event>) {
    r.fault == NoFault ==>
      && Reserved(h) == (if r.reserveValid then Some(r.reserveAddr) else None)
      && (r.pipe.conditional ==>
            && |h| > 0 && h[|h| - 1] == Sc(r.pipe.aluData)
            && r.condValid == Succeeded(h)
            && (r.scResValid ==> r.scRes == !r.condValid))
  }

  /** The reservation is cleared with a trap commit only (rtl/core/friscv_datapath.sv:512). */
  predicate Wired(i: In) {
    i.clearReserve ==> i.trapCommit
  }

  /** LR and SC exclude each other. */
  predicate OneKind(i: In) {
    !(i.ex.reserve && i.ex.conditional)
  }

  lemma InvKept(r: Regs, h: seq<Event>, i: In)
    requires Inv(r, h) && Wired(i) && OneKind(i)
    ensures Inv(Next(r, i), h + EventOf(r, i))
  {
    hide MisalignedIn, Expand;
    var e := EventOf(r, i);
    if e == [] {
      assert h + e == h;
    } else {
      assert (h + e)[..|h|] == h && (h + e)[|h|] == e[0];
    }
  }

  lemma {:induction false} RunKeeps(r: Regs, h: seq<Event>, ins: seq<In>)
    requires Inv(r, h) && forall k :: 0 <= k < |ins| ==> Wired(ins[k]) && OneKind(ins[k])
    ensures Inv(Run(r, ins), History(r, h, ins))
    decreases ins
  {
    hide Inv, Next, EventOf, Wired, OneKind;
    if ins == [] {
    } else {
      InvKept(r, h, ins[0]);
      RunKeeps(Next(r, ins[0]), h + EventOf(r, ins[0]), ins[1..]);
    }
  }

  /**
   * After any run from reset: the SC in MEM drives a write, and returns 0, exactly when the latest LR before it
   * reserved its address with no successful SC and no trap since; otherwise it drives none and returns 1.
   */
  lemma ScOutcome(ins: seq<In>)
    requires forall k :: 0 <= k < |ins| ==> Wired(ins[k]) && OneKind(ins[k])
    ensures var r, h := Run(RESET, ins), History(RESET, [], ins);
            r.fault == NoFault && r.pipe.conditional ==>
              && |h| > 0 && h[|h| - 1] == Sc(r.pipe.aluData)
              && var holds := LatestLrHolds(h[..|h| - 1], r.pipe.aluData);
                 && (Writes(r) <==> r.active && r.pipe.memSel == StoreMem && holds)
                 && ScOut(r) == if holds then 0 else 1
  {
    hide Run, History, LatestLrHolds;
    var r, h := Run(RESET, ins), History(RESET, [], ins);
    RunKeeps(RESET, [], ins);
    if |h| > 0 { ReservedIsLatestLr(h[..|h| - 1], r.pipe.aluData); }
  }

  /**
   * An SC taken into MEM uses the reservation up exactly when it finds it; a failing one leaves register and address
   * as they were.
   */
  lemma ScKeepsOrUses(r: Regs, h: seq<Event>, i: In)
    requires Inv(r, h) && Accepts(r, i) && Wired(i) && i.ex.conditional && !i.ex.reserve
    ensures var r', found := Next(r, i), r.reserveValid && r.reserveAddr == i.ex.aluData;
            && (r'.reserveValid <==> r.reserveValid && !found) && r'.reserveAddr == r.reserveAddr
            && r'.pipe.conditional && r'.condValid == found
  {
    hide MisalignedIn, FaultOf, Expand, MisalignedKind;
  }

  // ----- a reservation that survives a failing SC -----

  /** A word-sized LR or SC leaving EX. */
  function Atomic(conditional: bool, addr: Word): ExStage.Out {
    ExStage.Out(0, 0, addr, 0, 0, if conditional then StoreMem else LoadMem, I32,
                if conditional then ScRes else MemData, !conditional, conditional, AmoNone, true)
  }

  /** Nothing waits, nothing faults. */
  function Taking(ex: ExStage.Out): In {
    In(false, false, false, false, ex, false, false, 0, false, false, 0)
  }

  lemma FreeStep(r: Regs, ex: ExStage.Out)
    requires r.fault == NoFault && !r.pipe.misaligned && Aligned(ex.aluData, ex.width)
    ensures var r' := Next(r, Taking(ex));
            && r'.fault == NoFault && !r'.pipe.misaligned && r'.pipe.conditional == ex.conditional
            && r'.condValid == CondValid(r, ex) && (Writes(r') <==> ex.memSel == StoreMem && CondValid(r, ex))
            && (ex.reserve ==> r'.reserveValid && r'.reserveAddr == ex.aluData)
            && (!ex.reserve && ex.conditional ==>
                  r'.reserveValid == (r.reserveValid && !CondValid(r, ex)) && r'.reserveAddr == r.reserveAddr)
  {
    hide Aligned, FaultOf, Expand, MisalignedKind, CondValid;
  }

  /**
   * LR to one word, SC to another, SC to the first: section 8.2 of the Unprivileged ISA has the first SC end the
   * reservation, so the second must fail; here it succeeds.
   */
  lemma ReservationSurvives(a: Word, b: Word)
    requires a % 4 == 0 && b % 4 == 0 && a != b
    ensures var r1 := Next(RESET, Taking(Atomic(false, a)));
            var r2 := Next(r1, Taking(Atomic(true, b)));
            var r3 := Next(r2, Taking(Atomic(true, a)));
            && !Writes(r2) && ScOut(r2) == 1 && Writes(r3) && ScOut(r3) == 0
  {
    hide Next, RESET;
    ResetIsFree();
    var r1 := Next(RESET, Taking(Atomic(false, a)));
    FreeStep(RESET, Atomic(false, a));
    FreeStep(r1, Atomic(true, b));
    var r2 := Next(r1, Taking(Atomic(true, b)));
    FreeStep(r2, Atomic(true, a));
    FreshScOut(r1, Atomic(true, b));
    FreshScOut(r2, Atomic(true, a));
  }

  lemma FreshScOut(r: Regs, ex: ExStage.Out)
    requires r.fault == NoFault && !r.pipe.misaligned && Aligned(ex.aluData, ex.width)
    ensures ScOut(Next(r, Taking(ex))) == if CondValid(r, ex) then 0 else 1
  {
    hide Aligned, FaultOf, Expand, MisalignedKind, CondValid;
  }

  lemma ResetIsFree()
    ensures RESET.fault == NoFault && !RESET.pipe.misaligned && !RESET.pipe.conditional
  {
  }

  // ----- how often it writes -----

  /** Conditional stores the memory completes. */
  function ScWrites(r: Regs, ins: seq<In>): nat
    decreases ins
  {
    if ins == [] then 0
    else (if r.pipe.conditional && Writes(r) && !ins[0].wait then 1 else 0) + ScWrites(Next(r, ins[0]), ins[1..])
  }

  /** The instruction in MEM stays under a stall, without fault or trap. */
  predicate Stays(r: Regs, i: In) {
    i.stall && !i.trapCommit && !Faulty(r, i)
  }

  lemma StaysSame(r: Regs, i: In)
    requires r.fault == NoFault && Stays(r, i)
    ensures var r' := Next(r, i);
            r'.fault == NoFault && r'.pipe == r.pipe && r'.condValid == r.condValid && r'.active == (r.active && i.wait)
  {
    hide Expand;
  }

  /**
   * From its acceptance to the cycle it leaves MEM, an SC that found its reservation performs exactly one write, and
   * any other none, however long the bus waits and MEM is stalled.
   */
  lemma {:induction false} WritesExactlyOnce(r: Regs, stays: seq<In>, last: In)
    requires r.fault == NoFault && r.pipe.conditional && r.pipe.memSel == StoreMem
    requires (forall k :: 0 <= k < |stays| ==> stays[k].stall && !stays[k].trapCommit && !Faulty(r, stays[k]))
             && !last.wait
    ensures ScWrites(r, stays + [last]) == if r.active && r.condValid then 1 else 0
    decreases stays
  {
    hide Next;
    var all := stays + [last];
    if stays == [] {
      assert all == [last] && all[1..] == [];
    } else {
      var r' := Next(r, stays[0]);
      StaysSame(r, stays[0]);
      assert all[0] == stays[0] && all[1..] == stays[1..] + [last];
      forall k | 0 <= k < |stays| - 1 ensures !Faulty(r', stays[1..][k]) { assert !Faulty(r, stays[k + 1]); }
      WritesExactlyOnce(r', stays[1..], last);
    }
  }
}

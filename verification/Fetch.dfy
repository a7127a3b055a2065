/** The fetch stage on the arbitrated bus: what reaches ID is the word at its own PC, and no PC is skipped. */
module Fetch {
  import opened Words
  import opened Isa
  import IfStage
  import Arbiter

  datatype Regs = Regs(fetch: IfStage.Regs, bus: Arbiter.Regs)

  /** What the rest of the core and the memory do in one cycle; junk is the bus when nothing completes for IF. */
  datatype Env = Env(redirect: bool, jump: bool, jumpTarget: Word, trap: bool, trapVector: Word, ret: bool, epc: Word,
                     stall: bool, dataEn: bool, data: Arbiter.Request, memWait: bool, memErr: bool, junk: Instr)

  function BusIn(r: Regs, e: Env): Arbiter.In {
    Arbiter.In(r.fetch.fetchActive, r.fetch.pc, e.dataEn, e.data, e.memWait, e.memErr)
  }

  predicate Wait(r: Regs, e: Env) {
    Arbiter.WaitOut(r.bus, BusIn(r, e), Arbiter.Inst)
  }

  /** The memory answers the command on the bus, in the cycle it does not wait. */
  function ReadData(code: Code, r: Regs, e: Env): Instr {
    if Arbiter.Done(r.bus, BusIn(r, e), Arbiter.Inst) then code(Arbiter.Bus(r.bus, BusIn(r, e)).addr) else e.junk
  }

  /** The control unit stalls ID whenever the fetch waits (rtl/core/friscv_control_unit.sv:85-152). */
  predicate Stall(r: Regs, e: Env) {
    e.stall || Wait(r, e)
  }

  function FetchIn(code: Code, r: Regs, e: Env): IfStage.In {
    IfStage.In(e.redirect, Stall(r, e), Wait(r, e), e.jump, e.jumpTarget, e.trap, e.trapVector, e.ret, e.epc,
               ReadData(code, r, e))
  }

  function Next(code: Code, r: Regs, e: Env): Regs {
    Regs(IfStage.Next(r.fetch, FetchIn(code, r, e)), Arbiter.Next(r.bus, BusIn(r, e)))
  }

  function Reset(vector: Word): Regs {
    Regs(IfStage.Reset(vector), Arbiter.RESET)
  }

  class FrontEnd {
    const stage: IfStage.Stage
    const bus: Arbiter.Unit

    function State(): Regs
      reads stage, bus
    {
      Regs(stage.State(), bus.State())
    }

    constructor (vector: Word)
      ensures State() == Reset(vector) && fresh(stage) && fresh(bus)
    {
      stage := new IfStage.Stage(vector);
      bus := new Arbiter.Unit();
    }

    method Clock(code: Code, e: Env)
      modifies stage, bus
      ensures State() == Next(code, old(State()), e)
    {
      hide IfStage.Next, Arbiter.Next, FetchIn, BusIn;
      var fetchIn, busIn := FetchIn(code, State(), e), BusIn(State(), e);
      stage.Clock(fetchIn);
      bus.Clock(busIn);
    }
  }

  // ----- what ID and the redirects see -----

  datatype Event = Redirected(target: Word) | Handed(pc: Word, word: Instr) | Discarded(word: Instr)

  /** A return outranks a trap, and a trap a jump; a bare flush fetches the same address again. */
  function TargetOf(r: Regs, e: Env): Word {
    if e.ret then e.epc else if e.trap then e.trapVector else if e.jump then e.jumpTarget else r.fetch.pc
  }

  function EventOf(code: Code, r: Regs, e: Env): seq<Event> {
    var i := FetchIn(code, r, e);
    if e.ret || e.trap || e.jump || e.redirect then [Redirected(TargetOf(r, e))]
    else if Stall(r, e) then []
    else if r.fetch.flushPending then [Discarded(IfStage.Ir(r.fetch, i))]
    else [Handed(r.fetch.pc, IfStage.Ir(r.fetch, i))]
  }

  function Events(code: Code, r: Regs, es: seq<Env>): seq<Event>
    decreases es
  {
    if es == [] then [] else EventOf(code, r, es[0]) + Events(code, Next(code, r, es[0]), es[1..])
  }

  /**
   * In order from the given PC: each word is the memory's at its PC, only redirects change the sequence, and in place
   * of a discarded fetch ID gets a NOP.
   */
  predicate InOrder(code: Code, from: Word, events: seq<Event>)
    decreases events
  {
    if events == [] then true
    else match events[0]
      case Redirected(target) => InOrder(code, target, events[1..])
      case Handed(pc, word) => pc == from && word == code(pc) && InOrder(code, Trunc(from + 4), events[1..])
      case Discarded(word) => word == NOP && InOrder(code, from, events[1..])
  }

  ghost predicate Inv(code: Code, r: Regs) {
    && (r.bus.phase == Arbiter.HoldInst ==> r.fetch.fetchActive)
    && (r.bus.phase == Arbiter.HoldInst && r.bus.instAddr != r.fetch.pc ==> r.fetch.flushPending)
    && (r.fetch.flushPending ==> r.fetch.fetchActive)
    && (!r.fetch.fetchActive ==> r.fetch.ir == code(r.fetch.pc))
  }

  /** A fetch held at an address a redirect has left is never taken for the new PC. */
  lemma InvKept(code: Code, r: Regs, e: Env)
    requires Inv(code, r)
    ensures Inv(code, Next(code, r, e))
  {
  }

  lemma EventIsInOrder(code: Code, r: Regs, e: Env, more: seq<Event>)
    requires Inv(code, r) && InOrder(code, Next(code, r, e).fetch.pc, more)
    ensures InOrder(code, r.fetch.pc, EventOf(code, r, e) + more)
  {
    var ev := EventOf(code, r, e);
    if ev == [] {
      assert ev + more == more;
    } else {
      assert (ev + more)[1..] == more;
    }
  }

  /** For any interleaving of redirects, stalls, data accesses and waits, from reset on. */
  lemma {:induction false} HandsOverInOrder(code: Code, r: Regs, es: seq<Env>)
    requires Inv(code, r)
    ensures InOrder(code, r.fetch.pc, Events(code, r, es))
    decreases es
  {
    hide Next, Inv, EventOf;
    if es == [] {
    } else {
      InvKept(code, r, es[0]);
      HandsOverInOrder(code, Next(code, r, es[0]), es[1..]);
      EventIsInOrder(code, r, es[0], Events(code, Next(code, r, es[0]), es[1..]));
    }
  }

  // ----- no word is fetched twice -----

  function One(b: bool): nat {
    if b then 1 else 0
  }

  /** Cycles in which a word is handed over, or a redirect or the end of an overtaken fetch makes one useless. */
  predicate Uses(r: Regs, e: Env) {
    || e.ret || e.trap || e.jump || e.redirect
    || (if r.fetch.flushPending then !Wait(r, e) else !Stall(r, e))
  }

  function Run(code: Code, r: Regs, es: seq<Env>): Regs
    decreases es
  {
    if es == [] then r else Run(code, Next(code, r, es[0]), es[1..])
  }

  function UseCount(code: Code, r: Regs, es: seq<Env>): nat
    decreases es
  {
    if es == [] then 0 else One(Uses(r, es[0])) + UseCount(code, Next(code, r, es[0]), es[1..])
  }

  function Fetches(code: Code, r: Regs, es: seq<Env>): nat
    decreases es
  {
    if es == [] then 0
    else One(Arbiter.Done(r.bus, BusIn(r, es[0]), Arbiter.Inst)) + Fetches(code, Next(code, r, es[0]), es[1..])
  }

  lemma FetchStep(code: Code, r: Regs, e: Env)
    requires Inv(code, r)
    ensures One(Arbiter.Done(r.bus, BusIn(r, e), Arbiter.Inst)) + One(!r.fetch.fetchActive)
            <= One(Uses(r, e)) + One(!Next(code, r, e).fetch.fetchActive)
    ensures Arbiter.Done(r.bus, BusIn(r, e), Arbiter.Inst) ==> !e.memWait
  {
  }

  /** Over any run each completed fetch is used once, but for one word that may be waiting in the buffer. */
  lemma {:induction false} FetchedOnce(code: Code, r: Regs, es: seq<Env>)
    requires Inv(code, r)
    ensures Fetches(code, r, es) + One(!r.fetch.fetchActive)
            <= UseCount(code, r, es) + One(!Run(code, r, es).fetch.fetchActive)
    decreases es
  {
    hide Next, Inv, Uses, BusIn, Arbiter.Done;
    if es == [] {
    } else {
      FetchStep(code, r, es[0]);
      InvKept(code, r, es[0]);
      FetchedOnce(code, Next(code, r, es[0]), es[1..]);
    }
  }

  lemma FromReset(code: Code, vector: Word, es: seq<Env>)
    ensures InOrder(code, vector, Events(code, Reset(vector), es))
  {
    hide Events;
    HandsOverInOrder(code, Reset(vector), es);
  }
}

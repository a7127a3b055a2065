/**
 * Privilege modes, the mstatus trap stack and returns: the trap controller's mode register
 * (rtl/core/friscv_trap_controller.sv) and the CSR file's push and pop (rtl/core/friscv_csr_file.sv).
 */
module TrapStack {
  import opened Privilege

  datatype Status = Status(sie: bool, spie: bool, spp: bool, mie: bool, mpie: bool, mpp: Mode, mprv: bool)

  datatype Regs = Regs(mode: Mode, debug: bool, status: Status, prv: Mode)

  const RESET: Regs := Regs(M, false, Status(false, false, false, false, false, U, false), M)

  datatype Return = NoReturn | Mret | Sret | Dret

  /** The written fields that matter here; of medeleg that is bit 0, the misaligned instruction addresses. */
  datatype CsrWrite =
    | NoWrite
    | Sstatus(sie: bool, spie: bool, spp: bool)
    | Mstatus(sie: bool, spie: bool, spp: bool, mie: bool, mpie: bool, mpp: Mode, mprv: bool)
    | Dcsr(prv: Mode)
    | Medeleg(misaligned: bool)

  /** One bit for each software, timer and external interrupt of the two levels. */
  datatype Lines = Lines(msi: bool, mti: bool, mei: bool, ssi: bool, sti: bool, sei: bool)

  /**
   * One cycle's requests. An exception carries the mode its instruction was fetched or executed in and whether its
   * cause is delegated; interrupts come as pending lines with their bits of mie and mideleg (whose machine bits are
   * always clear); safe is the controller's condition for taking an interrupt; clear says no hazard holds the trap
   * back.
   */
  datatype In = In(exception: bool, causeDelegated: bool, trapMode: Mode, pending: Lines, enabled: Lines,
                   delegated: Lines, safe: bool, debugEntry: bool, clear: bool, ret: Return, write: CsrWrite)

  predicate Legal(m: Mode) {
    m != H
  }

  function Legalize(m: Mode): Mode {
    if m == H then U else m
  }

  function Rank(m: Mode): nat {
    match m case U => 0 case S => 1 case H => 2 case M => 3
  }

  // ----- which trap is taken, and to where -----

  predicate MachineLine(i: In) {
    || (i.pending.msi && i.enabled.msi)
    || (i.pending.mti && i.enabled.mti)
    || (i.pending.mei && i.enabled.mei)
  }

  predicate DelegatedLine(i: In) {
    || (i.pending.ssi && i.enabled.ssi && i.delegated.ssi)
    || (i.pending.sti && i.enabled.sti && i.delegated.sti)
    || (i.pending.sei && i.enabled.sei && i.delegated.sei)
  }

  predicate MInterrupt(r: Regs, i: In) {
    i.safe && !r.debug && (r.status.mie || r.mode != M) && MachineLine(i)
  }

  predicate SInterrupt(r: Regs, i: In) {
    i.safe && !r.debug && r.mode != M && (r.status.sie || r.mode == U) && DelegatedLine(i)
  }

  predicate Takes(r: Regs, i: In) {
    (MInterrupt(r, i) || SInterrupt(r, i) || i.exception || i.debugEntry) && i.clear
  }

  predicate Delegated(r: Regs, i: In) {
    i.trapMode != M && !MInterrupt(r, i) && (SInterrupt(r, i) || (i.exception && i.causeDelegated))
  }

  // ----- the clock edge -----

  function PushS(s: Status, from: Mode): Status {
    s.(spie := s.sie, sie := false, spp := from == S)
  }

  function PushM(s: Status, from: Mode): Status {
    s.(mpie := s.mie, mie := false, mpp := Legalize(from))
  }

  function PopS(s: Status): Status {
    s.(sie := s.spie, spie := true, spp := false)
  }

  function PopM(s: Status): Status {
    s.(mie := s.mpie, mpie := true, mpp := U, mprv := s.mprv && s.mpp == M)
  }

  function NextStatus(r: Regs, i: In): Status {
    if Takes(r, i) then
      (if r.debug || i.debugEntry then r.status
       else if Delegated(r, i) then PushS(r.status, i.trapMode)
       else PushM(r.status, i.trapMode))
    else match i.ret
      case Dret => r.status
      case Sret => PopS(r.status)
      case Mret => PopM(r.status)
      case NoReturn =>
        match i.write
        case NoWrite => r.status
        case Sstatus(sie, spie, spp) => r.status.(sie := sie, spie := spie, spp := spp)
        case Mstatus(sie, spie, spp, mie, mpie, mpp, mprv) => Status(sie, spie, spp, mie, mpie, Legalize(mpp), mprv)
        case Dcsr(_) | Medeleg(_) => r.status
  }

  function NextMode(r: Regs, i: In): Mode {
    if Takes(r, i) then
      (if r.debug then r.mode else if i.debugEntry then M else if Delegated(r, i) then S else M)
    else match i.ret
      case Dret => r.prv
      case Sret => if r.status.spp then S else U
      case Mret => r.status.mpp
      case NoReturn => r.mode
  }

  function NextPrv(r: Regs, i: In): Mode {
    if Takes(r, i) then (if i.debugEntry && !r.debug then r.mode else r.prv)
    else if i.ret == NoReturn && i.write.Dcsr? then (if i.write.prv == H then M else i.write.prv)
    else r.prv
  }

  function NextDebug(r: Regs, i: In): bool {
    if Takes(r, i) then r.debug || i.debugEntry else r.debug && i.ret != Dret
  }

  function Next(r: Regs, i: In): Regs {
    Regs(NextMode(r, i), NextDebug(r, i), NextStatus(r, i), NextPrv(r, i))
  }

  class Hart {
    var mode: Mode
    var debug: bool
    var status: Status
    var prv: Mode

    function State(): Regs
      reads this
    {
      Regs(mode, debug, status, prv)
    }

    constructor ()
      ensures State() == RESET
    {
      mode, debug, prv := M, false, M;
      status := Status(false, false, false, false, false, U, false);
    }

    method Clock(i: In)
      modifies this
      ensures State() == Next(old(State()), i)
    {
      hide PushS, PushM, PopS, PopM, MInterrupt, SInterrupt;
      var trap, toS := Takes(State(), i), Delegated(State(), i);
      if trap {
        if !debug {
          if i.debugEntry {
            prv, mode, debug := mode, M, true;
          } else if toS {
            status, mode := PushS(status, i.trapMode), S;
          } else {
            status, mode := PushM(status, i.trapMode), M;
          }
        }
      } else {
        match i.ret {
          case Dret => mode, debug := prv, false;
          case Sret => mode, status := if status.spp then S else U, PopS(status);
          case Mret => mode, status := status.mpp, PopM(status);
          case NoReturn => WriteCsr(i.write);
        }
      }
    }

    method WriteCsr(w: CsrWrite)
      modifies `status, `prv
      ensures w.NoWrite? || w.Medeleg? ==> status == old(status) && prv == old(prv)
      ensures w.Sstatus? ==> status == old(status).(sie := w.sie, spie := w.spie, spp := w.spp) && prv == old(prv)
      ensures w.Mstatus? ==>
                status == Status(w.sie, w.spie, w.spp, w.mie, w.mpie, Legalize(w.mpp), w.mprv) && prv == old(prv)
      ensures w.Dcsr? ==> status == old(status) && prv == if w.prv == H then M else w.prv
    {
      match w {
        case NoWrite =>
        case Sstatus(sie, spie, spp) => status := status.(sie := sie, spie := spie, spp := spp);
        case Mstatus(sie, spie, spp, mie, mpie, mpp, mprv) =>
          status := Status(sie, spie, spp, mie, mpie, Legalize(mpp), mprv);
        case Dcsr(p) => prv := if p == H then M else p;
        case Medeleg(_) =>
      }
    }
  }

  function Run(r: Regs, ins: seq<In>): Regs
    decreases ins
  {
    if ins == [] then r else Run(Next(r, ins[0]), ins[1..])
  }

  // ----- modes stay legal -----

  predicate LegalRegs(r: Regs) {
    Legal(r.mode) && Legal(r.status.mpp) && Legal(r.prv)
  }

  lemma ResetLegal()
    ensures LegalRegs(RESET) && RESET.mode == M && !RESET.debug && RESET.status.mpp == U
  {
  }

  lemma StepLegal(r: Regs, i: In)
    requires LegalRegs(r)
    ensures LegalRegs(Next(r, i))
  {
    hide Takes, Delegated;
  }

  /** In every reachable state, whatever is trapped, returned or written, the three mode fields are U, S or M. */
  lemma {:induction false} ModesStayLegal(r: Regs, ins: seq<In>)
    requires LegalRegs(r)
    ensures LegalRegs(Run(r, ins))
    decreases ins
  {
    hide Next, LegalRegs;
    if ins == [] {
    } else {
      StepLegal(r, ins[0]);
      ModesStayLegal(Next(r, ins[0]), ins[1..]);
    }
  }

  // ----- levels -----

  /**
   * Interrupts to a level are on in less privileged modes, off in more privileged ones, else as the enable bit says.
   */
  predicate GloballyEnabled(r: Regs, level: Mode, enable: bool) {
    Rank(r.mode) < Rank(level) || (r.mode == level && enable)
  }

  /** The interrupts of section 3.1.9 of the Privileged Specification, line by line. */
  datatype Line = MSoftware | MTimer | MExternal | SSoftware | STimer | SExternal

  predicate BitOf(ls: Lines, line: Line) {
    match line
    case MSoftware => ls.msi
    case MTimer => ls.mti
    case MExternal => ls.mei
    case SSoftware => ls.ssi
    case STimer => ls.sti
    case SExternal => ls.sei
  }

  /** The machine bits of mideleg are always clear. */
  predicate ToS(i: In, line: Line) {
    line in {SSoftware, STimer, SExternal} && BitOf(i.delegated, line)
  }

  predicate Raised(i: In, line: Line) {
    BitOf(i.pending, line) && BitOf(i.enabled, line)
  }

  /** Any pending, enabled line interrupts to S if it is delegated, else to M. */
  ghost predicate SpecifiedM(r: Regs, i: In) {
    GloballyEnabled(r, M, r.status.mie) && exists line :: Raised(i, line) && !ToS(i, line)
  }

  ghost predicate SpecifiedS(r: Regs, i: In) {
    GloballyEnabled(r, S, r.status.sie) && exists line :: Raised(i, line) && ToS(i, line)
  }

  ghost predicate UndelegatedRaised(i: In) {
    exists line :: line in {SSoftware, STimer, SExternal} && Raised(i, line) && !ToS(i, line)
  }

  ghost predicate MachineRaised(i: In) {
    exists line :: line in {MSoftware, MTimer, MExternal} && Raised(i, line)
  }

  lemma LinesAre(i: In)
    ensures DelegatedLine(i) <==> exists line :: Raised(i, line) && ToS(i, line)
    ensures MachineLine(i) <==> MachineRaised(i)
    ensures (exists line :: Raised(i, line) && !ToS(i, line)) <==> MachineRaised(i) || UndelegatedRaised(i)
  {
    if DelegatedLine(i) {
      assert (Raised(i, SSoftware) && ToS(i, SSoftware)) || (Raised(i, STimer) && ToS(i, STimer))
             || (Raised(i, SExternal) && ToS(i, SExternal));
    }
    if MachineLine(i) {
      assert Raised(i, MSoftware) || Raised(i, MTimer) || Raised(i, MExternal);
    }
  }

  /**
   * Supervisor interrupts are those specified. Machine interrupts are too, except that a supervisor line that is not
   * delegated never interrupts: the two differ exactly when such lines are all that would interrupt to M.
   */
  lemma InterruptLevels(r: Regs, i: In)
    requires LegalRegs(r) && i.safe && !r.debug
    ensures SInterrupt(r, i) <==> SpecifiedS(r, i)
    ensures (MInterrupt(r, i) <==> SpecifiedM(r, i))
            <==> !(GloballyEnabled(r, M, r.status.mie) && UndelegatedRaised(i) && !MachineRaised(i))
    ensures MInterrupt(r, i) ==> SpecifiedM(r, i)
  {
    hide MachineLine, DelegatedLine, Raised, MachineRaised, UndelegatedRaised;
    LinesAre(i);
  }

  /** Nothing is requested, and nothing holds a trap back. */
  function Quiet(): In {
    var none := Lines(false, false, false, false, false, false);
    In(false, false, U, none, none, none, false, false, true, NoReturn, NoWrite)
  }

  /** A software interrupt to S, enabled and not delegated. */
  function Undelegated(): In {
    var line := Lines(false, false, false, true, false, false);
    Quiet().(pending := line, enabled := line, safe := true)
  }

  /** In user mode, which an MRET from reset enters, that interrupt is specified to be taken, and is not. */
  lemma UndelegatedIgnored()
    ensures var r := Next(RESET, Quiet().(ret := Mret));
            r.mode == U && SpecifiedM(r, Undelegated()) && !Takes(r, Undelegated())
  {
    assert Raised(Undelegated(), SSoftware) && !ToS(Undelegated(), SSoftware);
  }

  /**
   * Where a trap goes: machine interrupts to M, before supervisor interrupts to S; exceptions to S when delegated and
   * not raised in machine mode, else to M. The level entered is the one whose half of mstatus is pushed.
   */
  lemma RoutesTraps(r: Regs, i: In)
    requires LegalRegs(r) && !r.debug && !i.debugEntry && Takes(r, i) && i.trapMode == r.mode
    ensures var m, s, s' := NextMode(r, i), r.status, NextStatus(r, i);
            && (m == S || m == M)
            && (MInterrupt(r, i) ==> m == M)
            && (!MInterrupt(r, i) && SInterrupt(r, i) ==> m == S)
            && (!MInterrupt(r, i) && !SInterrupt(r, i) ==> (m == S <==> r.mode != M && i.causeDelegated))
            && (m == S ==> !s'.sie && s'.mie == s.mie && s'.mpie == s.mpie && s'.mpp == s.mpp)
            && (m == M ==> !s'.mie && s'.sie == s.sie && s'.spie == s.spie && s'.spp == s.spp)
  {
  }

  // ----- traps do not lower privilege -----

  /**
   * A trap lowers the privilege mode exactly when it is delegated although the hart is in machine mode; that takes
   * an exception of an instruction of another mode.
   */
  lemma LowersExactly(r: Regs, i: In)
    requires LegalRegs(r) && Takes(r, i)
    ensures Rank(NextMode(r, i)) < Rank(r.mode) <==> r.mode == M && !r.debug && !i.debugEntry && Delegated(r, i)
    ensures i.trapMode == r.mode ==> Rank(NextMode(r, i)) >= Rank(r.mode)
  {
  }

  // ----- nested traps and returns -----

  /** What an interrupted program had. */
  datatype Context = Context(mode: Mode, mie: bool, sie: bool)

  datatype Frame = MFrame(saved: Context) | SFrame(saved: Context)

  function ContextOf(r: Regs): Context {
    Context(r.mode, r.status.mie, r.status.sie)
  }

  /** The frames open after a cycle, innermost last. */
  function Frames(stack: seq<Frame>, r: Regs, i: In): seq<Frame> {
    if Takes(r, i) then stack + [if Delegated(r, i) then SFrame(ContextOf(r)) else MFrame(ContextOf(r))]
    else if i.ret != NoReturn && stack != [] then stack[..|stack| - 1]
    else stack
  }

  /**
   * No exception opens a frame inside one of its own kind or of machine mode (interrupts cannot); each return closes
   * the frame it belongs to.
   */
  predicate Nested(stack: seq<Frame>, r: Regs, i: In) {
    && !i.debugEntry && i.write == NoWrite && i.trapMode == r.mode
    && (Takes(r, i) && i.exception ==>
          stack == [] || (|stack| == 1 && stack[0].SFrame? && !Delegated(r, i)))
    && (!Takes(r, i) ==>
          match i.ret
          case NoReturn => true
          case Mret => stack != [] && stack[|stack| - 1].MFrame?
          case Sret => stack != [] && stack[|stack| - 1].SFrame?
          case Dret => false)
  }

  ghost predicate NestedRun(stack: seq<Frame>, r: Regs, ins: seq<In>)
    decreases ins
  {
    ins == [] || (Nested(stack, r, ins[0]) && NestedRun(Frames(stack, r, ins[0]), Next(r, ins[0]), ins[1..]))
  }

  function FramesAfter(stack: seq<Frame>, r: Regs, ins: seq<In>): seq<Frame>
    decreases ins
  {
    if ins == [] then stack else FramesAfter(Frames(stack, r, ins[0]), Next(r, ins[0]), ins[1..])
  }

  predicate SFrameHolds(f: Frame, s: Status) {
    f.SFrame? && f.saved.mode in {U, S} && s.spp == (f.saved.mode == S) && s.spie == f.saved.sie && !s.sie
  }

  predicate MFrameHolds(f: Frame, s: Status) {
    f.MFrame? && f.saved.mode == s.mpp && f.saved.mie == s.mpie && f.saved.sie == s.sie && !s.mie
  }

  /** What the stack in mstatus holds for the open frames; with none open, the context is the original one. */
  predicate Holds(base: Context, stack: seq<Frame>, r: Regs) {
    && !r.debug && LegalRegs(r) && |stack| <= 2
    && (if stack == [] then ContextOf(r) == base else stack[0].saved == base)
    && (|stack| == 1 && stack[0].MFrame? ==> MFrameHolds(stack[0], r.status) && r.mode == M)
    && (|stack| == 1 && stack[0].SFrame? ==>
          SFrameHolds(stack[0], r.status) && r.mode == S && r.status.mie == stack[0].saved.mie)
    && (|stack| == 2 ==>
          && SFrameHolds(stack[0], r.status) && MFrameHolds(stack[1], r.status)
          && stack[1].saved.mode == S && stack[1].saved.mie == stack[0].saved.mie && r.mode == M)
  }

  /** Inside a frame no interrupt of its own level, or below, is taken. */
  lemma HandlersAreMasked(base: Context, stack: seq<Frame>, r: Regs, i: In)
    requires Holds(base, stack, r) && stack != []
    ensures !SInterrupt(r, i)
    ensures stack[|stack| - 1].MFrame? ==> !MInterrupt(r, i)
  {
  }

  lemma FramesFollow(base: Context, stack: seq<Frame>, r: Regs, i: In)
    requires Holds(base, stack, r) && Nested(stack, r, i)
    ensures Holds(base, Frames(stack, r, i), Next(r, i))
    ensures !Takes(r, i) && i.ret != NoReturn ==> ContextOf(Next(r, i)) == stack[|stack| - 1].saved
  {
    hide MInterrupt, SInterrupt;
    if stack != [] { HandlersAreMasked(base, stack, r, i); }
  }

  /**
   * Over every well-nested run: each return restores the mode and both interrupt enables its frame interrupted, and
   * when all frames are closed the context is the original one.
   */
  lemma {:induction false} ReturnsRestore(base: Context, stack: seq<Frame>, r: Regs, ins: seq<In>)
    requires Holds(base, stack, r) && NestedRun(stack, r, ins)
    ensures Holds(base, FramesAfter(stack, r, ins), Run(r, ins))
    ensures ins != [] ==>
              var last, before := ins[|ins| - 1], ins[..|ins| - 1];
              var r', open := Run(r, before), FramesAfter(stack, r, before);
              !Takes(r', last) && last.ret != NoReturn ==>
                open != [] && ContextOf(Run(r, ins)) == open[|open| - 1].saved
    decreases ins
  {
    hide Holds, Next, Frames, Takes, ContextOf;
    if ins == [] {
    } else {
      FramesFollow(base, stack, r, ins[0]);
      var rest := ins[1..];
      ReturnsRestore(base, Frames(stack, r, ins[0]), Next(r, ins[0]), rest);
      if rest == [] {
        assert ins[..0] == [] && Run(Next(r, ins[0]), rest) == Next(r, ins[0]);
      } else {
        assert ins[..|ins| - 1][1..] == rest[..|rest| - 1];
      }
    }
  }

  /** A program interrupted any number of times between two of its instructions finds its own context again. */
  lemma BalancedRunRestores(r: Regs, ins: seq<In>)
    requires LegalRegs(r) && !r.debug && NestedRun([], r, ins) && FramesAfter([], r, ins) == []
    ensures ContextOf(Run(r, ins)) == ContextOf(r)
  {
    hide Run, NestedRun, FramesAfter;
    ReturnsRestore(ContextOf(r), [], r, ins);
  }

  // ----- what a return leaves behind -----

  /** No trap is taken to M, and mstatus is not written. */
  predicate KeepsMHalf(r: Regs, i: In) {
    (Takes(r, i) ==> r.debug || i.debugEntry || Delegated(r, i)) && !i.write.Mstatus?
  }

  /** Until a trap to M or a write of mstatus, the machine half of the stack stays as an MRET leaves it. */
  lemma {:induction false} MHalfStays(r: Regs, ins: seq<In>)
    requires r.status.mpp == U && r.status.mpie
    requires forall k :: 0 <= k < |ins| ==> KeepsMHalf(Run(r, ins[..k]), ins[k])
    ensures Run(r, ins).status.mpp == U && Run(r, ins).status.mpie
    decreases ins
  {
    hide Takes, Delegated, NextMode, NextPrv, NextDebug;
    if ins == [] {
    } else {
      assert ins[..0] == [];
      forall k | 0 <= k < |ins| - 1 ensures KeepsMHalf(Run(Next(r, ins[0]), ins[1..][..k]), ins[1..][k]) {
        assert ins[..k + 1][1..] == ins[1..][..k];
        assert KeepsMHalf(Run(r, ins[..k + 1]), ins[k + 1]);
      }
      MHalfStays(Next(r, ins[0]), ins[1..]);
    }
  }

  /** However much later, a second MRET with no trap to M between the two goes to U with machine interrupts on. */
  lemma SecondReturn(r: Regs, i: In, ins: seq<In>, j: In)
    requires !Takes(r, i) && i.ret == Mret
    requires forall k :: 0 <= k < |ins| ==> KeepsMHalf(Run(Next(r, i), ins[..k]), ins[k])
    requires !Takes(Run(Next(r, i), ins), j) && j.ret == Mret
    ensures var r' := Next(Run(Next(r, i), ins), j); r'.mode == U && r'.status.mie
  {
    hide Takes, Run, KeepsMHalf;
    MHalfStays(Next(r, i), ins);
  }

  /** No trap is taken to S, and neither view of mstatus is written. */
  predicate KeepsSHalf(r: Regs, i: In) {
    (Takes(r, i) ==> r.debug || i.debugEntry || !Delegated(r, i)) && !i.write.Mstatus? && !i.write.Sstatus?
  }

  lemma {:induction false} SHalfStays(r: Regs, ins: seq<In>)
    requires !r.status.spp && r.status.spie
    requires forall k :: 0 <= k < |ins| ==> KeepsSHalf(Run(r, ins[..k]), ins[k])
    ensures !Run(r, ins).status.spp && Run(r, ins).status.spie
    decreases ins
  {
    hide Takes, Delegated, NextMode, NextPrv, NextDebug;
    if ins == [] {
    } else {
      assert ins[..0] == [];
      forall k | 0 <= k < |ins| - 1 ensures KeepsSHalf(Run(Next(r, ins[0]), ins[1..][..k]), ins[1..][k]) {
        assert ins[..k + 1][1..] == ins[1..][..k];
        assert KeepsSHalf(Run(r, ins[..k + 1]), ins[k + 1]);
      }
      SHalfStays(Next(r, ins[0]), ins[1..]);
    }
  }

  /** The same of SRET, with no trap to S between the two. */
  lemma SecondSret(r: Regs, i: In, ins: seq<In>, j: In)
    requires !Takes(r, i) && i.ret == Sret
    requires forall k :: 0 <= k < |ins| ==> KeepsSHalf(Run(Next(r, i), ins[..k]), ins[k])
    requires !Takes(Run(Next(r, i), ins), j) && j.ret == Sret
    ensures var r' := Next(Run(Next(r, i), ins), j); r'.mode == U && r'.status.sie
  {
    hide Takes, Run, KeepsSHalf;
    SHalfStays(Next(r, i), ins);
  }

  // ----- CSR writes -----

  /** What reading mstatus, sstatus and dcsr.prv back gives: the fields written, but for a reserved mode. */
  lemma WritesReadBack(r: Regs, i: In)
    requires !Takes(r, i) && i.ret == NoReturn
    ensures var s, s', w := r.status, NextStatus(r, i), i.write;
            && (w.Mstatus? ==>
                  && s'.sie == w.sie && s'.spie == w.spie && s'.spp == w.spp && s'.mie == w.mie && s'.mpie == w.mpie
                  && s'.mprv == w.mprv && Legal(s'.mpp) && (Legal(w.mpp) ==> s'.mpp == w.mpp))
            && (w.Sstatus? ==>
                  && s'.sie == w.sie && s'.spie == w.spie && s'.spp == w.spp
                  && s'.mie == s.mie && s'.mpie == s.mpie && s'.mpp == s.mpp && s'.mprv == s.mprv)
            && (w.Dcsr? ==> Legal(NextPrv(r, i)) && (Legal(w.prv) ==> NextPrv(r, i) == w.prv))
            && (!w.Mstatus? && !w.Sstatus? ==> s' == s) && (!w.Dcsr? ==> NextPrv(r, i) == r.prv)
  {
    hide Takes;
  }

  // ----- MPRV -----

  /** The mode of loads and stores (rtl/core/friscv_csr_file.sv:550-551). */
  function DataMode(r: Regs): Mode {
    if !r.debug && r.mode == M && r.status.mprv then r.status.mpp else r.mode
  }

  predicate MprvOff(r: Regs) {
    r.mode == M || !r.status.mprv
  }

  /** Machine mode is left otherwise than by MRET with the bit set, or the bit is written elsewhere. */
  predicate CarriesMprv(r: Regs, i: In) {
    || (r.mode == M && NextMode(r, i) != M && r.status.mprv && (Takes(r, i) || i.ret != Mret))
    || (r.mode != M && !Takes(r, i) && i.ret == NoReturn && i.write.Mstatus? && i.write.mprv)
  }

  lemma MretClearsMprv(r: Regs, i: In)
    requires !Takes(r, i) && i.ret == Mret
    ensures Next(r, i).status.mprv <==> r.status.mprv && Next(r, i).mode == M
  {
    hide Takes;
  }

  lemma MprvStep(r: Regs, i: In)
    requires MprvOff(r)
    ensures MprvOff(Next(r, i)) <==> !CarriesMprv(r, i)
  {
    hide Takes, Delegated;
    if !Takes(r, i) && i.ret == Mret { MretClearsMprv(r, i); }
  }

  ghost predicate OffThroughout(r: Regs, ins: seq<In>)
    decreases ins
  {
    MprvOff(r) && (ins == [] || OffThroughout(Next(r, ins[0]), ins[1..]))
  }

  ghost predicate NeverCarried(r: Regs, ins: seq<In>)
    decreases ins
  {
    ins == [] || (!CarriesMprv(r, ins[0]) && NeverCarried(Next(r, ins[0]), ins[1..]))
  }

  /**
   * Section 3.1.6.3 of the Privileged Specification has MRET and SRET clear MPRV on leaving machine mode, so that below
   * it the bit is never set. Over any run that is so exactly when no cycle carries the bit out.
   */
  lemma {:induction false} MprvStaysInM(r: Regs, ins: seq<In>)
    requires MprvOff(r)
    ensures OffThroughout(r, ins) <==> NeverCarried(r, ins)
    decreases ins
  {
    hide Next, MprvOff, CarriesMprv;
    if ins == [] {
    } else {
      MprvStep(r, ins[0]);
      if MprvOff(Next(r, ins[0])) { MprvStaysInM(Next(r, ins[0]), ins[1..]); }
    }
  }

  /** Trapping to M from below, a handler's loads and stores are its own exactly when the bit was off. */
  lemma HandlersOwnMemory(r: Regs, i: In)
    requires r.mode != M && !r.debug && Takes(r, i) && !i.debugEntry && !Delegated(r, i) && i.trapMode != M
    ensures DataMode(Next(r, i)) == M <==> MprvOff(r)
  {
    hide Takes, Delegated;
  }

  /** From reset: machine mode sets MPRV and leaves by SRET; the next handler's loads and stores are in user mode. */
  lemma SretCarriesMprv()
    ensures var r1 := Next(RESET, Quiet().(write := Mstatus(false, false, false, false, false, U, true)));
            var r2 := Next(r1, Quiet().(ret := Sret));
            var r3 := Next(r2, Quiet().(exception := true));
            r2.mode == U && !MprvOff(r2) && r3.mode == M && DataMode(r3) == U
  {
  }

  // ----- debug mode -----

  lemma {:induction false} DebugKeeps(r: Regs, ins: seq<In>)
    requires r.debug && forall k :: 0 <= k < |ins| ==> ins[k].ret != Dret && !ins[k].write.Dcsr?
    ensures Run(r, ins).debug && Run(r, ins).prv == r.prv
    decreases ins
  {
    hide Takes, NextStatus, NextMode;
    if ins == [] {
    } else {
      DebugKeeps(Next(r, ins[0]), ins[1..]);
    }
  }

  /** DRET returns to the mode debug mode was entered from, whatever the debugger runs short of writing dcsr. */
  lemma DebugReturns(r: Regs, entry: In, ins: seq<In>, leave: In)
    requires !r.debug && Takes(r, entry) && entry.debugEntry
    requires forall k :: 0 <= k < |ins| ==> ins[k].ret != Dret && !ins[k].write.Dcsr?
    requires !Takes(Run(Next(r, entry), ins), leave) && leave.ret == Dret
    ensures var before := Run(Next(r, entry), ins);
            var r' := Next(before, leave);
            r'.mode == r.mode && !r'.debug && r'.status == before.status
  {
    hide Takes, Run, PopS, PopM;
    DebugKeeps(Next(r, entry), ins);
  }
}

/**
 * The memory management unit (rtl/core/friscv_mmu.sv): the arbiter, two TLBs, the walker, the request context,
 * the validity gate of the registered lookup, and the access held in flight. PMP enforcement is off, as by default.
 */
module Mmu {
  import opened Words
  import opened Privilege
  import opened Sv32
  import Decoder
  import Isa
  import Arbiter
  import Tlb
  import Ptw

  /** The translation context of a request, latched at its grant. */
  datatype Ctx = Ctx(addr: Word, satp: Satp, mode: Mode, sum: bool, mxr: bool, isInst: bool, isWrite: bool)

  const NO_CTX: Ctx := Ctx(0, Satp(false, 0, 0), U, false, false, false, false)

  datatype Regs = Regs(arb: Arbiter.Regs, itlb: Tlb.Regs, dtlb: Tlb.Regs, ptw: Ptw.Regs, ctx: Ctx, ivpn: Vpn, dvpn: Vpn,
                       tlbChanged: bool, accessBusy: bool, accessPa: Word)

  datatype In = In(instEn: bool, instAddr: Word, dataEn: bool, data: Arbiter.Request, storeLike: bool, satp: Satp,
                   sum: bool, mxr: bool, instMode: Mode, dataMode: Mode, flushEn: bool, flush: Tlb.Flush,
                   wait: bool, rdata: Word, err: bool)

  function Reset(itlbEntries: nat, dtlbEntries: nat): Regs {
    Regs(Arbiter.RESET, Tlb.Reset(itlbEntries), Tlb.Reset(dtlbEntries), Ptw.RESET, NO_CTX, 0, 0, false, false, 0)
  }

  // ----- the granted request -----

  function ArbIn(i: In, stall: bool): Arbiter.In {
    Arbiter.In(i.instEn, i.instAddr, i.dataEn, i.data, stall, i.err)
  }

  /** The grant does not depend on the stall that answers it. */
  function Grant(r: Regs, i: In): Arbiter.Command {
    Arbiter.Bus(r.arb, ArbIn(i, false))
  }

  predicate Starts(r: Regs, i: In, side: Arbiter.Side) {
    Arbiter.Takes(r.arb, ArbIn(i, false), side)
  }

  predicate Held(r: Regs) {
    r.arb.phase != Arbiter.Idle
  }

  predicate Active(r: Regs, i: In) {
    Grant(r, i).rw != Arbiter.RwIdle
  }

  function StartCtx(r: Regs, i: In): Ctx {
    var inst := Starts(r, i, Arbiter.Inst);
    Ctx(if inst then i.instAddr else i.data.addr, i.satp, if inst then i.instMode else i.dataMode, i.sum, i.mxr, inst,
        !inst && (i.data.write || i.storeLike || i.data.amo != Decoder.AmoNone))
  }

  function Eff(r: Regs, i: In): Ctx {
    if Held(r) then r.ctx else StartCtx(r, i)
  }

  predicate Paged(c: Ctx) {
    c.satp.mode && c.mode != M
  }

  function KindOf(c: Ctx): Kind {
    if c.isInst then Fetch else if c.isWrite then Store else Load
  }

  // ----- the registered lookup and its gate -----

  function InstVpn(r: Regs, i: In): Vpn {
    VpnOf(if Active(r, i) && Eff(r, i).isInst then Eff(r, i).addr else i.instAddr)
  }

  function DataVpn(r: Regs, i: In): Vpn {
    VpnOf(if Active(r, i) && !Eff(r, i).isInst then Eff(r, i).addr else i.data.addr)
  }

  function Q(r: Regs, i: In): Tlb.Result {
    if Eff(r, i).isInst then r.itlb.q else r.dtlb.q
  }

  predicate TlateValid(r: Regs, i: In) {
    !r.tlbChanged && if Eff(r, i).isInst then r.ivpn == InstVpn(r, i) else r.dvpn == DataVpn(r, i)
  }

  predicate Pending(r: Regs, i: In) {
    Paged(Eff(r, i)) && Active(r, i) && !TlateValid(r, i) && !r.accessBusy
  }

  /** A granted paged request whose registered lookup may be used. */
  predicate Looked(r: Regs, i: In) {
    Paged(Eff(r, i)) && Active(r, i) && !Pending(r, i) && !r.accessBusy
  }

  predicate Miss(r: Regs, i: In) {
    Looked(r, i) && !Q(r, i).hit
  }

  function PtwIn(r: Regs, i: In): Ptw.In {
    var c, miss := Eff(r, i), Miss(r, i);
    Ptw.In(c.satp, miss && c.isInst, miss && !c.isInst, c.addr, c.isWrite, i.wait, i.rdata, i.err)
  }

  predicate WalkEn(r: Regs, i: In) {
    Ptw.WalkEn(r.ptw, PtwIn(r, i))
  }

  // ----- permissions -----

  predicate PermInstOk(c: Ctx, p: Perm) {
    p.x && p.a && ((c.mode == U && p.u) || (c.mode == S && !p.u))
  }

  predicate PermLoadOk(c: Ctx, p: Perm) {
    (p.r || (c.mxr && p.x)) && p.a && ((c.mode == U && p.u) || (c.mode == S && (!p.u || c.sum)))
  }

  predicate PermStoreOk(c: Ctx, p: Perm) {
    p.w && p.d && p.a && ((c.mode == U && p.u) || (c.mode == S && (!p.u || c.sum)))
  }

  predicate PermFault(r: Regs, i: In, kind: Kind) {
    var c, q := Eff(r, i), Q(r, i);
    Looked(r, i) && q.hit &&
    match kind
    case Fetch => c.isInst && !PermInstOk(c, q.perm)
    case Load => !c.isInst && !c.isWrite && !PermLoadOk(c, q.perm)
    case Store => !c.isInst && c.isWrite && !PermStoreOk(c, q.perm)
  }

  predicate Denied(r: Regs, i: In) {
    PermFault(r, i, Fetch) || PermFault(r, i, Load) || PermFault(r, i, Store)
  }

  // ----- the bus -----

  function TlatePa(r: Regs, i: In): Word {
    var c := Eff(r, i);
    if Paged(c) then Translate(Q(r, i).ppn, c.addr) else c.addr
  }

  function MemRw(r: Regs, i: In): Arbiter.Rw {
    if WalkEn(r, i) then Arbiter.RwRead
    else if Miss(r, i) || Denied(r, i) || Pending(r, i) then Arbiter.RwIdle
    else Grant(r, i).rw
  }

  function MemAddr(r: Regs, i: In): Word {
    if WalkEn(r, i) then Ptw.WalkAddr(r.ptw, PtwIn(r, i))
    else if r.accessBusy then r.accessPa
    else TlatePa(r, i)
  }

  function MemCommand(r: Regs, i: In): Arbiter.Command {
    var g := Grant(r, i);
    if WalkEn(r, i) then Arbiter.Command(MemAddr(r, i), Isa.I32, 0, Arbiter.RwRead, Decoder.AmoNone)
    else Arbiter.Command(MemAddr(r, i), g.size, g.wdata, MemRw(r, i), g.amo)
  }

  predicate Stall(r: Regs, i: In) {
    Ptw.Stall(r.ptw, PtwIn(r, i)) || (i.wait && MemRw(r, i) != Arbiter.RwIdle) || Pending(r, i)
  }

  // ----- reports to the core -----

  predicate PageFaultOut(r: Regs, i: In, kind: Kind) {
    Ptw.Faults(r.ptw, kind) || PermFault(r, i, kind)
  }

  function FaultAddr(r: Regs, i: In): Word {
    if r.ptw.state == Ptw.PageFault then r.ptw.va else Eff(r, i).addr
  }

  predicate AccessFaultOut(r: Regs, i: In, side: Arbiter.Side) {
    r.ptw.state == Ptw.AccessFault && Eff(r, i).isInst == (side == Arbiter.Inst)
  }

  predicate ErrOut(r: Regs, i: In, side: Arbiter.Side) {
    Arbiter.ErrOut(r.arb, ArbIn(i, Stall(r, i)), side)
  }

  // ----- the clock edge -----

  function FillOf(p: Ptw.Regs): Tlb.Entry {
    Tlb.Entry(VpnOf(p.va), p.pte.ppn, p.satp.asid, p.level, p.pte.perm)
  }

  function ItlbIn(r: Regs, i: In): Tlb.In {
    var c := Eff(r, i);
    Tlb.In(Tlb.Key(InstVpn(r, i), c.satp.asid, c.satp.mode), Ptw.Fills(r.ptw) && r.ptw.itlbMiss, FillOf(r.ptw),
           i.flushEn, i.flush)
  }

  function DtlbIn(r: Regs, i: In): Tlb.In {
    var c := Eff(r, i);
    Tlb.In(Tlb.Key(DataVpn(r, i), c.satp.asid, c.satp.mode), Ptw.Fills(r.ptw) && r.ptw.dtlbMiss, FillOf(r.ptw),
           i.flushEn, i.flush)
  }

  predicate Shaped(r: Regs) {
    Tlb.Shaped(r.itlb) && Tlb.Shaped(r.dtlb)
  }

  predicate AccessStarts(r: Regs, i: In) {
    i.wait && !r.accessBusy && !WalkEn(r, i) && MemRw(r, i) != Arbiter.RwIdle
  }

  function Next(r: Regs, i: In): (r': Regs)
    requires Shaped(r)
    ensures Shaped(r')
  {
    Regs(
      Arbiter.Next(r.arb, ArbIn(i, Stall(r, i))),
      Tlb.Next(r.itlb, ItlbIn(r, i)),
      Tlb.Next(r.dtlb, DtlbIn(r, i)),
      Ptw.Next(r.ptw, PtwIn(r, i)),
      if Starts(r, i, Arbiter.Inst) || Starts(r, i, Arbiter.Data) then StartCtx(r, i) else r.ctx,
      InstVpn(r, i),
      DataVpn(r, i),
      (Ptw.Fills(r.ptw) && (r.ptw.itlbMiss || r.ptw.dtlbMiss)) || i.flushEn,
      i.wait && (r.accessBusy || AccessStarts(r, i)),
      if AccessStarts(r, i) then TlatePa(r, i) else r.accessPa)
  }

  class Unit {
    const arb: Arbiter.Unit
    const itlb: Tlb.Cache
    const dtlb: Tlb.Cache
    const ptw: Ptw.Walker
    var ctx: Ctx
    var ivpn: Vpn
    var dvpn: Vpn
    var tlbChanged: bool
    var accessBusy: bool
    var accessPa: Word

    ghost predicate Valid()
      reads this, itlb, itlb.tlb, itlb.refs, dtlb, dtlb.tlb, dtlb.refs
    {
      && itlb.Valid() && dtlb.Valid() && itlb != dtlb && itlb.tlb != dtlb.tlb && itlb.refs != dtlb.refs
    }

    function State(): Regs
      reads this, arb, ptw, itlb, itlb.tlb, itlb.refs, dtlb, dtlb.tlb, dtlb.refs
    {
      Regs(arb.State(), itlb.State(), dtlb.State(), ptw.Value(), ctx, ivpn, dvpn, tlbChanged, accessBusy, accessPa)
    }

    constructor (itlbEntries: nat, dtlbEntries: nat)
      requires itlbEntries >= 2 && dtlbEntries >= 2
      ensures Valid() && State() == Reset(itlbEntries, dtlbEntries)
    {
      arb := new Arbiter.Unit();
      itlb := new Tlb.Cache(itlbEntries);
      dtlb := new Tlb.Cache(dtlbEntries);
      ptw := new Ptw.Walker();
      ctx, ivpn, dvpn, tlbChanged, accessBusy, accessPa := NO_CTX, 0, 0, false, false, 0;
    }

    method ClockParts(arbIn: Arbiter.In, itlbIn: Tlb.In, dtlbIn: Tlb.In, ptwIn: Ptw.In)
      requires Valid()
      modifies arb, ptw, itlb, itlb.tlb, itlb.refs, dtlb, dtlb.tlb, dtlb.refs
      ensures Valid() && arb.State() == Arbiter.Next(old(arb.State()), arbIn)
      ensures itlb.State() == Tlb.Next(old(itlb.State()), itlbIn) && dtlb.State() == Tlb.Next(old(dtlb.State()), dtlbIn)
      ensures ptw.Value() == Ptw.Next(old(ptw.Value()), ptwIn)
    {
      hide Tlb.Next, Ptw.Next, Arbiter.Next;
      arb.Clock(arbIn);
      itlb.Clock(itlbIn);
      dtlb.Clock(dtlbIn);
      ptw.Clock(ptwIn);
    }

    method Latch(r: Regs, i: In)
      requires r.ctx == ctx && r.accessBusy == accessBusy && r.accessPa == accessPa && Shaped(r)
      modifies `ctx, `ivpn, `dvpn, `tlbChanged, `accessBusy, `accessPa
      ensures var r' := Next(r, i);
              && ctx == r'.ctx && ivpn == r'.ivpn && dvpn == r'.dvpn && tlbChanged == r'.tlbChanged
              && accessBusy == r'.accessBusy && accessPa == r'.accessPa
    {
      hide Tlb.Next, Ptw.Next, Arbiter.Next, ArbIn, ItlbIn, DtlbIn, PtwIn, Stall, Starts, StartCtx, WalkEn, MemRw,
           InstVpn, DataVpn, TlatePa, Ptw.Fills;
      if Starts(r, i, Arbiter.Inst) || Starts(r, i, Arbiter.Data) { ctx := StartCtx(r, i); }
      ivpn, dvpn := InstVpn(r, i), DataVpn(r, i);
      tlbChanged := (Ptw.Fills(r.ptw) && (r.ptw.itlbMiss || r.ptw.dtlbMiss)) || i.flushEn;
      if !i.wait {
        accessBusy := false;
      } else if AccessStarts(r, i) {
        accessBusy, accessPa := true, TlatePa(r, i);
      }
    }

    method Clock(i: In)
      requires Valid()
      modifies this, arb, ptw, itlb, itlb.tlb, itlb.refs, dtlb, dtlb.tlb, dtlb.refs
      ensures Valid() && State() == Next(old(State()), i)
    {
      hide Tlb.Next, Ptw.Next, Arbiter.Next, ArbIn, ItlbIn, DtlbIn, PtwIn, Stall, Starts, StartCtx, AccessStarts,
           InstVpn, DataVpn, TlatePa, Ptw.Fills;
      var r := State();
      var arbIn, itlbIn, dtlbIn, ptwIn := ArbIn(i, Stall(r, i)), ItlbIn(r, i), DtlbIn(r, i), PtwIn(r, i);
      ClockParts(arbIn, itlbIn, dtlbIn, ptwIn);
      Latch(r, i);
    }
  }
}

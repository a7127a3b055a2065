/**
 * With page tables and satp fixed, every granted request retires with the verdict of the specification's walk for
 * its latched context, and every access on the bus is the granted request's own, at its own translation.
 */
module MmuProof {
  import opened Words
  import opened Privilege
  import opened Sv32
  import opened Mmu
  import Arbiter
  import Decoder
  import Isa
  import Tlb
  import TlbContents
  import Ptw

  datatype Verdict = Accessed(pa: Word) | PageFaulted(kind: Kind) | AccessFaulted | WalkFailed

  /** What the specification says of a request (section 4.3.2, with the permissions of sections 3.1.6.3 and 4.3.1). */
  function Judge(table: Table, c: Ctx): Verdict {
    if c.mode == M || !c.satp.mode then Accessed(c.addr)
    else match Walk(table, c.satp.ppn, c.addr)
      case Leaf(ppn, perm, level) =>
        if Allows(perm, KindOf(c), c.mode, c.sum, c.mxr) then
          Accessed(Translate(Frame(ppn, VpnOf(c.addr), level), c.addr))
        else PageFaulted(KindOf(c))
      case Invalid => PageFaulted(KindOf(c))
      case Unreachable => AccessFaulted
      case Failed => WalkFailed
  }

  type Roots = TlbContents.Roots

  /** satp names one of a family of address spaces in which global mappings agree. */
  ghost predicate Family(table: Table, roots: Roots, s: Satp) {
    TlbContents.GlobalsAgree(table, roots) && roots(s.asid) == s.ppn
  }

  function Entries(r: Regs, inst: bool): seq<Tlb.Entry> {
    if inst then r.itlb.entries else r.dtlb.entries
  }

  function SideOf(c: Ctx): Arbiter.Side {
    if c.isInst then Arbiter.Inst else Arbiter.Data
  }

  // ----- the invariant -----

  /** A read of one word on the bus. */
  predicate ReadsWord(c: Arbiter.Command) {
    c.rw == Arbiter.RwRead && c.size == Isa.I32 && c.amo == Decoder.AmoNone
  }

  /**
   * satp stays, and the memory answers the word reads of a walk from the page tables, in the cycle it does not wait.
   */
  predicate Stable(table: Table, s: Satp, r: Regs, i: In) {
    && i.satp == s
    && (r.ptw.state == Ptw.Read && !i.wait && ReadsWord(MemCommand(r, i)) ==>
          table(MemCommand(r, i).addr) == if i.err then BusError else Fine(i.rdata))
  }

  /** So the walker gets the entry it asks for: its reads are what is on the bus. */
  lemma WalkReadsTable(table: Table, s: Satp, r: Regs, i: In)
    requires Stable(table, s, r, i)
    ensures Ptw.Honest(table, r.ptw, PtwIn(r, i))
  {
    hide Grant, Eff, Miss, Denied, Pending, TlatePa, PteAddr;
  }

  ghost predicate TlbInv(table: Table, roots: Roots, r: Regs) {
    TlbContents.Sound(table, roots, r.itlb.entries) && TlbContents.Sound(table, roots, r.dtlb.entries)
  }

  /** Unless the contents have just changed, the registered outputs are lookups of the current contents. */
  predicate GateInv(s: Satp, r: Regs) {
    !r.tlbChanged ==>
      && r.itlb.q == Tlb.Lookup(r.itlb.entries, Tlb.Key(r.ivpn, s.asid, s.mode))
      && r.dtlb.q == Tlb.Lookup(r.dtlb.entries, Tlb.Key(r.dvpn, s.asid, s.mode))
  }

  predicate CtxInv(s: Satp, r: Regs) {
    Held(r) ==> r.ctx.satp == s && r.ctx.isInst == Arbiter.Held(r.arb, Arbiter.Inst) && !(r.ctx.isInst && r.ctx.isWrite)
  }

  ghost predicate BusyInv(table: Table, r: Regs) {
    r.accessBusy ==> Held(r) && r.ptw.state == Ptw.Idle && Judge(table, r.ctx) == Accessed(r.accessPa)
  }

  /** The walker works on the held request, whose page neither TLB entry covers. */
  ghost predicate WalkInv(table: Table, s: Satp, r: Regs) {
    r.ptw.state != Ptw.Idle ==>
      && Held(r) && Paged(r.ctx) && !r.accessBusy && Ptw.Sound(r.ptw)
      && r.ptw.va == r.ctx.addr && r.ptw.satp == s
      && r.ptw.itlbMiss == r.ctx.isInst && r.ptw.dtlbMiss == !r.ctx.isInst && r.ptw.isWrite == r.ctx.isWrite
      && Ptw.Rest(table, r.ptw) == Walk(table, s.ppn, r.ctx.addr)
      && TlbContents.Uncovered(Entries(r, r.ctx.isInst), VpnOf(r.ctx.addr), s.asid)
  }

  ghost predicate Inv(table: Table, roots: Roots, s: Satp, r: Regs) {
    && Shaped(r) && Family(table, roots, s)
    && TlbInv(table, roots, r) && GateInv(s, r) && CtxInv(s, r) && BusyInv(table, r) && WalkInv(table, s, r)
  }

  function Run(r: Regs, ins: seq<In>): (r': Regs)
    requires Shaped(r)
    ensures Shaped(r')
    decreases ins
  {
    if ins == [] then r else Run(Next(r, ins[0]), ins[1..])
  }

  // ----- the granted request -----

  lemma GrantFacts(r: Regs, i: In)
    ensures Held(r) ==> Active(r, i) && !Starts(r, i, Arbiter.Inst) && !Starts(r, i, Arbiter.Data)
    ensures Active(r, i) <==> Held(r) || Starts(r, i, Arbiter.Inst) || Starts(r, i, Arbiter.Data)
    ensures var r' := Arbiter.Next(r.arb, ArbIn(i, Stall(r, i)));
            && (r'.phase != Arbiter.Idle <==> Active(r, i) && Stall(r, i))
            && (Active(r, i) && Stall(r, i) ==>
                  Arbiter.Held(r', Arbiter.Inst) ==
                    if Held(r) then Arbiter.Held(r.arb, Arbiter.Inst) else Starts(r, i, Arbiter.Inst))
  {
    hide Stall;
  }

  /** The context of a request of one side. */
  function RequestOf(i: In, side: Arbiter.Side): Ctx {
    match side
    case Inst => Ctx(i.instAddr, i.satp, i.instMode, i.sum, i.mxr, true, false)
    case Data =>
      Ctx(i.data.addr, i.satp, i.dataMode, i.sum, i.mxr, false,
          i.storeLike || i.data.write || i.data.amo != Decoder.AmoNone)
  }

  /** What is granted is the request of the side that owns the bus, in the cycle of its grant and until it retires. */
  lemma GrantIsRequest(r: Regs, i: In, side: Arbiter.Side)
    requires Starts(r, i, side) && Shaped(r)
    ensures Active(r, i) && Eff(r, i) == RequestOf(i, side)
    ensures Stall(r, i) ==> Held(Next(r, i)) && Next(r, i).ctx == RequestOf(i, side)
  {
    hide Stall, Tlb.Next, Ptw.Next, AccessStarts, TlatePa, InstVpn, DataVpn;
  }

  lemma EffFacts(s: Satp, r: Regs, i: In)
    requires CtxInv(s, r) && i.satp == s && Shaped(r)
    ensures Eff(r, i).satp == s && !(Eff(r, i).isInst && Eff(r, i).isWrite)
    ensures Active(r, i) ==> Next(r, i).ctx == Eff(r, i)
    ensures Active(r, i) ==> (if Eff(r, i).isInst then InstVpn(r, i) else DataVpn(r, i)) == VpnOf(Eff(r, i).addr)
    ensures Active(r, i) && Stall(r, i) ==> Arbiter.Held(Next(r, i).arb, Arbiter.Inst) == Eff(r, i).isInst
  {
    hide Stall, Grant, Tlb.Next, Ptw.Next, Arbiter.Next, AccessStarts, TlatePa, Arbiter.Takes;
    GrantFacts(r, i);
  }

  lemma CtxKept(table: Table, roots: Roots, s: Satp, r: Regs, i: In)
    requires CtxInv(s, r) && i.satp == s && Shaped(r)
    ensures CtxInv(s, Next(r, i))
    ensures Held(Next(r, i)) <==> Active(r, i) && Stall(r, i)
  {
    hide Stall, Grant, Tlb.Next, Ptw.Next, Arbiter.Next, AccessStarts, TlatePa, Active, Eff;
    GrantFacts(r, i);
    EffFacts(s, r, i);
  }

  // ----- the registered lookup -----

  /** When the gate passes, the registered output is a lookup of the current TLB for the granted page. */
  lemma GateMeans(s: Satp, r: Regs, i: In)
    requires GateInv(s, r) && CtxInv(s, r) && i.satp == s && Shaped(r) && Looked(r, i)
    ensures Q(r, i) == Tlb.Lookup(Entries(r, Eff(r, i).isInst), Tlb.Key(VpnOf(Eff(r, i).addr), s.asid, true))
  {
    hide Grant, Starts, Tlb.Lookup, Eff, InstVpn, DataVpn;
    EffFacts(s, r, i);
  }

  lemma GateKept(s: Satp, r: Regs, i: In)
    requires CtxInv(s, r) && i.satp == s && Shaped(r)
    ensures GateInv(s, Next(r, i))
  {
    hide Stall, Grant, Starts, Tlb.Lookup, Eff, InstVpn, DataVpn, Ptw.Next, Arbiter.Next, AccessStarts, TlatePa,
         Ptw.Fills, Tlb.NextRefs, Tlb.Evicts, Tlb.Victim;
    EffFacts(s, r, i);
  }

  /** So a hit is the walk's leaf for the granted page, and a miss means the page is uncovered. */
  lemma LookedMeans(table: Table, roots: Roots, s: Satp, r: Regs, i: In)
    requires Inv(table, roots, s, r) && i.satp == s && Looked(r, i)
    ensures var c, q := Eff(r, i), Q(r, i); var o := Walk(table, s.ppn, c.addr);
            && (q.hit ==> o.Leaf? && q.perm == o.perm && q.ppn == Frame(o.ppn, VpnOf(c.addr), o.level))
            && (!q.hit ==> TlbContents.Uncovered(Entries(r, c.isInst), VpnOf(c.addr), s.asid))
  {
    hide Eff, Q, Looked, Tlb.Lookup, Walk, TlbContents.Faithful, TlbContents.Distinct, BusyInv, TlbContents.Answers,
         WalkInv, CtxInv, GateInv;
    GateMeans(s, r, i);
    TlbContents.LookupIsWalk(table, roots, Entries(r, Eff(r, i).isInst), Eff(r, i).addr, s.asid);
  }

  lemma PermissionIsAllows(c: Ctx, p: Perm)
    requires Paged(c) && !(c.isInst && c.isWrite)
    ensures Allows(p, KindOf(c), c.mode, c.sum, c.mxr) ==
            if c.isInst then PermInstOk(c, p) else if c.isWrite then PermStoreOk(c, p) else PermLoadOk(c, p)
  {
  }

  /** The three permission faults are one: of the request's own kind, when the leaf does not allow it. */
  lemma DeniedMeans(r: Regs, i: In)
    requires !(Eff(r, i).isInst && Eff(r, i).isWrite)
    ensures var c, q := Eff(r, i), Q(r, i);
            && Denied(r, i) == (Looked(r, i) && q.hit && !Allows(q.perm, KindOf(c), c.mode, c.sum, c.mxr))
            && forall kind :: PermFault(r, i, kind) <==> Denied(r, i) && kind == KindOf(c)
  {
    hide Eff, Q, Allows, PermInstOk, PermLoadOk, PermStoreOk, Pending, Active;
    if Looked(r, i) { PermissionIsAllows(Eff(r, i), Q(r, i).perm); }
  }

  // ----- the bus -----

  lemma UncoveredMisses(entries: seq<Tlb.Entry>, vpn: Vpn, asid: nat)
    requires TlbContents.Uncovered(entries, vpn, asid)
    ensures !Tlb.Lookup(entries, Tlb.Key(vpn, asid, true)).hit
  {
    hide Tlb.Covers, TlbContents.Includes;
    var g := Tlb.LastMatch(entries, |entries|, Tlb.Key(vpn, asid, true));
    if g >= 0 { TlbContents.CoversIsIncludes(entries[g], vpn); }
  }

  /** While the walker works, its request misses or its lookup is not valid yet. */
  lemma WalkerMisses(table: Table, roots: Roots, s: Satp, r: Regs, i: In)
    requires Inv(table, roots, s, r) && i.satp == s && r.ptw.state != Ptw.Idle
    ensures Eff(r, i) == r.ctx && Active(r, i) && (Pending(r, i) || Miss(r, i))
    ensures !Denied(r, i) && MemRw(r, i) == if WalkEn(r, i) then Arbiter.RwRead else Arbiter.RwIdle
  {
    hide TlbInv, BusyInv, Tlb.Lookup, Walk, Grant, TlateValid, Ptw.Rest, TlbContents.Uncovered, WalkEn, Starts,
         StartCtx;
    GrantFacts(r, i);
    if Looked(r, i) {
      GateMeans(s, r, i);
      UncoveredMisses(Entries(r, r.ctx.isInst), VpnOf(r.ctx.addr), s.asid);
    }
  }

  lemma IdleWalker(r: Regs, i: In)
    requires r.ptw.state == Ptw.Idle
    ensures Ptw.StartWalk(r.ptw, PtwIn(r, i)) == Miss(r, i)
    ensures WalkEn(r, i) ==> Miss(r, i)
    ensures Ptw.Stall(r.ptw, PtwIn(r, i)) == Miss(r, i)
    ensures !Miss(r, i) ==> Ptw.Next(r.ptw, PtwIn(r, i)).state == Ptw.Idle
    ensures !Ptw.Fills(r.ptw)
  {
    hide Eff, Active, Pending, Q;
  }

  /** Every access on the bus is the granted request's own, permitted, and at its own translation. */
  lemma BusIsOwn(table: Table, roots: Roots, s: Satp, r: Regs, i: In)
    requires Inv(table, roots, s, r) && i.satp == s && MemRw(r, i) != Arbiter.RwIdle && !WalkEn(r, i)
    ensures Active(r, i) && r.ptw.state == Ptw.Idle && !Miss(r, i) && !Denied(r, i) && !Pending(r, i)
    ensures Judge(table, Eff(r, i)) == Accessed(MemAddr(r, i)) && MemRw(r, i) == Grant(r, i).rw
    ensures Stall(r, i) == i.wait
  {
    hide TlbInv, GateInv, WalkInv, Walk, Grant, WalkEn, Starts, StartCtx, Translate, Frame, Allows, TlateValid;
    if r.ptw.state != Ptw.Idle { WalkerMisses(table, roots, s, r, i); }
    IdleWalker(r, i);
    EffFacts(s, r, i);
    DeniedMeans(r, i);
    if Looked(r, i) { LookedMeans(table, roots, s, r, i); }
  }

  predicate Accessing(r: Regs) {
    Shaped(r) && r.accessBusy && Held(r) && r.ptw.state == Ptw.Idle
  }

  lemma HeldGrant(r: Regs, i: In, i': In)
    requires Shaped(r) && Active(r, i) && Stall(r, i)
    ensures Held(Next(r, i)) && Grant(Next(r, i), i') == Grant(r, i)
  {
    hide Stall, Tlb.Next, Ptw.Next, AccessStarts, TlatePa, StartCtx, InstVpn, DataVpn;
  }

  /**
   * An access the memory makes wait is driven again, command and address, in the next cycle: whatever the core asks,
   * whatever satp is by then, and even if a flush has emptied the TLBs.
   */
  lemma AccessHeld(table: Table, roots: Roots, s: Satp, r: Regs, i: In, i': In)
    requires Inv(table, roots, s, r) && i.satp == s && MemRw(r, i) != Arbiter.RwIdle && !WalkEn(r, i) && i.wait
    ensures var r' := Next(r, i);
            Accessing(r') && MemCommand(r', i') == MemCommand(r, i) && !WalkEn(r', i')
              && MemRw(r', i') != Arbiter.RwIdle
  {
    hide TlbInv, GateInv, CtxInv, BusyInv, WalkInv, Tlb.Next, Arbiter.Next, Ptw.Next, Grant, Starts, StartCtx, Stall,
         WalkEn, TlatePa, InstVpn, DataVpn, TlateValid, Eff, Q;
    BusIsOwn(table, roots, s, r, i);
    HeldGrant(r, i, i');
    IdleWalker(r, i);
    IdleWalker(Next(r, i), i');
  }

  lemma AccessingCommand(r: Regs, i: In)
    requires Accessing(r)
    ensures !WalkEn(r, i) && !Miss(r, i) && !Denied(r, i) && !Pending(r, i) && MemRw(r, i) != Arbiter.RwIdle
    ensures MemCommand(r, i) == Grant(r, i).(addr := r.accessPa) && Active(r, i)
  {
    hide Eff, Q, TlateValid, Starts, TlatePa;
    GrantFacts(r, i);
    IdleWalker(r, i);
  }

  lemma AccessingKept(r: Regs, i: In, i': In)
    requires Accessing(r) && i.wait
    ensures Accessing(Next(r, i)) && MemCommand(Next(r, i), i') == MemCommand(r, i)
  {
    hide MemCommand, MemRw, WalkEn, Grant, Active, Tlb.Next, Arbiter.Next, Ptw.Next, Starts, StartCtx, TlatePa,
         InstVpn, DataVpn;
    AccessingCommand(r, i);
    IdleWalker(r, i);
    HeldGrant(r, i, i');
    AccessingCommand(Next(r, i), i');
  }

  /** From then on the same command is on the bus until the memory completes it, whatever happens meanwhile. */
  lemma {:induction false} AccessHeldUntilDone(r: Regs, i: In, more: seq<In>, last: In)
    requires Accessing(r) && i.wait && forall k :: 0 <= k < |more| ==> more[k].wait
    ensures MemCommand(Run(Next(r, i), more), last) == MemCommand(r, i)
    decreases more
  {
    hide MemCommand, Next, Held;
    if more == [] {
      AccessingKept(r, i, last);
    } else {
      AccessingKept(r, i, more[0]);
      AccessHeldUntilDone(Next(r, i), more[0], more[1..], last);
    }
  }

  lemma BusyKept(table: Table, roots: Roots, s: Satp, r: Regs, i: In)
    requires Inv(table, roots, s, r) && i.satp == s
    ensures BusyInv(table, Next(r, i))
  {
    hide TlbInv, GateInv, WalkInv, Judge, Tlb.Next, Arbiter.Next, Ptw.Next, Grant, Starts, StartCtx, Stall, WalkEn,
         TlatePa, InstVpn, DataVpn, TlateValid, Eff, Q;
    EffFacts(s, r, i);
    CtxKept(table, roots, s, r, i);
    GrantFacts(r, i);
    if r.accessBusy || AccessStarts(r, i) {
      if r.accessBusy { IdleWalker(r, i); DeniedMeans(r, i); }
      BusIsOwn(table, roots, s, r, i);
      IdleWalker(r, i);
      BusyEff(r, i);
    }
  }

  lemma BusyEff(r: Regs, i: In)
    ensures Held(r) ==> Eff(r, i) == r.ctx
    ensures !r.accessBusy && !WalkEn(r, i) ==> MemAddr(r, i) == TlatePa(r, i)
    ensures r.accessBusy && !WalkEn(r, i) ==> MemAddr(r, i) == r.accessPa
  {
    hide WalkEn, TlatePa;
  }

  // ----- the walker and the TLBs -----

  lemma StaysUncovered(r: Regs, i: In, inst: bool, vpn: Vpn, asid: nat)
    requires Shaped(r) && !Ptw.Fills(r.ptw) && TlbContents.Uncovered(Entries(r, inst), vpn, asid)
    ensures TlbContents.Uncovered(Entries(Next(r, i), inst), vpn, asid)
  {
    hide TlbContents.Uncovered, Arbiter.Next, Ptw.Next, Stall, Starts, StartCtx, InstVpn, DataVpn, AccessStarts,
         TlatePa, Tlb.NextRefs, Tlb.Flushed, Tlb.Lookup;
    if i.flushEn {
      TlbContents.FlushUncovers(Entries(r, inst), i.flush,
                                if inst then ItlbIn(r, i).key.mode else DtlbIn(r, i).key.mode, vpn, asid);
    }
  }

  lemma WalkStarts(table: Table, roots: Roots, s: Satp, r: Regs, i: In)
    requires Inv(table, roots, s, r) && i.satp == s && r.ptw.state == Ptw.Idle && Miss(r, i)
    ensures WalkInv(table, s, Next(r, i))
  {
    hide TlbInv, GateInv, BusyInv, Tlb.Next, Arbiter.Next, Ptw.Next, Ptw.StartWalk, Grant, Starts, StartCtx, Stall,
         WalkEn, TlatePa, InstVpn, DataVpn, TlateValid, Eff, Q, TlbContents.Uncovered, Walk, Ptw.Rest, Ptw.Fills;
    EffFacts(s, r, i);
    CtxKept(table, roots, s, r, i);
    IdleWalker(r, i);
    LookedMeans(table, roots, s, r, i);
    Ptw.StartSteps(table, r.ptw, PtwIn(r, i));
    StaysUncovered(r, i, Eff(r, i).isInst, VpnOf(Eff(r, i).addr), s.asid);
    StallsWhileWalking(r, i);
  }

  lemma StallsWhileWalking(r: Regs, i: In)
    ensures Ptw.Stall(r.ptw, PtwIn(r, i)) ==> Stall(r, i)
    ensures Miss(r, i) && !WalkEn(r, i) ==> MemRw(r, i) == Arbiter.RwIdle
  {
    hide Ptw.Stall, PtwIn, WalkEn;
  }

  lemma BusyWalkerStalls(p: Ptw.Regs, i: Ptw.In)
    requires p.state != Ptw.Idle && Ptw.Next(p, i).state != Ptw.Idle
    ensures Ptw.Stall(p, i) && !Ptw.Fills(p)
  {
  }

  lemma WalkGoesOn(table: Table, roots: Roots, s: Satp, r: Regs, i: In)
    requires Inv(table, roots, s, r) && Stable(table, s, r, i) && r.ptw.state != Ptw.Idle
    ensures WalkInv(table, s, Next(r, i))
  {
    hide TlbInv, GateInv, BusyInv, Tlb.Next, Arbiter.Next, Ptw.Next, Grant, Starts, StartCtx, Stall, WalkEn, TlatePa,
         InstVpn, DataVpn, TlateValid, Q, TlbContents.Uncovered, Walk, Ptw.Rest, Ptw.Fills, PtwIn, Ptw.Honest,
         Ptw.Sound, Ptw.Report, Ptw.Steps;
    if Ptw.Next(r.ptw, PtwIn(r, i)).state != Ptw.Idle {
      EffFacts(s, r, i);
      CtxKept(table, roots, s, r, i);
      WalkerMisses(table, roots, s, r, i);
      BusyWalkerStalls(r.ptw, PtwIn(r, i));
      StallsWhileWalking(r, i);
      WalkReadsTable(table, s, r, i);
      Ptw.StepKeepsRest(table, r.ptw, PtwIn(r, i));
      StaysUncovered(r, i, r.ctx.isInst, VpnOf(r.ctx.addr), s.asid);
    }
  }

  lemma WalkKept(table: Table, roots: Roots, s: Satp, r: Regs, i: In)
    requires Inv(table, roots, s, r) && Stable(table, s, r, i)
    ensures WalkInv(table, s, Next(r, i))
  {
    hide TlbInv, GateInv, BusyInv, CtxInv, Miss, Tlb.Next, Arbiter.Next, Ptw.Honest, Ptw.Next, PtwIn,
         TlbContents.Uncovered, Ptw.Rest, Walk, Paged;
    if r.ptw.state != Ptw.Idle {
      WalkGoesOn(table, roots, s, r, i);
    } else if Miss(r, i) {
      WalkStarts(table, roots, s, r, i);
    } else {
      IdleWalker(r, i);
    }
  }

  /** The filled leaf is the walk's, and its page was uncovered. */
  lemma FillIsWalk(table: Table, roots: Roots, s: Satp, r: Regs, i: In)
    requires Inv(table, roots, s, r) && i.satp == s && Ptw.Fills(r.ptw)
    ensures Eff(r, i) == r.ctx && r.ctx.satp == s && r.ptw.itlbMiss == r.ctx.isInst
            && r.ptw.dtlbMiss == !r.ctx.isInst && s.mode
    ensures var e := FillOf(r.ptw);
            && Walk(table, s.ppn, r.ctx.addr) == Leaf(e.ppn, e.perm, e.level)
            && e.vpn == VpnOf(r.ctx.addr) && e.asid == s.asid && e.level <= 1
            && TlbContents.Uncovered(Entries(r, r.ctx.isInst), e.vpn, e.asid)
  {
    hide TlbInv, GateInv, BusyInv, Walk, TlbContents.Uncovered;
  }

  lemma NoFill(r: Regs, i: In)
    ensures !Ptw.Fills(r.ptw) ==> !ItlbIn(r, i).fillEn && !DtlbIn(r, i).fillEn
    ensures ItlbIn(r, i).key.mode == DtlbIn(r, i).key.mode == Eff(r, i).satp.mode
    ensures ItlbIn(r, i).fill == DtlbIn(r, i).fill == FillOf(r.ptw)
    ensures Ptw.Fills(r.ptw) ==> ItlbIn(r, i).fillEn == r.ptw.itlbMiss && DtlbIn(r, i).fillEn == r.ptw.dtlbMiss
  {
    hide Eff;
  }

  lemma TlbKept(table: Table, roots: Roots, s: Satp, r: Regs, i: In)
    requires Inv(table, roots, s, r) && i.satp == s
    ensures TlbInv(table, roots, Next(r, i))
  {
    hide GateInv, BusyInv, WalkInv, Walk, TlbContents.Uncovered, TlbContents.Sound, Tlb.NextEntries, Tlb.NextRefs,
         Tlb.Victim, Eff, Ptw.Fills, Ptw.Next, Arbiter.Next, Stall, Starts, StartCtx, InstVpn, DataVpn, AccessStarts,
         TlatePa, ItlbIn, DtlbIn, FillOf, Tlb.Lookup;
    NoFill(r, i);
    if Ptw.Fills(r.ptw) { FillIsWalk(table, roots, s, r, i); }
    TlbContents.ContentsKept(table, roots, r.itlb, ItlbIn(r, i), r.ctx.addr);
    TlbContents.ContentsKept(table, roots, r.dtlb, DtlbIn(r, i), r.ctx.addr);
  }

  /** One cycle, with any requests, waits and flushes, keeps the invariant. */
  lemma InvKept(table: Table, roots: Roots, s: Satp, r: Regs, i: In)
    requires Inv(table, roots, s, r) && Stable(table, s, r, i)
    ensures Inv(table, roots, s, Next(r, i))
  {
    hide TlbInv, GateInv, CtxInv, BusyInv, WalkInv, Next, Ptw.Honest;
    TlbKept(table, roots, s, r, i);
    GateKept(s, r, i);
    CtxKept(table, roots, s, r, i);
    BusyKept(table, roots, s, r, i);
    WalkKept(table, roots, s, r, i);
  }

  // ----- retirement -----

  /** What the outputs of a retiring cycle say. */
  predicate Shows(r: Regs, i: In, v: Verdict) {
    var c := Eff(r, i);
    match v
    case Accessed(pa) =>
      && MemCommand(r, i) == Grant(r, i).(addr := pa) && !i.wait && !WalkEn(r, i)
      && (forall kind :: !PageFaultOut(r, i, kind)) && !AccessFaultOut(r, i, SideOf(c))
      && ErrOut(r, i, SideOf(c)) == i.err
    case PageFaulted(k) =>
      && (forall kind :: PageFaultOut(r, i, kind) <==> kind == k) && FaultAddr(r, i) == c.addr
      && MemRw(r, i) == Arbiter.RwIdle && !AccessFaultOut(r, i, SideOf(c))
    case AccessFaulted =>
      && AccessFaultOut(r, i, SideOf(c)) && (forall kind :: !PageFaultOut(r, i, kind)) && MemRw(r, i) == Arbiter.RwIdle
    case WalkFailed =>
      && WalkEn(r, i) && !i.wait && ErrOut(r, i, SideOf(c)) && (forall kind :: !PageFaultOut(r, i, kind))
      && !AccessFaultOut(r, i, SideOf(c))
  }

  lemma OwnerOfGrant(s: Satp, r: Regs, i: In)
    requires CtxInv(s, r) && Active(r, i)
    ensures ErrOut(r, i, SideOf(Eff(r, i))) == i.err
  {
    hide Stall;
  }

  lemma AccessShows(table: Table, roots: Roots, s: Satp, r: Regs, i: In)
    requires Inv(table, roots, s, r) && i.satp == s && MemRw(r, i) != Arbiter.RwIdle && !WalkEn(r, i) && !Stall(r, i)
    ensures Judge(table, Eff(r, i)) == Accessed(MemAddr(r, i)) && Shows(r, i, Judge(table, Eff(r, i)))
  {
    hide TlbInv, GateInv, WalkInv, BusyInv, Judge, WalkEn, MemAddr, Grant, Stall, ErrOut;
    BusIsOwn(table, roots, s, r, i);
    EffFacts(s, r, i);
    DeniedMeans(r, i);
    OwnerOfGrant(s, r, i);
  }

  /** Retiring with the walker at rest and no access: the leaf does not allow it. */
  lemma DeniedShows(table: Table, roots: Roots, s: Satp, r: Regs, i: In)
    requires Inv(table, roots, s, r) && i.satp == s && Active(r, i) && MemRw(r, i) == Arbiter.RwIdle && !Stall(r, i)
    requires r.ptw.state == Ptw.Idle
    ensures Shows(r, i, Judge(table, Eff(r, i)))
  {
    hide TlbInv, GateInv, WalkInv, BusyInv, WalkEn, MemAddr, Eff, Q, Allows, Walk, TlateValid;
    IdleWalker(r, i);
    StallsWhileWalking(r, i);
    EffFacts(s, r, i);
    DeniedMeans(r, i);
    LookedMeans(table, roots, s, r, i);
  }

  lemma WalkShows(table: Table, roots: Roots, s: Satp, r: Regs, i: In)
    requires Inv(table, roots, s, r) && Stable(table, s, r, i) && r.ptw.state != Ptw.Idle && !Stall(r, i)
    ensures Shows(r, i, Judge(table, Eff(r, i)))
  {
    hide TlbInv, GateInv, BusyInv, Eff, Q, Allows, Walk, TlateValid, MemAddr, PteAddr, FromPte, ErrOut, Grant;
    WalkReadsTable(table, s, r, i);
    WalkerMisses(table, roots, s, r, i);
    DeniedMeans(r, i);
    OwnerOfGrant(s, r, i);
  }

  /**
   * The verdict: whenever a granted request's stall falls, the outputs are those the specification's walk gives for
   * the context latched at its grant: the access at its translated address, a page fault of its own kind at its own
   * address, an access fault for a frame or table out of reach, or the bus error of the walk.
   */
  lemma RetiresWithVerdict(table: Table, roots: Roots, s: Satp, r: Regs, i: In)
    requires Inv(table, roots, s, r) && Stable(table, s, r, i) && Active(r, i) && !Stall(r, i)
    ensures Shows(r, i, Judge(table, Eff(r, i)))
  {
    hide Inv, Ptw.Honest, PtwIn, Shows, Judge, Eff, WalkEn, MemRw, Active, Stall;
    if r.ptw.state != Ptw.Idle {
      WalkShows(table, roots, s, r, i);
    } else if MemRw(r, i) == Arbiter.RwIdle {
      DeniedShows(table, roots, s, r, i);
    } else {
      NoWalkOnRetire(r, i);
      AccessShows(table, roots, s, r, i);
    }
  }

  lemma NoWalkOnRetire(r: Regs, i: In)
    requires r.ptw.state == Ptw.Idle && !Stall(r, i)
    ensures !WalkEn(r, i)
  {
    hide Miss, Pending, MemRw;
    IdleWalker(r, i);
  }

  // ----- a whole request -----

  ghost predicate StableRun(table: Table, s: Satp, r: Regs, ins: seq<In>)
    requires Shaped(r)
    decreases ins
  {
    ins == [] || (Stable(table, s, r, ins[0]) && StableRun(table, s, Next(r, ins[0]), ins[1..]))
  }

  /** The request granted in the first cycle stalls until it retires in the last. */
  ghost predicate OneRequest(r: Regs, ins: seq<In>)
    requires Shaped(r)
    decreases ins
  {
    && ins != [] && Active(r, ins[0])
    && if |ins| == 1 then !Stall(r, ins[0]) else Stall(r, ins[0]) && OneRequest(Next(r, ins[0]), ins[1..])
  }

  /** Accesses, other than the walk's reads, that the memory completes. */
  function AccessesDone(r: Regs, ins: seq<In>): nat
    requires Shaped(r)
    decreases ins
  {
    if ins == [] then 0
    else (if MemRw(r, ins[0]) != Arbiter.RwIdle && !WalkEn(r, ins[0]) && !ins[0].wait then 1 else 0)
         + AccessesDone(Next(r, ins[0]), ins[1..])
  }

  lemma {:induction false} RunKeeps(table: Table, roots: Roots, s: Satp, r: Regs, ins: seq<In>)
    requires Inv(table, roots, s, r) && StableRun(table, s, r, ins)
    ensures Inv(table, roots, s, Run(r, ins))
    decreases ins
  {
    hide TlbInv, GateInv, CtxInv, BusyInv, WalkInv, Next, Stable;
    if ins == [] {
    } else {
      InvKept(table, roots, s, r, ins[0]);
      RunKeeps(table, roots, s, Next(r, ins[0]), ins[1..]);
    }
  }

  lemma EffHeld(table: Table, roots: Roots, s: Satp, r: Regs, i: In, i': In)
    requires Inv(table, roots, s, r) && i.satp == s && Active(r, i) && Stall(r, i)
    ensures Eff(Next(r, i), i') == Eff(r, i)
  {
    hide TlbInv, GateInv, BusyInv, WalkInv, Next, Stall, Active, StartCtx;
    EffFacts(s, r, i);
    CtxKept(table, roots, s, r, i);
  }

  /**
   * From grant to retirement: the context is the one of the grant, the last cycle shows its verdict, and exactly one
   * access is completed if the verdict is an access, none otherwise.
   */
  lemma {:induction false} RequestGetsVerdict(table: Table, roots: Roots, s: Satp, r: Regs, ins: seq<In>)
    requires Inv(table, roots, s, r) && StableRun(table, s, r, ins) && OneRequest(r, ins)
    ensures var c, n, last := Eff(r, ins[0]), |ins| - 1, Run(r, ins[..|ins| - 1]);
            && Eff(last, ins[n]) == c && Shows(last, ins[n], Judge(table, c))
            && AccessesDone(r, ins) == if Judge(table, c).Accessed? then 1 else 0
    decreases ins
  {
    hide TlbInv, GateInv, CtxInv, BusyInv, WalkInv, Next, Stall, Active, Eff, Shows, Judge, MemRw, WalkEn, Ptw.Honest;
    var i, n := ins[0], |ins| - 1;
    LastAccess(table, roots, s, r, i);
    if |ins| == 1 {
      RetiresWithVerdict(table, roots, s, r, i);
      assert AccessesDone(Next(r, i), ins[1..]) == 0;
    } else {
      InvKept(table, roots, s, r, i);
      EffHeld(table, roots, s, r, i, ins[1]);
      RequestGetsVerdict(table, roots, s, Next(r, i), ins[1..]);
      assert ins[..n][1..] == ins[1..][..n - 1];
    }
  }

  lemma LastAccess(table: Table, roots: Roots, s: Satp, r: Regs, i: In)
    requires Inv(table, roots, s, r) && Stable(table, s, r, i) && Active(r, i)
    ensures var done := MemRw(r, i) != Arbiter.RwIdle && !WalkEn(r, i) && !i.wait;
            && (done ==> !Stall(r, i))
            && (!Stall(r, i) ==> done == Judge(table, Eff(r, i)).Accessed?)
  {
    hide Inv, Next, Stall, Active, Eff, Judge, MemRw, WalkEn, MemAddr, Ptw.Honest, MemCommand, PageFaultOut,
         AccessFaultOut, ErrOut, FaultAddr;
    if MemRw(r, i) != Arbiter.RwIdle && !WalkEn(r, i) { BusIsOwn(table, roots, s, r, i); }
    if !Stall(r, i) {
      RetiresWithVerdict(table, roots, s, r, i);
      GrantShown(r, i);
    }
  }

  lemma GrantShown(r: Regs, i: In)
    requires Active(r, i)
    ensures MemCommand(r, i).rw == Grant(r, i).rw ==> MemRw(r, i) != Arbiter.RwIdle
  {
    hide WalkEn, Miss, Denied, Pending, Grant;
  }

  // ----- the same, in terms of the request and of what is on the bus -----

  lemma {:induction false} GrantThroughout(r: Regs, ins: seq<In>)
    requires Shaped(r) && OneRequest(r, ins)
    ensures var n := |ins| - 1; Grant(Run(r, ins[..n]), ins[n]) == Grant(r, ins[0])
    decreases ins
  {
    hide Next, Stall, Active, Grant;
    var n := |ins| - 1;
    if n == 0 {
      assert ins[..0] == [];
    } else {
      HeldGrant(r, ins[0], ins[1]);
      GrantThroughout(Next(r, ins[0]), ins[1..]);
      assert ins[..n][1..] == ins[1..][..n - 1];
    }
  }

  /** The command granted is the request as the core puts it. */
  lemma GrantIsInput(r: Regs, i: In, side: Arbiter.Side)
    requires Starts(r, i, side)
    ensures var c := Grant(r, i);
            if side == Arbiter.Data then Arbiter.Carries(c, i.data) else Arbiter.ReadsWordAt(c, i.instAddr)
  {
  }

  /** A request, as the core puts it in the cycle of its grant: its address, mode and kind. */
  function AddrOf(i: In, side: Arbiter.Side): Word {
    if side == Arbiter.Inst then i.instAddr else i.data.addr
  }

  function ModeOf(i: In, side: Arbiter.Side): Mode {
    if side == Arbiter.Inst then i.instMode else i.dataMode
  }

  function KindAsked(i: In, side: Arbiter.Side): Kind {
    if side == Arbiter.Inst then Fetch
    else if i.data.write || i.storeLike || i.data.amo != Decoder.AmoNone then Store
    else Load
  }

  /** Other than for a walk, the memory completes a command in this cycle. */
  predicate Accesses(r: Regs, i: In) {
    MemRw(r, i) != Arbiter.RwIdle && !WalkEn(r, i) && !i.wait
  }

  lemma RetiredAccess(table: Table, c: Ctx, r: Regs, i: In)
    requires Eff(r, i) == c && Shows(r, i, Judge(table, c)) && Grant(r, i).rw != Arbiter.RwIdle
    ensures Accesses(r, i) <==> Judge(table, c).Accessed?
    ensures Accesses(r, i) ==> MemCommand(r, i) == Grant(r, i).(addr := Judge(table, c).pa)
  {
    hide Judge, Eff, Grant, WalkEn, MemAddr, PageFaultOut, AccessFaultOut, ErrOut, FaultAddr, Miss, Denied, Pending;
  }

  lemma AccessJudged(table: Table, c: Ctx)
    ensures !c.satp.mode || c.mode == M ==> Judge(table, c) == Accessed(c.addr)
    ensures c.satp.mode && c.mode != M ==>
              var o := Walk(table, c.satp.ppn, c.addr);
              && (Judge(table, c).Accessed? <==> o.Leaf? && Allows(o.perm, KindOf(c), c.mode, c.sum, c.mxr))
              && (Judge(table, c).Accessed? ==>
                    Judge(table, c).pa == Translate(Frame(o.ppn, VpnOf(c.addr), o.level), c.addr))
  {
    hide Walk, Frame, Translate;
  }

  lemma FrameAddress(table: Table, root: Ppn, va: Word)
    requires Walk(table, root, va).Leaf?
    ensures var o := Walk(table, root, va); var pa := Translate(Frame(o.ppn, VpnOf(va), o.level), va);
            && pa % 0x1000 == va % 0x1000
            && pa / 0x1000 == if o.level == 0 then o.ppn else o.ppn - o.ppn % 1024 + va / 0x1000 % 1024
  {
    hide PteAddr, PteOf;
    var o := Walk(table, root, va);
    LeafShape(table, root, va);
    var f := Frame(o.ppn, VpnOf(va), o.level);
    FrameInReach(o.ppn, va, o.level);
    DivModIs(f * 0x1000 + va % 0x1000, 0x1000, f, va % 0x1000);
  }

  lemma LeafShape(table: Table, root: Ppn, va: Word)
    requires Walk(table, root, va).Leaf?
    ensures Walk(table, root, va).ppn < 0x10_0000 && Walk(table, root, va).level <= 1
  {
    hide PteAddr, PteOf;
  }

  lemma FrameInReach(ppn: Ppn, va: Word, level: nat)
    requires ppn < 0x10_0000
    ensures Frame(ppn, VpnOf(va), level) < 0x10_0000
  {
  }

  /**
   * What the memory sees of a request. Untranslated (in machine mode, or with satp Bare) it is completed at its own
   * address. Translated it is completed if and only if the walk of its address is a leaf that permits it, in the
   * leaf's frame and at its own offset. It is a word read for a fetch, else the request's own size, data, atomic
   * operation and direction.
   */
  lemma RequestOnBus(table: Table, roots: Roots, s: Satp, r: Regs, ins: seq<In>, side: Arbiter.Side)
    requires Inv(table, roots, s, r) && StableRun(table, s, r, ins) && OneRequest(r, ins) && Starts(r, ins[0], side)
    ensures var q, n, last := ins[0], |ins| - 1, Run(r, ins[..|ins| - 1]);
            var va, o := AddrOf(q, side), Walk(table, s.ppn, AddrOf(q, side));
            var done, c := Accesses(last, ins[n]), MemCommand(last, ins[n]);
            && (ModeOf(q, side) == M || !s.mode ==> done && c.addr == va)
            && (ModeOf(q, side) != M && s.mode ==>
                  && (done <==> o.Leaf? && Allows(o.perm, KindAsked(q, side), ModeOf(q, side), q.sum, q.mxr))
                  && (done ==>
                        && c.addr % 0x1000 == va % 0x1000
                        && c.addr / 0x1000 ==
                             if o.level == 0 then o.ppn else o.ppn - o.ppn % 1024 + va / 0x1000 % 1024))
            && (done ==>
                  if side == Arbiter.Data then Arbiter.Carries(c, q.data.(addr := c.addr))
                  else Arbiter.ReadsWordAt(c, c.addr))
  {
    hide Next, Stall, Active, Eff, Shows, Judge, MemRw, WalkEn, MemCommand, Walk, Frame, Translate, Allows, StableRun,
         OneRequest, Starts, Grant, TlbInv, GateInv, CtxInv, BusyInv, WalkInv, Family, Run, Accesses;
    FirstIsStable(table, s, r, ins);
    var c, n, last := Eff(r, ins[0]), |ins| - 1, Run(r, ins[..|ins| - 1]);
    RequestGetsVerdict(table, roots, s, r, ins);
    GrantIsRequest(r, ins[0], side);
    GrantThroughout(r, ins);
    GrantIsInput(r, ins[0], side);
    RetiredAccess(table, c, last, ins[n]);
    AccessJudged(table, c);
    if Walk(table, s.ppn, c.addr).Leaf? { FrameAddress(table, s.ppn, c.addr); }
  }

  lemma FirstIsStable(table: Table, s: Satp, r: Regs, ins: seq<In>)
    requires Shaped(r) && StableRun(table, s, r, ins) && OneRequest(r, ins)
    ensures ins != [] && ins[0].satp == s
  {
  }
}

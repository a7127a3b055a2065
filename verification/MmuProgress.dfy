/** Where the MMU's guarantees start from, and that without flushes every request retires. */
module MmuProgress {
  import opened Words
  import opened Sv32
  import opened Mmu
  import opened MmuProof
  import Arbiter
  import Tlb
  import TlbContents
  import Ptw

  // ----- starting points -----

  /** For one address space nothing is promised: its root may stand for every other. */
  lemma OneSpace(table: Table, s: Satp)
    ensures Family(table, a => s.ppn, s)
  {
    hide Walk;
  }

  lemma EmptySlots(table: Table, roots: Roots, entries: seq<Tlb.Entry>)
    requires forall g :: 0 <= g < |entries| ==> entries[g] == Tlb.EMPTY
    ensures TlbContents.Sound(table, roots, entries)
    ensures forall k: Tlb.Key :: Tlb.Lookup(entries, k) == Tlb.MISS
  {
    hide Tlb.EMPTY, Tlb.MISS, Tlb.Mask, Walk;
    TlbContents.EmptyIsInvalid();
  }

  /** From reset, for any page tables and any satp. */
  lemma ResetSound(table: Table, roots: Roots, s: Satp, itlbEntries: nat, dtlbEntries: nat)
    requires itlbEntries >= 2 && dtlbEntries >= 2 && Family(table, roots, s)
    ensures Inv(table, roots, s, Reset(itlbEntries, dtlbEntries))
  {
    hide TlbContents.Sound, Tlb.Lookup, Tlb.EMPTY, Tlb.MISS, NO_CTX, Judge, Walk, Ptw.Rest, Arbiter.RESET, Ptw.RESET;
    ResetParts();
    EmptySlots(table, roots, Tlb.Reset(itlbEntries).entries);
    EmptySlots(table, roots, Tlb.Reset(dtlbEntries).entries);
  }

  lemma ResetParts()
    ensures Arbiter.RESET.phase == Arbiter.Idle && Ptw.RESET.state == Ptw.Idle
  {
  }

  /**
   * A full flush taken with the walker idle, whatever is requested or held in that cycle: for page tables and a satp
   * that stay from then on, everything but an access already waiting on the bus is sound from the next cycle on.
   */
  lemma FlushSound(table: Table, roots: Roots, s: Satp, r: Regs, i: In)
    requires Shaped(r) && CtxInv(s, r) && i.satp == s && r.ptw.state == Ptw.Idle && i.flushEn && !i.flush.fine
    requires (r.accessBusy ==> Held(r)) && Family(table, roots, s)
    ensures Settling(table, roots, s, Next(r, i))
    ensures !Next(r, i).accessBusy ==> Inv(table, roots, s, Next(r, i))
  {
    hide TlbInv, GateInv, CtxInv, WalkInv, Next, Held, Shaped, Family;
    FlushEmpties(table, roots, s, r, i);
    GateKept(s, r, i);
    CtxKept(table, roots, s, r, i);
    FlushedWalk(table, roots, s, r, i);
    AccessHasRequest(r, i);
  }

  /** All of the invariant but the translation of an access still waiting, which was made before the flush. */
  ghost predicate Settling(table: Table, roots: Roots, s: Satp, r: Regs) {
    && Shaped(r) && Family(table, roots, s)
    && TlbInv(table, roots, r) && GateInv(s, r) && CtxInv(s, r) && WalkInv(table, s, r)
    && (r.accessBusy ==> Held(r) && r.ptw.state == Ptw.Idle)
  }

  lemma FlushEmpties(table: Table, roots: Roots, s: Satp, r: Regs, i: In)
    requires Shaped(r) && i.flushEn && !i.flush.fine
    ensures TlbInv(table, roots, Next(r, i))
    ensures forall inst: bool, vpn: Vpn, asid: nat :: TlbContents.Uncovered(Entries(Next(r, i), inst), vpn, asid)
  {
    hide TlbContents.Sound, TlbContents.Uncovered, Tlb.Lookup, Tlb.NextRefs, Tlb.Flushed, StartCtx, TlatePa, InstVpn,
         DataVpn, Stall, Ptw.Next, Arbiter.Next, AccessStarts, Ptw.Fills, Tlb.Evicts, Tlb.Victim;
    TlbContents.FullFlush(table, roots, r.itlb.entries, i.flush, ItlbIn(r, i).key.mode);
    TlbContents.FullFlush(table, roots, r.dtlb.entries, i.flush, DtlbIn(r, i).key.mode);
  }

  lemma FlushedWalk(table: Table, roots: Roots, s: Satp, r: Regs, i: In)
    requires Shaped(r) && CtxInv(s, r) && i.satp == s && r.ptw.state == Ptw.Idle && i.flushEn && !i.flush.fine
    ensures WalkInv(table, s, Next(r, i))
    ensures Next(r, i).accessBusy ==> Next(r, i).ptw.state == Ptw.Idle
  {
    hide TlbInv, Tlb.Next, Arbiter.Next, Ptw.Next, Ptw.StartWalk, Grant, Starts, StartCtx, Stall, WalkEn, TlatePa,
         InstVpn, DataVpn, TlateValid, Eff, Q, TlbContents.Uncovered, Walk, Ptw.Rest, Ptw.Fills;
    FlushEmpties(table, roots, s, r, i);
    EffFacts(s, r, i);
    CtxKept(table, roots, s, r, i);
    IdleWalker(r, i);
    StallsWhileWalking(r, i);
    if Miss(r, i) { Ptw.StartSteps(table, r.ptw, PtwIn(r, i)); }
  }

  // ----- what holds at the bus whatever satp and the page tables do -----

  /** The walker and a waiting access belong to a held request. */
  predicate Orderly(r: Regs) {
    Shaped(r) && (r.ptw.state != Ptw.Idle ==> Held(r)) && (r.accessBusy ==> Held(r))
  }

  lemma AccessHasRequest(r: Regs, i: In)
    requires Shaped(r) && (r.accessBusy ==> Held(r))
    ensures Next(r, i).accessBusy ==> i.wait && Active(r, i) && Stall(r, i) && Held(Next(r, i))
  {
    hide Tlb.Next, Arbiter.Next, Ptw.Next, StartCtx, TlatePa, InstVpn, DataVpn, Eff, Q, TlateValid, Ptw.Stall, WalkEn,
         PtwIn, Grant, Starts;
    GrantFacts(r, i);
    DeniedNeedsLook(r, i);
  }

  lemma WalkHasRequest(r: Regs, i: In)
    requires Orderly(r)
    ensures Next(r, i).ptw.state != Ptw.Idle ==> Active(r, i) && Stall(r, i) && Held(Next(r, i))
  {
    hide Tlb.Next, Arbiter.Next, Ptw.Next, StartCtx, TlatePa, InstVpn, DataVpn, Eff, Q, TlateValid, Ptw.Stall, WalkEn,
         PtwIn, Grant, Starts, AccessStarts, Stall;
    GrantFacts(r, i);
    StallsWhileWalking(r, i);
    if r.ptw.state == Ptw.Idle {
      IdleWalker(r, i);
    } else if Ptw.Next(r.ptw, PtwIn(r, i)).state != Ptw.Idle {
      BusyWalkerStalls(r.ptw, PtwIn(r, i));
    }
  }

  /** In every run from reset, whatever satp, the page tables, the flushes and the requests do. */
  lemma {:induction false} OrderlyKept(r: Regs, ins: seq<In>)
    requires Orderly(r)
    ensures Orderly(Run(r, ins))
    decreases ins
  {
    hide Next, Held, Stall, Active;
    if ins == [] {
    } else {
      WalkHasRequest(r, ins[0]);
      AccessHasRequest(r, ins[0]);
      OrderlyKept(Next(r, ins[0]), ins[1..]);
    }
  }

  lemma ResetOrderly(itlbEntries: nat, dtlbEntries: nat)
    requires itlbEntries >= 2 && dtlbEntries >= 2
    ensures Orderly(Reset(itlbEntries, dtlbEntries))
  {
    hide Tlb.EMPTY, Tlb.MISS, NO_CTX, Arbiter.RESET, Ptw.RESET;
    ResetParts();
  }

  /** Neither side sees its wait line high. */
  predicate NoWait(r: Regs, i: In) {
    !Arbiter.WaitOut(r.arb, ArbIn(i, Stall(r, i)), Arbiter.Inst)
      && !Arbiter.WaitOut(r.arb, ArbIn(i, Stall(r, i)), Arbiter.Data)
  }

  lemma NoWaitNoStall(r: Regs, i: In)
    requires NoWait(r, i) && Active(r, i)
    ensures !Stall(r, i)
  {
    hide Stall;
  }

  /**
   * EX takes an sfence.vma only when neither side waits (rtl/core/friscv_control_unit.sv:143), and flushes in the
   * next cycle (rtl/core/friscv_ex_stage.sv:331): then nothing is held, nothing is walked, and no access waits.
   */
  lemma QuietAfterNoWait(r: Regs, i: In)
    requires Orderly(r) && NoWait(r, i)
    ensures var r' := Next(r, i); !Held(r') && r'.ptw.state == Ptw.Idle && !r'.accessBusy
  {
    hide Next, Stall, Active, NoWait;
    WalkHasRequest(r, i);
    AccessHasRequest(r, i);
    if Active(r, i) { NoWaitNoStall(r, i); }
    HeldNeedsStall(r, i);
  }

  lemma HeldNeedsStall(r: Regs, i: In)
    requires Shaped(r)
    ensures Held(Next(r, i)) ==> Active(r, i) && Stall(r, i)
  {
    hide Tlb.Next, Arbiter.Next, Ptw.Next, StartCtx, TlatePa, InstVpn, DataVpn, AccessStarts, Stall, Grant, Starts;
    GrantFacts(r, i);
  }

  // ----- the access that outlives the flush -----

  lemma SettlingKept(table: Table, roots: Roots, s: Satp, r: Regs, i: In)
    requires Settling(table, roots, s, r) && r.accessBusy && i.satp == s
    ensures Settling(table, roots, s, Next(r, i))
    ensures Next(r, i).accessBusy <==> i.wait
    ensures !i.wait ==> Inv(table, roots, s, Next(r, i))
  {
    hide TlbInv, GateInv, CtxInv, Tlb.Next, Arbiter.Next, Ptw.Next, StartCtx, TlatePa, InstVpn, DataVpn, Stall,
         Starts, WalkEn, Held, TlbContents.Uncovered, Walk, Ptw.Rest, Judge, Eff, Q, TlateValid, Grant, PtwIn, Family;
    IdleWalker(r, i);
    DeniedNeedsLook(r, i);
    GateKept(s, r, i);
    CtxKept(table, roots, s, r, i);
    AccessHasRequest(r, i);
    TlbSettles(table, roots, s, r, i);
  }

  lemma TlbSettles(table: Table, roots: Roots, s: Satp, r: Regs, i: In)
    requires Shaped(r) && Family(table, roots, s) && TlbInv(table, roots, r) && r.ptw.state == Ptw.Idle
    ensures TlbInv(table, roots, Next(r, i))
  {
    hide TlbContents.Sound, Tlb.NextEntries, Tlb.NextRefs, Tlb.Victim, Eff, Ptw.Next, Arbiter.Next, Stall, Starts,
         StartCtx, InstVpn, DataVpn, AccessStarts, TlatePa, ItlbIn, DtlbIn, FillOf, Tlb.Lookup;
    NoFill(r, i);
    TlbContents.ContentsKept(table, roots, r.itlb, ItlbIn(r, i), r.ctx.addr);
    TlbContents.ContentsKept(table, roots, r.dtlb, DtlbIn(r, i), r.ctx.addr);
  }

  lemma {:induction false} SettlesInRun(table: Table, roots: Roots, s: Satp, r: Regs, ins: seq<In>)
    requires Settling(table, roots, s, r) && StableRun(table, s, r, ins) && (!r.accessBusy ==> Inv(table, roots, s, r))
    requires r.accessBusy ==> exists k :: 0 <= k < |ins| && !ins[k].wait
    ensures Inv(table, roots, s, Run(r, ins))
    decreases ins
  {
    hide TlbInv, GateInv, CtxInv, WalkInv, BusyInv, Next, Held;
    if !r.accessBusy {
      RunKeeps(table, roots, s, r, ins);
    } else if ins != [] {
      SettlingKept(table, roots, s, r, ins[0]);
      if ins[0].wait {
        var k :| 0 <= k < |ins| && !ins[k].wait;
        assert !ins[1..][k - 1].wait;
      }
      SettlesInRun(table, roots, s, Next(r, ins[0]), ins[1..]);
    }
  }

  /**
   * Since a full flush taken with the walker idle, satp and the page tables being fixed: the invariant, and with it
   * the verdict of every later request, holds as soon as an access waiting across the flush, if there is one, is done.
   */
  lemma FlushSettles(table: Table, roots: Roots, s: Satp, r: Regs, i: In, ins: seq<In>)
    requires Shaped(r) && CtxInv(s, r) && i.satp == s && r.ptw.state == Ptw.Idle && i.flushEn && !i.flush.fine
    requires (r.accessBusy ==> Held(r)) && StableRun(table, s, Next(r, i), ins) && Family(table, roots, s)
    requires Next(r, i).accessBusy ==> exists k :: 0 <= k < |ins| && !ins[k].wait
    ensures Inv(table, roots, s, Run(Next(r, i), ins))
  {
    hide Settling, Inv, CtxInv, Next, Held, StableRun, Run;
    FlushSound(table, roots, s, r, i);
    SettlesInRun(table, roots, s, Next(r, i), ins);
  }

  /**
   * The core's own flush: the cycle after one without waits, from any reachable state, for any satp and page tables.
   */
  lemma SfenceSettles(table: Table, roots: Roots, s: Satp, r: Regs, before: In, i: In, ins: seq<In>)
    requires Orderly(r) && NoWait(r, before) && i.satp == s && i.flushEn && !i.flush.fine && Family(table, roots, s)
    requires var r1 := Next(Next(r, before), i);
             StableRun(table, s, r1, ins) && (r1.accessBusy ==> exists k :: 0 <= k < |ins| && !ins[k].wait)
    ensures Inv(table, roots, s, Run(Next(Next(r, before), i), ins))
  {
    hide Inv, Next, StableRun, Run, NoWait;
    QuietAfterNoWait(r, before);
    FlushSettles(table, roots, s, Next(r, before), i, ins);
  }

  // ----- another address space without a fence -----

  /** With the gate shut, what the registered lookups hold does not matter. */
  lemma GateShut(r: Regs, i: In)
    requires Shaped(r) && !Looked(r, i)
    ensures Next(r.(tlbChanged := true), i) == Next(r, i)
  {
    hide Tlb.Next, Ptw.Next, Arbiter.Next, Active, Eff, Starts, StartCtx, Grant, Q, Ptw.WalkEn, Ptw.Stall, Ptw.Fills;
    var r1 := r.(tlbChanged := true);
    SameGrant(r, i);
    assert InstVpn(r1, i) == InstVpn(r, i) && DataVpn(r1, i) == DataVpn(r, i);
    assert Pending(r1, i) == Pending(r, i) && !Looked(r1, i) && PtwIn(r1, i) == PtwIn(r, i);
    assert !Denied(r1, i) && !Denied(r, i);
  }

  lemma SameGrant(r: Regs, i: In)
    ensures var r1 := r.(tlbChanged := true);
            && Eff(r1, i) == Eff(r, i) && Active(r1, i) == Active(r, i) && Grant(r1, i) == Grant(r, i)
            && Q(r1, i) == Q(r, i) && StartCtx(r1, i) == StartCtx(r, i)
            && forall side :: Starts(r1, i, side) == Starts(r, i, side)
  {
  }

  /**
   * satp may move to another address space of the family with no fence: between requests, in a cycle in which no
   * lookup registered under the old one is used, everything is kept, and every later request gets its verdict there.
   */
  lemma SwitchKept(table: Table, roots: Roots, s: Satp, s': Satp, r: Regs, i: In)
    requires Inv(table, roots, s, r) && Family(table, roots, s') && i.satp == s' && !Held(r) && !Looked(r, i)
    ensures Inv(table, roots, s', Next(r, i))
  {
    hide TlbContents.Sound, Family, Next, Judge, Walk, TlbContents.Uncovered, Ptw.Rest, MemCommand, Looked, Tlb.Lookup;
    var r1 := r.(tlbChanged := true);
    assert Inv(table, roots, s', r1);
    GateShut(r, i);
    InvKept(table, roots, s', r1, i);
  }

  // ----- every request retires -----

  predicate Covered(entries: seq<Tlb.Entry>, vpn: Vpn, asid: nat) {
    !TlbContents.Uncovered(entries, vpn, asid)
  }

  function OwnEntries(r: Regs, i: In): seq<Tlb.Entry> {
    Entries(r, Eff(r, i).isInst)
  }

  /** Cycles the granted request still needs, waits apart. */
  function Left(r: Regs, i: In): nat {
    if r.accessBusy || !Paged(Eff(r, i)) then 1
    else if r.ptw.state != Ptw.Idle then 3 + Ptw.Steps(r.ptw)
    else if Covered(OwnEntries(r, i), VpnOf(Eff(r, i).addr), Eff(r, i).satp.asid)
      then (if TlateValid(r, i) then 1 else 2)
    else (if TlateValid(r, i) then 9 else 10)
  }

  /** Until a flush, the gate stays open while the walker works. */
  predicate Open(r: Regs) {
    r.ptw.state != Ptw.Idle ==>
      !r.tlbChanged && (if r.ctx.isInst then r.ivpn else r.dvpn) == VpnOf(r.ctx.addr)
  }

  lemma OpenMeans(r: Regs, i: In)
    requires Open(r) && r.ptw.state != Ptw.Idle && Held(r) && Active(r, i)
    ensures !Pending(r, i)
  {
    hide Active;
  }

  lemma OpenKept(table: Table, roots: Roots, s: Satp, r: Regs, i: In)
    requires Inv(table, roots, s, r) && i.satp == s && Active(r, i) && Open(r) && !i.flushEn
    ensures Open(Next(r, i))
  {
    hide TlbInv, GateInv, BusyInv, Active, Stall, Starts, StartCtx, Tlb.Next, Arbiter.Next, TlatePa, AccessStarts,
         Walk, Ptw.Rest, TlbContents.Uncovered, PtwIn, InstVpn, DataVpn, Eff;
    EffFacts(s, r, i);
    FillEnds(r.ptw, PtwIn(r, i));
  }

  lemma FillEnds(p: Ptw.Regs, i: Ptw.In)
    ensures Ptw.Fills(p) ==> Ptw.Next(p, i).state == Ptw.Idle
  {
  }

  /** The gate opens in the cycle after one that neither fills nor flushes. */
  lemma GateOpens(table: Table, roots: Roots, s: Satp, r: Regs, i: In, i': In)
    requires Inv(table, roots, s, r) && i.satp == s && Active(r, i) && Stall(r, i) && !i.flushEn && !Ptw.Fills(r.ptw)
    ensures TlateValid(Next(r, i), i')
  {
    hide TlbInv, GateInv, BusyInv, WalkInv, Stall, Starts, StartCtx, Tlb.Next, Arbiter.Next, Ptw.Next, TlatePa,
         AccessStarts, PtwIn, Ptw.Fills, Active, Eff;
    EffFacts(s, r, i);
    CtxKept(table, roots, s, r, i);
    EffHeld(table, roots, s, r, i, i');
    GrantFacts(Next(r, i), i');
  }

  lemma SameEntries(r: Regs, i: In, inst: bool)
    requires Shaped(r) && !i.flushEn && !Ptw.Fills(r.ptw)
    ensures Entries(Next(r, i), inst) == Entries(r, inst)
  {
    hide Arbiter.Next, Ptw.Next, Stall, Starts, StartCtx, InstVpn, DataVpn, AccessStarts, TlatePa, Tlb.NextRefs,
         Tlb.Lookup;
  }

  /** The page whose leaf was filled is covered. */
  lemma FillCovers(table: Table, roots: Roots, s: Satp, r: Regs, i: In)
    requires Inv(table, roots, s, r) && i.satp == s && Ptw.Fills(r.ptw) && !i.flushEn
    ensures Covered(Entries(Next(r, i), r.ctx.isInst), VpnOf(r.ctx.addr), s.asid)
  {
    hide TlbInv, GateInv, BusyInv, WalkInv, Arbiter.Next, Ptw.Next, Stall, Starts, StartCtx, InstVpn, DataVpn,
         AccessStarts, TlatePa, Tlb.NextRefs, Tlb.Lookup, Tlb.Victim, Eff, Walk, Ptw.Fills, FillOf, TlbContents.Sound,
         TlbContents.Uncovered, Tlb.Mask;
    FillIsWalk(table, roots, s, r, i);
    LeafIsValid(table, s.ppn, r.ctx.addr);
    NoFill(r, i);
    EntryCovers(if r.ctx.isInst then r.itlb else r.dtlb, if r.ctx.isInst then ItlbIn(r, i) else DtlbIn(r, i));
  }

  lemma LeafIsValid(table: Table, root: Ppn, va: Word)
    ensures Walk(table, root, va).Leaf? ==> Walk(table, root, va).perm.v
  {
    hide PteAddr, PteOf;
  }

  lemma EntryCovers(t: Tlb.Regs, i: Tlb.In)
    requires Tlb.Shaped(t) && i.fillEn && !i.flushEn && i.fill.perm.v && i.key.mode && i.fill.level <= 1
    ensures Covered(Tlb.NextEntries(t, i), i.fill.vpn, i.fill.asid)
  {
    hide Tlb.Victim, Tlb.Mask, TlbContents.Includes;
    var es, v := Tlb.NextEntries(t, i), Tlb.Victim(t);
    TlbContents.FilledIncludes(i, i.fill.vpn);
    assert TlbContents.Answers(es[v], i.fill.vpn, i.fill.asid);
  }

  lemma AccessLeft(table: Table, roots: Roots, s: Satp, r: Regs, i: In, i': In)
    requires Inv(table, roots, s, r) && i.satp == s && Active(r, i) && Stall(r, i)
             && (r.accessBusy || !Paged(Eff(r, i)))
    ensures i.wait && Next(r, i).accessBusy
  {
    hide TlbInv, GateInv, CtxInv, Next, Stall, Grant, Eff, Judge, TlateValid, MemAddr, WalkEn;
    BusyEff(r, i);
    IdleOnAccess(table, roots, s, r, i);
    IdleWalker(r, i);
    DeniedNeedsLook(r, i);
    BusIsOwn(table, roots, s, r, i);
    AccessHeld(table, roots, s, r, i, i');
  }

  lemma IdleOnAccess(table: Table, roots: Roots, s: Satp, r: Regs, i: In)
    requires Inv(table, roots, s, r) && (r.accessBusy || !Paged(Eff(r, i)))
    ensures r.ptw.state == Ptw.Idle
  {
    hide TlbInv, GateInv, CtxInv, Judge, Ptw.Rest, Walk, TlbContents.Uncovered;
  }

  lemma DeniedNeedsLook(r: Regs, i: In)
    ensures Denied(r, i) ==> Looked(r, i)
    ensures !Looked(r, i) ==> !Miss(r, i)
  {
    hide Looked, PermInstOk, PermLoadOk, PermStoreOk;
  }

  lemma WalkLeft(table: Table, roots: Roots, s: Satp, r: Regs, i: In, i': In)
    requires Inv(table, roots, s, r) && Stable(table, s, r, i) && Active(r, i) && Stall(r, i) && Open(r) && !i.flushEn
    requires r.ptw.state != Ptw.Idle
    ensures if i.wait then Left(Next(r, i), i') <= Left(r, i) else Left(Next(r, i), i') < Left(r, i)
  {
    hide TlbInv, GateInv, BusyInv, CtxInv, Stall, Active, Judge, TlateValid, MemAddr, Tlb.Next, Arbiter.Next,
         Ptw.Next, Ptw.Rest, TlbContents.Uncovered, PtwIn, Starts, StartCtx, InstVpn, DataVpn, TlatePa, AccessStarts,
         Walk, Ptw.Sound, Eff, Ptw.Fills, Ptw.Report, Ptw.Steps;
    OpenMeans(r, i);
    WalkSatp(table, s, r);
    EffHeld(table, roots, s, r, i, i');
    WalkerMisses(table, roots, s, r, i);
    InvKept(table, roots, s, r, i);
    WalkReadsTable(table, s, r, i);
    Ptw.StepKeepsRest(table, r.ptw, PtwIn(r, i));
    WalkEnds(r, i);
    Ptw.BusyHasSteps(r.ptw);
    if Ptw.Fills(r.ptw) { FillCovers(table, roots, s, r, i); }
  }

  lemma WalkSatp(table: Table, s: Satp, r: Regs)
    requires CtxInv(s, r) && WalkInv(table, s, r) && r.ptw.state != Ptw.Idle
    ensures r.ctx.satp == s
  {
    hide Walk, Ptw.Rest, TlbContents.Uncovered;
  }

  /** With the gate open, the walker's last state either fills or retires the request. */
  lemma WalkEnds(r: Regs, i: In)
    requires r.ptw.state != Ptw.Idle && !Pending(r, i) && Stall(r, i) && (Miss(r, i) || WalkEn(r, i))
    ensures Ptw.Next(r.ptw, PtwIn(r, i)).state == Ptw.Idle ==> Ptw.Fills(r.ptw)
    ensures PtwIn(r, i).wait == i.wait
  {
    hide Pending, Eff, Miss, PteAddr;
  }

  lemma LookLeft(table: Table, roots: Roots, s: Satp, r: Regs, i: In, i': In)
    requires Inv(table, roots, s, r) && Stable(table, s, r, i) && Active(r, i) && Stall(r, i) && !i.flushEn
    requires r.ptw.state == Ptw.Idle && !r.accessBusy && Paged(Eff(r, i))
    ensures if i.wait then Left(Next(r, i), i') <= Left(r, i) else Left(Next(r, i), i') < Left(r, i)
  {
    hide TlbInv, GateInv, BusyInv, CtxInv, WalkInv, Stall, Active, Judge, TlateValid, MemAddr, Tlb.Next, Arbiter.Next,
         Ptw.Next, Ptw.Rest, TlbContents.Uncovered, PtwIn, Starts, StartCtx, InstVpn, DataVpn, TlatePa, Walk,
         Ptw.Sound, Eff, Ptw.Fills, Ptw.Report, Ptw.Steps, Miss, AccessStarts;
    EffHeld(table, roots, s, r, i, i');
    IdleWalker(r, i);
    SameEntries(r, i, Eff(r, i).isInst);
    GateOpens(table, roots, s, r, i, i');
    if Miss(r, i) {
      MissIsUncovered(table, roots, s, r, i);
      Ptw.StartSteps(table, r.ptw, PtwIn(r, i));
    } else if TlateValid(r, i) {
      HitLeft(table, roots, s, r, i, i');
    }
  }

  lemma MissIsUncovered(table: Table, roots: Roots, s: Satp, r: Regs, i: In)
    requires Inv(table, roots, s, r) && i.satp == s && Miss(r, i)
    ensures !Covered(OwnEntries(r, i), VpnOf(Eff(r, i).addr), Eff(r, i).satp.asid) && TlateValid(r, i)
  {
    hide TlbInv, GateInv, BusyInv, WalkInv, Eff, TlateValid, Active, Q, TlbContents.Uncovered, Walk, Starts, StartCtx,
         Next, CtxInv;
    EffFacts(s, r, i);
    LookedMeans(table, roots, s, r, i);
  }

  /** A hit that stalls is an access the memory makes wait. */
  lemma HitLeft(table: Table, roots: Roots, s: Satp, r: Regs, i: In, i': In)
    requires Inv(table, roots, s, r) && i.satp == s && Active(r, i) && Stall(r, i) && TlateValid(r, i) && !Miss(r, i)
    requires r.ptw.state == Ptw.Idle && Paged(Eff(r, i)) && !r.accessBusy
    ensures i.wait && Next(r, i).accessBusy
  {
    hide TlbInv, GateInv, CtxInv, WalkInv, BusyInv, Next, Grant, Eff, Judge, TlateValid, MemAddr, WalkEn, Q, Denied,
         Ptw.Stall, PtwIn;
    IdleWalker(r, i);
    AccessHeld(table, roots, s, r, i, i');
  }

  lemma LeftStep(table: Table, roots: Roots, s: Satp, r: Regs, i: In, i': In)
    requires Inv(table, roots, s, r) && Stable(table, s, r, i) && Active(r, i) && Stall(r, i) && Open(r) && !i.flushEn
    ensures if i.wait then Left(Next(r, i), i') <= Left(r, i) else Left(Next(r, i), i') < Left(r, i)
  {
    hide Inv, PtwIn, Active, Stall, Open, Next, Covered, TlateValid, Eff, Ptw.Steps;
    if r.ptw.state != Ptw.Idle {
      WalkLeft(table, roots, s, r, i, i');
    } else if r.accessBusy || !Paged(Eff(r, i)) {
      AccessLeft(table, roots, s, r, i, i');
    } else {
      LookLeft(table, roots, s, r, i, i');
    }
  }

  function Ready(ins: seq<In>): nat {
    if ins == [] then 0 else (if ins[0].wait then 0 else 1) + Ready(ins[1..])
  }

  lemma LeftBound(r: Regs, i: In)
    ensures 1 <= Left(r, i)
    ensures r.ptw.state == Ptw.Idle ==> Left(r, i) <= 10
  {
    hide Covered, TlateValid, Eff;
    if r.ptw.state != Ptw.Idle { Ptw.BusyHasSteps(r.ptw); }
  }

  lemma StillActive(table: Table, roots: Roots, s: Satp, r: Regs, i: In, i': In)
    requires Inv(table, roots, s, r) && i.satp == s && Active(r, i) && Stall(r, i)
    ensures Active(Next(r, i), i')
  {
    hide Active, Stall, Next, TlbInv, GateInv, BusyInv, WalkInv;
    CtxKept(table, roots, s, r, i);
    GrantFacts(Next(r, i), i');
  }

  /** A stalled cycle is not the last, and what remains is enough for the rest. */
  lemma StallLeaves(table: Table, roots: Roots, s: Satp, r: Regs, ins: seq<In>)
    requires Inv(table, roots, s, r) && ins != [] && Stable(table, s, r, ins[0]) && Active(r, ins[0])
             && Stall(r, ins[0])
    requires Open(r) && !ins[0].flushEn && Ready(ins) >= Left(r, ins[0])
    ensures |ins| > 1 && Ready(ins[1..]) >= Left(Next(r, ins[0]), ins[1])
  {
    hide TlbInv, GateInv, CtxInv, BusyInv, WalkInv, Active, Stall, Next, Left, Open, Ptw.Honest;
    LeftStep(table, roots, s, r, ins[0], ins[0]);
    LeftBound(r, ins[0]);
    LeftBound(Next(r, ins[0]), ins[0]);
    if |ins| > 1 { LeftStep(table, roots, s, r, ins[0], ins[1]); }
  }

  lemma {:induction false} RequestRetires(table: Table, roots: Roots, s: Satp, r: Regs, ins: seq<In>) returns (n: nat)
    requires Inv(table, roots, s, r) && Open(r) && StableRun(table, s, r, ins)
    requires forall k :: 0 <= k < |ins| ==> !ins[k].flushEn
    requires ins != [] && Active(r, ins[0]) && Ready(ins) >= Left(r, ins[0])
    ensures 0 < n <= |ins| && OneRequest(r, ins[..n])
    decreases ins
  {
    hide TlbInv, GateInv, CtxInv, BusyInv, WalkInv, Next, Stall, Open, Left, Active, Ready;
    n := 1;
    if Stall(r, ins[0]) {
      StallLeaves(table, roots, s, r, ins);
      InvKept(table, roots, s, r, ins[0]);
      OpenKept(table, roots, s, r, ins[0]);
      StillActive(table, roots, s, r, ins[0], ins[1]);
      var m := RequestRetires(table, roots, s, Next(r, ins[0]), ins[1..]);
      n := m + 1;
      assert ins[..n][1..] == ins[1..][..m];
    }
  }

  /** Without flushes a newly granted request retires within ten cycles, not counting the memory's waits. */
  lemma RetiresWithinTen(table: Table, roots: Roots, s: Satp, r: Regs, ins: seq<In>) returns (n: nat)
    requires Inv(table, roots, s, r) && !Held(r) && StableRun(table, s, r, ins)
    requires ins != [] && Active(r, ins[0]) && (forall k :: 0 <= k < |ins| ==> !ins[k].flushEn) && Ready(ins) >= 10
    ensures 0 < n <= |ins| && OneRequest(r, ins[..n])
  {
    hide TlbInv, GateInv, CtxInv, BusyInv, StableRun, OneRequest, Active, Left, Ready;
    LeftBound(r, ins[0]);
    n := RequestRetires(table, roots, s, r, ins);
  }
}

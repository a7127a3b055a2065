/** The fully associative TLB with clock replacement (rtl/core/friscv_tlb.sv). */
module Tlb {
  import opened Sv32

  datatype Entry = Entry(vpn: Vpn, ppn: Ppn, asid: nat, level: nat, perm: Perm)

  const NO_PERM: Perm := Perm(false, false, false, false, false, false, false, false)
  const EMPTY: Entry := Entry(0, 0, 0, 0, NO_PERM)

  datatype Result = Result(hit: bool, ppn: Ppn, perm: Perm)

  const MISS: Result := Result(false, 0, NO_PERM)

  datatype Regs = Regs(entries: seq<Entry>, refs: seq<bool>, hand: nat, q: Result)

  datatype Key = Key(vpn: Vpn, asid: nat, mode: bool)

  /** A flush request; fine selects the forms restricted by page and address space. */
  datatype Flush = Flush(fine: bool, vpnEn: bool, vpn: Vpn, asidEn: bool, asid: nat)

  datatype In = In(key: Key, fillEn: bool, fill: Entry, flushEn: bool, flush: Flush)

  predicate Shaped(r: Regs) {
    |r.entries| >= 2 && |r.refs| == |r.entries| && r.hand < |r.entries|
  }

  function Reset(n: nat): Regs {
    Regs(seq(n, _ => EMPTY), seq(n, _ => false), 0, MISS)
  }

  // ----- masks -----

  /** Pages under an entry: 10-bit page-number fields in Sv32, 9-bit ones otherwise. */
  function Span(level: nat, mode: bool): (s: nat)
    ensures s > 0
  {
    if level == 0 then 1 else if mode then 1024 else 512
  }

  function Mask(vpn: Vpn, level: nat, mode: bool): Vpn {
    vpn - vpn % Span(level, mode)
  }

  function ReconstructPpn(ppn: Ppn, vpn: Vpn, level: nat, mode: bool): Ppn {
    ppn - ppn % Span(level, mode) + vpn % Span(level, mode)
  }

  // ----- lookup: the last matching entry answers -----

  predicate Covers(e: Entry, vpn: Vpn, mode: bool) {
    e.perm.v && Mask(vpn, e.level, mode) == e.vpn
  }

  predicate Matches(e: Entry, k: Key) {
    (e.perm.g || k.asid == e.asid) && Covers(e, k.vpn, k.mode)
  }

  function LastMatch(entries: seq<Entry>, n: nat, k: Key): (g: int)
    requires n <= |entries|
    ensures -1 <= g < n
    ensures g >= 0 ==> Matches(entries[g], k)
    ensures forall j :: g < j < n ==> !Matches(entries[j], k)
  {
    if n == 0 then -1 else if Matches(entries[n - 1], k) then n - 1 else LastMatch(entries, n - 1, k)
  }

  function Lookup(entries: seq<Entry>, k: Key): Result {
    var g := LastMatch(entries, |entries|, k);
    if g < 0 then MISS
    else Result(true, ReconstructPpn(entries[g].ppn, k.vpn, entries[g].level, k.mode), entries[g].perm)
  }

  // ----- victim -----

  /** The first invalid slot from g on, or the number of slots. */
  function FirstInvalid(entries: seq<Entry>, g: nat): (slot: nat)
    requires g <= |entries|
    ensures g <= slot <= |entries|
    ensures slot < |entries| ==> !entries[slot].perm.v
    ensures forall j :: g <= j < slot ==> entries[j].perm.v
    decreases |entries| - g
  {
    if g == |entries| || !entries[g].perm.v then g else FirstInvalid(entries, g + 1)
  }

  function At(hand: nat, d: nat, n: nat): (g: nat)
    requires n > 0
    ensures g < n
  {
    (hand + d) % n
  }

  /** The distance from the hand of the first slot with a clear reference bit, from d on; the slot count if none. */
  function FirstClear(refs: seq<bool>, hand: nat, d: nat): (c: nat)
    requires d <= |refs|
    ensures d <= c <= |refs|
    ensures c < |refs| ==> !refs[At(hand, c, |refs|)]
    ensures forall e :: d <= e < c ==> refs[At(hand, e, |refs|)]
    decreases |refs| - d
  {
    if d == |refs| || !refs[At(hand, d, |refs|)] then d else FirstClear(refs, hand, d + 1)
  }

  function ClockVictim(refs: seq<bool>, hand: nat): (g: nat)
    requires |refs| > 0 && hand < |refs|
    ensures g < |refs|
  {
    var c := FirstClear(refs, hand, 0);
    if c == |refs| then hand else At(hand, c, |refs|)
  }

  function Distance(hand: nat, g: nat, n: nat): nat
    requires n > 0
  {
    (g - hand) % n
  }

  predicate Evicts(r: Regs, i: In) {
    i.fillEn && !i.flushEn && FirstInvalid(r.entries, 0) == |r.entries|
  }

  function Victim(r: Regs): (g: nat)
    requires Shaped(r)
    ensures g < |r.entries|
  {
    var slot := FirstInvalid(r.entries, 0);
    if slot < |r.entries| then slot else ClockVictim(r.refs, r.hand)
  }

  // ----- the clock edge -----

  predicate Drops(e: Entry, f: Flush, mode: bool) {
    if f.fine && f.vpnEn && f.asidEn then Mask(f.vpn, e.level, mode) == e.vpn && e.asid == f.asid && !e.perm.g
    else if f.fine && f.vpnEn then Mask(f.vpn, e.level, mode) == e.vpn
    else if f.fine && f.asidEn then e.asid == f.asid && !e.perm.g
    else true
  }

  function Flushed(entries: seq<Entry>, f: Flush, mode: bool): (es: seq<Entry>)
    ensures |es| == |entries|
  {
    seq(|entries|, g requires 0 <= g < |entries| => if Drops(entries[g], f, mode) then EMPTY else entries[g])
  }

  function Filled(i: In): Entry {
    i.fill.(vpn := Mask(i.fill.vpn, i.fill.level, i.key.mode))
  }

  function NextEntries(r: Regs, i: In): (es: seq<Entry>)
    requires Shaped(r)
    ensures |es| == |r.entries|
  {
    if i.flushEn then Flushed(r.entries, i.flush, i.key.mode)
    else if i.fillEn then r.entries[Victim(r) := Filled(i)]
    else r.entries
  }

  function Touched(r: Regs, k: Key): (refs: seq<bool>)
    requires Shaped(r)
    ensures |refs| == |r.refs|
  {
    var g := LastMatch(r.entries, |r.entries|, k);
    if g < 0 then r.refs else r.refs[g := true]
  }

  predicate Swept(hand: nat, victim: nat, g: nat, n: nat)
    requires n > 0
  {
    Distance(hand, g, n) < Distance(hand, victim, n)
  }

  function NextRefs(r: Regs, i: In): (refs: seq<bool>)
    requires Shaped(r)
    ensures |refs| == |r.refs|
  {
    var n, touched := |r.refs|, Touched(r, i.key);
    if i.flushEn || !i.fillEn then touched
    else if !Evicts(r, i) then touched[Victim(r) := true]
    else seq(n, g requires 0 <= g < n => !Swept(r.hand, Victim(r), g, n) && (g == Victim(r) || touched[g]))
  }

  function Next(r: Regs, i: In): (r': Regs)
    requires Shaped(r)
    ensures Shaped(r') && |r'.entries| == |r.entries|
  {
    Regs(NextEntries(r, i), NextRefs(r, i),
         if !Evicts(r, i) then r.hand else if Victim(r) == |r.entries| - 1 then 0 else Victim(r) + 1,
         Lookup(r.entries, i.key))
  }

  class Cache {
    const tlb: array<Entry>
    const refs: array<bool>
    var hand: nat
    var q: Result

    ghost predicate Valid()
      reads this, tlb, refs
    {
      tlb.Length >= 2 && refs.Length == tlb.Length && hand < tlb.Length
    }

    function State(): Regs
      reads this, tlb, refs
    {
      Regs(tlb[..], refs[..], hand, q)
    }

    constructor (n: nat)
      requires n >= 2
      ensures Valid() && State() == Reset(n) && fresh(tlb) && fresh(refs)
    {
      tlb := new Entry[n](_ => EMPTY);
      refs := new bool[n](_ => false);
      hand, q := 0, MISS;
      new;
      assert tlb[..] == seq(n, _ => EMPTY) && refs[..] == seq(n, _ => false);
    }

    /** Later matches overwrite earlier ones. */
    method LookUp(k: Key) returns (found: int)
      requires Valid()
      ensures found == LastMatch(tlb[..], tlb.Length, k)
    {
      found := -1;
      var g := 0;
      while g < tlb.Length
        invariant 0 <= g <= tlb.Length && found == LastMatch(tlb[..], g, k)
      {
        if Matches(tlb[g], k) { found := g; }
        g := g + 1;
      }
    }

    method DetectInvalidSlot() returns (any: bool, slot: nat)
      requires Valid()
      ensures any == (FirstInvalid(tlb[..], 0) < tlb.Length) && (any ==> slot == FirstInvalid(tlb[..], 0))
    {
      any, slot := false, 0;
      var g := 0;
      while g < tlb.Length
        invariant 0 <= g <= tlb.Length
        invariant any ==> slot == FirstInvalid(tlb[..], 0) < tlb.Length
        invariant !any ==> FirstInvalid(tlb[..], 0) == FirstInvalid(tlb[..], g)
      {
        if !tlb[g].perm.v && !any { any, slot := true, g; }
        g := g + 1;
      }
    }

    /** From the far end of the circle back to the hand, so the nearest clear bit is assigned last. */
    method DetectClockVictim() returns (victim: nat)
      requires Valid()
      ensures victim == ClockVictim(refs[..], hand)
    {
      victim := hand;
      var n := tlb.Length;
      var d := n;
      while d > 0
        invariant 0 <= d <= n
        invariant victim ==
                  if FirstClear(refs[..], hand, d) == n then hand else At(hand, FirstClear(refs[..], hand, d), n)
      {
        d := d - 1;
        if !refs[At(hand, d, n)] { victim := At(hand, d, n); }
      }
    }

    method FlushEntries(f: Flush, mode: bool)
      requires Valid()
      modifies tlb
      ensures tlb[..] == Flushed(old(tlb[..]), f, mode)
    {
      hide Drops, EMPTY;
      ghost var was := tlb[..];
      var n, g := tlb.Length, 0;
      while g < n
        invariant 0 <= g <= n
        invariant forall j :: 0 <= j < g ==> tlb[j] == if Drops(was[j], f, mode) then EMPTY else was[j]
        invariant forall j :: g <= j < n ==> tlb[j] == was[j]
      {
        if Drops(tlb[g], f, mode) { tlb[g] := EMPTY; }
        g := g + 1;
      }
    }

    method Sweep(victim: nat)
      requires Valid() && victim < tlb.Length
      modifies refs
      ensures forall g :: 0 <= g < refs.Length ==> refs[g] == (!Swept(hand, victim, g, refs.Length) && old(refs[g]))
    {
      var n, g := refs.Length, 0;
      while g < n
        invariant 0 <= g <= n
        invariant forall j :: 0 <= j < g ==> refs[j] == (!Swept(hand, victim, j, n) && old(refs[j]))
        invariant forall j :: g <= j < n ==> refs[j] == old(refs[j])
      {
        if Distance(hand, g, n) < Distance(hand, victim, n) { refs[g] := false; }
        g := g + 1;
      }
    }

    method Clock(i: In)
      requires Valid()
      modifies this, tlb, refs
      ensures Valid() && State() == Next(old(State()), i)
    {
      hide Flushed, Swept, Mask, Distance, Matches;
      ghost var was := State();
      var found := LookUp(i.key);
      var any, slot := DetectInvalidSlot();
      var clock := DetectClockVictim();
      var victim := if any then slot else clock;
      q := if found < 0 then MISS
           else Result(true, ReconstructPpn(tlb[found].ppn, i.key.vpn, tlb[found].level, i.key.mode), tlb[found].perm);
      if found >= 0 { refs[found] := true; }
      if i.flushEn {
        FlushEntries(i.flush, i.key.mode);
      } else if i.fillEn {
        tlb[victim] := i.fill.(vpn := Mask(i.fill.vpn, i.fill.level, i.key.mode));
        refs[victim] := true;
        if !any {
          VictimNotSwept(hand, victim, tlb.Length);
          Sweep(victim);
          hand := if victim == tlb.Length - 1 then 0 else victim + 1;
        }
      }
      assert tlb[..] == NextEntries(was, i);
      assert refs[..] == NextRefs(was, i);
    }
  }

  lemma VictimNotSwept(hand: nat, victim: nat, n: nat)
    requires n > 0
    ensures !Swept(hand, victim, victim, n)
  {
  }
}

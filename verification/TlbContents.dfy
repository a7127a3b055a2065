/** What the TLB may be relied on for: its contents, its answers, and its choice of victims. */
module TlbContents {
  import opened Words
  import opened Sv32
  import opened Tlb

  // ----- contents -----

  /** The address spaces: the root of each one's page tables. */
  type Roots = nat -> Ppn

  /** The entry is for that page: its own, or one of its superpage's. */
  predicate Includes(e: Entry, vpn: Vpn) {
    e.perm.v && if e.level == 0 then e.vpn == vpn else e.vpn % 1024 == 0 && e.vpn / 1024 == vpn / 1024
  }

  /** It is for that page in that address space. */
  predicate Answers(e: Entry, vpn: Vpn, asid: nat) {
    Includes(e, vpn) && (e.perm.g || e.asid == asid)
  }

  /** What software promises of global mappings: they are the same in every address space. */
  ghost predicate GlobalsAgree(table: Table, roots: Roots) {
    forall a: nat, b: nat, va: Word :: GlobalAgrees(table, roots(a), roots(b), va)
  }

  ghost predicate GlobalAgrees(table: Table, root: Ppn, other: Ppn, va: Word) {
    var o := Walk(table, root, va); o.Leaf? && o.perm.g ==> Walk(table, other, va) == o
  }

  /** The entry is the leaf the walk yields, for every page and every address space it is for. */
  ghost predicate EntryFaithful(table: Table, roots: Roots, e: Entry) {
    && e.level <= 1
    && forall va: Word, asid: nat ::
         Answers(e, va / 0x1000, asid) ==> Walk(table, roots(asid), va) == Leaf(e.ppn, e.perm, e.level)
  }

  ghost predicate Faithful(table: Table, roots: Roots, entries: seq<Entry>) {
    forall g :: 0 <= g < |entries| && entries[g].perm.v ==> EntryFaithful(table, roots, entries[g])
  }

  ghost predicate Apart(e: Entry, f: Entry) {
    forall vpn: Vpn, asid: nat :: !(Answers(e, vpn, asid) && Answers(f, vpn, asid))
  }

  /** At most one entry is for any page in any address space. */
  ghost predicate Distinct(entries: seq<Entry>) {
    forall g, h :: 0 <= g < h < |entries| ==> Apart(entries[g], entries[h])
  }

  predicate Uncovered(entries: seq<Entry>, vpn: Vpn, asid: nat) {
    forall g :: 0 <= g < |entries| ==> !Answers(entries[g], vpn, asid)
  }

  ghost predicate Sound(table: Table, roots: Roots, entries: seq<Entry>) {
    Faithful(table, roots, entries) && Distinct(entries)
  }

  lemma EmptyAnswersNothing(vpn: Vpn, asid: nat)
    ensures !Answers(EMPTY, vpn, asid)
  {
  }

  /** The masked comparison of the code. */
  lemma CoversIsIncludes(e: Entry, vpn: Vpn)
    ensures Covers(e, vpn, true) == Includes(e, vpn)
  {
    assert vpn - vpn % 1024 == 1024 * (vpn / 1024) && e.vpn == 1024 * (e.vpn / 1024) + e.vpn % 1024;
  }

  lemma FilledIncludes(i: In, vpn: Vpn)
    requires i.key.mode && i.fill.level <= 1
    ensures Includes(Filled(i), vpn) <==>
              i.fill.perm.v && if i.fill.level == 0 then vpn == i.fill.vpn else vpn / 1024 == i.fill.vpn / 1024
  {
    var v := i.fill.vpn;
    assert v - v % 1024 == 1024 * (v / 1024);
  }

  lemma PageOfLeaf(va: Word, va': Word, level: nat)
    requires level <= 1
    requires if level == 0 then va / 0x1000 == va' / 0x1000 else va / 0x1000 / 1024 == va' / 0x1000 / 1024
    ensures SamePage(va, va', level)
  {
    assert va / 0x40_0000 == va / 0x1000 / 1024 && va' / 0x40_0000 == va' / 0x1000 / 1024;
  }

  /** A leaf of the walk in the filling address space, filled under its page number, is faithful wherever it answers. */
  lemma FillIsFaithful(table: Table, roots: Roots, va: Word, i: In)
    requires GlobalsAgree(table, roots)
    requires i.key.mode && i.fill.vpn == va / 0x1000 && i.fill.level <= 1
    requires Walk(table, roots(i.fill.asid), va) == Leaf(i.fill.ppn, i.fill.perm, i.fill.level)
    ensures EntryFaithful(table, roots, Filled(i))
  {
    hide Walk, Mask, Includes, GlobalAgrees;
    var e, a := Filled(i), i.fill.asid;
    forall va': Word, asid: nat | Answers(e, va' / 0x1000, asid)
      ensures Walk(table, roots(asid), va') == Leaf(e.ppn, e.perm, e.level)
    {
      FilledIncludes(i, va' / 0x1000);
      PageOfLeaf(va, va', e.level);
      LeafCoversPage(table, roots(a), va, va');
      assert GlobalAgrees(table, roots(a), roots(asid), va');
      GlobalMeans(table, roots(a), roots(asid), va');
    }
  }

  lemma GlobalMeans(table: Table, root: Ppn, other: Ppn, va: Word)
    requires GlobalAgrees(table, root, other, va)
    ensures var o := Walk(table, root, va); o.Leaf? && o.perm.g ==> Walk(table, other, va) == o
  {
    hide Walk;
  }

  /** Faithful entries for the same page in the same address space are the same leaf. */
  lemma SharedPage(table: Table, roots: Roots, e: Entry, f: Entry, vpn: Vpn, asid: nat)
    requires EntryFaithful(table, roots, e) && EntryFaithful(table, roots, f)
    requires Answers(e, vpn, asid) && Answers(f, vpn, asid)
    ensures e.vpn == f.vpn && e.ppn == f.ppn && e.perm == f.perm && e.level == f.level
    ensures e.perm.g || e.asid == f.asid
  {
    hide Walk;
    var va: Word := vpn * 0x1000;
    assert va / 0x1000 == vpn;
    assert Walk(table, roots(asid), va) == Leaf(e.ppn, e.perm, e.level) == Leaf(f.ppn, f.perm, f.level);
  }

  /** So a fill of a page no entry answers for overlaps nothing. */
  lemma FillIsApart(table: Table, roots: Roots, e: Entry, i: In)
    requires i.key.mode && i.fill.level <= 1 && EntryFaithful(table, roots, Filled(i))
    requires e.perm.v ==> EntryFaithful(table, roots, e)
    requires !Answers(e, i.fill.vpn, i.fill.asid)
    ensures Apart(e, Filled(i)) && Apart(Filled(i), e)
  {
    hide Walk, Mask, EntryFaithful;
    forall vpn: Vpn, asid: nat ensures !(Answers(e, vpn, asid) && Answers(Filled(i), vpn, asid)) {
      if Answers(e, vpn, asid) && Answers(Filled(i), vpn, asid) {
        SharedPage(table, roots, e, Filled(i), vpn, asid);
        FilledIncludes(i, vpn);
        FilledIncludes(i, i.fill.vpn);
      }
    }
  }

  /** Flushing in any form, and filling a missing page with its walk's leaf, keep the contents sound. */
  lemma ContentsKept(table: Table, roots: Roots, r: Regs, i: In, va: Word)
    requires Shaped(r) && GlobalsAgree(table, roots) && Sound(table, roots, r.entries)
    requires i.fillEn && !i.flushEn ==>
               && i.key.mode && i.fill.vpn == va / 0x1000 && i.fill.level <= 1
               && Walk(table, roots(i.fill.asid), va) == Leaf(i.fill.ppn, i.fill.perm, i.fill.level)
               && Uncovered(r.entries, i.fill.vpn, i.fill.asid)
    ensures Sound(table, roots, NextEntries(r, i))
  {
    hide Walk, Mask, Drops, Victim, EntryFaithful, Apart, GlobalsAgree;
    if i.flushEn {
      FlushKept(table, roots, r.entries, i.flush, i.key.mode);
    } else if i.fillEn {
      FillIsFaithful(table, roots, va, i);
      forall g | 0 <= g < |r.entries| ensures Apart(r.entries[g], Filled(i)) && Apart(Filled(i), r.entries[g]) {
        FillIsApart(table, roots, r.entries[g], i);
      }
    }
  }

  lemma FlushKept(table: Table, roots: Roots, entries: seq<Entry>, f: Flush, mode: bool)
    requires Sound(table, roots, entries)
    ensures Sound(table, roots, Flushed(entries, f, mode))
  {
    hide Walk, Mask, Drops, EntryFaithful, Answers, EMPTY;
    var es := Flushed(entries, f, mode);
    assert !EMPTY.perm.v by { EmptyIsInvalid(); }
    forall g, h | 0 <= g < h < |es| ensures Apart(es[g], es[h]) {
      assert Apart(entries[g], entries[h]);
      forall vpn: Vpn, asid: nat ensures !(Answers(es[g], vpn, asid) && Answers(es[h], vpn, asid)) {
        EmptyAnswersNothing(vpn, asid);
      }
    }
  }

  lemma EmptyIsInvalid()
    ensures !EMPTY.perm.v
  {
  }

  /** Flushing never adds a page. */
  lemma FlushUncovers(entries: seq<Entry>, f: Flush, mode: bool, vpn: Vpn, asid: nat)
    requires Uncovered(entries, vpn, asid)
    ensures Uncovered(Flushed(entries, f, mode), vpn, asid)
  {
    hide Answers, Drops, EMPTY;
    EmptyAnswersNothing(vpn, asid);
  }

  /** Each fill of a run, for any address space, is the leaf of the walk there of an address no entry answers for. */
  ghost predicate HonestFills(table: Table, roots: Roots, r: Regs, ins: seq<In>, vas: seq<Word>)
    requires Shaped(r) && |vas| == |ins|
    decreases ins
  {
    ins == [] ||
    (var i, va := ins[0], vas[0];
     && (i.fillEn && !i.flushEn ==>
           && i.key.mode && i.fill.vpn == va / 0x1000 && i.fill.level <= 1
           && Walk(table, roots(i.fill.asid), va) == Leaf(i.fill.ppn, i.fill.perm, i.fill.level)
           && Uncovered(r.entries, i.fill.vpn, i.fill.asid))
     && HonestFills(table, roots, Next(r, i), ins[1..], vas[1..]))
  }

  /**
   * So the contents stay sound over any run of lookups, fills and flushes, whatever address spaces it switches
   * between.
   */
  lemma {:induction false} RunKeepsSound(table: Table, roots: Roots, r: Regs, ins: seq<In>, vas: seq<Word>)
    requires Shaped(r) && |vas| == |ins| && GlobalsAgree(table, roots) && Sound(table, roots, r.entries)
    requires HonestFills(table, roots, r, ins, vas)
    ensures Sound(table, roots, Run(r, ins).entries)
    decreases ins
  {
    hide Sound, GlobalsAgree, NextEntries, NextRefs, Walk, Uncovered;
    if ins == [] {
    } else {
      ContentsKept(table, roots, r, ins[0], vas[0]);
      RunKeepsSound(table, roots, Next(r, ins[0]), ins[1..], vas[1..]);
    }
  }

  /**
   * Which valid entries an sfence.vma with the given operands must remove (Privileged Specification, section 4.2.1).
   */
  predicate Fenced(e: Entry, f: Flush) {
    && (f.vpnEn ==> Includes(e, f.vpn))
    && (f.asidEn ==> e.asid == f.asid && !e.perm.g)
  }

  /** With fine flushing exactly the entries of the named page and address space go; the others stay where they are. */
  lemma FineFlushIsExact(entries: seq<Entry>, f: Flush, g: nat)
    requires f.fine && g < |entries| && entries[g].perm.v
    ensures var e := Flushed(entries, f, true)[g];
            && (e.perm.v <==> !Fenced(entries[g], f))
            && (e.perm.v ==> e == entries[g])
  {
    hide Mask, EMPTY, Includes;
    EmptyIsInvalid();
    CoversIsIncludes(entries[g], f.vpn);
  }

  /** While satp is Bare the flush compares pages in 9-bit fields: it misses superpages named by their upper half. */
  lemma BareFlushMisses(entries: seq<Entry>, f: Flush, g: nat)
    requires f.fine && g < |entries| && entries[g].perm.v
    requires entries[g].level <= 1 && (entries[g].level == 1 ==> entries[g].vpn % 1024 == 0)
    ensures Flushed(entries, f, false)[g].perm.v <==>
              !Fenced(entries[g], f) || (f.vpnEn && entries[g].level == 1 && f.vpn % 1024 >= 512)
  {
    hide EMPTY;
    EmptyIsInvalid();
    if entries[g].level == 1 { HalfSuperpage(f.vpn, entries[g].vpn); }
  }

  /** The leaf of the superpage of pages 0 to 1023. */
  function Superpage(): Entry {
    Entry(0, 0, 1, 1, NO_PERM.(v := true, r := true, a := true))
  }

  /** An sfence.vma of one page. */
  function OfPage(vpn: Vpn): Flush {
    Flush(true, true, vpn, false, 0)
  }

  lemma SuperpageFilled(r: Regs, i: In)
    requires Shaped(r) && i.fillEn && !i.flushEn && i.fill == Superpage() && i.key.mode
    ensures exists g :: 0 <= g < |r.entries| && Next(r, i).entries[g] == Superpage()
  {
    hide NextRefs, Lookup, Victim;
    assert Next(r, i).entries[Victim(r)] == Superpage();
  }

  lemma SuperpageKept(r: Regs, i: In, g: nat)
    requires Shaped(r) && g < |r.entries| && r.entries[g] == Superpage()
    requires i.flushEn && i.flush == OfPage(512) && !i.key.mode
    ensures Next(r, i).entries[g] == Superpage() && Fenced(Superpage(), OfPage(512))
  {
    hide NextRefs, Lookup, EMPTY;
  }

  /** From any state: that superpage filled under Sv32, then a fine flush of its page 512 with satp Bare, keeps it. */
  lemma BareFlushKeeps(r: Regs, fill: In, flush: In)
    requires Shaped(r) && fill.fillEn && !fill.flushEn && fill.fill == Superpage() && fill.key.mode
    requires flush.flushEn && flush.flush == OfPage(512) && !flush.key.mode
    ensures var r2 := Next(Next(r, fill), flush);
            exists g :: 0 <= g < |r2.entries| && r2.entries[g].perm.v && Fenced(r2.entries[g], OfPage(512))
  {
    hide Next, OfPage, Fenced, NO_PERM;
    SuperpageFilled(r, fill);
    var g :| 0 <= g < |r.entries| && Next(r, fill).entries[g] == Superpage();
    SuperpageKept(Next(r, fill), flush, g);
    SuperpageIsValid();
  }

  lemma SuperpageIsValid()
    ensures Superpage().perm.v
  {
  }

  lemma HalfSuperpage(vpn: Vpn, base: Vpn)
    requires base % 1024 == 0
    ensures vpn - vpn % 512 == base <==> vpn / 1024 == base / 1024 && vpn % 1024 < 512
  {
  }

  /** A full flush leaves nothing that could be unsound. */
  lemma FullFlush(table: Table, roots: Roots, entries: seq<Entry>, f: Flush, mode: bool)
    requires !f.fine
    ensures var es := Flushed(entries, f, mode);
            Sound(table, roots, es) && forall vpn: Vpn, asid: nat :: Uncovered(es, vpn, asid)
  {
    hide EntryFaithful;
    var es := Flushed(entries, f, mode);
    EmptyIsInvalid();
    assert forall g :: 0 <= g < |es| ==> es[g] == EMPTY;
  }

  // ----- answers -----

  /**
   * Whichever address space is looked up: a hit is the leaf and frame of the walk of the page in its own tables, and
   * there is one exactly when an entry is for the page there.
   */
  lemma LookupIsWalk(table: Table, roots: Roots, entries: seq<Entry>, va: Word, asid: nat)
    requires Faithful(table, roots, entries)
    ensures var q := Lookup(entries, Key(va / 0x1000, asid, true)); var o := Walk(table, roots(asid), va);
            && (q.hit ==> o.Leaf? && q.perm == o.perm && q.ppn == Frame(o.ppn, va / 0x1000, o.level))
            && (q.hit <==> exists g :: 0 <= g < |entries| && Answers(entries[g], va / 0x1000, asid))
  {
    hide Walk, Mask, Includes, MISS;
    MissMisses();
    var vpn := va / 0x1000;
    var k := Key(vpn, asid, true);
    var g := LastMatch(entries, |entries|, k);
    if g >= 0 {
      CoversIsIncludes(entries[g], vpn);
      assert Answers(entries[g], vpn, asid) && EntryFaithful(table, roots, entries[g]);
    } else {
      forall j | 0 <= j < |entries| ensures !Answers(entries[j], vpn, asid) {
        assert !Matches(entries[j], k);
        CoversIsIncludes(entries[j], vpn);
      }
    }
  }

  // ----- replacement -----

  lemma DistanceOfAt(hand: nat, d: nat, n: nat)
    requires hand < n && d < n
    ensures Distance(hand, At(hand, d, n), n) == d
  {
    var g := At(hand, d, n);
    if hand + d < n {
      DivModIs(hand + d, n, 0, hand + d);
      DivModIs(g - hand, n, 0, d);
    } else {
      DivModIs(hand + d, n, 1, hand + d - n);
      DivModIs(g - hand, n, -1, d);
    }
  }

  lemma AtOfDistance(hand: nat, g: nat, n: nat)
    requires hand < n && g < n
    ensures Distance(hand, g, n) < n && At(hand, Distance(hand, g, n), n) == g
  {
    if g >= hand {
      DivModIs(g - hand, n, 0, g - hand);
      DivModIs(hand + (g - hand), n, 0, g);
    } else {
      DivModIs(g - hand, n, -1, g - hand + n);
      DivModIs(hand + (g - hand + n), n, 1, g);
    }
  }

  lemma ClearRefAt(refs: seq<bool>, hand: nat, g: nat)
    requires hand < |refs| && g < |refs| && Distance(hand, g, |refs|) < FirstClear(refs, hand, 0)
    ensures refs[g]
  {
    AtOfDistance(hand, g, |refs|);
  }

  /** The victim is the first unreferenced entry round from the hand; a referenced one only when all are. */
  lemma ClockOrder(refs: seq<bool>, hand: nat)
    requires hand < |refs|
    ensures var v, n := ClockVictim(refs, hand), |refs|;
            && (forall g :: 0 <= g < n && Distance(hand, g, n) < Distance(hand, v, n) ==> refs[g])
            && (refs[v] ==> v == hand && forall g :: 0 <= g < n ==> refs[g])
  {
    var c, n, v := FirstClear(refs, hand, 0), |refs|, ClockVictim(refs, hand);
    forall g | 0 <= g < n && Distance(hand, g, n) < c ensures refs[g] { ClearRefAt(refs, hand, g); }
    if c < n {
      DistanceOfAt(hand, c, n);
    } else {
      forall g | 0 <= g < n ensures refs[g] { AtOfDistance(hand, g, n); }
      DistanceOfAt(hand, 0, n);
    }
  }

  /** A lookup that hits marks one entry for the page in its address space, the one that answered, and no other. */
  lemma HitIsReferenced(r: Regs, vpn: Vpn, asid: nat)
    requires Shaped(r) && Lookup(r.entries, Key(vpn, asid, true)).hit
    ensures var k := Key(vpn, asid, true);
            exists g :: 0 <= g < |r.entries| && Answers(r.entries[g], vpn, asid)
                        && Touched(r, k) == r.refs[g := true] && Lookup(r.entries, k).perm == r.entries[g].perm
  {
    hide Covers, Includes, MISS;
    MissMisses();
    var g := LastMatch(r.entries, |r.entries|, Key(vpn, asid, true));
    CoversIsIncludes(r.entries[g], vpn);
    assert Answers(r.entries[g], vpn, asid);
  }

  lemma MissMisses()
    ensures !MISS.hit
  {
  }

  /** A fill overwrites one slot: an invalid one if there is any, else the clock's; and it is marked referenced. */
  lemma FillReplacesVictim(r: Regs, i: In)
    requires Shaped(r) && i.fillEn && !i.flushEn
    ensures var v, n := Victim(r), |r.entries|;
            && (r.entries[v].perm.v ==>
                  (forall g :: 0 <= g < n ==> r.entries[g].perm.v) && v == ClockVictim(r.refs, r.hand))
            && Next(r, i).entries[v] == Filled(i) && Next(r, i).refs[v]
            && (forall g :: 0 <= g < n && g != v ==> Next(r, i).entries[g] == r.entries[g])
  {
    VictimNotSwept(r.hand, Victim(r), |r.entries|);
  }

  /** Exactly the entries the hand passes lose their reference bit, and the hand stops past the victim. */
  lemma EvictionSweeps(r: Regs, i: In)
    requires Shaped(r) && Evicts(r, i)
    ensures var v, n, r' := Victim(r), |r.entries|, Next(r, i);
            && (forall g :: 0 <= g < n ==>
                  r'.refs[g] == (g == v || (Touched(r, i.key)[g] && Distance(r.hand, g, n) > Distance(r.hand, v, n))))
            && r'.hand == At(v, 1, n)
  {
    hide Touched, Distance, Victim;
    var v, n := Victim(r), |r.entries|;
    VictimNotSwept(r.hand, v, n);
    DivModIs(v + 1, n, if v == n - 1 then 1 else 0, if v == n - 1 then 0 else v + 1);
    forall g | 0 <= g < n && g != v ensures Distance(r.hand, g, n) != Distance(r.hand, v, n) {
      AtOfDistance(r.hand, g, n);
      AtOfDistance(r.hand, v, n);
    }
  }

  function Run(r: Regs, ins: seq<In>): (r': Regs)
    requires Shaped(r)
    ensures Shaped(r') && |r'.entries| == |r.entries|
    decreases ins
  {
    if ins == [] then r else Run(Next(r, ins[0]), ins[1..])
  }

  ghost predicate NoEviction(r: Regs, ins: seq<In>)
    requires Shaped(r)
    decreases ins
  {
    ins == [] || (!Evicts(r, ins[0]) && NoEviction(Next(r, ins[0]), ins[1..]))
  }

  lemma {:induction false} BitsStay(r: Regs, ins: seq<In>, v: nat)
    requires Shaped(r) && v < |r.refs| && r.refs[v] && NoEviction(r, ins)
    ensures Run(r, ins).refs[v] && Run(r, ins).hand == r.hand
    decreases ins
  {
    hide Victim, Touched;
    if ins == [] {
    } else {
      assert Touched(r, ins[0].key)[v] by { TouchKeeps(r, ins[0].key, v); }
      BitsStay(Next(r, ins[0]), ins[1..], v);
    }
  }

  lemma TouchKeeps(r: Regs, k: Key, v: nat)
    requires Shaped(r) && v < |r.refs| && r.refs[v]
    ensures Touched(r, k)[v]
  {
  }

  lemma EvictsByClock(r: Regs, i: In)
    requires Shaped(r) && Evicts(r, i)
    ensures Victim(r) == ClockVictim(r.refs, r.hand)
  {
  }

  /** Two evicting fills in a row, whatever lookups, flushes and other fills come between, take different slots. */
  lemma NeverTheSameTwice(r: Regs, i: In, ins: seq<In>, j: In)
    requires Shaped(r) && Evicts(r, i) && NoEviction(Next(r, i), ins)
    requires Evicts(Run(Next(r, i), ins), j)
    ensures Victim(Run(Next(r, i), ins)) != Victim(r)
  {
    hide Next, Run, NoEviction, Evicts, Victim, Touched, Distance, ClockVictim;
    var v, n, r' := Victim(r), |r.entries|, Run(Next(r, i), ins);
    EvictionSweeps(r, i);
    BitsStay(Next(r, i), ins, v);
    EvictsByClock(r', j);
    ClockOrder(r'.refs, r'.hand);
    DivModIs(v + 1, n, if v == n - 1 then 1 else 0, if v == n - 1 then 0 else v + 1);
  }
}

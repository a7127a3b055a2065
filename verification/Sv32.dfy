/**
 * Two-level address translation as the Privileged Specification gives it (version 20211203, section 4.3.2),
 * over a fixed page-table memory: the reference the walker, the TLBs and the MMU are proved against.
 */
module Sv32 {
  import opened Words
  import opened Privilege

  const PAGES: int := 0x10_0000        // virtual page numbers, and the frames a 32-bit address reaches
  const TABLE_SIZE: int := 1024

  type Vpn = x: int | 0 <= x < 0x10_0000
  type Ppn = x: int | 0 <= x < 0x40_0000

  datatype Perm = Perm(d: bool, a: bool, g: bool, u: bool, x: bool, w: bool, r: bool, v: bool)
  datatype Pte = Pte(ppn: Ppn, perm: Perm)
  datatype Satp = Satp(mode: bool, asid: nat, ppn: Ppn)

  datatype Kind = Fetch | Load | Store

  /** What a read of the page-table memory yields. */
  datatype Read = Fine(word: Word) | BusError
  type Table = Word -> Read

  datatype Outcome = Leaf(ppn: Ppn, perm: Perm, level: nat) | Invalid | Unreachable | Failed

  // ----- geometry -----

  function VpnOf(va: Word): Vpn {
    va / 0x1000
  }

  /** The index of a virtual address in its table of the given level. */
  function Index(va: Word, level: nat): (i: nat)
    ensures i < TABLE_SIZE
  {
    if level == 1 then va / 0x40_0000 else va / 0x1000 % 1024
  }

  predicate Reachable(ppn: Ppn) {
    ppn < PAGES
  }

  /** The low 20 bits of the frame number address memory. */
  function PteAddr(ppn: Ppn, va: Word, level: nat): Word {
    ppn % PAGES * 0x1000 + Index(va, level) * 4
  }

  function PermOf(w: Word): Perm {
    Perm(w / 128 % 2 == 1, w / 64 % 2 == 1, w / 32 % 2 == 1, w / 16 % 2 == 1,
         w / 8 % 2 == 1, w / 4 % 2 == 1, w / 2 % 2 == 1, w % 2 == 1)
  }

  function PteOf(w: Word): Pte {
    Pte(w / 1024, PermOf(w))
  }

  // ----- the formats of sections 4.3.1 and 4.3.2, field by field -----

  function One(b: bool): (n: nat)
    ensures n < 2
  {
    if b then 1 else 0
  }

  function FlagsOf(p: Perm): (f: nat)
    ensures f < 0x100
  {
    One(p.v) * 0x1 + One(p.r) * 0x2 + One(p.w) * 0x4 + One(p.x) * 0x8
    + One(p.u) * 0x10 + One(p.g) * 0x20 + One(p.a) * 0x40 + One(p.d) * 0x80
  }

  /** A page-table entry: eight flags, two bits for software, and the frame number. */
  function Encode(ppn: Ppn, rsw: nat, p: Perm): Word
    requires rsw < 4
  {
    FlagsOf(p) + rsw * 0x100 + ppn * 0x400
  }

  lemma BitBelow(t: nat, bit: nat, up: nat)
    requires bit < 2 && t == bit + 2 * up
    ensures t / 2 == up && t % 2 == bit
  {
  }

  lemma Halvings(t: nat)
    ensures t / 4 == t / 2 / 2 && t / 8 == t / 4 / 2 && t / 16 == t / 8 / 2 && t / 32 == t / 16 / 2
    ensures t / 64 == t / 32 / 2 && t / 128 == t / 64 / 2 && t / 256 == t / 128 / 2
  {
  }

  lemma LowFields(t: nat, v: nat, r: nat, w: nat, x: nat, up: nat)
    requires v < 2 && r < 2 && w < 2 && x < 2 && t == v + 2 * r + 4 * w + 8 * x + 16 * up
    ensures t % 2 == v && t / 2 % 2 == r && t / 4 % 2 == w && t / 8 % 2 == x && t / 16 == up
  {
    Halvings(t);
    BitBelow(t, v, r + 2 * w + 4 * x + 8 * up);
    BitBelow(t / 2, r, w + 2 * x + 4 * up);
    BitBelow(t / 4, w, x + 2 * up);
    BitBelow(t / 8, x, up);
  }

  lemma UpperHalvings(t: nat)
    ensures t / 32 == t / 16 / 2 && t / 64 == t / 16 / 4 && t / 128 == t / 16 / 8 && t / 256 == t / 16 / 16
    ensures t / 256 / 4 == t / 1024
  {
  }

  lemma DecodeFrame(ppn: Ppn, rsw: nat, flags: nat)
    requires rsw < 4 && flags < 0x100
    ensures var t := flags + rsw * 0x100 + ppn * 0x400; t / 0x400 == ppn && t / 0x100 % 4 == rsw
  {
    var t := flags + rsw * 0x100 + ppn * 0x400;
    DivModIs(t, 0x400, ppn, flags + rsw * 0x100);
    DivModIs(t, 0x100, rsw + 4 * ppn, flags);
    DivModIs(rsw + 4 * ppn, 4, ppn, rsw);
  }

  lemma DecodeFlags(t: Word, p: Perm, rest: nat)
    requires t == FlagsOf(p) + 0x100 * rest
    ensures PermOf(t) == p
  {
    var up := One(p.u) + 2 * One(p.g) + 4 * One(p.a) + 8 * One(p.d) + 16 * rest;
    assert t == One(p.v) + 2 * One(p.r) + 4 * One(p.w) + 8 * One(p.x) + 16 * up;
    hide FlagsOf, One, PermOf;
    LowFields(t, One(p.v), One(p.r), One(p.w), One(p.x), up);
    LowFields(up, One(p.u), One(p.g), One(p.a), One(p.d), rest);
    UpperHalvings(t);
    SameFlags(t, p);
  }

  /** Reading the fields of an entry gives what was put there. */
  lemma DecodeEncode(ppn: Ppn, rsw: nat, p: Perm)
    requires rsw < 4
    ensures PteOf(Encode(ppn, rsw, p)) == Pte(ppn, p) && Encode(ppn, rsw, p) / 256 % 4 == rsw
  {
    hide PermOf, FlagsOf;
    DecodeFrame(ppn, rsw, FlagsOf(p));
    DecodeFlags(Encode(ppn, rsw, p), p, rsw + 4 * ppn);
  }

  lemma SameFlags(t: Word, p: Perm)
    requires t % 2 == One(p.v) && t / 2 % 2 == One(p.r) && t / 4 % 2 == One(p.w) && t / 8 % 2 == One(p.x)
    requires t / 16 % 2 == One(p.u) && t / 32 % 2 == One(p.g) && t / 64 % 2 == One(p.a) && t / 128 % 2 == One(p.d)
    ensures PermOf(t) == p
  {
  }

  lemma Nibble(t: nat)
    ensures t == t % 2 + 2 * (t / 2 % 2) + 4 * (t / 4 % 2) + 8 * (t / 8 % 2) + 16 * (t / 16)
  {
    Halvings(t);
  }

  lemma FlagsAre(t: Word)
    ensures FlagsOf(PermOf(t)) == t % 0x100
  {
    FlagBits(t);
    hide One, PermOf;
    Nibble(t);
    Nibble(t / 16);
    UpperHalvings(t);
    Euclid(t, 0x100);
  }

  /** And the fields of any word, with its software bits, make up the word. */
  lemma EncodeDecode(t: Word)
    ensures Encode(PteOf(t).ppn, t / 256 % 4, PteOf(t).perm) == t
  {
    hide FlagsOf, PermOf;
    FlagsAre(t);
    Euclid(t, 0x100);
    Euclid(t / 0x100, 4);
    assert t / 0x100 / 4 == t / 0x400;
  }

  lemma FlagBits(t: Word)
    ensures var p := PermOf(t);
            && One(p.v) == t % 2 && One(p.r) == t / 2 % 2 && One(p.w) == t / 4 % 2 && One(p.x) == t / 8 % 2
            && One(p.u) == t / 16 % 2 && One(p.g) == t / 32 % 2 && One(p.a) == t / 64 % 2 && One(p.d) == t / 128 % 2
  {
  }

  /** The parts of a virtual address: two page-number fields and an offset. */
  function VirtualAddress(vpn1: nat, vpn0: nat, offset: nat): Word
    requires vpn1 < 1024 && vpn0 < 1024 && offset < 4096
  {
    vpn1 * 0x40_0000 + vpn0 * 0x1000 + offset
  }

  /** Where an entry lies, what the page number is, and where a page or superpage of a frame lies. */
  lemma AddressFields(vpn1: nat, vpn0: nat, offset: nat, ppn: Ppn)
    requires vpn1 < 1024 && vpn0 < 1024 && offset < 4096 && ppn < 0x10_0000
    ensures var va := VirtualAddress(vpn1, vpn0, offset);
            && VpnOf(va) == vpn1 * 1024 + vpn0
            && PteAddr(ppn, va, 1) == ppn * 4096 + vpn1 * 4 && PteAddr(ppn, va, 0) == ppn * 4096 + vpn0 * 4
            && Translate(Frame(ppn, VpnOf(va), 0), va) == ppn * 4096 + offset
            && Translate(Frame(ppn, VpnOf(va), 1), va) == (ppn / 1024 * 1024 + vpn0) * 4096 + offset
  {
    var va := VirtualAddress(vpn1, vpn0, offset);
    DivModIs(va, 0x1000, vpn1 * 1024 + vpn0, offset);
    DivModIs(va, 0x40_0000, vpn1, vpn0 * 0x1000 + offset);
    DivModIs(vpn1 * 1024 + vpn0, 1024, vpn1, vpn0);
    assert ppn == ppn / 1024 * 1024 + ppn % 1024;
  }

  // ----- the walk -----

  /** What an entry read at a level leads to. */
  function FromPte(table: Table, p: Pte, va: Word, level: nat): Outcome
    decreases level, 0
  {
    if !p.perm.v || (!p.perm.r && p.perm.w) then Invalid
    else if p.perm.r || p.perm.x then
      if level > 0 && p.ppn % 1024 != 0 then Invalid
      else if !Reachable(p.ppn) then Unreachable
      else Leaf(p.ppn, p.perm, level)
    else if p.perm.d || p.perm.a || p.perm.u || level == 0 then Invalid
    else FromTable(table, p.ppn, va, level - 1)
  }

  /** What the table in a frame leads to. */
  function FromTable(table: Table, ppn: Ppn, va: Word, level: nat): Outcome
    decreases level, 1
  {
    if !Reachable(ppn) then Unreachable
    else match table(PteAddr(ppn, va, level))
      case BusError => Failed
      case Fine(w) => FromPte(table, PteOf(w), va, level)
  }

  function Walk(table: Table, root: Ppn, va: Word): Outcome {
    FromTable(table, root, va, 1)
  }

  // ----- translation and permission -----

  /** The frame of a page under a leaf: superpages take the low part of the page number. */
  function Frame(ppn: Ppn, vpn: Vpn, level: nat): Ppn {
    if level == 1 then ppn - ppn % 1024 + vpn % 1024 else ppn
  }

  function Translate(ppn: Ppn, va: Word): Word {
    ppn % PAGES * 0x1000 + va % 0x1000
  }

  predicate Allows(p: Perm, kind: Kind, mode: Mode, sum: bool, mxr: bool) {
    && p.a
    && (match kind
        case Fetch => p.x
        case Load => p.r || (mxr && p.x)
        case Store => p.w && p.d)
    && (if mode == U then p.u else mode == S && (!p.u || (kind != Fetch && sum)))
  }

  // ----- a leaf holds for its whole page -----

  predicate SamePage(va: Word, va': Word, level: nat) {
    if level == 1 then va / 0x40_0000 == va' / 0x40_0000 else va / 0x1000 == va' / 0x1000
  }

  /** The walk depends on the page number only, and a superpage leaf on its upper half only. */
  lemma LeafCoversPage(table: Table, root: Ppn, va: Word, va': Word)
    ensures var o := Walk(table, root, va);
            SamePage(va, va', if o.Leaf? then o.level else 0) ==> Walk(table, root, va') == o
  {
    var o := Walk(table, root, va);
    if SamePage(va, va', if o.Leaf? then o.level else 0) {
      Coarser(va, va');
      assert PteAddr(root, va, 1) == PteAddr(root, va', 1);
    }
  }

  lemma Coarser(va: Word, va': Word)
    ensures va / 0x1000 == va' / 0x1000 ==> va / 0x40_0000 == va' / 0x40_0000
  {
    assert va / 0x40_0000 == va / 0x1000 / 1024 && va' / 0x40_0000 == va' / 0x1000 / 1024;
  }
}

/**
 * Physical memory protection: the CSR table (rtl/core/friscv_csr_file.sv) and the checker
 * (rtl/core/friscv_pmp_check.sv).
 */
module Pmp {
  import opened Privilege

  datatype AddrMode = Off | Tor | Na4 | Napot
  datatype Cfg = Cfg(l: bool, a: AddrMode, x: bool, w: bool, r: bool)
  datatype Entry = Entry(cfg: Cfg, addr: bv32)

  const ZERO: Entry := Entry(Cfg(false, Off, false, false, false), 0)

  type Table = seq<Entry>

  datatype Access = Access(r: bool, w: bool, x: bool)

  /** A CSR write that reaches the table: a pmpcfg word as its four bytes, or a pmpaddr word. */
  datatype Write = CfgWrite(reg: nat, bytes: seq<bv8>) | AddrWrite(index: nat, data: bv32)

  // ----- the table -----

  function AddrModeOf(bits: bv8): AddrMode {
    if bits & 0x18 == 0x00 then Off else if bits & 0x18 == 0x08 then Tor else if bits & 0x18 == 0x10 then Na4 else Napot
  }

  /** A byte asking for write without read grants nothing. */
  function CfgFromByte(b: bv8): Cfg {
    var writeOnly := b & 2 != 0 && b & 1 == 0;
    Cfg(b & 0x80 != 0, AddrModeOf(b), !writeOnly && b & 4 != 0, !writeOnly && b & 2 != 0, !writeOnly && b & 1 != 0)
  }

  function AddrModeBits(a: AddrMode): bv8 {
    match a case Off => 0x00 case Tor => 0x08 case Na4 => 0x10 case Napot => 0x18
  }

  /** The byte read back from an entry. */
  function ByteFromCfg(c: Cfg): bv8 {
    (if c.l then 0x80 else 0) | AddrModeBits(c.a) | (if c.x then 4 else 0) | (if c.w then 2 else 0)
    | (if c.r then 1 else 0)
  }

  predicate WellFormed(n: nat, w: Write) {
    match w
    case CfgWrite(reg, bytes) => reg < n / 4 && |bytes| == 4
    case AddrWrite(index, _) => index < n
  }

  predicate AddrIgnored(t: Table, i: nat)
    requires i < |t|
  {
    t[i].cfg.l || (i + 1 < |t| && t[i + 1].cfg.a == Tor && t[i + 1].cfg.l)
  }

  function CfgAfter(t: Table, usable: nat, reg: nat, bytes: seq<bv8>, i: nat): Entry
    requires |bytes| == 4 && i < |t|
  {
    if 4 * reg <= i < 4 * reg + 4 && i < usable && !t[i].cfg.l then
      t[i].(cfg := CfgFromByte(bytes[i - 4 * reg]))
    else t[i]
  }

  function Written(t: Table, usable: nat, w: Write): (t': Table)
    requires WellFormed(|t|, w)
    ensures |t'| == |t|
  {
    match w
    case CfgWrite(reg, bytes) => seq(|t|, i requires 0 <= i < |t| => CfgAfter(t, usable, reg, bytes, i))
    case AddrWrite(i, data) => if i < usable && !AddrIgnored(t, i) then t[i := t[i].(addr := data)] else t
  }

  class CsrTable {
    const table: array<Entry>
    const usable: nat

    constructor (n: nat, usable: nat)
      requires usable <= n
      ensures fresh(table) && table[..] == seq(n, _ => ZERO) && this.usable == usable
    {
      table := new Entry[n](_ => ZERO);
      this.usable := usable;
      new;
      assert table[..] == seq(n, _ => ZERO);
    }

    method WriteCsr(w: Write)
      requires WellFormed(table.Length, w)
      modifies table
      ensures table[..] == Written(old(table[..]), usable, w)
    {
      ghost var was := table[..];
      match w {
        case CfgWrite(reg, bytes) =>
          var base, j := 4 * reg, 0;
          while j < 4
            invariant 0 <= j <= 4
            invariant forall i :: 0 <= i < table.Length ==>
                        table[i] == if i < base + j then CfgAfter(was, usable, reg, bytes, i) else was[i]
          {
            if base + j < usable && !table[base + j].cfg.l {
              table[base + j] := table[base + j].(cfg := CfgFromByte(bytes[j]));
            }
            j := j + 1;
          }
        case AddrWrite(i, data) =>
          if i < usable && !AddrIgnored(table[..], i) {
            table[i] := table[i].(addr := data);
          }
      }
    }
  }

  function Run(t: Table, usable: nat, ws: seq<Write>): (t': Table)
    requires forall k :: 0 <= k < |ws| ==> WellFormed(|t|, ws[k])
    ensures |t'| == |t|
    decreases ws
  {
    if ws == [] then t else Run(Written(t, usable, ws[0]), usable, ws[1..])
  }

  // ----- reading back -----

  /** What is read back is what was written, without the reserved bits, and without any permission if write-only. */
  lemma ByteReadsBack(b: bv8)
    ensures ByteFromCfg(CfgFromByte(b)) == if b & 3 == 2 then b & 0x98 else b & 0x9F
  {
    if b & 3 == 2 { WriteOnlyReadsBack(b); } else { LegalReadsBack(b); }
  }

  lemma WriteOnlyReadsBack(b: bv8)
    requires b & 3 == 2
    ensures ByteFromCfg(CfgFromByte(b)) == b & 0x98
  {
  }

  lemma LegalReadsBack(b: bv8)
    requires b & 3 != 2
    ensures ByteFromCfg(CfgFromByte(b)) == b & 0x9F
  {
  }

  /** A write reaches exactly the usable, unlocked entries it names; a pmpaddr also needs no locked TOR entry above. */
  lemma WriteTakesEffect(t: Table, usable: nat, w: Write, i: nat)
    requires WellFormed(|t|, w) && i < |t|
    ensures var e := Written(t, usable, w)[i];
            && (w.CfgWrite? && i / 4 == w.reg && i < usable && !t[i].cfg.l ==>
                  e.addr == t[i].addr
                  && ByteFromCfg(e.cfg) == (var b := w.bytes[i % 4]; if b & 3 == 2 then b & 0x98 else b & 0x9F))
            && (w.AddrWrite? && i == w.index && i < usable && !AddrIgnored(t, i) ==> e == t[i].(addr := w.data))
            && (w.CfgWrite? && i / 4 != w.reg ==> e == t[i])
            && (w.AddrWrite? && i != w.index ==> e == t[i])
            && (i >= usable || t[i].cfg.l ==> e == t[i])
  {
    hide CfgFromByte, ByteFromCfg;
    if w.CfgWrite? && i / 4 == w.reg {
      assert i - 4 * w.reg == i % 4;
      ByteReadsBack(w.bytes[i % 4]);
    }
  }

  // ----- locking -----

  /** An entry with its lock set keeps its configuration and address, and a TOR one the address below it. */
  predicate Kept(t: Table, t': Table, i: nat)
    requires |t| == |t'| && i < |t|
  {
    && t'[i] == t[i]
    && (t[i].cfg.a == Tor && i > 0 ==> t'[i - 1].addr == t[i - 1].addr)
  }

  lemma LockedKeptOnce(t: Table, usable: nat, w: Write, i: nat)
    requires WellFormed(|t|, w) && i < |t| && t[i].cfg.l
    ensures Kept(t, Written(t, usable, w), i)
  {
    hide CfgFromByte;
  }

  /** Over every sequence of writes. */
  lemma {:induction false} LockedKept(t: Table, usable: nat, ws: seq<Write>, i: nat)
    requires (forall k :: 0 <= k < |ws| ==> WellFormed(|t|, ws[k])) && i < |t| && t[i].cfg.l
    ensures Kept(t, Run(t, usable, ws), i)
    decreases ws
  {
    hide Written;
    if ws == [] {
    } else {
      LockedKeptOnce(t, usable, ws[0], i);
      LockedKept(Written(t, usable, ws[0]), usable, ws[1..], i);
    }
  }

  predicate Sane(t: Table, usable: nat) {
    && (forall i :: usable <= i < |t| ==> t[i] == ZERO)
    && (forall i :: 0 <= i < |t| && t[i].cfg.w ==> t[i].cfg.r)
  }

  lemma SaneOnce(t: Table, usable: nat, w: Write)
    requires WellFormed(|t|, w) && Sane(t, usable)
    ensures Sane(Written(t, usable, w), usable)
  {
    hide AddrModeOf, AddrIgnored;
  }

  /** From reset on, entries beyond the usable ones stay zero, and no entry grants writing without reading. */
  lemma {:induction false} StaysSane(t: Table, usable: nat, ws: seq<Write>)
    requires (forall k :: 0 <= k < |ws| ==> WellFormed(|t|, ws[k])) && Sane(t, usable)
    ensures Sane(Run(t, usable, ws), usable)
    decreases ws
  {
    hide Written, Sane;
    if ws == [] {
    } else {
      SaneOnce(t, usable, ws[0]);
      StaysSane(Written(t, usable, ws[0]), usable, ws[1..]);
    }
  }

  lemma ResetSane(n: nat, usable: nat)
    ensures Sane(seq(n, _ => ZERO), usable)
  {
  }

  /** In particular after any writes from reset. */
  lemma SaneFromReset(n: nat, usable: nat, ws: seq<Write>)
    requires forall k :: 0 <= k < |ws| ==> WellFormed(n, ws[k])
    ensures Sane(Run(seq(n, _ => ZERO), usable, ws), usable)
  {
    hide Sane, Run;
    ResetSane(n, usable);
    StaysSane(seq(n, _ => ZERO), usable, ws);
  }

  // ----- the checker -----

  predicate NapotMatches(addr: bv32, pa: bv32) {
    var mask := !(addr ^ (!addr + 1));
    pa & mask == addr & mask
  }

  predicate AtMost(a: bv32, b: bv32) {
    a <= b
  }

  predicate Less(a: bv32, b: bv32) {
    a < b
  }

  lemma LessOrAtLeast(a: bv32, b: bv32)
    ensures Less(a, b) <==> !AtMost(b, a)
  {
  }

  /** The entry's match is a function of the entry and of the address below it. */
  predicate Matches(e: Entry, below: bv32, pa: bv32) {
    match e.cfg.a
    case Tor => AtMost(below, pa) && Less(pa, e.addr)
    case Na4 => pa == e.addr
    case Napot => NapotMatches(e.addr, pa)
    case Off => false
  }

  predicate MatchesAt(t: Table, i: nat, pa: bv32)
    requires i < |t|
  {
    Matches(t[i], if i > 0 then t[i - 1].addr else 0, pa)
  }

  /** Consecutive top-of-range entries tile: never both match, and what lies between the outer bounds matches one. */
  lemma TorTiles(t: Table, i: nat, pa: bv32)
    requires 0 < i && i + 1 < |t| && t[i].cfg.a == Tor && t[i + 1].cfg.a == Tor
    ensures !(MatchesAt(t, i, pa) && MatchesAt(t, i + 1, pa))
    ensures AtMost(t[i - 1].addr, pa) && Less(pa, t[i + 1].addr) ==> MatchesAt(t, i, pa) || MatchesAt(t, i + 1, pa)
  {
    hide NapotMatches, AtMost, Less;
    LessOrAtLeast(pa, t[i].addr);
  }

  predicate FaultForCfg(cfg: Cfg, mode: Mode, acc: Access) {
    (cfg.l || mode != M) && ((acc.r && !cfg.r) || (acc.w && !cfg.w) || (acc.x && !cfg.x))
  }

  /** The lowest-numbered matching entry from i on, or the table's size. */
  function FirstMatch(t: Table, i: nat, pa: bv32): (k: nat)
    requires i <= |t|
    ensures i <= k <= |t|
    ensures k < |t| ==> MatchesAt(t, k, pa)
    ensures forall j :: i <= j < k ==> !MatchesAt(t, j, pa)
    decreases |t| - i
  {
    if i == |t| || MatchesAt(t, i, pa) then i else FirstMatch(t, i + 1, pa)
  }

  /** The first match alone decides; without one only machine mode may access. */
  predicate Fault(t: Table, mode: Mode, acc: Access, pa: bv32) {
    var k := FirstMatch(t, 0, pa);
    (acc.r || acc.w || acc.x) && if k < |t| then FaultForCfg(t[k].cfg, mode, acc) else mode != M
  }

  /** The checker's downward scan, in which lower entries overwrite higher ones, is the first match's verdict. */
  method Check(t: Table, mode: Mode, acc: Access, pa: bv32) returns (fault: bool)
    ensures fault == Fault(t, mode, acc, pa)
  {
    fault := false;
    if acc.r || acc.w || acc.x {
      fault := mode != M;
      var i := |t|;
      while i > 0
        invariant 0 <= i <= |t|
        invariant var k := FirstMatch(t, i, pa);
                  fault == if k < |t| then FaultForCfg(t[k].cfg, mode, acc) else mode != M
      {
        i := i - 1;
        if MatchesAt(t, i, pa) { fault := FaultForCfg(t[i].cfg, mode, acc); }
      }
    }
  }

  /** Supervisor and user mode may access the same; what machine mode may not access, they may not either. */
  lemma ModesOrdered(t: Table, acc: Access, pa: bv32)
    ensures Fault(t, U, acc, pa) == Fault(t, S, acc, pa)
    ensures Fault(t, M, acc, pa) ==> Fault(t, S, acc, pa)
    ensures var k := FirstMatch(t, 0, pa);
            && (k < |t| && t[k].cfg.l ==> Fault(t, M, acc, pa) == Fault(t, S, acc, pa))
            && (!(k < |t| && t[k].cfg.l) ==> !Fault(t, M, acc, pa))
  {
    hide FirstMatch;
  }

  // ----- the verdict, written out -----

  /** What one access asks for, and what an entry grants. */
  datatype Right = ReadRight | WriteRight | ExecuteRight

  predicate Asks(acc: Access, right: Right) {
    match right
    case ReadRight => acc.r
    case WriteRight => acc.w
    case ExecuteRight => acc.x
  }

  predicate Grants(cfg: Cfg, right: Right) {
    match right
    case ReadRight => cfg.r
    case WriteRight => cfg.w
    case ExecuteRight => cfg.x
  }

  /** The range of an entry but for power-of-two ones, which are treated below: from below, inclusive, to its end. */
  predicate InRange(t: Table, i: nat, pa: bv32)
    requires i < |t|
  {
    match t[i].cfg.a
    case Off => false
    case Tor => (i > 0 ==> AtMost(t[i - 1].addr, pa)) && Less(pa, t[i].addr)
    case Na4 => t[i].addr == pa
    case Napot => NapotMatches(t[i].addr, pa)
  }

  /** That entry is the lowest-numbered one in whose range the address lies. */
  predicate Governs(t: Table, k: nat, pa: bv32)
    requires k < |t|
  {
    InRange(t, k, pa) && forall j :: 0 <= j < k ==> !InRange(t, j, pa)
  }

  lemma MatchIsInRange(t: Table, i: nat, pa: bv32)
    requires i < |t|
    ensures MatchesAt(t, i, pa) == InRange(t, i, pa)
  {
    hide NapotMatches, AtMost, Less;
    NothingBelow(pa);
  }

  lemma NothingBelow(pa: bv32)
    ensures AtMost(0, pa)
  {
  }

  /**
   * Section 3.7.1 of the Privileged Specification: the governing entry must grant every right asked for, in machine
   * mode only if it is locked; where none governs, machine mode has all rights and the others none.
   */
  lemma VerdictIs(t: Table, mode: Mode, acc: Access, pa: bv32)
    ensures forall k :: 0 <= k < |t| && Governs(t, k, pa) ==>
              (Fault(t, mode, acc, pa) <==>
                 (t[k].cfg.l || mode != M) && exists right :: Asks(acc, right) && !Grants(t[k].cfg, right))
    ensures (forall k :: 0 <= k < |t| ==> !InRange(t, k, pa)) ==>
              (Fault(t, mode, acc, pa) <==> mode != M && exists right :: Asks(acc, right))
  {
    hide InRange, MatchesAt;
    var f := FirstMatch(t, 0, pa);
    forall j | 0 <= j < |t| ensures MatchesAt(t, j, pa) == InRange(t, j, pa) { MatchIsInRange(t, j, pa); }
    forall k | 0 <= k < |t| && Governs(t, k, pa) ensures k == f { }
    AnyRight(acc);
    if f < |t| { RightsMissing(acc, t[f].cfg); }
  }

  lemma AnyRight(acc: Access)
    ensures (exists right :: Asks(acc, right)) <==> acc.r || acc.w || acc.x
  {
    assert Asks(acc, ReadRight) == acc.r && Asks(acc, WriteRight) == acc.w && Asks(acc, ExecuteRight) == acc.x;
  }

  lemma RightsMissing(acc: Access, cfg: Cfg)
    ensures (exists right :: Asks(acc, right) && !Grants(cfg, right))
            <==> (acc.r && !cfg.r) || (acc.w && !cfg.w) || (acc.x && !cfg.x)
  {
    assert Grants(cfg, ReadRight) == cfg.r && Grants(cfg, WriteRight) == cfg.w && Grants(cfg, ExecuteRight) == cfg.x;
    assert Asks(acc, ReadRight) == acc.r && Asks(acc, WriteRight) == acc.w && Asks(acc, ExecuteRight) == acc.x;
  }

  predicate LockedUpTo(t: Table, i: nat) {
    i < |t| && forall j :: 0 <= j <= i ==> t[j].cfg.l
  }

  lemma {:induction false} SameFirstMatch(t: Table, t': Table, j: nat, i: nat, pa: bv32)
    requires |t| == |t'| && j <= i < |t| && FirstMatch(t, j, pa) <= i
    requires forall k :: 0 <= k <= i ==> t'[k] == t[k]
    ensures FirstMatch(t', j, pa) == FirstMatch(t, j, pa)
    decreases i - j
  {
    hide Matches;
    if !MatchesAt(t, j, pa) { SameFirstMatch(t, t', j + 1, i, pa); }
  }

  /**
   * Once entries 0 to i are all locked, no sequence of writes changes the verdict, in any mode, of an access whose
   * first match is among them.
   */
  lemma VerdictFixed(t: Table, usable: nat, ws: seq<Write>, i: nat, mode: Mode, acc: Access, pa: bv32)
    requires forall k :: 0 <= k < |ws| ==> WellFormed(|t|, ws[k])
    requires LockedUpTo(t, i) && FirstMatch(t, 0, pa) <= i
    ensures FirstMatch(Run(t, usable, ws), 0, pa) == FirstMatch(t, 0, pa)
    ensures Fault(Run(t, usable, ws), mode, acc, pa) == Fault(t, mode, acc, pa)
  {
    hide Run;
    var t' := Run(t, usable, ws);
    forall k | 0 <= k <= i ensures t'[k] == t[k] { LockedKept(t, usable, ws, k); }
    SameFirstMatch(t, t', 0, i, pa);
  }

  // ----- the power-of-two ranges are not those of the Privileged Specification, section 3.7.1 -----

  /** The specified range: the address register's trailing ones give the size. */
  predicate NapotSpecified(addr: bv32, pa: bv32) {
    var mask := !(addr ^ (addr + 1));
    pa & mask == addr & mask
  }

  /** Word addresses of 32-bit accesses. */
  predicate WordAddress(pa: bv32) {
    pa < 0x4000_0000
  }

  lemma OddAddress(addr: bv32)
    requires addr & 1 == 1
    ensures !NapotMatches(addr, 0) && NapotMatches(addr, 1) && NapotSpecified(addr, 0) == NapotSpecified(addr, 1)
  {
  }

  lemma EvenAddress(addr: bv32)
    requires addr & 1 == 0
    ensures !NapotMatches(addr, addr | 1) && NapotSpecified(addr, addr | 1)
    ensures WordAddress(addr) ==> WordAddress(addr | 1)
  {
  }

  lemma HighAddress(addr: bv32)
    requires addr & 1 == 0 && !WordAddress(addr) && addr & 0x3FFF_FFFF != 0
    ensures var pa := addr & 0x3FFF_FFFF; WordAddress(pa) && NapotMatches(addr, pa) && !NapotSpecified(addr, pa)
  {
  }

  lemma EmptyRanges(addr: bv32, pa: bv32)
    requires WordAddress(pa) && (addr == 0x4000_0000 || addr == 0x8000_0000 || addr == 0xC000_0000)
    ensures !NapotMatches(addr, pa) && !NapotSpecified(addr, pa)
  {
  }

  /** The lowest 30 bits are clear for these addresses only. */
  lemma ClearLow(addr: bv32)
    requires addr & 0x3FFF_FFFF == 0
    ensures addr == 0 || addr == 0x4000_0000 || addr == 0x8000_0000 || addr == 0xC000_0000
  {
  }

  predicate Agree(addr: bv32, pa: bv32) {
    WordAddress(pa) ==> NapotMatches(addr, pa) == NapotSpecified(addr, pa)
  }

  /** The ranges agree for exactly three addresses, all beyond what a 32-bit access can reach. */
  lemma NapotAgrees(addr: bv32)
    ensures (forall pa: bv32 :: Agree(addr, pa)) <==> addr == 0x4000_0000 || addr == 0x8000_0000 || addr == 0xC000_0000
  {
    if addr == 0x4000_0000 || addr == 0x8000_0000 || addr == 0xC000_0000 {
      forall pa: bv32 ensures Agree(addr, pa) {
        if WordAddress(pa) { EmptyRanges(addr, pa); }
      }
    } else {
      hide NapotMatches, NapotSpecified;
      if addr & 1 == 1 {
        OddAddress(addr);
        assert !Agree(addr, 0) || !Agree(addr, 1);
      } else if WordAddress(addr) {
        EvenAddress(addr);
        assert !Agree(addr, addr | 1);
      } else {
        if addr & 0x3FFF_FFFF == 0 { ClearLow(addr); }
        HighAddress(addr);
        assert !Agree(addr, addr & 0x3FFF_FFFF);
      }
    }
  }
}

/** The execute stage (rtl/core/friscv_ex_stage.sv) with its branch unit (rtl/core/friscv_branch_unit.sv). */
module ExStage {
  import opened Words
  import opened Isa
  import opened Decoder
  import MulDiv

  /** What ID hands to EX: the operands, the immediate and the control word. */
  datatype Issue = Issue(pc: Word, nextPc: Word, rs1: Word, rs2: Word, imm: Word, rd: Reg, ctrl: Ctrl)

  datatype Regs = Regs(op: Issue, branchPrev: bool, trap: bool, started: bool, doneHold: bool, unit: MulDiv.Regs)

  datatype In = In(stall: bool, flush: bool, trapCommit: bool, issue: Issue)

  const BUBBLE: Issue := Issue(0, 0, 0, 0, 0, 0, NOP_CTRL)
  const RESET: Regs := Regs(BUBBLE, false, false, false, false, MulDiv.RESET)

  // ----- operands, branch decision and target -----

  function ABus(o: Issue): Word {
    match o.ctrl.a
    case Rs1 => o.rs1
    case ZeroA => 0
    case PcA => o.pc
  }

  function BBus(o: Issue): Word {
    if o.ctrl.b == Rs2 then o.rs2 else o.imm
  }

  /** The branch unit: one 33-bit subtraction, and the flags read from it. */
  predicate BranchUnit(cond: Cond, a: Word, b: Word) {
    var sub := (a + (TWO_32 - 1 - b) + 1) % TWO_33;
    var n, z, c := sub / TWO_31 % 2 == 1, a == b, sub / TWO_32 == 1;
    var v := (a / TWO_31 != b / TWO_31) && ((a / TWO_31 == 1) != n);
    match cond
    case Eq => z
    case Ne => !z
    case Lt => n != v
    case Ge => n == v
    case Ltu => !c
    case Geu => c
  }

  /** The flags decide every branch as the signed and unsigned comparisons of the ISA. */
  lemma BranchUnitDecides(cond: Cond, a: Word, b: Word)
    ensures BranchUnit(cond, a, b) == Taken(cond, a, b)
  {
  }

  function BranchTarget(o: Issue): Word {
    var sum := Trunc(ABus(o) + BBus(o));
    if o.ctrl.jalr then sum - sum % 2 else sum
  }

  predicate BranchRaw(o: Issue) {
    o.ctrl.branch == BranchInstr && BranchUnit(o.ctrl.cond, o.rs1, o.rs2)
  }

  predicate Misaligned(o: Issue) {
    BranchRaw(o) && BranchTarget(o) % 4 != 0
  }

  /** The redirect is pulsed once per instruction. */
  predicate BranchOk(r: Regs) {
    BranchRaw(r.op) && !r.branchPrev && !Misaligned(r.op)
  }

  // ----- multiply and divide -----

  predicate MdEnable(o: Issue) {
    IsM(o.ctrl.alu)
  }

  function MdRequest(op: AluOp, a: Word, b: Word): MulDiv.Req {
    MulDiv.Req(op in {Mul, Mulh, Mulhu, Mulhsu}, op in {Mulh, Mulhsu, Div, Rem}, op in {Mulh, Div, Rem}, a, b)
  }

  function MdWord(op: AluOp, result: Long): Word {
    if op in {Mul, Div, Divu} then Lo(result) else Hi(result)
  }

  predicate MdStart(r: Regs) {
    MdEnable(r.op) && !r.started && !r.doneHold
  }

  predicate MdActive(r: Regs) {
    MdEnable(r.op) && !r.doneHold
  }

  /** The one-cycle multiplier used instead when EnableFastMul is set: 33-bit signed operands. */
  function FastMul(op: AluOp, a: Word, b: Word): Word
    requires op in {Mul, Mulh, Mulhu, Mulhsu}
  {
    var x := if op == Mulhu then a else Signed(a);
    var y := if op == Mulh then Signed(b) else b;
    var product := x * y;
    if op == Mul then Trunc(product) else Trunc(product / TWO_32)
  }

  // ----- the single-cycle operations -----

  function ShiftLeft(w: Word, n: nat): Word
    decreases n
  {
    if n == 0 then w else ShiftLeft(2 * w % TWO_32, n - 1)
  }

  function ShiftRight(w: Word, n: nat, fill: bool): Word
    decreases n
  {
    if n == 0 then w else ShiftRight(w / 2 + if fill then TWO_31 else 0, n - 1, fill)
  }

  function AluRaw(op: AluOp, a: Word, b: Word): Word
    requires !IsM(op)
  {
    match op
    case Add => (a + b) % TWO_32
    case Sub => (a - b) % TWO_32
    case And => Gated(AndGate, a, b)
    case Or => Gated(OrGate, a, b)
    case Xor => Gated(XorGate, a, b)
    case Sll => ShiftLeft(a, b % 32)
    case Srl => ShiftRight(a, b % 32, false)
    case Sra => ShiftRight(a, b % 32, a >= TWO_31)
    case Slt => if Signed(a) < Signed(b) then 1 else 0
    case Sltu => if a < b then 1 else 0
  }

  lemma {:induction false} ShiftLeftIs(w: Word, n: nat)
    ensures ShiftLeft(w, n) == Trunc(w * Pow2(n))
    decreases n
  {
    if n == 0 {
    } else {
      var p, over := Pow2(n - 1), 2 * w / TWO_32;
      ShiftLeftIs(2 * w % TWO_32, n - 1);
      assert 2 * w == over * TWO_32 + 2 * w % TWO_32;
      DoubledShift(w, p, over, 2 * w % TWO_32);
    }
  }

  lemma DoubledShift(w: int, p: int, over: int, low: int)
    requires 2 * w == over * TWO_32 + low
    ensures Trunc(low * p) == Trunc(w * (2 * p))
  {
    assert w * (2 * p) == 2 * w * p == low * p + over * p * TWO_32;
    AddMultiple(low * p, over * p);
  }

  lemma {:induction false} ShiftRightIs(w: Word, n: nat)
    ensures ShiftRight(w, n, false) == w / Pow2(n)
    decreases n
  {
    if n == 0 {
    } else {
      ShiftRightIs(w / 2, n - 1);
      DivDiv(w, 2, Pow2(n - 1));
    }
  }

  lemma {:induction false} ShiftRightFilledIs(w: Word, n: nat)
    ensures Signed(ShiftRight(w, n, w >= TWO_31)) == Signed(w) / Pow2(n)
    decreases n
  {
    if n == 0 {
    } else {
      var half: Word := w / 2 + if w >= TWO_31 then TWO_31 else 0;
      HalfSigned(w, half);
      ShiftRightFilledIs(half, n - 1);
      DivDivSigned(Signed(w), Pow2(n - 1));
    }
  }

  lemma HalfSigned(w: Word, half: Word)
    requires half == w / 2 + if w >= TWO_31 then TWO_31 else 0
    ensures Signed(half) == Signed(w) / 2 && (half >= TWO_31 <==> w >= TWO_31)
  {
  }

  lemma DivDivSigned(x: int, q: nat)
    requires q > 0
    ensures x / 2 / q == x / (2 * q)
  {
    var h := x / 2;
    assert x == 2 * h + x % 2 && h == h / q * q + h % q;
    assert 2 * (h / q * q) == h / q * (2 * q);
    DivModIs(x, 2 * q, h / q, 2 * (h % q) + x % 2);
  }

  lemma GatesAreLogic(op: AluOp, a: Word, b: Word)
    requires op in {And, Or, Xor}
    ensures AluRaw(op, a, b) == Alu(op, a, b)
  {
    hide Bit, Logic, Bitwise;
    var g := if op == And then AndGate else if op == Or then OrGate else XorGate;
    forall k | 0 <= k < 32 ensures Bit(Bitwise(g, a, b, 32), k) == Bit(Logic(op, a, b, 32), k) {
      BitwiseBits(g, a, b, 32, k);
      LogicBits(op, a, b, 32, k);
    }
    SameBits(Bitwise(g, a, b, 32), Logic(op, a, b, 32), 32);
  }

  /** The operations of EX are those of the ISA. */
  lemma AluIsIsa(op: AluOp, a: Word, b: Word)
    requires !IsM(op)
    ensures AluRaw(op, a, b) == Alu(op, a, b)
  {
    hide ShiftLeft, ShiftRight, Logic, Gated;
    match op
    case And | Or | Xor => GatesAreLogic(op, a, b);
    case Sll => ShiftLeftIs(a, b % 32);
    case Srl =>
      ShiftRightIs(a, b % 32);
    case Sra =>
      ShiftRightFilledIs(a, b % 32);
      TruncOfSigned(ShiftRight(a, b % 32, a >= TWO_31));
    case _ =>
  }

  lemma TruncOfSigned(w: Word)
    ensures Trunc(Signed(w)) == w
  {
  }

  /** What shifting does to numbers: a product modulo 2^32, and quotients rounded down. */
  lemma ShiftLaws(op: AluOp, a: Word, b: Word)
    requires op in {Sll, Srl, Sra}
    ensures var r, p := AluRaw(op, a, b), Pow2(b % 32);
            && (op == Sll ==> r == a * p % TWO_32)
            && (op == Srl ==> r * p <= a < r * p + p)
            && (op == Sra ==> Signed(r) * p <= Signed(a) < Signed(r) * p + p)
  {
    hide ShiftLeft, ShiftRight, Pow2, Signed;
    match op
    case Sll => ShiftLeftIs(a, b % 32);
    case Srl =>
      ShiftRightIs(a, b % 32);
      EuclidSigned(a, Pow2(b % 32));
    case Sra =>
      ShiftRightFilledIs(a, b % 32);
      EuclidSigned(Signed(a), Pow2(b % 32));
  }

  /** The other results, whatever computes them: sums and differences, the operands bit by bit, and the two orders. */
  lemma AluLaws(op: AluOp, a: Word, b: Word, k: nat)
    requires !IsM(op) && k < 32
    ensures var r := AluRaw(op, a, b);
            && (op == Add ==> r == a + b || r == a + b - TWO_32)
            && (op == Sub ==> r + b == a || r + b == a + TWO_32)
            && (op == And ==> (Bit(r, k) <==> Bit(a, k) && Bit(b, k)))
            && (op == Or ==> (Bit(r, k) <==> Bit(a, k) || Bit(b, k)))
            && (op == Xor ==> (Bit(r, k) <==> Bit(a, k) != Bit(b, k)))
            && (op == Slt ==> r == if Signed(a) < Signed(b) then 1 else 0)
            && (op == Sltu ==> r == if a < b then 1 else 0)
  {
    hide ShiftLeft, ShiftRight, Bitwise, Bit, Signed;
    match op
    case And => BitwiseBits(AndGate, a, b, 32, k);
    case Or => BitwiseBits(OrGate, a, b, 32, k);
    case Xor => BitwiseBits(XorGate, a, b, 32, k);
    case _ =>
  }

  lemma EuclidSigned(x: int, p: int)
    requires p > 0
    ensures x / p * p <= x < x / p * p + p
  {
  }

  function AluOut(r: Regs): Word {
    var o := r.op;
    if MdEnable(o) then MdWord(o.ctrl.alu, r.unit.result) else AluRaw(o.ctrl.alu, ABus(o), BBus(o))
  }

  // ----- store lanes -----

  function StoreLanes(width: Width, addr: Word, v: Word): Word {
    match width
    case I8 | U8 =>
      if addr % 4 == 0 then v % 0x100
      else if addr % 4 == 1 then v % 0x100 * 0x100
      else if addr % 4 == 2 then v % 0x100 * 0x1_0000
      else v % 0x100 * 0x100_0000
    case I16 | U16 => if addr / 2 % 2 == 1 then v % 0x1_0000 * 0x1_0000 else v % 0x1_0000
    case I32 => v
  }

  // ----- outputs to MEM -----

  datatype Out = Out(pc: Word, nextPc: Word, aluData: Word, storeData: Word, rd: Reg, memSel: MemSel, width: Width,
                     wb: WbSel, reserve: bool, conditional: bool, amo: AmoOp, valid: bool)

  function Output(r: Regs): Out {
    var o, c, md := r.op, r.op.ctrl, MdActive(r);
    Out(o.pc, o.nextPc, AluOut(r), StoreLanes(c.width, AluOut(r), o.rs2), if md then 0 else o.rd, c.memSel, c.width,
        c.wb, c.reserve, c.conditional, c.amo, c.valid && !md)
  }

  // ----- the clock edge -----

  function Capture(r: Regs, i: In): Regs {
    if i.trapCommit then r.(op := r.op.(rd := 0, ctrl := NOP_CTRL), trap := false)
    else if r.trap then r
    else if i.stall then r.(branchPrev := BranchRaw(r.op))
    else if r.op.ctrl.valid && Misaligned(r.op) then
      r.(op := r.op.(rd := 0, ctrl := NOP_CTRL), branchPrev := false, trap := true)
    else if i.flush || BranchOk(r) then
      r.(op := r.op.(pc := 0, rd := 0, ctrl := NOP_CTRL), branchPrev := BranchRaw(r.op))
    else
      r.(op := i.issue, branchPrev := BranchRaw(r.op))
  }

  function Handshake(r: Regs, i: In): (bool, bool) {
    if i.flush || i.trapCommit || !MdEnable(r.op) || (r.doneHold && !i.stall) then (false, false)
    else (r.started || MdStart(r), r.doneHold || r.unit.done)
  }

  function UnitIn(r: Regs, i: In): MulDiv.In {
    MulDiv.In(i.flush || i.trapCommit, MdStart(r), MdRequest(r.op.ctrl.alu, ABus(r.op), BBus(r.op)))
  }

  function Next(r: Regs, i: In): Regs {
    var h := Handshake(r, i);
    Capture(r, i).(started := h.0, doneHold := h.1, unit := MulDiv.Next(r.unit, UnitIn(r, i)))
  }

  class Stage {
    var op: Issue
    var branchPrev: bool
    var trap: bool
    var started: bool
    var doneHold: bool
    const unit: MulDiv.Unit

    function State(): Regs
      reads this, unit
    {
      Regs(op, branchPrev, trap, started, doneHold, unit.State())
    }

    constructor ()
      ensures State() == RESET && fresh(unit)
    {
      op, branchPrev, trap, started, doneHold := BUBBLE, false, false, false, false;
      unit := new MulDiv.Unit();
    }

    method Clock(i: In)
      modifies this, unit
      ensures State() == Next(old(State()), i)
    {
      hide MulDiv.Next, MdRequest, ABus, BBus, Capture;
      var flush := i.flush || i.trapCommit;
      var enable := MdEnable(op);
      var start := enable && !started && !doneHold;
      var release := flush || !enable || (doneHold && !i.stall);
      var nowStarted, nowHeld := started || start, doneHold || unit.done;
      var unitIn := MulDiv.In(flush, start, MdRequest(op.ctrl.alu, ABus(op), BBus(op)));
      CaptureInputs(i);
      unit.Clock(unitIn);
      started, doneHold := !release && nowStarted, !release && nowHeld;
    }

    method CaptureInputs(i: In)
      modifies this
      ensures State() == Capture(old(State()), i)
    {
      var raw, ok := BranchRaw(op), BranchRaw(op) && !branchPrev && !Misaligned(op);
      if i.trapCommit {
        trap, op := false, op.(rd := 0, ctrl := NOP_CTRL);
      } else if trap {
        // Held until the trap is committed.
      } else if !i.stall {
        if op.ctrl.valid && Misaligned(op) {
          op, branchPrev, trap := op.(rd := 0, ctrl := NOP_CTRL), false, true;
        } else {
          op := if i.flush || ok then op.(pc := 0, rd := 0, ctrl := NOP_CTRL) else i.issue;
          branchPrev := raw;
        }
      } else {
        branchPrev := raw;
      }
    }
  }

  // ----- what multiply and divide mean at the stage -----

  /** The word picked from the unit's 64-bit result is the ISA's for all eight operations. */
  lemma MdWordIsIsa(op: AluOp, a: Word, b: Word)
    requires IsM(op)
    ensures MdWord(op, MulDiv.Spec(MdRequest(op, a, b))) == MulDivResult(op, a, b)
  {
    if op in {Mul, Mulh, Mulhu, Mulhsu} { MulWordIsIsa(op, a, b); } else { DivWordIsIsa(op, a, b); }
  }

  lemma MulWordIsIsa(op: AluOp, a: Word, b: Word)
    requires op in {Mul, Mulh, Mulhu, Mulhsu}
    ensures MdWord(op, MulDiv.Spec(MdRequest(op, a, b))) == MulDivResult(op, a, b)
  {
    var req := MdRequest(op, a, b);
    if op == Mul { LowWordIgnoresSign(a, b); }
    HighWord(Val(a, req.aSigned) * Val(b, req.bSigned));
  }

  lemma DivWordIsIsa(op: AluOp, a: Word, b: Word)
    requires op in {Div, Divu, Rem, Remu}
    ensures MdWord(op, MulDiv.Spec(MdRequest(op, a, b))) == MulDivResult(op, a, b)
  {
    hide MulDiv.Quotient, MulDiv.Remainder;
    DivisionWords(MdRequest(op, a, b));
    assert MdWord(op, MulDiv.Spec(MdRequest(op, a, b)))
        == if op in {Div, Divu} then MulDiv.Quotient(MdRequest(op, a, b)) else MulDiv.Remainder(MdRequest(op, a, b));
    QuotientIsIsa(op, a, b);
  }

  lemma DivisionWords(req: MulDiv.Req)
    ensures !req.mul ==> Lo(MulDiv.Spec(req)) == MulDiv.Quotient(req) && Hi(MulDiv.Spec(req)) == MulDiv.Remainder(req)
  {
    hide MulDiv.Quotient, MulDiv.Remainder;
    var rem, quot := MulDiv.Remainder(req), MulDiv.Quotient(req);
    DivModIs(rem * TWO_32 + quot, TWO_32, rem, quot);
  }

  lemma QuotientIsIsa(op: AluOp, a: Word, b: Word)
    requires op in {Div, Divu, Rem, Remu}
    ensures var req := MdRequest(op, a, b);
            (if op in {Div, Divu} then MulDiv.Quotient(req) else MulDiv.Remainder(req)) == MulDivResult(op, a, b)
  {
  }

  lemma HighWord(p: int)
    ensures p % TWO_64 / TWO_32 == Trunc(p / TWO_32) && p % TWO_64 % TWO_32 == Trunc(p)
  {
    var high, low := p / TWO_32, p % TWO_32;
    var top, mid := high / TWO_32, high % TWO_32;
    assert p == high * TWO_32 + low && high == top * TWO_32 + mid;
    DivModIs(p, TWO_64, top, mid * TWO_32 + low);
    DivModIs(mid * TWO_32 + low, TWO_32, mid, low);
  }

  /** MUL needs no signs: all four readings of the operands agree on the low word. */
  lemma LowWordIgnoresSign(a: Word, b: Word)
    ensures Trunc(a * b) == Trunc(Signed(a) * Signed(b)) == Trunc(Signed(a) * b)
  {
    LowWordShift(a, b, Signed(a), Signed(b), (a - Signed(a)) / TWO_32, (b - Signed(b)) / TWO_32);
  }

  lemma LowWordShift(a: int, b: int, x: int, y: int, i: int, j: int)
    requires a == x + i * TWO_32 && b == y + j * TWO_32
    ensures Trunc(a * b) == Trunc(x * y) == Trunc(x * b)
  {
    assert x * b == x * y + x * j * TWO_32;
    assert a * b == x * b + i * b * TWO_32;
    AddMultiple(x * y, x * j);
    AddMultiple(x * b, i * b);
  }

  lemma AddMultiple(p: int, k: int)
    ensures Trunc(p + k * TWO_32) == Trunc(p)
  {
  }

  /** The one-cycle multiplier returns the ISA's word for all four multiplications. */
  lemma FastMulIsIsa(op: AluOp, a: Word, b: Word)
    requires op in {Mul, Mulh, Mulhu, Mulhsu}
    ensures FastMul(op, a, b) == MulDivResult(op, a, b)
  {
    LowWordIgnoresSign(a, b);
  }

  /** Hence it agrees with the word picked from the iterative multiplier's 64-bit result. */
  lemma FastMulAgrees(op: AluOp, a: Word, b: Word)
    requires op in {Mul, Mulh, Mulhu, Mulhsu}
    ensures FastMul(op, a, b) == MdWord(op, MulDiv.Spec(MdRequest(op, a, b)))
  {
    FastMulIsIsa(op, a, b);
    MdWordIsIsa(op, a, b);
  }
}

/**
 * The sequential meaning of the instructions the pipeline theorem covers (RISC-V Unprivileged ISA,
 * chapters 2 and 7): one instruction at a time, no pipeline, byte-addressed little-endian memory.
 */
module Isa {
  import opened Words
  import MulDiv

  type Reg = x: int | 0 <= x < 32
  type Byte = x: int | 0 <= x < 256

  datatype AluOp = Add | Sub | And | Or | Xor | Sll | Srl | Sra | Slt | Sltu
                 | Mul | Mulh | Mulhu | Mulhsu | Div | Divu | Rem | Remu

  datatype Cond = Eq | Ne | Lt | Ge | Ltu | Geu

  datatype Width = I8 | U8 | I16 | U16 | I32

  /** Decoded instructions; immediates are already extended to a word. */
  datatype Instr =
    | Op(op: AluOp, rd: Reg, rs1: Reg, rs2: Reg)
    | OpImm(iop: AluOp, rd: Reg, rs1: Reg, imm: Word)
    | Lui(rd: Reg, imm: Word)
    | Auipc(rd: Reg, imm: Word)
    | Load(width: Width, rd: Reg, rs1: Reg, imm: Word)
    | Store(width: Width, rs1: Reg, rs2: Reg, imm: Word)
    | Branch(cond: Cond, rs1: Reg, rs2: Reg, imm: Word)
    | Jal(rd: Reg, imm: Word)
    | Jalr(rd: Reg, rs1: Reg, imm: Word)

  const NOP: Instr := OpImm(Add, 0, 0, 0)

  type Code = Word -> Instr

  predicate IsM(op: AluOp) {
    op in {Mul, Mulh, Mulhu, Mulhsu, Div, Divu, Rem, Remu}
  }

  function MulDivResult(op: AluOp, a: Word, b: Word): Word
    requires IsM(op)
  {
    match op
    case Mul => Trunc(Signed(a) * Signed(b))
    case Mulh => Trunc(Signed(a) * Signed(b) / TWO_32)
    case Mulhu => Trunc(a * b / TWO_32)
    case Mulhsu => Trunc(Signed(a) * b / TWO_32)
    case Div => if b == 0 then 0xFFFF_FFFF else Trunc(MulDiv.TruncQuot(Signed(a), Signed(b)))
    case Divu => if b == 0 then 0xFFFF_FFFF else Trunc(a / b)
    case Rem => if b == 0 then a else Trunc(MulDiv.TruncRem(Signed(a), Signed(b)))
    case Remu => if b == 0 then a else Trunc(a % b)
  }

  /** What And, Or and Xor do at each position. */
  predicate OnBits(op: AluOp, x: bool, y: bool)
    requires op in {And, Or, Xor}
  {
    match op
    case And => x && y
    case Or => x || y
    case Xor => x != y
  }

  /** The word of those bits, position by position from the top. */
  function Logic(op: AluOp, a: Word, b: Word, n: nat): (r: nat)
    requires op in {And, Or, Xor}
    ensures r < Pow2(n)
  {
    if n == 0 then 0
    else Logic(op, a, b, n - 1) + if OnBits(op, Bit(a, n - 1), Bit(b, n - 1)) then Pow2(n - 1) else 0
  }

  lemma {:induction false} LogicBits(op: AluOp, a: Word, b: Word, n: nat, k: nat)
    requires op in {And, Or, Xor} && k < n
    ensures Bit(Logic(op, a, b, n), k) == OnBits(op, Bit(a, k), Bit(b, k))
    decreases n
  {
    hide OnBits, Bit;
    var low, p := Logic(op, a, b, n - 1), Pow2(n - 1);
    if k == n - 1 {
      TopBit(low, n - 1);
    } else {
      LogicBits(op, a, b, n - 1, k);
      BitBelow(low, n - 1, k);
    }
  }

  lemma TopBit(low: nat, n: nat)
    requires low < Pow2(n)
    ensures !Bit(low, n) && Bit(low + Pow2(n), n)
  {
    DivModIs(low, Pow2(n), 0, low);
    DivModIs(low + Pow2(n), Pow2(n), 1, low);
  }

  /** A bit further up changes nothing below. */
  lemma BitBelow(low: nat, n: nat, k: nat)
    requires k < n
    ensures Bit(low + Pow2(n), k) == Bit(low, k)
  {
    Pow2Split(n, k);
    EvenMore(low, Pow2(k), Pow2(n - k - 1), Pow2(n));
  }

  lemma Pow2Split(n: nat, k: nat)
    requires k < n
    ensures Pow2(n) == 2 * (Pow2(n - k - 1) * Pow2(k))
  {
    Pow2Add(n - k - 1, k);
    assert Pow2(n) == 2 * Pow2(n - 1);
  }

  lemma EvenMore(low: nat, p: nat, q: nat, more: nat)
    requires p > 0 && more == 2 * (q * p)
    ensures (low + more) / p % 2 == low / p % 2
  {
    Euclid(low, p);
    SumTimes(low / p, 2 * q, p);
    assert 2 * q * p == 2 * (q * p);
    DivModIs(low + more, p, low / p + 2 * q, low % p);
  }

  /** The single-cycle operations. */
  function Alu(op: AluOp, a: Word, b: Word): Word
    requires !IsM(op)
  {
    match op
    case Add => Trunc(a + b)
    case Sub => Trunc(a - b)
    case And | Or | Xor => Pow2At32(); Logic(op, a, b, 32)
    case Sll => Trunc(a * Pow2(b % 32))
    case Srl => Trunc(a / Pow2(b % 32))
    case Sra => Trunc(Signed(a) / Pow2(b % 32))
    case Slt => if Signed(a) < Signed(b) then 1 else 0
    case Sltu => if a < b then 1 else 0
  }

  function Compute(op: AluOp, a: Word, b: Word): Word {
    if IsM(op) then MulDivResult(op, a, b) else Alu(op, a, b)
  }

  predicate Taken(cond: Cond, a: Word, b: Word) {
    match cond
    case Eq => a == b
    case Ne => a != b
    case Lt => Signed(a) < Signed(b)
    case Ge => Signed(a) >= Signed(b)
    case Ltu => a < b
    case Geu => a >= b
  }

  // ----- byte memory -----

  type Mem = map<int, Byte>

  function Get(mem: Mem, addr: int): Byte {
    if addr in mem then mem[addr] else 0
  }

  function ByteOf(w: Word, lane: nat): Byte
    requires lane < 4
  {
    if lane == 0 then w % 0x100
    else if lane == 1 then w / 0x100 % 0x100
    else if lane == 2 then w / 0x1_0000 % 0x100
    else w / 0x100_0000
  }

  function HalfAt(mem: Mem, addr: int): int {
    Get(mem, addr) + 0x100 * Get(mem, addr + 1)
  }

  function WordAt(mem: Mem, addr: int): Word {
    HalfAt(mem, addr) + 0x1_0000 * HalfAt(mem, addr + 2)
  }

  function LoadValue(mem: Mem, addr: Word, width: Width): Word {
    match width
    case I8 => var v := Get(mem, addr); if v < 0x80 then v else v + 0xFFFF_FF00
    case U8 => Get(mem, addr)
    case I16 => var v := HalfAt(mem, addr); if v < 0x8000 then v else v + 0xFFFF_0000
    case U16 => HalfAt(mem, addr)
    case I32 => WordAt(mem, addr)
  }

  function StoreValue(mem: Mem, addr: Word, width: Width, v: Word): Mem {
    match width
    case I8 | U8 => mem[addr := ByteOf(v, 0)]
    case I16 | U16 => mem[addr := ByteOf(v, 0)][addr + 1 := ByteOf(v, 1)]
    case I32 => mem[addr := ByteOf(v, 0)][addr + 1 := ByteOf(v, 1)][addr + 2 := ByteOf(v, 2)][addr + 3 := ByteOf(v, 3)]
  }

  predicate Aligned(addr: Word, width: Width) {
    match width
    case I8 | U8 => true
    case I16 | U16 => addr % 2 == 0
    case I32 => addr % 4 == 0
  }

  // ----- one instruction -----

  type RegFile = regs: seq<Word> | |regs| == 32 witness seq(32, _ => 0)

  datatype Arch = Arch(pc: Word, regs: RegFile, mem: Mem)

  function Read(regs: RegFile, r: Reg): Word {
    if r == 0 then 0 else regs[r]
  }

  function Write(regs: RegFile, r: Reg, v: Word): (regs': RegFile)
    ensures forall r': Reg :: Read(regs', r') == if r' == r && r != 0 then v else Read(regs, r')
  {
    if r == 0 then regs else regs[r := v]
  }

  function Dest(i: Instr): Reg {
    if i.Store? || i.Branch? then 0 else i.rd
  }

  function EffectiveAddress(i: Instr, regs: RegFile): Word
    requires (i.Load? || i.Store?)
  {
    Trunc(Read(regs, i.rs1) + i.imm)
  }

  function Target(i: Instr, s: Arch): Word {
    match i
    case Branch(cond, rs1, rs2, imm) =>
      if Taken(cond, Read(s.regs, rs1), Read(s.regs, rs2)) then Trunc(s.pc + imm) else Trunc(s.pc + 4)
    case Jal(_, imm) => Trunc(s.pc + imm)
    case Jalr(_, rs1, imm) => var t := Trunc(Read(s.regs, rs1) + imm); t - t % 2
    case _ => Trunc(s.pc + 4)
  }

  function Value(i: Instr, s: Arch): Word
    requires !i.Store? && !i.Branch?
  {
    match i
    case Op(op, _, rs1, rs2) => Compute(op, Read(s.regs, rs1), Read(s.regs, rs2))
    case OpImm(op, _, rs1, imm) => Compute(op, Read(s.regs, rs1), imm)
    case Lui(_, imm) => imm
    case Auipc(_, imm) => Trunc(s.pc + imm)
    case Load(width, _, _, _) => LoadValue(s.mem, EffectiveAddress(i, s.regs), width)
    case Jal(_, _) => Trunc(s.pc + 4)
    case Jalr(_, _, _) => Trunc(s.pc + 4)
  }

  function Exec(i: Instr, s: Arch): (s': Arch) {
    Arch(Target(i, s),
         if i.Store? || i.Branch? then s.regs else Write(s.regs, i.rd, Value(i, s)),
         if i.Store? then StoreValue(s.mem, EffectiveAddress(i, s.regs), i.width, Read(s.regs, i.rs2)) else s.mem)
  }

  /** Misaligned accesses and misaligned jump targets trap. */
  predicate Traps(i: Instr, s: Arch) {
    || Target(i, s) % 4 != 0
    || ((i.Load? || i.Store?) && !Aligned(EffectiveAddress(i, s.regs), i.width))
  }

  /** The state after n instructions, one at a time. */
  function After(code: Code, s: Arch, n: nat): (s': Arch) {
    if n == 0 then s else var p := After(code, s, n - 1); Exec(code(p.pc), p)
  }

  predicate TrapFree(code: Code, s: Arch, n: nat) {
    forall k: nat :: k < n ==> !Traps(code(After(code, s, k).pc), After(code, s, k))
  }
}

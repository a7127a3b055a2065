/** The iterative multiplier and non-restoring divider (rtl/core/friscv_muldiv.sv). */
module MulDiv {
  import opened Words

  datatype Phase = Idle | Active | Done

  /** A 33-bit accumulator; as a partial remainder it is read as two's complement. */
  type Acc = x: int | 0 <= x < 0x2_0000_0000

  function SignedAcc(a: Acc): int {
    if a < TWO_32 then a else a - TWO_33
  }

  datatype Regs = Regs(
    phase: Phase, a: Acc, m: Word, q: Word, cnt: nat, mul: bool,
    neg: bool, remNeg: bool, special: bool, result: Long, done: bool)

  /** What one operation asks for. */
  datatype Req = Req(mul: bool, aSigned: bool, bSigned: bool, a: Word, b: Word)

  datatype In = In(flush: bool, start: bool, req: Req)

  const RESET: Regs := Regs(Idle, 0, 0, 0, 0, false, false, false, false, 0, false)

  function Magnitude(w: Word, signed: bool): Word {
    if signed && w >= TWO_31 then Trunc(0 - w) else w
  }

  function Negative(w: Word, signed: bool): bool {
    signed && w >= TWO_31
  }

  // The shared 33-bit adder of one division step: the doubled remainder minus or plus the divisor.
  function DivSum(a: Acc, m: Word, q: Word): Acc {
    var shifted := (2 * a + q / TWO_31) % TWO_33;
    if a < TWO_32 then (shifted - m) % TWO_33 else (shifted + m) % TWO_33
  }

  function DivQuotientWord(q: Word, sum: Acc): Word {
    2 * q % TWO_32 + if sum < TWO_32 then 1 else 0
  }

  function MulSum(a: Acc, m: Word, q: Word): Acc {
    (a + if q % 2 == 1 then m else 0) % TWO_33
  }

  function DivideByZero(a: Word): Long {
    a * TWO_32 + 0xFFFF_FFFF
  }

  predicate Overflows(req: Req) {
    req.aSigned && req.bSigned && req.a == TWO_31 && req.b == 0xFFFF_FFFF
  }

  function Launch(r: Regs, req: Req): Regs {
    var s := r.(a := 0, m := Magnitude(req.b, req.bSigned), q := Magnitude(req.a, req.aSigned), cnt := 32,
                mul := req.mul, neg := Negative(req.a, req.aSigned) != Negative(req.b, req.bSigned),
                remNeg := Negative(req.a, req.aSigned), done := false);
    if req.mul then
      s.(special := false, phase := Active)
    else if req.b == 0 then
      s.(result := DivideByZero(req.a), special := true, phase := Done)
    else if Overflows(req) then
      s.(result := TWO_31, special := true, phase := Done)
    else
      s.(special := false, phase := Active)
  }

  function Iterate(r: Regs): Regs {
    if r.cnt == 0 then r.(phase := Done)
    else if r.mul then
      var sum := MulSum(r.a, r.m, r.q);
      r.(a := sum / 2, q := sum % 2 * TWO_31 + r.q / 2, cnt := r.cnt - 1)
    else
      var sum := DivSum(r.a, r.m, r.q);
      r.(a := sum, q := DivQuotientWord(r.q, sum), cnt := r.cnt - 1)
  }

  function CorrectedRemainder(a: Acc, m: Word): Word {
    (if a >= TWO_32 then a + m else a) % TWO_33 % TWO_32
  }

  function SignedProduct(a: Acc, q: Word, neg: bool): Long {
    var prod := a % TWO_32 * TWO_32 + q;
    if neg then (0 - prod) % TWO_64 else prod
  }

  function SignedDivision(rem: Word, q: Word, remNeg: bool, neg: bool): Long {
    (if remNeg then Trunc(0 - rem) else rem) * TWO_32 + (if neg then Trunc(0 - q) else q)
  }

  function Finish(r: Regs): Regs {
    var result :=
      if r.mul then SignedProduct(r.a, r.q, r.neg)
      else if r.special then r.result
      else SignedDivision(CorrectedRemainder(r.a, r.m), r.q, r.remNeg, r.neg);
    r.(result := result, done := true, phase := Idle)
  }

  /** The registers after one clock edge. */
  function Next(r: Regs, i: In): Regs {
    if i.flush then r.(phase := Idle, done := false)
    else match r.phase
      case Idle => if i.start then Launch(r, i.req) else r.(done := false)
      case Active => Iterate(r)
      case Done => Finish(r)
  }

  function Run(r: Regs, ins: seq<In>): Regs
    decreases ins
  {
    if ins == [] then r else Run(Next(r, ins[0]), ins[1..])
  }

  /** The unit with its registers, clocked one edge at a time. */
  class Unit {
    var phase: Phase
    var a: Acc
    var m: Word
    var q: Word
    var cnt: nat
    var mul: bool
    var neg: bool
    var remNeg: bool
    var special: bool
    var result: Long
    var done: bool

    function State(): Regs
      reads this
    {
      Regs(phase, a, m, q, cnt, mul, neg, remNeg, special, result, done)
    }

    constructor ()
      ensures State() == RESET
    {
      phase, a, m, q, cnt := Idle, 0, 0, 0, 0;
      mul, neg, remNeg, special, result, done := false, false, false, false, 0, false;
    }

    method Clock(i: In)
      modifies this
      ensures State() == Next(old(State()), i)
    {
      if i.flush {
        phase, done := Idle, false;
      } else {
        match phase
        case Idle =>
          done := false;
          if i.start { LaunchOp(i.req); }
        case Active =>
          if cnt == 0 { phase := Done; } else { IterateOnce(); }
        case Done =>
          FinishOp();
      }
    }

    method LaunchOp(req: Req)
      modifies this
      ensures State() == Launch(old(State()), req).(done := old(done))
    {
      a, m, q, cnt := 0, Magnitude(req.b, req.bSigned), Magnitude(req.a, req.aSigned), 32;
      mul, remNeg := req.mul, Negative(req.a, req.aSigned);
      neg := remNeg != Negative(req.b, req.bSigned);
      if req.mul {
        special, phase := false, Active;
      } else if req.b == 0 {
        result, special, phase := DivideByZero(req.a), true, Done;
      } else if Overflows(req) {
        result, special, phase := TWO_31, true, Done;
      } else {
        special, phase := false, Active;
      }
    }

    method IterateOnce()
      requires cnt != 0
      modifies this
      ensures State() == Iterate(old(State()))
    {
      if mul {
        var sum := MulSum(a, m, q);
        a, q := sum / 2, sum % 2 * TWO_31 + q / 2;
      } else {
        a := DivSum(a, m, q);
        q := DivQuotientWord(q, a);
      }
      cnt := cnt - 1;
    }

    method FinishOp()
      modifies this
      ensures State() == Finish(old(State()))
    {
      if mul {
        result := SignedProduct(a, q, neg);
      } else if !special {
        result := SignedDivision(CorrectedRemainder(a, m), q, remNeg, neg);
      }
      done, phase := true, Idle;
    }
  }

  // ----- what the operations mean (RISC-V Unprivileged ISA, sections 7.1 and 7.2) -----

  /** Quotient rounded towards zero, and the remainder that goes with it. */
  function TruncQuot(x: int, y: int): int
    requires y != 0
  {
    var mag := Abs(x) / Abs(y);
    if (x < 0) != (y < 0) then -mag else mag
  }

  function TruncRem(x: int, y: int): int
    requires y != 0
  {
    var mag := Abs(x) % Abs(y);
    if x < 0 then -mag else mag
  }

  function Quotient(req: Req): Word {
    if req.b == 0 then 0xFFFF_FFFF
    else Trunc(TruncQuot(Val(req.a, req.aSigned), Val(req.b, req.bSigned)))
  }

  function Remainder(req: Req): Word {
    if req.b == 0 then req.a
    else Trunc(TruncRem(Val(req.a, req.aSigned), Val(req.b, req.bSigned)))
  }

  function Spec(req: Req): Long {
    if req.mul then Val(req.a, req.aSigned) * Val(req.b, req.bSigned) % TWO_64
    else Remainder(req) * TWO_32 + Quotient(req)
  }

  /** The quotient and remainder satisfy the division law, with the sign of the dividend. */
  lemma DivisionLaw(x: int, y: int)
    requires y != 0
    ensures TruncQuot(x, y) * y + TruncRem(x, y) == x
    ensures Abs(TruncRem(x, y)) < Abs(y)
    ensures TruncRem(x, y) != 0 ==> (TruncRem(x, y) < 0 <==> x < 0)
  {
    var n: int, d: int := Abs(x), Abs(y);
    assert n == n / d * d + n % d;
    var t: int := n / d;
    assert (-t) * d == -(t * d) == t * (-d);
    assert (-t) * (-d) == t * d;
  }

  // ----- the loop invariants -----

  /** After 32 - cnt multiply steps: the consumed multiplier bits of n have been multiplied in. */
  ghost predicate MulInvariant(n: Word, m: Word, cnt: nat, a: Acc, q: Word)
    requires cnt <= 32
  {
    && a < TWO_32
    && a * TWO_32 + q == m * (n % Pow2(32 - cnt)) * Pow2(cnt) + n / Pow2(32 - cnt)
  }

  /** After 32 - cnt divide steps: the top bits of n are divided, the partial remainder is in [-m, m). */
  ghost predicate DivInvariant(n: Word, m: Word, cnt: nat, a: Acc, q: Word)
    requires cnt <= 32
  {
    var top := n / Pow2(cnt);
    && m > 0
    && q == n % Pow2(cnt) * Pow2(32 - cnt) + top / m
    && (SignedAcc(a) == top % m || SignedAcc(a) == top % m - m)
  }

  /** The unit is at work on req; it will deliver after Left(r) further edges. */
  ghost predicate Working(req: Req, r: Regs) {
    && r.phase != Idle
    && !r.done
    && r.cnt <= 32
    && r.mul == req.mul
    && (r.phase == Done && !r.special ==> r.cnt == 0)
    && if r.special then !req.mul && r.phase == Done && r.result == Spec(req)
       else
         && r.m == Magnitude(req.b, req.bSigned)
         && r.neg == (Negative(req.a, req.aSigned) != Negative(req.b, req.bSigned))
         && r.remNeg == Negative(req.a, req.aSigned)
         && var n := Magnitude(req.a, req.aSigned);
            if req.mul then MulInvariant(n, r.m, r.cnt, r.a, r.q) else DivInvariant(n, r.m, r.cnt, r.a, r.q)
  }

  function Left(r: Regs): nat {
    match r.phase
    case Idle => 0
    case Active => r.cnt + 2
    case Done => 1
  }

  ghost predicate Delivered(req: Req, r: Regs) {
    r.phase == Idle && r.done && r.result == Spec(req)
  }

  lemma MulStep(n: Word, m: Word, k: nat, a: Acc, q: Word)
    requires k < 32 && MulInvariant(n, m, 32 - k, a, q)
    ensures var sum := MulSum(a, m, q);
            MulInvariant(n, m, 31 - k, sum / 2, sum % 2 * TWO_31 + q / 2)
  {
    hide MulSum;
    var p, c := Pow2(k), Pow2(31 - k);
    Euclid(n, p);
    var low: nat, rest: nat := n % p, n / p;
    assert Pow2(32 - k) == 2 * c;
    assert p * c == TWO_31 by { Pow2Add(k, 31 - k); Pow2At32(); }
    assert n % Pow2(k + 1) == low + rest % 2 * p && n / Pow2(k + 1) == rest / 2 by { SplitBit(n, k); }
    MulStepWindow(m, low, rest, p, c, a, q);
  }

  /** One bit more of the multiplier adds the multiplicand at the top of the 63-bit window. */
  lemma MulStepWindow(m: Word, low: nat, rest: nat, p: nat, c: nat, a: Acc, q: Word)
    requires p * c == TWO_31 && a < TWO_32
    requires a * TWO_32 + q == m * low * (2 * c) + rest
    ensures var sum := MulSum(a, m, q);
            && sum / 2 < TWO_32
            && sum / 2 * TWO_32 + (sum % 2 * TWO_31 + q / 2) == m * (low + rest % 2 * p) * c + rest / 2
  {
    hide MulSum, TWO_31, TWO_32;
    DoubledProduct(m * low, c);
    PartialProduct(m, low, rest % 2, p, c);
    MulStepWord(a, m, q, m * low * c, rest);
  }

  lemma DoubledProduct(x: nat, c: nat)
    ensures x * (2 * c) == 2 * (x * c)
  {
  }

  lemma PartialProduct(m: nat, low: nat, bit: nat, p: nat, c: nat)
    requires bit < 2
    ensures m * (low + bit * p) * c == m * low * c + bit * m * (p * c)
  {
    if bit == 0 {
      assert bit * p == 0 && bit * m == 0;
    } else {
      assert bit * p == p && bit * m == m;
      Distribute(m, low, p, c);
    }
  }

  lemma Distribute(m: nat, x: nat, y: nat, z: nat)
    ensures m * (x + y) * z == m * x * z + m * (y * z)
  {
    assert m * (x + y) == m * x + m * y;
    assert (m * x + m * y) * z == m * x * z + m * y * z;
    assert m * y * z == m * (y * z);
  }

  lemma MulStepWord(a: Acc, m: Word, q: Word, partial: nat, rest: nat)
    requires a < TWO_32 && a * TWO_32 + q == 2 * partial + rest
    ensures var sum := MulSum(a, m, q);
            && sum / 2 < TWO_32
            && sum / 2 * TWO_32 + (sum % 2 * TWO_31 + q / 2) == partial + rest % 2 * m * TWO_31 + rest / 2
  {
    assert q % 2 == rest % 2;
    if rest % 2 == 1 {
      assert rest % 2 * m == m;
    }
  }

  /** Splitting n one bit higher. */
  lemma SplitBit(n: nat, k: nat)
    ensures n % Pow2(k + 1) == n % Pow2(k) + n / Pow2(k) % 2 * Pow2(k)
    ensures n / Pow2(k + 1) == n / Pow2(k) / 2
  {
    var p := Pow2(k);
    assert Pow2(k + 1) == 2 * p;
    SplitHalf(n, p);
  }

  lemma SplitHalf(n: nat, p: nat)
    requires p > 0
    ensures n % (2 * p) == n % p + n / p % 2 * p && n / (2 * p) == n / p / 2
  {
    Euclid(n, p);
    SplitBitProduct(p, n / p);
    DivModIs(n, 2 * p, n / p / 2, n % p + n / p % 2 * p);
  }

  lemma SplitBitProduct(p: nat, rest: nat)
    ensures rest * p == rest / 2 * (2 * p) + rest % 2 * p
    ensures 0 <= rest % 2 * p <= p
  {
    if rest % 2 == 1 {
      assert rest == 2 * (rest / 2) + 1;
    }
  }

  lemma DivStep(n: Word, m: Word, c: nat, a: Acc, q: Word)
    requires 0 < c <= 32 && DivInvariant(n, m, c, a, q)
    ensures var sum := DivSum(a, m, q);
            DivInvariant(n, m, c - 1, sum, DivQuotientWord(q, sum))
  {
    var p, g := Pow2(c - 1), Pow2(32 - c);
    assert Pow2(c) == 2 * p && Pow2(33 - c) == 2 * g;
    assert p * g == TWO_31 by { Pow2Add(c - 1, 32 - c); Pow2At32(); }
    Euclid(n, p);
    var top: nat, low: nat := n / p, n % p;
    assert n / Pow2(c) == top / 2 && n % Pow2(c) == low + top % 2 * p by { SplitBit(n, c - 1); }
    assert top / 2 / m < g by { TopBits(n, c, m); }
    DivStepWindow(m, top, low, p, g, a, q);
  }

  lemma DivStepWindow(m: Word, top: nat, low: nat, p: nat, g: nat, a: Acc, q: Word)
    requires m > 0 && p * g == TWO_31 && low < p && top / 2 / m < g
    requires q == (low + top % 2 * p) * g + top / 2 / m
    requires SignedAcc(a) == top / 2 % m || SignedAcc(a) == top / 2 % m - m
    ensures var sum := DivSum(a, m, q);
            && DivQuotientWord(q, sum) == low * (2 * g) + top / m
            && (SignedAcc(sum) == top % m || SignedAcc(sum) == top % m - m)
  {
    hide DivSum, DivQuotientWord, SignedAcc, TWO_31;
    var half, bit := top / 2, top % 2;
    assert top == 2 * half + bit;
    Euclid(half, m);
    var quot, rem: nat := half / m, half % m;
    DivideDoubled(half, bit, m);
    DigitBelow(low, bit, p, g, quot);
    DivStepQuotientBits(low * g, bit, quot, q);
    DivStepRemainder(a, m, q, rem, bit);
    DigitAppended(q, DivSum(a, m, q), low * g + quot);
    DoubledProduct(low, g);
  }

  lemma TopBits(n: Word, c: nat, m: Word)
    requires c <= 32 && m > 0
    ensures n / Pow2(c) / m < Pow2(32 - c)
  {
    var top := n / Pow2(c);
    assert Pow2(c) * Pow2(32 - c) == TWO_32 by { Pow2Add(c, 32 - c); Pow2At32(); }
    Euclid(n, Pow2(c));
    ProductBound(top, Pow2(c), Pow2(32 - c));
    Euclid(top, m);
    ProductGrows(top / m, m);
  }

  lemma ProductBound(top: nat, p: nat, g: nat)
    requires top * p < p * g
    ensures top < g
  {
    assert (top - g) * p == top * p - g * p;
    if top >= g {
      assert false;
    }
  }

  lemma ProductGrows(x: nat, m: nat)
    requires m > 0
    ensures x <= x * m
  {
    assert x * m == x * (m - 1) + x;
  }

  /** Below the dividend bit to consume nothing overlaps. */
  lemma DigitBelow(low: nat, bit: nat, p: nat, g: nat, quot: nat)
    requires low < p && quot < g && bit < 2
    ensures (low + bit * p) * g == low * g + bit * (p * g) && low * g + quot < p * g
  {
    if bit == 0 {
      assert bit * p == 0 && bit * (p * g) == 0;
    } else {
      assert bit * p == p && bit * (p * g) == p * g;
      SumTimes(low, p, g);
    }
    var rest: nat := p - low - 1;
    SumTimes(low + 1, rest, g);
    SumTimes(low, 1, g);
  }

  /** So that bit is the quotient word's top bit, and shifting drops it. */
  lemma DivStepQuotientBits(product: nat, bit: nat, quot: nat, q: Word)
    requires bit < 2 && product + quot < TWO_31 && q == product + bit * TWO_31 + quot
    ensures q / TWO_31 == bit && 2 * q % TWO_32 == 2 * (product + quot)
  {
  }

  lemma DigitAppended(q: Word, sum: Acc, digits: nat)
    requires 2 * q % TWO_32 == 2 * digits
    ensures DivQuotientWord(q, sum) == 2 * digits + if SignedAcc(sum) >= 0 then 1 else 0
  {
  }

  lemma DivideDoubled(top: nat, bit: nat, m: nat)
    requires m > 0 && bit < 2
    ensures var over := 2 * (top % m) + bit >= m;
            && (2 * top + bit) / m == 2 * (top / m) + (if over then 1 else 0)
            && (2 * top + bit) % m == 2 * (top % m) + bit - (if over then m else 0)
  {
    Euclid(top, m);
    var q, r := top / m, top % m;
    var over := 2 * r + bit >= m;
    assert 2 * (q * m) == 2 * q * m;
    assert (2 * q + 1) * m == 2 * q * m + m;
    DivModIs(2 * top + bit, m, 2 * q + (if over then 1 else 0), 2 * r + bit - (if over then m else 0));
  }

  lemma WrapIs(x: int)
    requires -TWO_32 <= x < TWO_32
    ensures SignedAcc(x % TWO_33) == x && SignedAcc((x + TWO_33) % TWO_33) == x
  {
  }

  /** A partial remainder that is not negative: doubling it does not wrap in 33 bits, and the divisor is subtracted. */
  lemma DivisorSubtracted(a: Acc, m: Word, q: Word, bit: nat)
    requires a < m && bit < 2 && q / TWO_31 == bit
    ensures SignedAcc(DivSum(a, m, q)) == 2 * a + bit - m
  {
    hide SignedAcc;
    assert (2 * a + bit) % TWO_33 == 2 * a + bit;
    WrapIs(2 * a + bit - m);
  }

  /** A negative one: doubling it wraps, and adding the divisor brings it back. */
  lemma DivisorAdded(a: Acc, m: Word, q: Word, bit: nat)
    requires a >= TWO_32 && TWO_33 - m <= a && bit < 2 && q / TWO_31 == bit
    ensures SignedAcc(DivSum(a, m, q)) == 2 * (a - TWO_33) + bit + m
  {
    hide SignedAcc;
    assert (2 * a + bit) % TWO_33 == 2 * a + bit - TWO_33;
    WrapIs(2 * (a - TWO_33) + bit + m);
  }

  lemma DivStepRemainder(a: Acc, m: Word, q: Word, rem: nat, bit: nat)
    requires rem < m && bit < 2 && q / TWO_31 == bit
    requires SignedAcc(a) == rem || SignedAcc(a) == rem - m
    ensures SignedAcc(DivSum(a, m, q)) == 2 * rem + bit - m
  {
    hide DivSum;
    if a < TWO_32 {
      DivisorSubtracted(a, m, q, bit);
    } else {
      DivisorAdded(a, m, q, bit);
    }
  }

  // ----- from the first edge to the result -----

  lemma InvariantsAtLaunch(n: Word, m: Word)
    ensures MulInvariant(n, m, 32, 0, n)
    ensures m > 0 ==> DivInvariant(n, m, 32, 0, n)
  {
    Pow2At32();
    assert n % 1 == 0 && m * 0 * Pow2(32) == 0;
    if m == 0 {
    } else {
      assert n / TWO_32 == 0 && n % TWO_32 == n && n * Pow2(0) == n;
      DivModIs(0, m, 0, 0);
    }
  }

  lemma SpecialResults(req: Req)
    requires !req.mul
    ensures req.b == 0 ==> Spec(req) == DivideByZero(req.a)
    ensures Overflows(req) ==> Spec(req) == TWO_31 && req.b != 0
  {
  }

  lemma LaunchWorks(r: Regs, req: Req)
    requires r.phase == Idle
    ensures Working(req, Launch(r, req)) && 1 + Left(Launch(r, req)) == Latency(req)
  {
    hide MulInvariant, DivInvariant, Magnitude, Negative, Spec, Overflows, DivideByZero;
    MagnitudeIsAbs(req.b, req.bSigned);
    InvariantsAtLaunch(Magnitude(req.a, req.aSigned), Magnitude(req.b, req.bSigned));
    if !req.mul { SpecialResults(req); }
  }

  lemma IterateKeeps(req: Req, r: Regs)
    requires Working(req, r) && r.phase == Active
    ensures Working(req, Iterate(r)) && Left(Iterate(r)) == Left(r) - 1
  {
    hide MulInvariant, DivInvariant, MulSum, DivSum, DivQuotientWord, Magnitude, Spec;
    var n := Magnitude(req.a, req.aSigned);
    if r.cnt > 0 {
      if req.mul {
        MulStep(n, r.m, 32 - r.cnt, r.a, r.q);
      } else {
        DivStep(n, r.m, r.cnt, r.a, r.q);
      }
    }
  }

  lemma SignedProductIs(x: int, y: int, prod: Long)
    requires prod == Abs(x) * Abs(y)
    ensures SignedProduct(prod / TWO_32, prod % TWO_32, (x < 0) != (y < 0)) == x * y % TWO_64
  {
    AbsProduct(x, y);
    assert prod / TWO_32 % TWO_32 * TWO_32 + prod % TWO_32 == prod;
  }

  lemma AbsProduct(x: int, y: int)
    ensures x * y == if (x < 0) != (y < 0) then -(Abs(x) * Abs(y)) else Abs(x) * Abs(y)
  {
    assert (-x) * y == -(x * y) && x * (-y) == -(x * y) && (-x) * (-y) == x * y;
  }

  lemma MagnitudeIsAbs(w: Word, signed: bool)
    ensures Magnitude(w, signed) == Abs(Val(w, signed)) && Negative(w, signed) == (Val(w, signed) < 0)
    ensures Magnitude(w, signed) == 0 <==> w == 0
  {
  }

  lemma FinishDelivers(req: Req, r: Regs)
    requires Working(req, r) && r.phase == Done
    ensures Delivered(req, Finish(r))
  {
    hide MulInvariant, DivInvariant, Magnitude, Negative, Val, SignedProduct, SignedDivision, TruncQuot, TruncRem;
    var x, y := Val(req.a, req.aSigned), Val(req.b, req.bSigned);
    MagnitudeIsAbs(req.a, req.aSigned);
    MagnitudeIsAbs(req.b, req.bSigned);
    if req.mul {
      FinalMulState(Magnitude(req.a, req.aSigned), r.m, r.a, r.q);
      SignedProductIs(x, y, r.a * TWO_32 + r.q);
    } else if !r.special {
      FinalDivState(Magnitude(req.a, req.aSigned), r.m, r.a, r.q);
      SignedDivisionIs(x, y, CorrectedRemainder(r.a, r.m), r.q);
    }
  }

  lemma FinalMulState(n: Word, m: Word, a: Acc, q: Word)
    requires MulInvariant(n, m, 0, a, q)
    ensures a < TWO_32 && a * TWO_32 + q == n * m
  {
    Pow2At32();
    assert n % TWO_32 == n && n / TWO_32 == 0;
    assert m * n * Pow2(0) == n * m;
  }

  lemma FinalDivState(n: Word, m: Word, a: Acc, q: Word)
    requires DivInvariant(n, m, 0, a, q)
    ensures m > 0 && q == n / m && CorrectedRemainder(a, m) == n % m
  {
    assert n % Pow2(0) == 0 && n / Pow2(0) == n && 0 * Pow2(32) == 0;
    Euclid(n, m);
    CorrectedIs(a, m, n % m);
  }

  lemma CorrectedIs(a: Acc, m: Word, rem: nat)
    requires rem < m && (SignedAcc(a) == rem || SignedAcc(a) == rem - m)
    ensures CorrectedRemainder(a, m) == rem
  {
  }

  lemma SignedDivisionIs(x: int, y: int, rem: Word, q: Word)
    requires y != 0 && q == Abs(x) / Abs(y) && rem == Abs(x) % Abs(y)
    ensures SignedDivision(rem, q, x < 0, (x < 0) != (y < 0)) == Trunc(TruncRem(x, y)) * TWO_32 + Trunc(TruncQuot(x, y))
  {
    hide Abs, TruncQuot, TruncRem, SignedDivision, Trunc, TWO_32;
    SignsApplied(x, y);
    NegatedWords(rem, q, x < 0, (x < 0) != (y < 0));
  }

  lemma NegatedWords(rem: Word, q: Word, remNeg: bool, neg: bool)
    ensures SignedDivision(rem, q, remNeg, neg)
            == Trunc(if remNeg then 0 - rem else rem) * TWO_32 + Trunc(if neg then 0 - q else q)
  {
  }

  lemma SignsApplied(x: int, y: int)
    requires y != 0
    ensures var q, rem := Abs(x) / Abs(y), Abs(x) % Abs(y);
            && TruncQuot(x, y) == (if (x < 0) != (y < 0) then -q else q)
            && TruncRem(x, y) == if x < 0 then -rem else rem
  {
  }

  /** Each edge keeps the unit on its operation, whatever the start input does, until the result is out. */
  lemma NextKeeps(req: Req, r: Regs, i: In)
    requires Working(req, r) && !i.flush
    ensures r.phase == Active ==> Working(req, Next(r, i)) && Left(Next(r, i)) == Left(r) - 1
    ensures r.phase == Done ==> Delivered(req, Next(r, i)) && Left(r) == 1
  {
    if r.phase == Active { IterateKeeps(req, r); } else { FinishDelivers(req, r); }
  }

  lemma WorkingIsBusy(req: Req, r: Regs)
    requires Working(req, r)
    ensures r.phase != Idle && !r.done && Left(r) > 0
  {
  }

  lemma {:induction false} RunDelivers(req: Req, r: Regs, ins: seq<In>)
    requires Working(req, r)
    requires forall k :: 0 <= k < |ins| ==> !ins[k].flush
    ensures |ins| == Left(r) ==> Delivered(req, Run(r, ins))
    ensures |ins| < Left(r) ==> !Run(r, ins).done
    decreases ins
  {
    hide Next;
    hide Working;
    WorkingIsBusy(req, r);
    if |ins| == 0 {
    } else {
      NextKeeps(req, r, ins[0]);
      if r.phase == Active {
        RunDelivers(req, Next(r, ins[0]), ins[1..]);
      }
    }
  }

  function Latency(req: Req): nat {
    if !req.mul && (req.b == 0 || Overflows(req)) then 2 else 35
  }

  /**
   * From any idle state, for every operand pair and signedness and whatever the inputs do meanwhile
   * (short of a flush): the result is the specified one exactly Latency edges after the start, and
   * done stays low until then.
   */
  lemma Computes(r: Regs, start: In, ins: seq<In>)
    requires r.phase == Idle && start.start && !start.flush
    requires forall k :: 0 <= k < |ins| ==> !ins[k].flush
    ensures 1 + |ins| == Latency(start.req) ==> Delivered(start.req, Run(r, [start] + ins))
    ensures 1 + |ins| < Latency(start.req) ==> !Run(r, [start] + ins).done
  {
    hide Working, Spec, Launch;
    LaunchWorks(r, start.req);
    var all := [start] + ins;
    assert all[0] == start && all[1..] == ins;
    RunDelivers(start.req, Launch(r, start.req), ins);
  }

  lemma QuotientFits(req: Req, x: int, y: int)
    requires req.b != 0 && !Overflows(req) && req.aSigned == req.bSigned
    requires x == Val(req.a, req.aSigned) && y == Val(req.b, req.bSigned)
    ensures Val(Quotient(req), req.aSigned) == TruncQuot(x, y)
    ensures Val(Remainder(req), req.aSigned) == TruncRem(x, y)
  {
    hide TruncQuot, TruncRem;
    assert y != 0 && (req.aSigned ==> Abs(x) < TWO_31 || (x == -TWO_31 && y != -1));
    SignsApplied(x, y);
    QuotientShrinks(Abs(x), Abs(y));
    TruncFits(TruncQuot(x, y), req.aSigned);
    TruncFits(TruncRem(x, y), req.aSigned);
  }

  lemma TruncFits(v: int, signed: bool)
    requires if signed then -TWO_31 <= v < TWO_31 else 0 <= v < TWO_32
    ensures Val(Trunc(v), signed) == v
  {
  }

  lemma QuotientShrinks(n: nat, d: nat)
    requires d > 0
    ensures 0 <= n / d <= n && 0 <= n % d <= n && n % d < d
    ensures d > 1 && n > 0 ==> n / d < n
  {
    Euclid(n, d);
    ProductGrows(n / d, d);
    assert n * d == n * (d - 1) + n;
    if d > 1 && n > 0 && n / d == n {
      ProductGrows(n, d - 1);
    }
  }

  /** The table of section 7.2: division by zero and signed overflow. */
  lemma SpecialCases(req: Req)
    requires !req.mul
    ensures req.b == 0 ==> Quotient(req) == 0xFFFF_FFFF && Remainder(req) == req.a
    ensures Overflows(req) ==> Quotient(req) == TWO_31 && Remainder(req) == 0
    ensures req.b != 0 && !Overflows(req) && req.aSigned == req.bSigned ==>
              && Val(Quotient(req), req.aSigned) * Val(req.b, req.bSigned) + Val(Remainder(req), req.aSigned)
                 == Val(req.a, req.aSigned)
              && Abs(Val(Remainder(req), req.aSigned)) < Abs(Val(req.b, req.bSigned))
  {
    if req.b != 0 && !Overflows(req) && req.aSigned == req.bSigned {
      var x, y := Val(req.a, req.aSigned), Val(req.b, req.bSigned);
      DivisionLaw(x, y);
      QuotientFits(req, x, y);
    }
  }
}

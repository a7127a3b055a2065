/** The 32-bit words of the core as bounded integers: wrap-around is always written out. */
module Words {

  const TWO_31: int := 0x8000_0000
  const TWO_32: int := 0x1_0000_0000
  const TWO_33: int := 0x2_0000_0000
  const TWO_64: int := 0x1_0000_0000_0000_0000

  type Word = x: int | 0 <= x < 0x1_0000_0000
  type Long = x: int | 0 <= x < 0x1_0000_0000_0000_0000

  /** The low 32 bits of a two's complement integer of any size. */
  function Trunc(x: int): Word {
    x % TWO_32
  }

  /** The two's complement value of a word. */
  function Signed(w: Word): int {
    if w < TWO_31 then w else w - TWO_32
  }

  function Val(w: Word, signed: bool): int {
    if signed then Signed(w) else w
  }

  function Lo(x: Long): Word {
    x % TWO_32
  }

  function Hi(x: Long): Word {
    x / TWO_32
  }

  function Abs(x: int): nat {
    if x < 0 then -x else x
  }

  function Pow2(n: nat): (p: nat)
    ensures p > 0
  {
    if n == 0 then 1 else 2 * Pow2(n - 1)
  }

  lemma {:induction false} Pow2Add(m: nat, n: nat)
    ensures Pow2(m + n) == Pow2(m) * Pow2(n)
  {
    if m == 0 {
    } else {
      Pow2Add(m - 1, n);
      assert m + n - 1 == m - 1 + n;
      assert 2 * (Pow2(m - 1) * Pow2(n)) == (2 * Pow2(m - 1)) * Pow2(n);
    }
  }

  lemma Pow2At32()
    ensures Pow2(32) == TWO_32
  {
    assert Pow2(8) == 256;
    Pow2Add(8, 8);
    Pow2Add(16, 16);
  }

  lemma MulAtLeast(k: int, d: int)
    requires k >= 1 && d > 0
    ensures k * d >= d
  {
    assert k * d == (k - 1) * d + d;
  }

  /** Quotient and remainder of a division are determined by the defining equation. */
  lemma DivModUnique(d: int, q: int, r: int, q': int, r': int)
    requires d > 0 && q * d + r == q' * d + r' && 0 <= r < d && 0 <= r' < d
    ensures q == q' && r == r'
  {
    assert (q - q') * d == q * d - q' * d == r' - r;
    if q > q' {
      MulAtLeast(q - q', d);
    } else if q < q' {
      assert (q' - q) * d == -((q - q') * d);
      MulAtLeast(q' - q, d);
    }
  }

  lemma DivModIs(x: int, d: int, q: int, r: int)
    requires d > 0 && x == q * d + r && 0 <= r < d
    ensures x / d == q && x % d == r
  {
    DivModUnique(d, q, r, x / d, x % d);
  }

  lemma Euclid(n: nat, d: nat)
    requires d > 0
    ensures n == n / d * d + n % d && 0 <= n / d && 0 <= n % d < d
  {
  }

  /** The bytes of a word made of two halves. */
  lemma WordOfHalves(low: int, high: int)
    requires 0 <= low < 0x1_0000 && 0 <= high < 0x1_0000
    ensures var w := low + 0x1_0000 * high;
            && w % 0x1_0000 == low && w / 0x1_0000 == high
            && w % 0x100 == low % 0x100 && w / 0x100 % 0x100 == low / 0x100
            && w / 0x1_0000 % 0x100 == high % 0x100 && w / 0x100_0000 == high / 0x100
  {
    var w := low + 0x1_0000 * high;
    DivModIs(w, 0x1_0000, high, low);
    Euclid(low, 0x100);
    Euclid(high, 0x100);
    DivModIs(w, 0x100, low / 0x100 + 0x100 * high, low % 0x100);
    DivModIs(low / 0x100 + 0x100 * high, 0x100, high, low / 0x100);
    DivModIs(w, 0x100_0000, high / 0x100, low + 0x1_0000 * (high % 0x100));
  }

  lemma SumTimes(x: nat, y: nat, g: nat)
    ensures (x + y) * g == x * g + y * g && y * g >= 0
  {
  }

  lemma DivDiv(n: nat, p: nat, q: nat)
    requires p > 0 && q > 0
    ensures p * q > 0 && n / p / q == n / (p * q)
  {
    var h := n / p;
    assert n == h * p + n % p && h == h / q * q + h % q;
    TimesPositive(p, q);
    assert h * p == (h / q * q) * p + h % q * p == h / q * (p * q) + h % q * p;
    RemainderFits(h % q, n % p, p, q);
    DivModIs(n, p * q, h / q, h % q * p + n % p);
  }

  lemma TimesPositive(p: nat, q: nat)
    requires p > 0 && q > 0
    ensures p * q > 0
  {
  }

  lemma RemainderFits(x: nat, y: nat, p: nat, q: nat)
    requires x < q && y < p
    ensures 0 <= x * p + y < p * q
  {
    assert (q - 1 - x) * p >= 0;
    assert (q - 1 - x) * p == p * q - p - x * p;
  }

  // ----- bits -----

  predicate Bit(w: nat, k: nat) {
    w / Pow2(k) % 2 == 1
  }

  datatype Gate = AndGate | OrGate | XorGate

  predicate Through(g: Gate, x: bool, y: bool) {
    match g
    case AndGate => x && y
    case OrGate => x || y
    case XorGate => x != y
  }

  /** One gate at each of the low n positions. */
  function Bitwise(g: Gate, a: nat, b: nat, n: nat): (r: nat)
    ensures r < Pow2(n)
  {
    if n == 0 then 0
    else 2 * Bitwise(g, a / 2, b / 2, n - 1) + if Through(g, a % 2 == 1, b % 2 == 1) then 1 else 0
  }

  function Gated(g: Gate, a: Word, b: Word): Word {
    Pow2At32();
    Bitwise(g, a, b, 32)
  }

  lemma BitAbove(w: nat, k: nat)
    ensures Bit(w, k + 1) == Bit(w / 2, k) && Bit(w, 0) == (w % 2 == 1)
  {
    DivDiv(w, 2, Pow2(k));
  }

  lemma {:induction false} BitwiseBits(g: Gate, a: nat, b: nat, n: nat, k: nat)
    requires k < n
    ensures Bit(Bitwise(g, a, b, n), k) == Through(g, Bit(a, k), Bit(b, k))
    decreases n
  {
    hide Through, Bit;
    var low := if Through(g, a % 2 == 1, b % 2 == 1) then 1 else 0;
    var high := Bitwise(g, a / 2, b / 2, n - 1);
    assert Bitwise(g, a, b, n) == 2 * high + low && (2 * high + low) / 2 == high;
    if k == 0 {
      BitAbove(a, 0);
      BitAbove(b, 0);
      BitAbove(2 * high + low, 0);
    } else {
      BitAbove(a, k - 1);
      BitAbove(b, k - 1);
      BitAbove(2 * high + low, k - 1);
      BitwiseBits(g, a / 2, b / 2, n - 1, k - 1);
    }
  }

  lemma {:induction false} SameBits(x: nat, y: nat, n: nat)
    requires x < Pow2(n) && y < Pow2(n) && forall k :: 0 <= k < n ==> Bit(x, k) == Bit(y, k)
    ensures x == y
    decreases n
  {
    hide Bit;
    if n == 0 {
    } else {
      BitAbove(x, 0);
      BitAbove(y, 0);
      forall k | 0 <= k < n - 1 ensures Bit(x / 2, k) == Bit(y / 2, k) {
        BitAbove(x, k);
        BitAbove(y, k);
      }
      SameBits(x / 2, y / 2, n - 1);
    }
  }
}

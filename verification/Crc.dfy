/**
 * The CRC16 of SD data blocks (verif/directed/sd_read.c; section 4.5 of the SD Physical Layer Simplified
 * Specification): the bitwise loop, the polynomial division it performs, and the errors it detects.
 */
module Crc {

  type Bits = seq<bool>

  const POLY: bv16 := 0x1021

  function Top(v: bv16): bool {
    v & 0x8000 != 0
  }

  function Left(c: bv16): bv16 {
    c << (1 as bv16)
  }

  function High(d: bv8): bv16 {
    (d as bv16) << (8 as bv16)
  }

  function Xor(a: bv16, b: bv16): bv16 {
    a ^ b
  }

  // ----- the loop -----

  /** One turn of the inner loop. */
  function Shift(c: bv16): bv16 {
    if Top(c) then Xor(Left(c), POLY) else Left(c)
  }

  function Shifts(c: bv16, k: nat): bv16
    decreases k
  {
    if k == 0 then c else Shifts(Shift(c), k - 1)
  }

  /** The k most significant bits of a word, first bit first. */
  function BitsFrom(v: bv16, k: nat): (b: Bits)
    ensures |b| == k
    decreases k
  {
    if k == 0 then [] else [Top(v)] + BitsFrom(Left(v), k - 1)
  }

  function ByteBits(d: bv8): (b: Bits)
    ensures |b| == 8
  {
    BitsFrom(High(d), 8)
  }

  function BytesBits(data: seq<bv8>): (b: Bits)
    ensures |b| == 8 * |data|
  {
    if data == [] then [] else ByteBits(data[0]) + BytesBits(data[1..])
  }

  /** The register of a serial CRC, fed one bit. */
  function FeedBit(c: bv16, b: bool): bv16 {
    if Top(c) != b then Xor(Left(c), POLY) else Left(c)
  }

  function Feed(c: bv16, bits: Bits): bv16
    decreases bits
  {
    if bits == [] then c else Feed(FeedBit(c, bits[0]), bits[1..])
  }

  function Crc16(data: seq<bv8>): bv16 {
    Feed(0, BytesBits(data))
  }

  lemma {:induction false} FeedAppend(c: bv16, a: Bits, b: Bits)
    ensures Feed(c, a + b) == Feed(Feed(c, a), b)
    decreases a
  {
    hide FeedBit;
    if a == [] {
      assert a + b == b;
    } else {
      assert (a + b)[0] == a[0] && (a + b)[1..] == a[1..] + b;
      FeedAppend(FeedBit(c, a[0]), a[1..], b);
    }
  }

  // ----- the register, as a vector -----

  lemma RawLeft(a: bv16, b: bv16)
    ensures (a ^ b) << (1 as bv16) == (a << (1 as bv16)) ^ (b << (1 as bv16))
  {
  }

  lemma RawTop(a: bv16, b: bv16)
    ensures ((a ^ b) & 0x8000 != 0) == ((a & 0x8000 != 0) != (b & 0x8000 != 0))
  {
  }

  lemma RawSwap(a: bv16, b: bv16, c: bv16)
    ensures (a ^ b) ^ c == (a ^ c) ^ b
  {
  }

  lemma RawTwice(a: bv16, b: bv16)
    ensures (a ^ b) ^ b == a && a ^ b == b ^ a
  {
  }

  lemma LeftXor(a: bv16, b: bv16)
    ensures Left(Xor(a, b)) == Xor(Left(a), Left(b)) && Top(Xor(a, b)) == (Top(a) != Top(b))
  {
    RawLeft(a, b);
    RawTop(a, b);
  }

  lemma XorSwap(a: bv16, b: bv16, c: bv16)
    ensures Xor(Xor(a, b), c) == Xor(Xor(a, c), b)
  {
    RawSwap(a, b, c);
  }

  lemma XorTwice(a: bv16, b: bv16)
    ensures Xor(Xor(a, b), b) == a && Xor(a, b) == Xor(b, a)
  {
    RawTwice(a, b);
  }

  lemma XorCancel(a: bv16, b: bv16, c: bv16)
    ensures Xor(Xor(a, c), Xor(b, c)) == Xor(a, b)
  {
    hide Xor;
    XorSwap(a, c, Xor(b, c));
    XorTwice(a, Xor(b, c));
    XorSwap(b, c, a);
    XorTwice(Xor(b, a), c);
    XorTwice(a, b);
  }

  lemma XorZero(a: bv16)
    ensures Xor(a, 0) == a && Xor(0, a) == a && Xor(a, a) == 0
  {
  }

  lemma ShiftXor(c: bv16, v: bv16)
    ensures Shift(Xor(c, v)) == Xor(FeedBit(c, Top(v)), Left(v))
  {
    hide Left, Top, Xor;
    LeftXor(c, v);
    XorSwap(Left(c), Left(v), POLY);
  }

  function LeftBy(v: bv16, k: nat): bv16
    decreases k
  {
    if k == 0 then v else LeftBy(Left(v), k - 1)
  }

  /** Bits put into the register ahead of time are consumed as they reach its top. */
  lemma {:induction false} ShiftsFeed(c: bv16, v: bv16, k: nat)
    ensures Shifts(Xor(c, v), k) == Xor(Feed(c, BitsFrom(v, k)), LeftBy(v, k))
    decreases k
  {
    hide Shift, FeedBit, Top, Xor, Left;
    if k == 0 {
    } else {
      ShiftXor(c, v);
      ShiftsFeed(FeedBit(c, Top(v)), Left(v), k - 1);
      assert BitsFrom(v, k)[0] == Top(v) && BitsFrom(v, k)[1..] == BitsFrom(Left(v), k - 1);
    }
  }

  lemma ByteLeaves(d: bv8)
    ensures LeftBy(High(d), 8) == 0
  {
    var v := High(d);
    assert LeftBy(v, 8) == Left(Left(Left(Left(Left(Left(Left(Left(v))))))));
  }

  lemma ByteStep(c: bv16, d: bv8)
    ensures Shifts(Xor(c, High(d)), 8) == Feed(c, ByteBits(d))
  {
    hide Shifts, Feed, BitsFrom, LeftBy, Xor, High;
    ShiftsFeed(c, High(d), 8);
    ByteLeaves(d);
    XorZero(Feed(c, ByteBits(d)));
  }

  lemma {:induction false} ShiftsAdd(c: bv16, k: nat)
    ensures Shifts(c, k + 1) == Shift(Shifts(c, k))
    decreases k
  {
    hide Shift;
    if k == 0 {
    } else {
      ShiftsAdd(Shift(c), k - 1);
    }
  }

  lemma {:induction false} BytesSnoc(data: seq<bv8>, n: nat)
    requires n < |data|
    ensures BytesBits(data[..n + 1]) == BytesBits(data[..n]) + ByteBits(data[n])
    decreases n
  {
    hide ByteBits;
    if n == 0 {
      assert data[..1] == [data[0]];
    } else {
      BytesSnoc(data[1..], n - 1);
      assert data[..n + 1][1..] == data[1..][..n] && data[..n][1..] == data[1..][..n - 1];
    }
  }

  lemma NextByte(data: seq<bv8>, n: nat)
    requires n < |data|
    ensures Crc16(data[..n + 1]) == Shifts(Xor(Crc16(data[..n]), High(data[n])), 8)
  {
    hide Shifts, Feed, BytesBits, ByteBits, Xor, High;
    ByteStep(Crc16(data[..n]), data[n]);
    BytesSnoc(data, n);
    FeedAppend(0, BytesBits(data[..n]), ByteBits(data[n]));
  }

  lemma NothingFed()
    ensures Crc16([]) == 0 && forall c :: Shifts(c, 0) == c
  {
  }

  method Crc16Ccitt(data: array<bv8>, length: nat) returns (crc: bv16)
    requires length <= data.Length
    ensures crc == Crc16(data[..length])
  {
    hide Shifts, Crc16, Xor, High, Left, Top;
    NothingFed();
    crc := 0;
    var i := 0;
    assert data[..0] == [];
    while i < length
      invariant 0 <= i <= length && crc == Crc16(data[..i])
    {
      crc := Xor(crc, High(data[i]));
      ghost var start := crc;
      var bit := 0;
      while bit < 8
        invariant 0 <= bit <= 8 && crc == Shifts(start, bit)
      {
        ShiftsAdd(start, bit);
        crc := if Top(crc) then Xor(Left(crc), POLY) else Left(crc);
        bit := bit + 1;
      }
      NextByte(data[..length], i);
      assert data[..length][..i] == data[..i] && data[..length][..i + 1] == data[..i + 1];
      i := i + 1;
    }
  }

  // ----- linearity -----

  function XorBits(a: Bits, b: Bits): (c: Bits)
    requires |a| == |b|
    ensures |c| == |a|
  {
    seq(|a|, k requires 0 <= k < |a| => a[k] != b[k])
  }

  lemma FeedBitXor(c: bv16, d: bv16, a: bool, b: bool)
    ensures FeedBit(Xor(c, d), a != b) == Xor(FeedBit(c, a), FeedBit(d, b))
  {
    hide Left, Top, Xor;
    LeftXor(c, d);
    XorSwap(Left(c), Left(d), POLY);
    XorCancel(Left(c), Left(d), POLY);
    XorSwap(Left(d), Left(c), POLY);
    XorTwice(Left(c), Left(d));
    XorTwice(Left(c), Xor(Left(d), POLY));
  }

  /** The register is linear: feeding the sum of two streams gives the sum of the registers. */
  lemma {:induction false} FeedXor(c: bv16, d: bv16, a: Bits, b: Bits)
    requires |a| == |b|
    ensures Feed(Xor(c, d), XorBits(a, b)) == Xor(Feed(c, a), Feed(d, b))
    decreases a
  {
    hide FeedBit, Xor;
    if a == [] {
    } else {
      FeedBitXor(c, d, a[0], b[0]);
      FeedXor(FeedBit(c, a[0]), FeedBit(d, b[0]), a[1..], b[1..]);
      assert XorBits(a, b)[1..] == XorBits(a[1..], b[1..]);
    }
  }

  function XorBytes(a: seq<bv8>, b: seq<bv8>): (c: seq<bv8>)
    requires |a| == |b|
    ensures |c| == |a|
  {
    seq(|a|, k requires 0 <= k < |a| => a[k] ^ b[k])
  }

  lemma HighXor(a: bv8, b: bv8)
    ensures High(a ^ b) == Xor(High(a), High(b))
  {
  }

  lemma {:induction false} BitsXor(u: bv16, v: bv16, k: nat)
    ensures BitsFrom(Xor(u, v), k) == XorBits(BitsFrom(u, k), BitsFrom(v, k))
    decreases k
  {
    hide Top, Left, Xor;
    if k == 0 {
    } else {
      LeftXor(u, v);
      BitsXor(Left(u), Left(v), k - 1);
    }
  }

  lemma ByteXor(a: bv8, b: bv8)
    ensures ByteBits(a ^ b) == XorBits(ByteBits(a), ByteBits(b))
  {
    hide High, Xor, BitsFrom, XorBits;
    HighXor(a, b);
    BitsXor(High(a), High(b), 8);
  }

  lemma XorAppend(a: Bits, b: Bits, c: Bits, d: Bits)
    requires |a| == |b| && |c| == |d|
    ensures XorBits(a + c, b + d) == XorBits(a, b) + XorBits(c, d)
  {
  }

  lemma XorBytesTail(a: seq<bv8>, b: seq<bv8>)
    requires |a| == |b| && a != []
    ensures XorBytes(a, b)[0] == a[0] ^ b[0] && XorBytes(a, b)[1..] == XorBytes(a[1..], b[1..])
  {
  }

  lemma {:induction false} BytesXor(a: seq<bv8>, b: seq<bv8>)
    requires |a| == |b|
    ensures BytesBits(XorBytes(a, b)) == XorBits(BytesBits(a), BytesBits(b))
  {
    hide ByteBits, XorBytes, XorBits;
    if a == [] {
      assert XorBits([], []) == [] by { XorNothing(); }
    } else {
      XorBytesTail(a, b);
      ByteXor(a[0], b[0]);
      BytesXor(a[1..], b[1..]);
      XorAppend(ByteBits(a[0]), ByteBits(b[0]), BytesBits(a[1..]), BytesBits(b[1..]));
    }
  }

  lemma XorNothing()
    ensures XorBits([], []) == []
  {
  }

  /** For every length, the CRC of the sum of two blocks is the sum of their CRCs. */
  lemma CrcIsLinear(a: seq<bv8>, b: seq<bv8>)
    requires |a| == |b|
    ensures Crc16(XorBytes(a, b)) == Crc16(a) ^ Crc16(b)
  {
    hide Feed, BytesBits;
    BytesXor(a, b);
    XorZero(0);
    FeedXor(0, 0, BytesBits(a), BytesBits(b));
  }

  // ----- bits of the register -----

  function Zeros(n: nat): (z: Bits)
    ensures |z| == n
  {
    seq(n, _ => false)
  }

  lemma {:induction false} BitsSplit(v: bv16, j: nat, k: nat)
    ensures BitsFrom(v, j + k) == BitsFrom(v, j) + BitsFrom(LeftBy(v, j), k)
    decreases j
  {
    hide Top, Left;
    if j == 0 {
    } else {
      BitsSplit(Left(v), j - 1, k);
      assert j + k - 1 == j - 1 + k;
    }
  }

  lemma LastBit(v: bv16)
    ensures Top(LeftBy(v, 15)) == (v & 1 != 0)
  {
    assert LeftBy(v, 15)
        == Left(Left(Left(Left(Left(Left(Left(Left(Left(Left(Left(Left(Left(Left(Left(v)))))))))))))));
  }

  lemma LowOfLeft(c: bv16)
    ensures Left(c) & 1 == 0 && Xor(Left(c), POLY) & 1 == 1
  {
  }

  /** Shifting moves every bit up one place. */
  lemma BitsOfLeft(c: bv16)
    ensures BitsFrom(Left(c), 16) == BitsFrom(c, 16)[1..] + [false]
    ensures BitsFrom(Xor(Left(c), POLY), 16)[15]
    ensures BitsFrom(c, 16)[0] == Top(c)
  {
    hide Top, Left, Xor, LeftBy;
    LowOfLeft(c);
    LastOf(Left(c));
    LastOf(Xor(Left(c), POLY));
    assert BitsFrom(c, 16) == [Top(c)] + BitsFrom(Left(c), 15);
  }

  lemma LastOf(v: bv16)
    ensures BitsFrom(v, 16) == BitsFrom(v, 15) + [v & 1 != 0]
  {
    hide Top, Left, LeftBy;
    BitsSplit(v, 15, 1);
    LastBit(v);
    assert BitsFrom(LeftBy(v, 15), 1) == [Top(LeftBy(v, 15))];
  }

  lemma {:induction false} BitsOfZero(k: nat)
    ensures BitsFrom(0, k) == Zeros(k)
    decreases k
  {
    if k == 0 {
    } else {
      assert Left(0) == 0 && !Top(0);
      BitsOfZero(k - 1);
    }
  }

  lemma LeftLoses(c: bv16)
    ensures !Top(c) && Left(c) == 0 ==> c == 0
  {
  }

  lemma {:induction false} ZeroBits(c: bv16, k: nat)
    requires BitsFrom(c, k) == Zeros(k) && LeftBy(c, k) == 0
    ensures c == 0
    decreases k
  {
    hide Top, Left;
    if k == 0 {
    } else {
      assert BitsFrom(c, k)[0] == Top(c) && BitsFrom(c, k)[1..] == BitsFrom(Left(c), k - 1);
      assert Zeros(k)[1..] == Zeros(k - 1);
      ZeroBits(Left(c), k - 1);
      LeftLoses(c);
    }
  }

  lemma AllLeaves(c: bv16)
    ensures LeftBy(c, 16) == 0
  {
    assert LeftBy(c, 16) == LeftBy(Left(c), 15);
    assert LeftBy(Left(c), 15)
        == Left(Left(Left(Left(Left(Left(Left(Left(Left(Left(Left(Left(Left(Left(Left(Left(c))))))))))))))));
  }

  lemma ZeroIffZeroBits(c: bv16)
    ensures c == 0 <==> BitsFrom(c, 16) == Zeros(16)
  {
    hide BitsFrom, LeftBy, Zeros;
    BitsOfZero(16);
    AllLeaves(c);
    if BitsFrom(c, 16) == Zeros(16) { ZeroBits(c, 16); }
  }

  lemma SnocCancel(a: Bits, b: Bits)
    ensures a + [false] == b + [false] <==> a == b
  {
    assert (a + [false])[..|a|] == a && (b + [false])[..|b|] == b;
  }

  /** At most 16 bits clear the register exactly when they are the register's own leading bits, the rest being zero. */
  lemma {:induction false} ClearsExactly(c: bv16, w: Bits)
    requires |w| <= 16
    ensures Feed(c, w) == 0 <==> BitsFrom(c, 16) == w + Zeros(16 - |w|)
    decreases w
  {
    hide Top, Left, Xor, BitsFrom;
    if w == [] {
      ZeroIffZeroBits(c);
    } else {
      var b, rest, n := w[0], w[1..], 16 - |w|;
      ClearsExactly(FeedBit(c, b), rest);
      BitsOfLeft(c);
      assert Zeros(n + 1) == Zeros(n) + [false];
      var bits := BitsFrom(c, 16);
      if Top(c) == b {
        assert rest + Zeros(n + 1) == (rest + Zeros(n)) + [false];
        SnocCancel(bits[1..], rest + Zeros(n));
        assert bits[1..] == rest + Zeros(n) <==> bits == w + Zeros(n);
      } else {
        assert !(rest + Zeros(n + 1))[15];
      }
    }
  }

  // ----- the block check and the errors it detects -----

  function Word16(hi: bv8, lo: bv8): bv16 {
    High(hi) | (lo as bv16)
  }

  /** The reader keeps a block when the two bytes after it are its CRC. */
  predicate Accepts(data: seq<bv8>, hi: bv8, lo: bv8) {
    Word16(hi, lo) == Crc16(data)
  }

  lemma WordParts(hi: bv8, lo: bv8)
    ensures Word16(hi, lo) == Xor(High(hi), lo as bv16)
  {
  }

  lemma NextClear(v: bv16, mask: bv16)
    requires v & mask == 0
    ensures Top(mask) ==> !Top(v)
    ensures Left(v) & Left(mask) == 0
  {
  }

  lemma {:induction false} MaskedBits(v: bv16, mask: bv16, k: nat)
    requires v & mask == 0 && forall j :: 0 <= j < k ==> BitsFrom(mask, k)[j]
    ensures BitsFrom(v, k) == Zeros(k)
    decreases k
  {
    hide Top, Left;
    if k == 0 {
    } else {
      NextClear(v, mask);
      assert BitsFrom(mask, k)[0];
      assert BitsFrom(Left(mask), k - 1) == BitsFrom(mask, k)[1..];
      MaskedBits(Left(v), Left(mask), k - 1);
    }
  }

  lemma LowPart(lo: bv8)
    ensures BitsFrom(lo as bv16, 8) == Zeros(8)
  {
    assert BitsFrom(0xFF00, 8) == [true, true, true, true, true, true, true, true];
    MaskedBits(lo as bv16, 0xFF00, 8);
  }

  lemma LowMoves(hi: bv8, lo: bv8)
    ensures LeftBy(Word16(hi, lo), 8) == High(lo)
  {
    var w := Word16(hi, lo);
    assert LeftBy(w, 8) == Left(Left(Left(Left(Left(Left(Left(Left(w))))))));
  }

  lemma NoError(b: Bits)
    ensures XorBits(b, Zeros(|b|)) == b && XorBits(Zeros(|b|), b) == b
  {
  }

  /** The two bytes after the block are the received CRC, most significant bit first. */
  lemma TrailerBits(hi: bv8, lo: bv8)
    ensures BytesBits([hi, lo]) == BitsFrom(Word16(hi, lo), 16)
  {
    hide BitsFrom, High, Xor, Word16, Zeros, LeftBy, XorBits;
    WordParts(hi, lo);
    LowPart(lo);
    LowMoves(hi, lo);
    BitsXor(High(hi), lo as bv16, 8);
    NoError(BitsFrom(High(hi), 8));
    BitsSplit(Word16(hi, lo), 8, 8);
    assert [hi, lo][1..] == [lo] && [lo][1..] == [];
    assert BytesBits([lo]) == ByteBits(lo);
  }

  lemma {:induction false} BytesAppend(a: seq<bv8>, b: seq<bv8>)
    ensures BytesBits(a + b) == BytesBits(a) + BytesBits(b)
    decreases a
  {
    hide ByteBits;
    if a == [] {
      assert a + b == b;
    } else {
      assert (a + b)[1..] == a[1..] + b;
      BytesAppend(a[1..], b);
    }
  }

  lemma {:induction false} BitsAreTheWord(u: bv16, v: bv16)
    ensures BitsFrom(u, 16) == BitsFrom(v, 16) ==> u == v
  {
    hide BitsFrom, Xor;
    if BitsFrom(u, 16) == BitsFrom(v, 16) {
      BitsXor(u, v, 16);
      assert XorBits(BitsFrom(u, 16), BitsFrom(v, 16)) == Zeros(16);
      ZeroIffZeroBits(Xor(u, v));
      XorTwice(u, v);
      XorZero(v);
    }
  }

  /** A block is accepted exactly when its bytes and its CRC bytes together have CRC 0. */
  lemma AcceptsIffZero(data: seq<bv8>, hi: bv8, lo: bv8)
    ensures Accepts(data, hi, lo) <==> Crc16(data + [hi, lo]) == 0
  {
    hide Feed, BytesBits, BitsFrom, Word16;
    var w := BitsFrom(Word16(hi, lo), 16);
    BytesAppend(data, [hi, lo]);
    TrailerBits(hi, lo);
    FeedAppend(0, BytesBits(data), w);
    ClearsExactly(Crc16(data), w);
    assert w + Zeros(0) == w;
    BitsAreTheWord(Crc16(data), Word16(hi, lo));
  }

  /** The changed bits lie within 16 consecutive ones. */
  ghost predicate Burst(e: Bits) {
    exists i: nat, n: nat :: n <= 16 && i + n <= |e| && IsBurst(e, i, n)
  }

  predicate IsBurst(e: Bits, i: nat, n: nat)
    requires i + n <= |e|
  {
    && e == Zeros(i) + e[i..i + n] + Zeros(|e| - i - n)
    && true in e[i..i + n]
  }

  lemma ShiftNeverClears(c: bv16)
    requires c != 0
    ensures FeedBit(c, false) != 0
  {
  }

  lemma {:induction false} ZerosKeepNonzero(c: bv16, n: nat)
    ensures Feed(c, Zeros(n)) == 0 <==> c == 0
    decreases n
  {
    hide FeedBit;
    if n == 0 {
    } else {
      assert Zeros(n)[1..] == Zeros(n - 1);
      ZerosKeepNonzero(FeedBit(c, false), n - 1);
      if c != 0 { ShiftNeverClears(c); } else { ZeroStays(); }
    }
  }

  lemma ZeroStays()
    ensures FeedBit(0, false) == 0
  {
  }

  lemma WordShows(w: Bits)
    requires |w| <= 16 && true in w
    ensures Feed(0, w) != 0
  {
    hide Feed, BitsFrom, Zeros;
    ClearsExactly(0, w);
    ZeroIffZeroBits(0);
    NotAllZero(w, 16 - |w|);
  }

  /** No burst of at most 16 bits leaves the register clear. */
  lemma BurstShows(i: nat, w: Bits, m: nat)
    requires |w| <= 16 && true in w
    ensures Feed(0, Zeros(i) + w + Zeros(m)) != 0
  {
    hide Feed, Zeros;
    ZerosKeepNonzero(0, i);
    FeedAppend(0, Zeros(i) + w, Zeros(m));
    FeedAppend(0, Zeros(i), w);
    WordShows(w);
    ZerosKeepNonzero(Feed(0, w), m);
  }

  lemma NotAllZero(w: Bits, n: nat)
    requires true in w
    ensures w + Zeros(n) != Zeros(|w| + n)
  {
    var k :| 0 <= k < |w| && w[k];
    assert (w + Zeros(n))[k];
  }

  lemma BurstNonzero(e: Bits)
    requires Burst(e)
    ensures Feed(0, e) != 0
  {
    hide Feed, Zeros;
    var i: nat, n: nat :| n <= 16 && i + n <= |e| && IsBurst(e, i, n);
    BurstShows(i, e[i..i + n], |e| - i - n);
  }

  lemma ErrorsAdd(a: Bits, b: Bits)
    requires |a| == |b|
    ensures Feed(0, XorBits(a, b)) == Xor(Feed(0, a), Feed(0, b))
  {
    hide Feed, Xor, XorBits;
    XorZero(0);
    FeedXor(0, 0, a, b);
  }

  /** Whatever was sent with its CRC, a burst of at most 16 changed bits in block and CRC makes the reader reject it. */
  lemma BurstRejected(sent: seq<bv8>, hi: bv8, lo: bv8, got: seq<bv8>, hi': bv8, lo': bv8)
    requires |sent| == |got| && Accepts(sent, hi, lo)
    requires Burst(XorBits(BytesBits(sent + [hi, lo]), BytesBits(got + [hi', lo'])))
    ensures !Accepts(got, hi', lo')
  {
    hide Feed, BytesBits, Accepts, XorBits, Xor, Burst;
    var a, b := BytesBits(sent + [hi, lo]), BytesBits(got + [hi', lo']);
    AcceptsIffZero(sent, hi, lo);
    AcceptsIffZero(got, hi', lo');
    ErrorsAdd(a, b);
    XorZero(Feed(0, b));
    BurstNonzero(XorBits(a, b));
  }

  // ----- the division -----

  /** Multiplication by x^16 + x^12 + x^5 + 1, coefficients most significant first. */
  function Product(q: Bits): (p: Bits)
    ensures |p| == |q| + 16
  {
    seq(|q| + 16, i => (Coef(q, i) != Coef(q, i - 4)) != (Coef(q, i - 11) != Coef(q, i - 16)))
  }

  function Coef(q: Bits, i: int): bool {
    0 <= i < |q| && q[i]
  }

  /** r is the remainder of d(x) x^16: the two together are a multiple of the generator. */
  ghost predicate IsRemainder(d: Bits, r: Bits) {
    exists q: Bits :: |q| == |d| && Product(q) == d + r
  }

  const GENERATOR: Bits := [true] + POLY_BITS
  const POLY_BITS: Bits :=
    [false, false, false, true, false, false, false, false, false, false, true, false, false, false, false, true]

  lemma PolyBits()
    ensures BitsFrom(POLY, 16) == POLY_BITS
  {
    BitsSplit(POLY, 8, 8);
    assert LeftBy(POLY, 8) == 0x2100;
    assert BitsFrom(POLY, 8) == POLY_BITS[..8] && BitsFrom(0x2100, 8) == POLY_BITS[8..];
  }

  lemma ProductSnoc(q: Bits, t: bool)
    ensures Product(q + [t]) == XorBits(Product(q) + [false], Zeros(|q|) + if t then GENERATOR else Zeros(17))
  {
  }

  /** The quotient's next bit is the one that makes the register take in the data bit. */
  lemma DivideStep(q: Bits, d: Bits, c: bv16, b: bool)
    requires |q| == |d| && Product(q) == d + BitsFrom(c, 16)
    ensures Product(q + [Top(c) != b]) == d + [b] + BitsFrom(FeedBit(c, b), 16)
  {
    hide Product, BitsFrom, Left, Top, Xor, XorBits, Zeros, POLY_BITS, POLY;
    var t, r := Top(c) != b, BitsFrom(c, 16);
    ProductSnoc(q, t);
    BitsOfLeft(c);
    var up := r[1..] + [false];
    assert r == [Top(c)] + r[1..];
    assert d + r + [false] == d + ([Top(c)] + up);
    AddRow(d, Top(c), up, t);
    if t {
      PolyBits();
      BitsXor(Left(c), POLY, 16);
    } else {
      NoError(up);
    }
  }

  /** Adding the generator, or nothing, below the digits already divided. */
  lemma AddRow(d: Bits, top: bool, up: Bits, t: bool)
    requires |up| == 16
    ensures XorBits(d + ([top] + up), Zeros(|d|) + if t then GENERATOR else Zeros(17))
         == d + [top != t] + XorBits(up, if t then POLY_BITS else Zeros(16))
  {
    hide XorBits, Zeros, GENERATOR, POLY_BITS;
    var rest := if t then POLY_BITS else Zeros(16);
    RowIs(t);
    NoError(d);
    XorOne(top, t);
    XorAppend(d, Zeros(|d|), [top] + up, [t] + rest);
    XorAppend([top], [t], up, rest);
    assert d + ([top != t] + XorBits(up, rest)) == d + [top != t] + XorBits(up, rest);
  }

  lemma RowIs(t: bool)
    ensures |POLY_BITS| == 16 && ([t] + if t then POLY_BITS else Zeros(16)) == if t then GENERATOR else Zeros(17)
  {
    assert Zeros(17) == [false] + Zeros(16);
  }

  lemma XorOne(a: bool, b: bool)
    ensures XorBits([a], [b]) == [a != b]
  {
  }

  function Quotient(d: Bits): (q: Bits)
    ensures |q| == |d|
  {
    if d == [] then []
    else var p := d[..|d| - 1]; Quotient(p) + [Top(Feed(0, p)) != d[|d| - 1]]
  }

  lemma {:induction false} FeedDivides(d: Bits)
    ensures Product(Quotient(d)) == d + BitsFrom(Feed(0, d), 16)
  {
    hide Product, BitsFrom, FeedBit, Top;
    if d == [] {
      EmptyProduct();
    } else {
      var p, b := d[..|d| - 1], d[|d| - 1];
      assert d == p + [b];
      FeedDivides(p);
      FeedAppend(0, p, [b]);
      assert Feed(Feed(0, p), [b]) == FeedBit(Feed(0, p), b);
      DivideStep(Quotient(p), p, Feed(0, p), b);
    }
  }

  lemma EmptyProduct()
    ensures Product([]) == [] + BitsFrom(0, 16)
  {
    BitsOfZero(16);
    assert Product([]) == Zeros(16);
  }

  lemma {:induction false} ProductDetermines(q: Bits, q': Bits, i: nat)
    requires |q| == |q'| && i <= |q| && Product(q)[..|q|] == Product(q')[..|q|]
    ensures q[..i] == q'[..i]
  {
    if i == 0 {
    } else {
      ProductDetermines(q, q', i - 1);
      var k := i - 1;
      assert Product(q)[..|q|][k] == Product(q')[..|q|][k];
      assert forall j :: 0 <= j < k ==> q[..k][j] == q'[..k][j];
      assert q[k] == q'[k] by { SameCoefs(q, q', k); }
      assert q[..i] == q[..k] + [q[k]] && q'[..i] == q'[..k] + [q'[k]];
    }
  }

  lemma SameCoefs(q: Bits, q': Bits, k: nat)
    requires |q| == |q'| && k < |q| && Product(q)[k] == Product(q')[k]
    requires forall j :: 0 <= j < k ==> q[..k][j] == q'[..k][j]
    ensures q[k] == q'[k]
  {
    assert forall j :: 0 <= j < k ==> q[j] == q[..k][j] && q'[j] == q'[..k][j];
    assert Coef(q, k - 4) == Coef(q', k - 4) && Coef(q, k - 11) == Coef(q', k - 11)
           && Coef(q, k - 16) == Coef(q', k - 16);
  }

  /** Sixteen bits after a data word can complete it to a multiple of the generator in one way only. */
  lemma RemainderUnique(d: Bits, r: Bits, r': Bits)
    requires IsRemainder(d, r) && IsRemainder(d, r')
    ensures r == r'
  {
    hide Product;
    var q: Bits :| |q| == |d| && Product(q) == d + r;
    var q': Bits :| |q'| == |d| && Product(q') == d + r';
    assert Product(q)[..|d|] == d && Product(q')[..|d|] == d;
    ProductDetermines(q, q', |d|);
    assert q[..|d|] == q && q'[..|d|] == q';
    assert (d + r)[|d|..] == r && (d + r')[|d|..] == r';
  }

  /** For every length the loop computes data(x) x^16 modulo x^16 + x^12 + x^5 + 1, and nothing else is that. */
  lemma CrcIsRemainder(data: seq<bv8>, r: bv16)
    ensures IsRemainder(BytesBits(data), BitsFrom(r, 16)) <==> r == Crc16(data)
  {
    hide Product, BitsFrom, Feed, BytesBits, Quotient;
    var d := BytesBits(data);
    FeedDivides(d);
    assert IsRemainder(d, BitsFrom(Crc16(data), 16));
    if IsRemainder(d, BitsFrom(r, 16)) {
      RemainderUnique(d, BitsFrom(r, 16), BitsFrom(Crc16(data), 16));
      BitsAreTheWord(r, Crc16(data));
    }
  }
}

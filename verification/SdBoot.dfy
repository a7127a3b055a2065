/**
 * The SD boot path: the image packer (sw/sdk/tools/mksdimg.py) and the loader (sw/sdk/loaders/sdbl.c), with the card
 * as a function from block number to 512 bytes, or to a failed read.
 */
module SdBoot {
  import opened Words
  import opened Wrappers
  import Isa

  type Byte = Isa.Byte

  const BLOCK: nat := 512
  const BLOCK_WORDS: nat := 128
  const MAGIC: Word := 0x4353_5246
  const MAX_IMAGE: nat := 0x1000_0000

  type Block = s: seq<Byte> | |s| == 512 witness seq(512, _ => 0)

  type Card = nat -> Option<Block>

  // ----- little-endian words -----

  function Le(v: Word): (s: seq<Byte>)
    ensures |s| == 4
  {
    [v % 0x100, v / 0x100 % 0x100, v / 0x1_0000 % 0x100, v / 0x100_0000]
  }

  function FromLe(a: Byte, b: Byte, c: Byte, d: Byte): Word {
    a + 0x100 * b + 0x1_0000 * c + 0x100_0000 * d
  }

  lemma LeInverse(v: Word)
    ensures FromLe(Le(v)[0], Le(v)[1], Le(v)[2], Le(v)[3]) == v
  {
    var low, high := v % 0x1_0000, v / 0x1_0000;
    WordOfHalves(low, high);
    Euclid(low, 0x100);
    Euclid(high, 0x100);
  }

  lemma FromLeInverse(a: Byte, b: Byte, c: Byte, d: Byte)
    ensures Le(FromLe(a, b, c, d)) == [a, b, c, d]
  {
    WordOfHalves(a + 0x100 * b, c + 0x100 * d);
    DivModIs(a + 0x100 * b, 0x100, b, a);
    DivModIs(c + 0x100 * d, 0x100, d, c);
  }

  function WordAt(s: seq<Byte>, i: nat): Word
    requires 4 * i + 4 <= |s|
  {
    FromLe(s[4 * i], s[4 * i + 1], s[4 * i + 2], s[4 * i + 3])
  }

  /** The sum of the first n words, without wrapping. */
  function WordSum(s: seq<Byte>, n: nat): nat
    requires 4 * n <= |s|
  {
    if n == 0 then 0 else WordSum(s, n - 1) + WordAt(s, n - 1)
  }

  lemma {:induction false} WordSumPrefix(s: seq<Byte>, t: seq<Byte>, n: nat)
    requires 4 * n <= |s| && 4 * n <= |t| && s[..4 * n] == t[..4 * n]
    ensures WordSum(s, n) == WordSum(t, n)
  {
    hide FromLe;
    if n == 0 {
    } else {
      assert s[..4 * n][..4 * (n - 1)] == s[..4 * (n - 1)] && t[..4 * n][..4 * (n - 1)] == t[..4 * (n - 1)];
      WordSumPrefix(s, t, n - 1);
      SameWord(s, t, 4 * n, n - 1);
    }
  }

  lemma SameWord(s: seq<Byte>, t: seq<Byte>, m: nat, i: nat)
    requires 4 * i + 4 <= m <= |s| && m <= |t| && s[..m] == t[..m]
    ensures WordAt(s, i) == WordAt(t, i)
  {
    hide FromLe;
    assert forall k :: 0 <= k < m ==> s[k] == s[..m][k] && t[k] == t[..m][k];
  }

  // ----- the packer -----

  function ZeroBytes(n: nat): (z: seq<Byte>)
    ensures |z| == n
  {
    seq(n, _ => 0)
  }

  /** The bytes needed to reach the next multiple. */
  function Padding(n: int, unit: int): (p: nat)
    requires unit > 0
    ensures p < unit
  {
    (-n) % unit
  }

  function Padded(payload: seq<Byte>): seq<Byte> {
    payload + ZeroBytes(Padding(|payload|, 4))
  }

  lemma PaddingReaches(n: int, unit: int)
    requires unit > 0
    ensures (n + Padding(n, unit)) % unit == 0
  {
    var m := -n;
    assert m == m / unit * unit + m % unit;
    assert n + m % unit == (-(m / unit)) * unit + 0 by { assert (-(m / unit)) * unit == -(m / unit * unit); }
    DivModIs(n + m % unit, unit, -(m / unit), 0);
  }

  lemma PaddedIsWhole(payload: seq<Byte>)
    ensures |Padded(payload)| % 4 == 0
  {
    PaddingReaches(|payload|, 4);
  }

  function Checksum(image: seq<Byte>): Word {
    WordSum(image, |image| / 4) % TWO_32
  }

  function Header(length: Word, checksum: Word): (h: seq<Byte>)
    ensures |h| == 12
  {
    Le(MAGIC) + Le(length) + Le(checksum)
  }

  datatype Packed = File(bytes: seq<Byte>) | Overflow

  /** The file written for a payload; a length that needs more than four bytes makes the packer fail. */
  function Pack(payload: seq<Byte>): Packed {
    var image := Padded(payload);
    if |image| >= TWO_32 then Overflow
    else File(Header(|image|, Checksum(image)) + ZeroBytes(BLOCK - 12) + image + ZeroBytes(Padding(|image|, BLOCK)))
  }

  // ----- what makes a card bootable -----

  function HeaderWord(card: Card, k: nat): Word
    requires k < 3
  {
    match card(0)
    case None => 0
    case Some(h) => WordAt(h, k)
  }

  function WordsOf(length: nat): nat {
    (length + 3) / 4
  }

  function BlocksOf(words: nat): nat {
    (words + BLOCK_WORDS - 1) / BLOCK_WORDS
  }

  predicate HeaderOk(card: Card) {
    card(0).Some? && HeaderWord(card, 0) == MAGIC && 0 < HeaderWord(card, 1) < MAX_IMAGE
  }

  predicate Readable(card: Card, n: nat) {
    forall b :: 1 <= b <= n ==> card(b).Some?
  }

  /** The contents of blocks 1 to n. */
  function Contents(card: Card, n: nat): (s: seq<Byte>)
    requires Readable(card, n)
    ensures |s| == BLOCK * n
  {
    if n == 0 then [] else Contents(card, n - 1) + card(n).value
  }

  lemma BlocksCover(words: nat)
    ensures 4 * words <= BLOCK * BlocksOf(words)
  {
  }

  predicate ChecksumOk(card: Card)
    requires HeaderOk(card) && Readable(card, BlocksOf(WordsOf(HeaderWord(card, 1))))
  {
    var words := WordsOf(HeaderWord(card, 1));
    BlocksCover(words);
    WordSum(Contents(card, BlocksOf(words)), words) % TWO_32 == HeaderWord(card, 2)
  }

  datatype Outcome = Booted(entry: nat) | BadCard | BadHeader | BadChecksum

  /** What the loader makes of a card: its checks, in its order. */
  function Verdict(card: Card): Outcome {
    if card(0).None? then BadCard
    else if !HeaderOk(card) then BadHeader
    else if !Readable(card, BlocksOf(WordsOf(HeaderWord(card, 1)))) then BadCard
    else if !ChecksumOk(card) then BadChecksum
    else Booted(4 * WordsOf(HeaderWord(card, 1)))
  }

  // ----- what the packer writes, the loader boots -----

  function FileBlock(file: seq<Byte>, b: nat): Block
    requires BLOCK * (b + 1) <= |file|
  {
    file[BLOCK * b..BLOCK * b + BLOCK]
  }

  /** The card's blocks are those of the file, as far as it goes. */
  ghost predicate Holds(card: Card, file: seq<Byte>) {
    forall b: nat :: BLOCK * (b + 1) <= |file| ==> card(b) == Some(FileBlock(file, b))
  }

  lemma {:induction false} ContentsOfFile(card: Card, file: seq<Byte>, n: nat)
    requires Holds(card, file) && BLOCK * (n + 1) <= |file|
    ensures Readable(card, n) && Contents(card, n) == file[BLOCK..BLOCK * (n + 1)]
  {
    if n == 0 {
    } else {
      ContentsOfFile(card, file, n - 1);
      assert card(n) == Some(FileBlock(file, n));
      assert file[BLOCK..BLOCK * (n + 1)] == file[BLOCK..BLOCK * n] + file[BLOCK * n..BLOCK * n + BLOCK];
    }
  }

  lemma HeaderReads(length: Word, checksum: Word, block: seq<Byte>)
    requires |block| == BLOCK && block[..12] == Header(length, checksum)
    ensures WordAt(block, 0) == MAGIC && WordAt(block, 1) == length && WordAt(block, 2) == checksum
  {
    hide Le, FromLe;
    var h := Header(length, checksum);
    LeInverse(MAGIC);
    LeInverse(length);
    LeInverse(checksum);
    assert forall k :: 0 <= k < 12 ==> block[k] == h[k];
    assert forall k :: 0 <= k < 4 ==> h[k] == Le(MAGIC)[k] && h[4 + k] == Le(length)[k] && h[8 + k] == Le(checksum)[k];
  }

  lemma WholeBlocks(words: nat)
    ensures BLOCK * BlocksOf(words) == 4 * words + Padding(4 * words, BLOCK)
  {
    var n, k := 4 * words, BlocksOf(words);
    PaddingReaches(n, BLOCK);
    var m := (n + Padding(n, BLOCK)) / BLOCK;
    assert n + Padding(n, BLOCK) == BLOCK * m;
    DivModIs(words + BLOCK_WORDS - 1, BLOCK_WORDS, m, words + BLOCK_WORDS - 1 - BLOCK_WORDS * m);
  }

  /** Where the parts of the packed file lie. */
  lemma FileLayout(payload: seq<Byte>)
    requires Pack(payload).File?
    ensures var f, image := Pack(payload).bytes, Padded(payload);
            && |f| == BLOCK * (BlocksOf(|image| / 4) + 1) && f[..12] == Header(|image|, Checksum(image))
            && f[BLOCK..BLOCK + |image|] == image
  {
    hide Header, Checksum, BlocksOf, Padding, Padded;
    var image := Padded(payload);
    PaddedIsWhole(payload);
    WholeBlocks(|image| / 4);
    var f, head := Pack(payload).bytes, Header(|image|, Checksum(image)) + ZeroBytes(BLOCK - 12);
    var tail := ZeroBytes(Padding(|image|, BLOCK));
    assert f == head + image + tail && |head| == BLOCK;
    assert head[..12] == Header(|image|, Checksum(image));
  }

  // ----- the file, byte by byte -----

  /** A little-endian number of four bytes. */
  function Number(s: seq<Byte>): nat
    requires |s| == 4
  {
    var a: int, b: int, c: int, d: int := s[0], s[1], s[2], s[3];
    a + 0x100 * (b + 0x100 * (c + 0x100 * d))
  }

  /** The sum of the numbers of a byte sequence, from the front. */
  function Total(s: seq<Byte>): nat {
    if |s| < 4 then 0 else Number(s[..4]) + Total(s[4..])
  }

  lemma {:induction false} SumFromFront(s: seq<Byte>, n: nat)
    requires 0 < n && 4 * n <= |s|
    ensures WordSum(s, n) == WordAt(s, 0) + WordSum(s[4..], n - 1)
    decreases n
  {
    hide FromLe;
    if n == 1 {
    } else {
      SumFromFront(s, n - 1);
      assert WordAt(s[4..], n - 2) == WordAt(s, n - 1);
    }
  }

  lemma {:induction false} SumIsTotal(s: seq<Byte>)
    requires |s| % 4 == 0
    ensures WordSum(s, |s| / 4) == Total(s)
    decreases |s|
  {
    if |s| < 4 {
    } else {
      SumFromFront(s, |s| / 4);
      SumIsTotal(s[4..]);
      assert WordAt(s, 0) == Number(s[..4]);
    }
  }

  lemma NumberOfLe(v: Word)
    ensures Number(Le(v)) == v
  {
    LeInverse(v);
  }

  lemma MagicBytes()
    ensures Le(MAGIC) == [0x46, 0x52, 0x53, 0x43]
  {
  }

  lemma HeaderBytes(length: Word, checksum: Word)
    ensures var h := Header(length, checksum);
            h[..4] == [0x46, 0x52, 0x53, 0x43] && Number(h[4..8]) == length && Number(h[8..12]) == checksum
  {
    hide Le, Number;
    MagicBytes();
    NumberOfLe(length);
    NumberOfLe(checksum);
    var h := Header(length, checksum);
    assert h[..4] == Le(MAGIC) && h[4..8] == Le(length) && h[8..12] == Le(checksum);
  }

  lemma PaddedBytes(payload: seq<Byte>)
    ensures var image := Padded(payload);
            && |payload| <= |image| < |payload| + 4 && |image| % 4 == 0 && image[..|payload|] == payload
            && forall k :: |payload| <= k < |image| ==> image[k] == 0
  {
    PaddedIsWhole(payload);
  }

  /**
   * What the packer writes: the letters FRSC, the length and the wrapped total of the image's words, all little-endian
   * in a block of their own; then the payload; and zeros, to whole words within the length and to whole blocks behind.
   */
  lemma FileFormat(payload: seq<Byte>)
    requires Pack(payload).File?
    ensures var f := Pack(payload).bytes;
            && |f| % 512 == 0 && |f| >= 512 + |payload|
            && f[..4] == [0x46, 0x52, 0x53, 0x43]
            && var n := Number(f[4..8]);
               && n % 4 == 0 && |payload| <= n < |payload| + 4 && 512 + n <= |f| < 512 + n + 512
               && Number(f[8..12]) == Total(f[512..512 + n]) % 0x1_0000_0000
               && (forall k :: 12 <= k < 512 ==> f[k] == 0)
               && f[512..512 + |payload|] == payload
               && (forall k :: 512 + |payload| <= k < |f| ==> f[k] == 0)
  {
    hide Header, Padded, Padding, Number, Total, WordSum;
    var image := Padded(payload);
    var f, head := Pack(payload).bytes, Header(|image|, Checksum(image)) + ZeroBytes(BLOCK - 12);
    var tail := ZeroBytes(Padding(|image|, BLOCK));
    PaddedBytes(payload);
    PaddingReaches(|image|, BLOCK);
    SumIsTotal(image);
    HeaderBytes(|image|, Checksum(image));
    assert f == head + image + tail && |head| == BLOCK && |f| == BLOCK + |image| + |tail|;
    var h := Header(|image|, Checksum(image));
    assert f[..4] == h[..4] && f[4..8] == h[4..8] && f[8..12] == h[8..12];
    assert f[BLOCK..BLOCK + |image|] == image;
    assert f[512..512 + |payload|] == image[..|payload|];
  }

  lemma PackedHeader(payload: seq<Byte>, card: Card)
    requires Pack(payload).File? && Holds(card, Pack(payload).bytes)
    ensures card(0).Some? && HeaderWord(card, 0) == MAGIC && HeaderWord(card, 1) == |Padded(payload)|
    ensures HeaderWord(card, 2) == Checksum(Padded(payload))
  {
    hide Pack, Header, Checksum, WordAt, BlocksOf, Padded;
    var f, image := Pack(payload).bytes, Padded(payload);
    PackFits(payload);
    FileLayout(payload);
    assert BLOCK * (0 + 1) <= |f|;
    assert card(0) == Some(FileBlock(f, 0));
    assert f[..BLOCK][..12] == f[..12];
    HeaderReads(|image|, Checksum(image), f[..BLOCK]);
  }

  lemma PackFits(payload: seq<Byte>)
    ensures Pack(payload).File? <==> |Padded(payload)| < TWO_32
  {
  }

  lemma PackedContents(payload: seq<Byte>, card: Card)
    requires Pack(payload).File? && Holds(card, Pack(payload).bytes)
    ensures var image := Padded(payload); var n := BlocksOf(|image| / 4);
            Readable(card, n) && |image| <= BLOCK * n && Contents(card, n)[..|image|] == image
  {
    hide Pack, Header, Checksum, BlocksOf, Padded;
    var f, image := Pack(payload).bytes, Padded(payload);
    var n := BlocksOf(|image| / 4);
    FileLayout(payload);
    PaddedIsWhole(payload);
    BlocksCover(|image| / 4);
    ContentsOfFile(card, f, n);
    assert f[BLOCK..BLOCK * (n + 1)][..|image|] == f[BLOCK..BLOCK + |image|];
  }

  /**
   * For every payload the packer accepts and every card its file is written to: the loader boots exactly when the
   * padded length is in (0, MAX_IMAGE), from behind the image, with the padded payload as what it loaded; otherwise
   * it refuses the header.
   */
  lemma PackedBoots(payload: seq<Byte>, card: Card)
    requires Pack(payload).File? && Holds(card, Pack(payload).bytes)
    ensures var image := Padded(payload);
            Verdict(card) == if 0 < |image| < MAX_IMAGE then Booted(|image|) else BadHeader
    ensures var image := Padded(payload); var n := BlocksOf(|image| / 4);
            Readable(card, n) && |image| <= BLOCK * n && Contents(card, n)[..|image|] == image
  {
    hide Pack, Padded, BlocksOf, HeaderWord, Contents, WordSum, Holds, Readable;
    var image := Padded(payload);
    PackedHeader(payload, card);
    PackedContents(payload, card);
    PaddedIsWhole(payload);
    assert WordsOf(|image|) == |image| / 4 && 4 * (|image| / 4) == |image|;
    var n := BlocksOf(|image| / 4);
    BlocksCover(|image| / 4);
    assert image[..|image|] == image;
    WordSumPrefix(Contents(card, n), image, |image| / 4);
  }

  // ----- the loader -----

  /** Bytes overwritten at a place. */
  function Over(s: seq<Byte>, at: nat, t: seq<Byte>): (r: seq<Byte>)
    requires at + |t| <= |s|
    ensures |r| == |s|
  {
    s[..at] + t + s[at + |t|..]
  }

  /** A block is read a word at a time; the first byte received is the least significant. */
  method ReadBlock(card: Card, block: nat, ram: array<Byte>, base: nat) returns (ok: bool)
    requires base + BLOCK <= ram.Length
    modifies ram
    ensures ok == card(block).Some?
    ensures ok ==> ram[..] == Over(old(ram[..]), base, card(block).value)
  {
    hide FromLe, Le, Over;
    ok := card(block).Some?;
    if ok {
      ghost var was := ram[..];
      var data := card(block).value;
      var i := 0;
      OverNothing(was, base);
      assert data[..4 * 0] == [];
      while i < BLOCK_WORDS
        invariant 0 <= i <= BLOCK_WORDS
        invariant ram[..] == Over(was, base, data[..4 * i])
      {
        var word := WordAt(data, i);
        StoreWord(ram, base + 4 * i, word);
        FromLeInverse(data[4 * i], data[4 * i + 1], data[4 * i + 2], data[4 * i + 3]);
        OverNext(was, base, data, i);
        i := i + 1;
      }
      assert data[..4 * i] == data;
    }
  }

  lemma OverNothing(s: seq<Byte>, at: nat)
    requires at <= |s|
    ensures Over(s, at, []) == s
  {
  }

  lemma OverNext(s: seq<Byte>, at: nat, data: seq<Byte>, i: nat)
    requires 4 * i + 4 <= |data| && at + |data| <= |s|
    ensures Over(Over(s, at, data[..4 * i]), at + 4 * i,
                 [data[4 * i], data[4 * i + 1], data[4 * i + 2], data[4 * i + 3]])
         == Over(s, at, data[..4 * (i + 1)])
  {
    assert data[..4 * (i + 1)]
        == data[..4 * i] + [data[4 * i], data[4 * i + 1], data[4 * i + 2], data[4 * i + 3]];
  }

  method StoreWord(ram: array<Byte>, at: nat, word: Word)
    requires at + 4 <= ram.Length
    modifies ram
    ensures ram[..] == Over(old(ram[..]), at, Le(word))
  {
    ghost var was := ram[..];
    var bytes := Le(word);
    ram[at], ram[at + 1], ram[at + 2], ram[at + 3] := bytes[0], bytes[1], bytes[2], bytes[3];
    hide Le;
    assert ram[..] == was[at := bytes[0]][at + 1 := bytes[1]][at + 2 := bytes[2]][at + 3 := bytes[3]];
  }

  method SumWords(ram: array<Byte>, words: nat) returns (sum: Word)
    requires 4 * words <= ram.Length
    ensures sum == WordSum(ram[..], words) % TWO_32
  {
    hide WordAt;
    sum := 0;
    var i := 0;
    while i < words
      invariant 0 <= i <= words && sum == WordSum(ram[..], i) % TWO_32
    {
      WrapAdd(WordSum(ram[..], i), WordAt(ram[..], i));
      sum := (sum + WordAt(ram[..], i)) % TWO_32;
      i := i + 1;
    }
  }

  lemma WrapAdd(total: nat, w: Word)
    ensures (total % TWO_32 + w) % TWO_32 == (total + w) % TWO_32
  {
  }

  method PlaceTrampoline(ram: array<Byte>, at: nat, tramp: seq<Byte>)
    requires at + |tramp| <= ram.Length
    modifies ram
    ensures ram[..] == Over(old(ram[..]), at, tramp)
  {
    ghost var was := ram[..];
    var p := 0;
    while p < |tramp|
      invariant 0 <= p <= |tramp| && ram[..] == Over(was, at, tramp[..p])
    {
      ram[at + p] := tramp[p];
      assert ram[..] == Over(was, at, tramp[..p])[at + p := tramp[p]];
      assert tramp[..p + 1] == tramp[..p] + [tramp[p]];
      p := p + 1;
    }
    assert tramp[..p] == tramp;
  }

  lemma NextBlock(card: Card, s: seq<Byte>, b: nat)
    requires Readable(card, b) && card(1 + b).Some? && BLOCK * (b + 1) <= |s|
    ensures Readable(card, b + 1)
    ensures Over(Over(s, 0, Contents(card, b)), BLOCK * b, card(1 + b).value) == Over(s, 0, Contents(card, b + 1))
  {
    assert Contents(card, b + 1) == Contents(card, b) + card(1 + b).value;
  }

  lemma NothingRead(card: Card, s: seq<Byte>)
    ensures Readable(card, 0) && Over(s, 0, Contents(card, 0)) == s
  {
  }

  /** Blocks 1 to the given number, in order, to the start of memory. */
  method ReadImage(card: Card, blocks: nat, ram: array<Byte>) returns (ok: bool)
    requires BLOCK * blocks <= ram.Length
    modifies ram
    ensures ok == Readable(card, blocks)
    ensures ok ==> ram[..] == Over(old(ram[..]), 0, Contents(card, blocks))
  {
    hide Contents, Over, Readable;
    ghost var was := ram[..];
    var b := 0;
    ok := true;
    NothingRead(card, was);
    while b < blocks
      invariant 0 <= b <= blocks && Readable(card, b) && ok
      invariant ram[..] == Over(was, 0, Contents(card, b))
    {
      assert BLOCK * (b + 1) <= BLOCK * blocks;
      ok := ReadBlock(card, 1 + b, ram, BLOCK * b);
      if !ok {
        Unreadable(card, 1 + b, blocks);
        return;
      }
      NextBlock(card, was, b);
      b := b + 1;
    }
  }

  lemma Unreadable(card: Card, b: nat, n: nat)
    requires card(b).None? && 1 <= b <= n
    ensures !Readable(card, n)
  {
  }

  /**
   * The loader, up to its jump: a card it boots leaves the image at the start of memory, the trampoline right behind
   * its last word, and jumps there; any other card is refused with the reason of the first check that fails.
   */
  method SdMain(card: Card, ram: array<Byte>, tramp: seq<Byte>) returns (outcome: Outcome)
    requires ram.Length >= MAX_IMAGE + BLOCK + |tramp|
    modifies ram
    ensures outcome == Verdict(card)
    ensures outcome.Booted? ==>
              var n := BlocksOf(WordsOf(HeaderWord(card, 1)));
              && outcome.entry + |tramp| <= ram.Length && Readable(card, n)
              && ram[..] == Over(Over(old(ram[..]), 0, Contents(card, n)), outcome.entry, tramp)
  {
    hide Contents, WordSum, WordAt, Readable;
    if card(0).None? { return BadCard; }
    var length, expected := HeaderWord(card, 1), HeaderWord(card, 2);
    if HeaderWord(card, 0) != MAGIC || length == 0 || length >= MAX_IMAGE { return BadHeader; }
    var words := (length + 3) / 4;
    var blocks := (words + BLOCK_WORDS - 1) / BLOCK_WORDS;
    assert 4 * words < MAX_IMAGE + 4 && BLOCK * blocks < MAX_IMAGE + BLOCK;
    ghost var was := ram[..];
    var ok := ReadImage(card, blocks, ram);
    if !ok { return BadCard; }
    BlocksCover(words);
    var sum := SumWords(ram, words);
    assert ram[..][..4 * words] == Contents(card, blocks)[..4 * words];
    WordSumPrefix(ram[..], Contents(card, blocks), words);
    if sum != expected { return BadChecksum; }
    PlaceTrampoline(ram, 4 * words, tramp);
    return Booted(4 * words);
  }

  // ----- what is in memory when the loader jumps -----

  lemma OverParts(s: seq<Byte>, data: seq<Byte>, at: nat, t: seq<Byte>)
    requires at <= |data| <= |s| && at + |t| <= |s|
    ensures var m := Over(Over(s, 0, data), at, t); m[..at] == data[..at] && m[at..at + |t|] == t
  {
  }

  /**
   * Any card it boots has a length in range and, in the memory it jumps into, exactly that many bytes rounded up to
   * words whose wrapped sum is the header's; the trampoline lies behind them.
   */
  lemma BootedMemory(card: Card, s: seq<Byte>, tramp: seq<Byte>)
    requires Verdict(card).Booted? && |s| >= MAX_IMAGE + BLOCK + |tramp|
    ensures var at, n, length := Verdict(card).entry, BlocksOf(WordsOf(HeaderWord(card, 1))), HeaderWord(card, 1);
            && 0 < length < MAX_IMAGE && length <= at < length + 4 && at % 4 == 0
            && at + |tramp| <= |s| && BLOCK * n <= |s|
            && var m := Over(Over(s, 0, Contents(card, n)), at, tramp);
               WordSum(m, at / 4) % TWO_32 == HeaderWord(card, 2) && m[at..at + |tramp|] == tramp
  {
    hide WordSum, HeaderWord, Contents, Over, Readable;
    var at, words := Verdict(card).entry, WordsOf(HeaderWord(card, 1));
    var data := Contents(card, BlocksOf(words));
    BlocksCover(words);
    OverParts(s, data, at, tramp);
    WordSumPrefix(Over(Over(s, 0, data), at, tramp), data, words);
  }

  /** Packing, writing to a card and booting leaves exactly the padded payload, with the trampoline behind it. */
  lemma RoundTrip(payload: seq<Byte>, card: Card, s: seq<Byte>, tramp: seq<Byte>)
    requires Pack(payload).File? && Holds(card, Pack(payload).bytes) && |s| >= MAX_IMAGE + BLOCK + |tramp|
    requires 0 < |Padded(payload)| < MAX_IMAGE
    ensures var at, n := |Padded(payload)|, BlocksOf(WordsOf(HeaderWord(card, 1)));
            && Verdict(card) == Booted(at) && Readable(card, n) && BLOCK * n <= |s|
            && var m := Over(Over(s, 0, Contents(card, n)), at, tramp);
               m[..at] == Padded(payload) && m[at..at + |tramp|] == tramp
  {
    hide WordSum, HeaderWord, Contents, Over, Readable, Pack, Padded, Holds;
    var image := Padded(payload);
    PackedBoots(payload, card);
    PackedHeader(payload, card);
    PaddedIsWhole(payload);
    assert WordsOf(|image|) == |image| / 4;
    OverParts(s, Contents(card, BlocksOf(|image| / 4)), |image|, tramp);
  }
}

/** Disk blocks as bytes, and the two ways the kernel reads inside one:
    as 32-bit little-endian words and as single bits. */
module Blocks {
  import opened Common

  const BSIZE: nat := 512
  const WORDS: nat := 128

  type Block = b: seq<Byte> | |b| == BSIZE witness seq(BSIZE, _ => 0)
  type Disk = seq<Block>

  function ZeroBlock(): Block {
    seq(BSIZE, _ => 0)
  }

  /** The `i`-th `uint` of a block. */
  function Word(b: Block, i: nat): (w: nat)
    requires i < WORDS
    ensures w < WORD_LIMIT
  {
    var b0: int, b1: int, b2: int, b3: int := b[4 * i], b[4 * i + 1], b[4 * i + 2], b[4 * i + 3];
    b0 + 0x100 * b1 + 0x1_0000 * b2 + 0x100_0000 * b3
  }

  /** Block `b` with its `i`-th `uint` set to `w`. */
  function SetWord(b: Block, i: nat, w: nat): (r: Block)
    requires i < WORDS && w < WORD_LIMIT
  {
    b[4 * i := w % 0x100]
     [4 * i + 1 := w / 0x100 % 0x100]
     [4 * i + 2 := w / 0x1_0000 % 0x100]
     [4 * i + 3 := w / 0x100_0000]
  }

  lemma WordOfSetWord(b: Block, i: nat, w: nat)
    requires i < WORDS && w < WORD_LIMIT
    ensures Word(SetWord(b, i, w), i) == w
    ensures forall j: nat :: j < WORDS && j != i ==> Word(SetWord(b, i, w), j) == Word(b, j)
  {
    FourBytes(w);
    var r := SetWord(b, i, w);
    forall j: nat | j < WORDS && j != i
      ensures Word(r, j) == Word(b, j)
    {
      assert r[4 * j] == b[4 * j] && r[4 * j + 1] == b[4 * j + 1];
    }
  }

  lemma Peel(lo: Byte, hi: nat)
    ensures (lo + 0x100 * hi) % 0x100 == lo && (lo + 0x100 * hi) / 0x100 == hi
  {
  }

  /** Words lie in a block with their low byte first. */
  lemma LowByteFirst(b: Block, i: nat)
    requires i < WORDS
    ensures var w := Word(b, i);
            && w % 0x100 == b[4 * i] && w / 0x100 % 0x100 == b[4 * i + 1]
            && w / 0x100 / 0x100 % 0x100 == b[4 * i + 2] && w / 0x100 / 0x100 / 0x100 == b[4 * i + 3]
  {
    var b3: nat := b[4 * i + 3];
    var b2: nat := b[4 * i + 2] + 0x100 * b3;
    var b1: nat := b[4 * i + 1] + 0x100 * b2;
    assert Word(b, i) == b[4 * i] + 0x100 * b1;
    Peel(b[4 * i], b1);
    Peel(b[4 * i + 1], b2);
    Peel(b[4 * i + 2], b3);
  }

  lemma FourBytes(w: nat)
    requires w < WORD_LIMIT
    ensures w % 0x100 + 0x100 * (w / 0x100 % 0x100) + 0x1_0000 * (w / 0x1_0000 % 0x100)
            + 0x100_0000 * (w / 0x100_0000) == w
  {
    assert w / 0x1_0000 == w / 0x100 / 0x100;
    assert w / 0x100_0000 == w / 0x1_0000 / 0x100;
  }

  /** Block `b` with the first `i` words of `ws` stored from word `at` on. */
  function PutWords(b: Block, at: nat, ws: seq<nat>, i: nat): (r: Block)
    requires i <= |ws| && at + |ws| <= WORDS
    requires forall k :: 0 <= k < |ws| ==> ws[k] < WORD_LIMIT
  {
    if i == 0 then b else SetWord(PutWords(b, at, ws, i - 1), at + i - 1, ws[i - 1])
  }

  lemma {:induction false} WordsOfPutWords(b: Block, at: nat, ws: seq<nat>, i: nat)
    requires i <= |ws| && at + |ws| <= WORDS
    requires forall k :: 0 <= k < |ws| ==> ws[k] < WORD_LIMIT
    ensures forall j: nat :: j < WORDS ==>
              Word(PutWords(b, at, ws, i), j) == if at <= j < at + i then ws[j - at] else Word(b, j)
  {
    if i > 0 {
      WordsOfPutWords(b, at, ws, i - 1);
      WordOfSetWord(PutWords(b, at, ws, i - 1), at + i - 1, ws[i - 1]);
    }
  }

  /** `1 << k`. */
  function Mask(k: nat): (m: nat)
    ensures m >= 1
  {
    if k == 0 then 1 else 2 * Mask(k - 1)
  }

  /** `x & (1 << k)` */
  predicate ByteBit(x: nat, k: nat) {
    if k == 0 then x % 2 == 1 else ByteBit(x / 2, k - 1)
  }

  /** `x | (1 << k)` of a clear bit adds the mask and changes no other bit. */
  lemma {:induction false} SetByteBit(x: nat, k: nat)
    requires !ByteBit(x, k)
    ensures forall j: nat :: ByteBit(x + Mask(k), j) <==> j == k || ByteBit(x, j)
  {
    if k > 0 {
      SetByteBit(x / 2, k - 1);
      assert (x + Mask(k)) / 2 == x / 2 + Mask(k - 1);
    } else {
      assert (x + 1) / 2 == x / 2;
    }
  }

  lemma {:induction false} SetByteBitFits(x: nat, n: nat, k: nat)
    requires k < n && x < Mask(n) && !ByteBit(x, k)
    ensures x + Mask(k) < Mask(n)
  {
    assert Mask(n) == 2 * Mask(n - 1);
    if k > 0 {
      SetByteBitFits(x / 2, n - 1, k - 1);
    }
  }

  /** `x & ~(1 << k)` of a set bit subtracts the mask and changes no other bit. */
  lemma {:induction false} ClearByteBit(x: nat, k: nat)
    requires ByteBit(x, k)
    ensures Mask(k) <= x
    ensures forall j: nat :: ByteBit(x - Mask(k), j) <==> j != k && ByteBit(x, j)
  {
    if k > 0 {
      ClearByteBit(x / 2, k - 1);
      assert (x - Mask(k)) / 2 == x / 2 - Mask(k - 1);
    } else {
      assert (x - 1) / 2 == x / 2;
    }
  }

  /** Bit `k` of a bitmap block: `data[k/8] & (1 << (k % 8))`. */
  predicate Bit(b: Block, k: nat)
    requires k < 8 * BSIZE
  {
    ByteBit(b[k / 8], k % 8)
  }

  /** The block with bit `k` set (`v`) or cleared; it must not be so already. */
  function FlipBit(b: Block, k: nat, v: bool): (r: Block)
    requires k < 8 * BSIZE && Bit(b, k) == !v
    ensures forall j: nat :: j < 8 * BSIZE ==> (Bit(r, j) <==> if j == k then v else Bit(b, j))
  {
    var x: int := b[k / 8];
    if v then
      assert Mask(8) == 256;
      SetByteBit(x, k % 8);
      SetByteBitFits(x, 8, k % 8);
      b[k / 8 := x + Mask(k % 8)]
    else
      ClearByteBit(x, k % 8);
      b[k / 8 := x - Mask(k % 8)]
  }
}

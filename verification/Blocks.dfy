/** Disk blocks: fixed-size byte strings that the kernel also reads as arrays of
    32-bit little-endian words (log header, indirect blocks, inodes) and as bit
    maps. */
module Blocks {

  const BSIZE := 512
  const WORDS := BSIZE / 4
  const WORD_LIMIT := 0x1_0000_0000

  type Byte = x: int | 0 <= x < 256
  type Word32 = x: int | 0 <= x < WORD_LIMIT
  type Block = b: seq<Byte> | |b| == BSIZE witness seq(BSIZE, i => 0)

  /** A disk is its blocks in order. */
  type Disk = seq<Block>

  function Min(x: int, y: int): int {
    if x < y then x else y
  }

  /** Entry `i` of the block read as `uint a[WORDS]`. */
  function WordAt(b: Block, i: nat): Word32
    requires i < WORDS
  {
    var b0: int, b1: int, b2: int, b3: int := b[4 * i], b[4 * i + 1], b[4 * i + 2], b[4 * i + 3];
    b0 + 0x100 * b1 + 0x1_0000 * b2 + 0x100_0000 * b3
  }

  /** The block after the assignment `a[i] = v`. */
  function PutWord(b: Block, i: nat, v: Word32): (r: Block)
    requires i < WORDS
    ensures forall j {:trigger r[j]} :: 0 <= j < BSIZE && j / 4 != i ==> r[j] == b[j]
  {
    b[4 * i := v % 0x100][4 * i + 1 := v / 0x100 % 0x100]
     [4 * i + 2 := v / 0x1_0000 % 0x100][4 * i + 3 := v / 0x100_0000]
  }

  lemma WordBytes(v: Word32)
    ensures v == v % 0x100 + 0x100 * (v / 0x100 % 0x100) + 0x1_0000 * (v / 0x1_0000 % 0x100)
                 + 0x100_0000 * (v / 0x100_0000)
  {
  }

  lemma OtherBytes(b: Block, i: nat, v: Word32, j: nat)
    requires i < WORDS && j < WORDS && i != j
    ensures forall m :: 4 * j <= m < 4 * j + 4 ==> PutWord(b, i, v)[m] == b[m]
  {
  }

  lemma PutWordRoundTrip(b: Block, i: nat, v: Word32, j: nat)
    requires i < WORDS && j < WORDS
    ensures WordAt(PutWord(b, i, v), j) == if i == j then v else WordAt(b, j)
  {
    if i == j {
      WordBytes(v);
    } else {
      OtherBytes(b, i, v, j);
      hide PutWord;
    }
  }

  /** The `n` bytes from `off` on as a little-endian number. */
  function Little(b: seq<Byte>, off: nat, n: nat): nat
    requires off + n <= |b|
    decreases n
  {
    if n == 0 then 0 else var lo: int := b[off]; lo + 0x100 * Little(b, off + 1, n - 1)
  }

  /** Where the bytes of a word, and of its two halves, are. */
  lemma WordLayout(b: Block, i: nat)
    requires i < WORDS
    ensures WordAt(b, i) == Little(b, 4 * i, 4)
    ensures WordAt(b, i) % 0x1_0000 == Little(b, 4 * i, 2) && WordAt(b, i) / 0x1_0000 == Little(b, 4 * i + 2, 2)
  {
    var b0: int, b1: int, b2: int, b3: int := b[4 * i], b[4 * i + 1], b[4 * i + 2], b[4 * i + 3];
    LittleTwo(b, 4 * i);
    LittleTwo(b, 4 * i + 2);
    assert Little(b, 4 * i + 1, 3) == b1 + 0x100 * Little(b, 4 * i + 2, 2);
    assert Little(b, 4 * i, 4) == b0 + 0x100 * Little(b, 4 * i + 1, 3);
    hide Little;
    Halves(b0 + 0x100 * b1, b2 + 0x100 * b3);
  }

  lemma LittleTwo(b: Block, off: nat)
    requires off + 2 <= BSIZE
    ensures var b0: int, b1: int := b[off], b[off + 1]; Little(b, off, 2) == b0 + 0x100 * b1
  {
    assert Little(b, off + 1, 1) == b[off + 1];
  }

  lemma Halves(lo: int, hi: int)
    requires 0 <= lo < 0x1_0000
    ensures (lo + 0x1_0000 * hi) % 0x1_0000 == lo && (lo + 0x1_0000 * hi) / 0x1_0000 == hi
  {
  }

  /** A block of zero bytes. */
  function ZeroBlock(): (b: Block)
    ensures forall i :: 0 <= i < BSIZE ==> b[i] == 0
  {
    seq(BSIZE, i => 0)
  }
}

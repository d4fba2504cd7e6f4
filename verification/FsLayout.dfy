/** On-disk layout of the file system (fs.h): the free bit map and the inode
    records, as stored in the bytes of disk blocks. */
module FsLayout {
  import opened Blocks

  const BPB := BSIZE * 8
  const NDIRECT := 12
  const NINDIRECT := BSIZE / 4
  const MAXFILE := NDIRECT + NINDIRECT
  const IPB := 8            // 512 / sizeof(struct dinode)
  const INODE_WORDS := 16   // sizeof(struct dinode) / 4

  /** The fields of struct superblock that fs.c uses. */
  datatype SuperBlock = SuperBlock(size: nat, ninodes: nat, inodestart: nat, bmapstart: nat)

  function IBlock(sb: SuperBlock, i: nat): nat {
    i / IPB + sb.inodestart
  }

  function BBlock(sb: SuperBlock, b: nat): nat {
    b / BPB + sb.bmapstart
  }

  /** Boot block, super block, log, inodes and bit map come first. */
  function DataStart(sb: SuperBlock): nat {
    sb.bmapstart + sb.size / BPB + 1
  }

  ghost predicate GoodLayout(sb: SuperBlock, diskSize: nat) {
    && 0 < sb.size <= diskSize <= WORD_LIMIT
    && 1 < sb.inodestart
    && sb.inodestart + sb.ninodes / IPB + 1 <= sb.bmapstart
    && sb.bmapstart < DataStart(sb) <= sb.size
  }

  // ---------- bits of a byte ----------

  /** `x & (1 << k)` */
  predicate BitOf(x: nat, k: nat) {
    if k == 0 then x % 2 == 1 else BitOf(x / 2, k - 1)
  }

  /** `x | (1 << k)` or `x & ~(1 << k)` */
  function PutBit(x: nat, k: nat, on: bool): nat {
    if k == 0 then x / 2 * 2 + (if on then 1 else 0) else PutBit(x / 2, k - 1, on) * 2 + x % 2
  }

  lemma {:induction false} PutBitAt(x: nat, k: nat, on: bool, j: nat)
    ensures BitOf(PutBit(x, k, on), j) == if j == k then on else BitOf(x, j)
  {
    if k > 0 {
      var y := PutBit(x / 2, k - 1, on);
      assert (y * 2 + x % 2) / 2 == y && (y * 2 + x % 2) % 2 == x % 2;
      if j > 0 {
        PutBitAt(x / 2, k - 1, on, j - 1);
      }
    } else if j > 0 {
      assert (x / 2 * 2 + if on then 1 else 0) / 2 == x / 2;
    }
  }

  /** The test of bit `k`. */
  lemma {:induction false} BitIs(x: nat, k: nat)
    ensures BitOf(x, k) <==> x / Pow2(k) % 2 == 1
  {
    if k > 0 {
      BitIs(x / 2, k - 1);
      HalfThen(x, Pow2(k - 1));
    }
  }

  lemma HalfThen(x: nat, m: nat)
    requires m > 0
    ensures x / (2 * m) == x / 2 / m
  {
    var q, r := x / 2 / m, 2 * (x / 2 % m) + x % 2;
    assert x / 2 == m * q + x / 2 % m;
    assert x == 2 * (m * q) + r;
    assert 2 * (m * q) == 2 * m * q;
    QuotientIs(x, 2 * m, q, r);
  }

  lemma QuotientIs(x: nat, d: nat, q: nat, r: nat)
    requires x == d * q + r && r < d
    ensures x / d == q
  {
    var p := x / d;
    assert x == d * p + x % d;
    assert p >= q + 1 ==> d * p >= d * (q + 1);
    assert q >= p + 1 ==> d * q >= d * (p + 1);
  }

  function Pow2(n: nat): (r: nat)
    ensures r > 0
  {
    if n == 0 then 1 else 2 * Pow2(n - 1)
  }

  lemma {:induction false} PutBitBound(x: nat, k: nat, on: bool, n: nat)
    requires k < n && x < Pow2(n)
    ensures PutBit(x, k, on) < Pow2(n)
  {
    assert Pow2(n) == 2 * Pow2(n - 1) && x / 2 < Pow2(n - 1);
    if k > 0 {
      PutBitBound(x / 2, k - 1, on, n - 1);
    }
  }

  lemma PutBitByte(x: Byte, k: nat, on: bool)
    requires k < 8
    ensures 0 <= PutBit(x, k, on) < 256
  {
    assert Pow2(3) == 8 && Pow2(6) == 64;
    assert Pow2(8) == 256;
    PutBitBound(x, k, on, 8);
  }

  // ---------- bits of a block ----------

  predicate BlockBit(b: Block, bi: nat)
    requires bi < BPB
  {
    BitOf(b[bi / 8], bi % 8)
  }

  function PutBlockBit(b: Block, bi: nat, on: bool): Block
    requires bi < BPB
  {
    PutBitByte(b[bi / 8], bi % 8, on);
    b[bi / 8 := PutBit(b[bi / 8], bi % 8, on)]
  }

  lemma PutBlockBitAt(b: Block, bi: nat, on: bool, j: nat)
    requires bi < BPB && j < BPB
    ensures BlockBit(PutBlockBit(b, bi, on), j) == if j == bi then on else BlockBit(b, j)
  {
    PutBitAt(b[bi / 8], bi % 8, on, j % 8);
  }

  // ---------- inodes ----------

  type Half = x: int | 0 <= x < 0x1_0000

  type Addrs = s: seq<Word32> | |s| == NDIRECT + 1 witness seq(NDIRECT + 1, i => 0)

  datatype Inode = Inode(kind: Half, major: Half, minor: Half, nlink: Half, size: Word32, addrs: Addrs)

  /** Word `w` of struct dinode. */
  function InodeWord(ino: Inode, w: nat): Word32
    requires w < INODE_WORDS
  {
    var kind: int, major: int, minor: int, nlink: int := ino.kind, ino.major, ino.minor, ino.nlink;
    if w == 0 then kind + 0x1_0000 * major
    else if w == 1 then minor + 0x1_0000 * nlink
    else if w == 2 then ino.size
    else ino.addrs[w - 3]
  }

  /** Word `w` of the inode in slot `k` of a block. */
  function SlotWord(b: Block, k: nat, w: nat): Word32
    requires k < IPB && w < INODE_WORDS
  {
    WordAt(b, k * INODE_WORDS + w)
  }

  /** The inode in slot `k` of a block (fs.c:299-306). */
  function GetInode(b: Block, k: nat): Inode
    requires k < IPB
  {
    var h0, h1 := SlotWord(b, k, 0), SlotWord(b, k, 1);
    Inode(h0 % 0x1_0000, h0 / 0x1_0000, h1 % 0x1_0000, h1 / 0x1_0000, SlotWord(b, k, 2),
          seq<Word32>(NDIRECT + 1, i requires 0 <= i <= NDIRECT => SlotWord(b, k, 3 + i)))
  }

  /** The block after the first `w` word stores of iupdate (fs.c:227-233). */
  function PutInode(b: Block, k: nat, ino: Inode, w: nat): Block
    requires k < IPB && w <= INODE_WORDS
  {
    if w == 0 then b
    else PutWord(PutInode(b, k, ino, w - 1), k * INODE_WORDS + w - 1, InodeWord(ino, w - 1))
  }

  lemma {:induction false} PutInodeWords(b: Block, k: nat, ino: Inode, w: nat, j: nat)
    requires k < IPB && w <= INODE_WORDS && j < WORDS
    ensures WordAt(PutInode(b, k, ino, w), j) ==
            if k * INODE_WORDS <= j < k * INODE_WORDS + w then InodeWord(ino, j - k * INODE_WORDS) else WordAt(b, j)
  {
    if w > 0 {
      PutInodeWords(b, k, ino, w - 1, j);
      PutWordRoundTrip(PutInode(b, k, ino, w - 1), k * INODE_WORDS + w - 1, InodeWord(ino, w - 1), j);
    }
  }

  lemma SameWordsSameInode(b: Block, k: nat, ino: Inode)
    requires k < IPB && forall w :: 0 <= w < INODE_WORDS ==> SlotWord(b, k, w) == InodeWord(ino, w)
    ensures GetInode(b, k) == ino
  {
    hide SlotWord;
    assert SlotWord(b, k, 0) == InodeWord(ino, 0) && SlotWord(b, k, 1) == InodeWord(ino, 1) && SlotWord(b, k, 2) == InodeWord(ino, 2);
    Halves(ino.kind, ino.major);
    Halves(ino.minor, ino.nlink);
    var got := GetInode(b, k).addrs;
    forall i | 0 <= i <= NDIRECT
      ensures got[i] == ino.addrs[i]
    {
      assert SlotWord(b, k, 3 + i) == InodeWord(ino, 3 + i);
    }
  }

  /** iupdate stores one inode and leaves its neighbours alone. */
  lemma InodeRoundTrip(b: Block, k: nat, ino: Inode, j: nat)
    requires k < IPB && j < IPB
    ensures GetInode(PutInode(b, k, ino, INODE_WORDS), j) == if j == k then ino else GetInode(b, j)
  {
    var r := PutInode(b, k, ino, INODE_WORDS);
    forall w | 0 <= w < INODE_WORDS
      ensures SlotWord(r, j, w) == if j == k then InodeWord(ino, w) else SlotWord(b, j, w)
    {
      PutInodeWords(b, k, ino, INODE_WORDS, j * INODE_WORDS + w);
    }
    if j == k {
      SameWordsSameInode(r, k, ino);
    } else {
      SameSlotWords(r, b, j);
    }
  }

  /** Where the fields of struct dinode are in a block: two bytes each for type, major, minor and
      nlink, then four each for size and addrs, all little-endian, 64 bytes a slot. */
  lemma InodeLayout(b: Block, k: nat)
    requires k < IPB
    ensures var ino := GetInode(b, k);
            && ino.kind == Little(b, 64 * k, 2) && ino.major == Little(b, 64 * k + 2, 2)
            && ino.minor == Little(b, 64 * k + 4, 2) && ino.nlink == Little(b, 64 * k + 6, 2)
            && ino.size == Little(b, 64 * k + 8, 4)
            && forall d :: 0 <= d <= NDIRECT ==> ino.addrs[d] == Little(b, 64 * k + 12 + 4 * d, 4)
  {
    hide WordAt;
    hide Little;
    WordLayout(b, k * INODE_WORDS);
    WordLayout(b, k * INODE_WORDS + 1);
    WordLayout(b, k * INODE_WORDS + 2);
    forall d | 0 <= d <= NDIRECT
      ensures GetInode(b, k).addrs[d] == Little(b, 64 * k + 12 + 4 * d, 4)
    {
      WordLayout(b, k * INODE_WORDS + 3 + d);
    }
  }

  /** No byte outside the slot changes. */
  lemma {:induction false} PutInodeElsewhere(b: Block, k: nat, ino: Inode, w: nat, j: nat)
    requires k < IPB && w <= INODE_WORDS && j < BSIZE && j / 64 != k
    ensures PutInode(b, k, ino, w)[j] == b[j]
  {
    hide PutWord;
    if w > 0 {
      PutInodeElsewhere(b, k, ino, w - 1, j);
    }
  }

  lemma SameSlotWords(r: Block, b: Block, j: nat)
    requires j < IPB && forall w :: 0 <= w < INODE_WORDS ==> SlotWord(r, j, w) == SlotWord(b, j, w)
    ensures GetInode(r, j) == GetInode(b, j)
  {
    hide SlotWord;
    assert GetInode(r, j).addrs == GetInode(b, j).addrs;
  }
}

/** Files as byte strings over scattered blocks. */
module FsBytes {
  import opened Blocks
  import opened FsLayout
  import opened FsSpec

  const MAXBYTES := MAXFILE * BSIZE

  /** Byte `p` of a file. */
  function ByteAt(blocks: Disk, ino: Inode, p: nat): Byte
    requires p < MAXBYTES
  {
    var b := Slot(blocks, ino, p / BSIZE);
    if b < |blocks| then blocks[b][p % BSIZE] else 0
  }

  /** The file has a block for byte `p`. */
  predicate Has(blocks: Disk, ino: Inode, p: nat)
    requires p < MAXBYTES
  {
    Slot(blocks, ino, p / BSIZE) != 0
  }

  /** No block below the size is missing. */
  ghost predicate FileOk(blocks: Disk, ino: Inode) {
    ino.size <= MAXBYTES && forall p :: 0 <= p < ino.size ==> Has(blocks, ino, p)
  }

  /** `j` is a file whose inode and blocks are as the disk has them. */
  ghost predicate SettledAt(sb: SuperBlock, blocks: Disk, inodes: seq<Inode>, j: nat) {
    && j < |inodes| && FileOk(blocks, inodes[j])
    && IBlock(sb, j) < |blocks| && GetInode(blocks[IBlock(sb, j)], j % IPB) == inodes[j]
  }

  ghost function Contents(blocks: Disk, ino: Inode): (c: seq<Byte>)
    requires ino.size <= MAXBYTES
    ensures |c| == ino.size
  {
    seq<Byte>(ino.size, p requires 0 <= p < ino.size => ByteAt(blocks, ino, p))
  }

  /** `c` with `src` written over it from `off` on. */
  ghost function Splice(c: seq<Byte>, off: nat, src: seq<Byte>): seq<Byte>
    requires off <= |c|
  {
    c[..off] + src + if off + |src| < |c| then c[off + |src|..] else []
  }

  /** Inode `i` has been given `src` in bytes lo..hi, and perhaps new blocks for
      them; no other byte of any file, and no inode on disk, has changed. */
  ghost predicate Wrote(sb: SuperBlock, blocks: Disk, inodes: seq<Inode>, blocks': Disk, inodes': seq<Inode>,
                        i: nat, lo: nat, src: seq<Byte>) {
    && |blocks'| == |blocks| && |inodes'| == |inodes| && i < |inodes| && lo + |src| <= MAXBYTES
    && (forall j :: 0 <= j < |inodes| && j != i ==> inodes'[j] == inodes[j])
    && inodes'[i] == inodes[i].(addrs := inodes'[i].addrs)
    && (forall n :: 0 <= n < sb.bmapstart && n < |blocks| ==> blocks'[n] == blocks[n])
    && (forall j, p :: 0 <= j < |inodes| && 0 <= p < MAXBYTES && Has(blocks, inodes[j], p) ==> Has(blocks', inodes'[j], p))
    && (forall j, p :: 0 <= j < |inodes| && 0 <= p < MAXBYTES && Has(blocks, inodes[j], p) && !(j == i && lo <= p < lo + |src|) ==>
          ByteAt(blocks', inodes'[j], p) == ByteAt(blocks, inodes[j], p))
    && (forall p :: lo <= p < lo + |src| ==> Has(blocks', inodes'[i], p) && ByteAt(blocks', inodes'[i], p) == src[p - lo])
  }

  lemma WroteTrans(sb: SuperBlock, b0: Disk, i0: seq<Inode>, b1: Disk, i1: seq<Inode>, b2: Disk, i2: seq<Inode>,
                   i: nat, lo: nat, s1: seq<Byte>, s2: seq<Byte>)
    requires Wrote(sb, b0, i0, b1, i1, i, lo, s1) && Wrote(sb, b1, i1, b2, i2, i, lo + |s1|, s2)
    ensures Wrote(sb, b0, i0, b2, i2, i, lo, s1 + s2)
  {
  }

  /** Allocation writes no byte. */
  lemma GrownWrote(sb: SuperBlock, b0: Disk, i0: seq<Inode>, o0: Owner, b1: Disk, i1: seq<Inode>, o1: Owner, i: nat, lo: nat)
    requires Own(sb, b0, i0, o0) && Own(sb, b1, i1, o1) && Grown(sb, b0, i0, o0, b1, i1, o1, i) && lo <= MAXBYTES
    ensures Wrote(sb, b0, i0, b1, i1, i, lo, [])
  {
    hide Slot;
    hide Bit;
    hide GoodLayout;
    hide DataStart;
    forall j, p | 0 <= j < |i0| && 0 <= p < MAXBYTES && Has(b0, i0[j], p)
      ensures Has(b1, i1[j], p) && ByteAt(b1, i1[j], p) == ByteAt(b0, i0[j], p)
    {
      var x := Slot(b0, i0[j], p / BSIZE);
      assert x in o0 && o0[x] == (j, p / BSIZE);
      assert Slot(b1, i1[j], p / BSIZE) == x;
    }
  }

  /** Storing `src` at byte `lo` of inode `i`, inside the block for it. */
  function Patch(b: Block, at: nat, src: seq<Byte>): Block
    requires at + |src| <= BSIZE
  {
    b[..at] + src + b[at + |src|..]
  }

  lemma StoreWrote(sb: SuperBlock, blocks: Disk, inodes: seq<Inode>, owner: Owner, i: nat, lo: nat, src: seq<Byte>)
    requires Own(sb, blocks, inodes, owner) && i < |inodes|
    requires lo < MAXBYTES && Has(blocks, inodes[i], lo) && lo % BSIZE + |src| <= BSIZE
    ensures Slot(blocks, inodes[i], lo / BSIZE) < |blocks|
    ensures Own(sb, Stored(blocks, inodes[i], lo, src), inodes, owner) && SlotsKept(blocks, Stored(blocks, inodes[i], lo, src), inodes)
    ensures Wrote(sb, blocks, inodes, Stored(blocks, inodes[i], lo, src), inodes, i, lo, src)
  {
    hide Slot;
    hide Own;
    hide ByteAt;
    hide Stored;
    StoreKeepsOwn(sb, blocks, inodes, owner, i, lo, src);
    var blocks' := Stored(blocks, inodes[i], lo, src);
    forall j, p | 0 <= j < |inodes| && 0 <= p < MAXBYTES && Has(blocks, inodes[j], p)
      ensures ByteAt(blocks', inodes[j], p) ==
              if j == i && lo <= p < lo + |src| then src[p - lo] else ByteAt(blocks, inodes[j], p)
    {
      StoredByte(sb, blocks, inodes, owner, i, lo, src, j, p);
    }
    forall p | lo <= p < lo + |src|
      ensures p < MAXBYTES && Has(blocks, inodes[i], p)
    {
      assert p / BSIZE == lo / BSIZE;
    }
  }

  lemma StoreKeepsOwn(sb: SuperBlock, blocks: Disk, inodes: seq<Inode>, owner: Owner, i: nat, lo: nat, src: seq<Byte>)
    requires Own(sb, blocks, inodes, owner) && i < |inodes|
    requires lo < MAXBYTES && Has(blocks, inodes[i], lo) && lo % BSIZE + |src| <= BSIZE
    ensures Slot(blocks, inodes[i], lo / BSIZE) < |blocks| == |Stored(blocks, inodes[i], lo, src)|
    ensures Own(sb, Stored(blocks, inodes[i], lo, src), inodes, owner) && SlotsKept(blocks, Stored(blocks, inodes[i], lo, src), inodes)
    ensures forall n :: 0 <= n < sb.bmapstart && n < |blocks| ==> Stored(blocks, inodes[i], lo, src)[n] == blocks[n]
  {
    hide Slot;
    hide Bit;
    hide Patch;
    var b := Slot(blocks, inodes[i], lo / BSIZE);
    assert b in owner && owner[b] == (i, lo / BSIZE);
    WriteKeepsOwn(sb, blocks, inodes, owner, b, Patch(blocks[b], lo % BSIZE, src));
    assert DataStart(sb) <= b;
  }

  lemma StoredByte(sb: SuperBlock, blocks: Disk, inodes: seq<Inode>, owner: Owner, i: nat, lo: nat, src: seq<Byte>, j: nat, p: nat)
    requires Own(sb, blocks, inodes, owner) && i < |inodes| && j < |inodes| && p < MAXBYTES && Has(blocks, inodes[j], p)
    requires lo < MAXBYTES && Has(blocks, inodes[i], lo) && lo % BSIZE + |src| <= BSIZE && Slot(blocks, inodes[i], lo / BSIZE) < |blocks|
    requires SlotsKept(blocks, Stored(blocks, inodes[i], lo, src), inodes)
    ensures ByteAt(Stored(blocks, inodes[i], lo, src), inodes[j], p) ==
            if j == i && lo <= p < lo + |src| then src[p - lo] else ByteAt(blocks, inodes[j], p)
  {
    hide Slot;
    hide Bit;
    hide GoodLayout;
    var x, b := Slot(blocks, inodes[j], p / BSIZE), Slot(blocks, inodes[i], lo / BSIZE);
    assert Slot(Stored(blocks, inodes[i], lo, src), inodes[j], p / BSIZE) == x;
    assert x in owner && owner[x] == (j, p / BSIZE);
    assert b in owner && owner[b] == (i, lo / BSIZE);
    hide Own;
    assert lo <= p < lo + |src| ==> p / BSIZE == lo / BSIZE;
    if x == b {
      assert p - lo == p % BSIZE - lo % BSIZE;
    }
  }

  /** The disk after the store of writei at byte `lo` of inode `ino` (fs.c:499-502). */
  function Stored(blocks: Disk, ino: Inode, lo: nat, src: seq<Byte>): Disk
    requires lo < MAXBYTES && Slot(blocks, ino, lo / BSIZE) < |blocks| && lo % BSIZE + |src| <= BSIZE
  {
    var b := Slot(blocks, ino, lo / BSIZE);
    blocks[b := Patch(blocks[b], lo % BSIZE, src)]
  }

  /** Only the addresses of an inode matter for its bytes. */
  lemma SameAddrs(blocks: Disk, ino: Inode, ino': Inode, p: nat)
    requires ino.addrs == ino'.addrs && p < MAXBYTES
    ensures Has(blocks, ino, p) == Has(blocks, ino', p) && ByteAt(blocks, ino, p) == ByteAt(blocks, ino', p)
  {
    hide WordAt;
  }

  /** A write and the growth of the size it causes, seen as a splice. */
  lemma WroteContents(sb: SuperBlock, blocks: Disk, inodes: seq<Inode>, blocks': Disk, inodes': seq<Inode>, i: nat, off: nat, src: seq<Byte>, ino: Inode)
    requires Wrote(sb, blocks, inodes, blocks', inodes', i, off, src) && FileOk(blocks, inodes[i]) && off <= inodes[i].size
    requires ino.addrs == inodes'[i].addrs && ino.size == if off + |src| > inodes[i].size then off + |src| else inodes[i].size
    ensures FileOk(blocks', ino) && Contents(blocks', ino) == Splice(Contents(blocks, inodes[i]), off, src)
  {
    hide Has;
    hide ByteAt;
    var c := Contents(blocks, inodes[i]);
    assert |Splice(c, off, src)| == ino.size;
    forall p | 0 <= p < ino.size
      ensures Has(blocks', ino, p) && ByteAt(blocks', ino, p) == Splice(c, off, src)[p]
    {
      SameAddrs(blocks', ino, inodes'[i], p);
      if p < inodes[i].size {
        assert Has(blocks, inodes[i], p) && c[p] == ByteAt(blocks, inodes[i], p);
      }
    }
  }

  /** No other file changes. */
  lemma WroteOthers(sb: SuperBlock, blocks: Disk, inodes: seq<Inode>, blocks': Disk, inodes': seq<Inode>, i: nat, off: nat, src: seq<Byte>, j: nat)
    requires Wrote(sb, blocks, inodes, blocks', inodes', i, off, src) && j < |inodes| && j != i && FileOk(blocks, inodes[j])
    ensures FileOk(blocks', inodes'[j]) && Contents(blocks', inodes'[j]) == Contents(blocks, inodes[j])
  {
    hide Has;
    hide ByteAt;
  }

  /** Changing a block that no file owns. */
  lemma KeptContents(blocks: Disk, blocks': Disk, inodes: seq<Inode>, owner: Owner, j: nat)
    requires |blocks'| == |blocks| && SlotsOwn(blocks, inodes, owner) && SlotsKept(blocks, blocks', inodes)
    requires forall x :: x in owner && x < |blocks| ==> blocks'[x] == blocks[x]
    requires j < |inodes| && FileOk(blocks, inodes[j])
    ensures FileOk(blocks', inodes[j]) && Contents(blocks', inodes[j]) == Contents(blocks, inodes[j])
  {
    hide Slot;
    forall p | 0 <= p < inodes[j].size
      ensures Has(blocks', inodes[j], p) && ByteAt(blocks', inodes[j], p) == ByteAt(blocks, inodes[j], p)
    {
      assert Slot(blocks', inodes[j], p / BSIZE) == Slot(blocks, inodes[j], p / BSIZE);
      assert Has(blocks, inodes[j], p);
    }
  }

  // ---------- how many blocks a write touches ----------

  function Spanned(off: nat, n: nat): nat {
    if n == 0 then 0 else (off + n - 1) / BSIZE - off / BSIZE + 1
  }

  /** The slots that bytes p..q of a file are reached through. */
  ghost function Reach(p: nat, q: nat): set<nat> {
    set k | 0 <= k <= INDIRECT && ReachedBy(p, q, k)
  }

  predicate ReachedBy(p: nat, q: nat, k: nat) {
    p < q && if k < MAXFILE then k * BSIZE < q && p < (k + 1) * BSIZE else q > NDIRECT * BSIZE
  }

  lemma ReachNothing(p: nat)
    ensures Reach(p, p) == {}
  {
  }

  lemma ReachSplit(p: nat, m: nat, q: nat)
    requires p <= m <= q
    ensures Reach(p, q) == Reach(p, m) + Reach(m, q)
  {
  }

  /** A write that has got from `p` to `m` takes the room for what follows, and there is none
      for the next bytes only if there was none for the whole. */
  lemma RoomOnward(sb: SuperBlock, b0: Disk, n0: Inode, o0: Owner, b1: Disk, n1: Inode, o1: Owner, p: nat, m: nat, m': nat, q: nat)
    requires Took(b0, n0, o0, b1, n1, o1, Reach(p, m)) && p <= m <= m' <= q
    ensures HasRoom(sb, b0, n0, o0, Reach(p, q)) ==> HasRoom(sb, b1, n1, o1, Reach(m, m'))
    ensures forall b2, n2, o2 :: Took(b1, n1, o1, b2, n2, o2, Reach(m, m')) ==> Took(b0, n0, o0, b2, n2, o2, Reach(p, m'))
  {
    hide Took;
    hide HasRoom;
    hide Reach;
    ReachSplit(p, m, m');
    ReachSplit(p, m', q);
    TookThen(sb, b0, n0, o0, b1, n1, o1, Reach(p, m), Reach(m, m'));
    if HasRoom(sb, b0, n0, o0, Reach(p, q)) {
      LessRoom(sb, b0, n0, o0, Reach(p, m'), Reach(p, q));
    }
  }

  /** All of a write got room only if there was room. */
  lemma RoomWas(sb: SuperBlock, b0: Disk, n0: Inode, o0: Owner, blocks: Disk, inodes: seq<Inode>, i: nat, owner: Owner, ks: set<nat>)
    requires i < |inodes| && Own(sb, blocks, inodes, owner) && Took(b0, n0, o0, blocks, inodes[i], owner, ks)
    ensures HasRoom(sb, b0, n0, o0, ks)
  {
    FullCount(sb, blocks, inodes, owner);
  }

  /** Within one block. */
  lemma ReachOne(p: nat, q: nat)
    requires p < q && p < MAXBYTES && p % BSIZE + q - p <= BSIZE
    ensures Reach(p, q) == Needs(p / BSIZE)
  {
  }

  /** Data blocks, then for each new one, and for a new indirect block, a bit map
      block; the indirect block; the inode.  A write into the middle of a block
      finds that block allocated. */
  function LogBudget(off: nat, n: nat): nat {
    2 * Spanned(off, n) + 3 - if off % BSIZE != 0 && n > 0 then 1 else 0
  }

  lemma SpannedNone(start: nat)
    ensures Spanned(start, 0) == 0
  {
  }

  /** A chunk ends where the bytes end or where a block does. */
  lemma ChunkEnd(off: nat, left: nat)
    ensures var m := Min(left, BSIZE - off % BSIZE); m == left || (off + m) % BSIZE == 0
  {
  }

  lemma SpannedStep(start: nat, tot: nat, m: nat)
    requires (tot == 0 || (start + tot) % BSIZE == 0) && 0 < m && (start + tot) % BSIZE + m <= BSIZE
    ensures Spanned(start, tot + m) == Spanned(start, tot) + 1
  {
    assert BSIZE == 512;
    var q, x := (start + tot) / 512, (start + tot) % 512;
    assert start + tot == 512 * q + x;
    assert start + tot + m - 1 == 512 * q + (x + m - 1) && 0 <= x + m - 1 < 512;
    assert (start + tot + m - 1) / 512 == q;
    if tot > 0 {
      assert start + tot - 1 == 512 * (q - 1) + 511;
      assert (start + tot - 1) / 512 == q - 1;
    }
  }

  lemma WroteNothing(sb: SuperBlock, blocks: Disk, inodes: seq<Inode>, i: nat, lo: nat)
    requires i < |inodes| && lo <= MAXBYTES
    ensures Wrote(sb, blocks, inodes, blocks, inodes, i, lo, [])
  {
    hide Has;
    hide ByteAt;
  }

  /** Bytes below the size have blocks, and so has the rest of the last block. */
  lemma HasTail(blocks: Disk, ino: Inode, off: nat)
    requires FileOk(blocks, ino) && off < MAXBYTES
    requires off < ino.size || (off <= ino.size && off % BSIZE != 0)
    ensures Has(blocks, ino, off)
  {
    hide Slot;
    if off == ino.size {
      assert Has(blocks, ino, off - 1);
      assert (off - 1) / BSIZE == off / BSIZE;
    }
  }

  /** A write leaves the inodes on the disk alone. */
  lemma WroteInodeBlock(sb: SuperBlock, blocks: Disk, inodes: seq<Inode>, owner: Owner, blocks': Disk, inodes': seq<Inode>, i: nat, off: nat, src: seq<Byte>, j: nat)
    requires Own(sb, blocks, inodes, owner) && Wrote(sb, blocks, inodes, blocks', inodes', i, off, src) && j < |inodes|
    ensures IBlock(sb, j) < |blocks| == |blocks'| && blocks'[IBlock(sb, j)] == blocks[IBlock(sb, j)]
    ensures |inodes'| == |inodes| && (j != i ==> inodes'[j] == inodes[j])
    ensures inodes'[i] == inodes[i].(addrs := inodes'[i].addrs)
  {
    hide Slot;
    hide Bit;
    hide Has;
    hide ByteAt;
  }
}

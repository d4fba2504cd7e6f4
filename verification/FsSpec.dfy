/** Who owns which disk block, and what a file's blocks spell. */
module FsSpec {
  import opened Sequences
  import opened Blocks
  import opened FsLayout

  /** Slot number of an inode's indirect block; smaller slots are data blocks. */
  const INDIRECT := MAXFILE

  /** Which (inode, slot) each allocated data block belongs to. */
  type Owner = map<nat, (nat, nat)>

  /** The address in slot `k` of an inode, or 0. */
  function Slot(blocks: Disk, ino: Inode, k: nat): nat
    requires k <= INDIRECT
  {
    var ind := ino.addrs[NDIRECT];
    if k < NDIRECT then ino.addrs[k]
    else if k == INDIRECT then ind
    else if ind == 0 || ind >= |blocks| then 0
    else WordAt(blocks[ind], k - NDIRECT)
  }

  lemma IndirectSlot(blocks: Disk, ino: Inode, k: nat)
    requires NDIRECT <= k < INDIRECT && 0 != ino.addrs[NDIRECT] < |blocks|
    ensures WordAt(blocks[ino.addrs[NDIRECT]], k - NDIRECT) == Slot(blocks, ino, k)
  {
  }

  predicate Bit(sb: SuperBlock, blocks: Disk, b: nat) {
    BBlock(sb, b) < |blocks| && BlockBit(blocks[BBlock(sb, b)], b % BPB)
  }

  /** Each allocated slot owns its block, each owned block is in its slot, and the
      bit map marks exactly the metadata and the owned blocks. */
  ghost predicate Own(sb: SuperBlock, blocks: Disk, inodes: seq<Inode>, owner: Owner) {
    && GoodLayout(sb, |blocks|)
    && |inodes| == sb.ninodes
    && SlotsOwn(blocks, inodes, owner)
    && OwnersHold(sb, blocks, inodes, owner)
    && BitsMark(sb, blocks, owner)
  }

  ghost predicate SlotsOwn(blocks: Disk, inodes: seq<Inode>, owner: Owner)
  {
    forall i, k :: 0 <= i < |inodes| && 0 <= k <= INDIRECT && Slot(blocks, inodes[i], k) != 0 ==>
      Slot(blocks, inodes[i], k) in owner && owner[Slot(blocks, inodes[i], k)] == (i, k)
  }

  ghost predicate OwnersHold(sb: SuperBlock, blocks: Disk, inodes: seq<Inode>, owner: Owner)
  {
    forall b :: b in owner ==>
      && DataStart(sb) <= b < sb.size
      && owner[b].0 < |inodes| && owner[b].1 <= INDIRECT
      && Slot(blocks, inodes[owner[b].0], owner[b].1) == b
  }

  ghost predicate BitsMark(sb: SuperBlock, blocks: Disk, owner: Owner) {
    forall b :: 0 <= b < sb.size ==> (Bit(sb, blocks, b) <==> b < DataStart(sb) || b in owner)
  }

  /** Since the disk was `base`, only the logged blocks have changed, and none of them is
      below the inodes, where the log is. */
  ghost predicate LoggedOnly(sb: SuperBlock, base: Disk, blocks: Disk, logged: set<nat>) {
    && |base| == |blocks|
    && (forall n :: n in logged ==> sb.inodestart <= n < |blocks|)
    && (forall n :: 0 <= n < |blocks| && n !in logged ==> blocks[n] == base[n])
  }

  /** One log_write: the block and what it then holds. */
  datatype Logged = Logged(n: nat, data: Block)

  ghost predicate InDisk(writes: seq<Logged>, size: nat) {
    forall i :: 0 <= i < |writes| ==> writes[i].n < size
  }

  ghost function Replay(blocks: Disk, writes: seq<Logged>): (r: Disk)
    requires InDisk(writes, |blocks|)
    ensures |r| == |blocks|
  {
    if writes == [] then blocks
    else var w := writes[|writes| - 1]; Replay(blocks, writes[..|writes| - 1])[w.n := w.data]
  }

  ghost function Numbers(writes: seq<Logged>): set<nat> {
    if writes == [] then {} else Numbers(writes[..|writes| - 1]) + {writes[|writes| - 1].n}
  }

  /** `writes` are what was logged since the disk was `base`. */
  ghost predicate Traced(sb: SuperBlock, base: Disk, blocks: Disk, logged: set<nat>, writes: seq<Logged>) {
    LoggedOnly(sb, base, blocks, logged) && InDisk(writes, |base|) && Replay(base, writes) == blocks && Numbers(writes) == logged
  }

  lemma SlotHigh(sb: SuperBlock, blocks: Disk, inodes: seq<Inode>, owner: Owner, i: nat, k: nat)
    requires Own(sb, blocks, inodes, owner) && i < |inodes| && k <= INDIRECT && Slot(blocks, inodes[i], k) != 0
    ensures sb.inodestart <= Slot(blocks, inodes[i], k) < |blocks|
  {
    hide Slot;
    hide Bit;
  }

  /** No block belongs to two slots. */
  lemma NoSharing(sb: SuperBlock, blocks: Disk, inodes: seq<Inode>, owner: Owner, i: nat, k: nat, j: nat, l: nat)
    requires Own(sb, blocks, inodes, owner)
    requires i < |inodes| && k <= INDIRECT && j < |inodes| && l <= INDIRECT
    requires Slot(blocks, inodes[i], k) == Slot(blocks, inodes[j], l) != 0
    ensures i == j && k == l
  {
  }

  /** The bit map marks exactly the metadata and what inodes reach. */
  lemma BitMapExact(sb: SuperBlock, blocks: Disk, inodes: seq<Inode>, owner: Owner, b: nat)
    requires Own(sb, blocks, inodes, owner) && b < sb.size
    ensures Bit(sb, blocks, b) <==>
            b < DataStart(sb) || exists i, k :: 0 <= i < |inodes| && 0 <= k <= INDIRECT && Slot(blocks, inodes[i], k) == b
  {
  }

  // ---------- what changes leave alone ----------

  /** No inode's indirect block differs. */
  ghost predicate IndirectsKept(blocks: Disk, blocks': Disk, inodes: seq<Inode>)
  {
    |blocks'| == |blocks| &&
    forall i :: 0 <= i < |inodes| && 0 < inodes[i].addrs[NDIRECT] < |blocks| ==>
      blocks'[inodes[i].addrs[NDIRECT]] == blocks[inodes[i].addrs[NDIRECT]]
  }

  ghost predicate SlotsKept(blocks: Disk, blocks': Disk, inodes: seq<Inode>)
  {
    forall i, k :: 0 <= i < |inodes| && 0 <= k <= INDIRECT ==> Slot(blocks', inodes[i], k) == Slot(blocks, inodes[i], k)
  }

  lemma KeptSlots(blocks: Disk, blocks': Disk, inodes: seq<Inode>)
    requires IndirectsKept(blocks, blocks', inodes)
    ensures SlotsKept(blocks, blocks', inodes)
  {
  }

  lemma IndirectOwned(sb: SuperBlock, blocks: Disk, inodes: seq<Inode>, owner: Owner, i: nat)
    requires Own(sb, blocks, inodes, owner) && i < |inodes| && inodes[i].addrs[NDIRECT] != 0
    ensures inodes[i].addrs[NDIRECT] in owner && owner[inodes[i].addrs[NDIRECT]] == (i, INDIRECT)
  {
  }

  lemma OwnTransfer(sb: SuperBlock, blocks: Disk, blocks': Disk, inodes: seq<Inode>, owner: Owner)
    requires Own(sb, blocks, inodes, owner) && |blocks'| == |blocks| && SlotsKept(blocks, blocks', inodes)
    requires forall b :: 0 <= b < sb.size ==> Bit(sb, blocks', b) == Bit(sb, blocks, b)
    ensures Own(sb, blocks', inodes, owner)
  {
    hide Slot;
    hide Bit;
  }

  /** Writing a block that is no indirect block, and no bit map block. */
  lemma WriteKeepsOwn(sb: SuperBlock, blocks: Disk, inodes: seq<Inode>, owner: Owner, n: nat, data: Block)
    requires Own(sb, blocks, inodes, owner) && n < |blocks|
    requires !(sb.bmapstart <= n < DataStart(sb)) && (n in owner ==> owner[n].1 != INDIRECT)
    ensures Own(sb, blocks[n := data], inodes, owner) && SlotsKept(blocks, blocks[n := data], inodes)
  {
    hide Slot;
    hide Bit;
    hide OwnersHold;
    hide SlotsOwn;
    hide BitsMark;
    hide SlotsKept;
    forall i | 0 <= i < |inodes| && 0 < inodes[i].addrs[NDIRECT] < |blocks|
      ensures inodes[i].addrs[NDIRECT] != n
    {
      IndirectOwned(sb, blocks, inodes, owner, i);
    }
    KeptSlots(blocks, blocks[n := data], inodes);
    BitsElsewhere(sb, blocks, n, data);
    OwnTransfer(sb, blocks, blocks[n := data], inodes, owner);
  }

  /** Only the bit map blocks hold bits. */
  lemma BitsElsewhere(sb: SuperBlock, blocks: Disk, n: nat, data: Block)
    requires n < |blocks| && !(sb.bmapstart <= n < DataStart(sb))
    ensures forall b :: 0 <= b < sb.size ==> Bit(sb, blocks[n := data], b) == Bit(sb, blocks, b)
  {
    hide BlockBit;
    hide BBlock;
    forall b | 0 <= b < sb.size
      ensures Bit(sb, blocks[n := data], b) == Bit(sb, blocks, b)
    {
      BBlockRange(sb, b);
    }
  }

  // ---------- allocation ----------

  /** The effect of balloc (fs.c:57-78): block `b` was free; its bit is set and it
      is zeroed, and nothing else changes. */
  ghost predicate Allocated(sb: SuperBlock, blocks: Disk, blocks': Disk, b: nat) {
    && GoodLayout(sb, |blocks|) && |blocks'| == |blocks| && b < sb.size
    && !Bit(sb, blocks, b)
    && blocks'[b] == ZeroBlock()
    && (forall n :: 0 <= n < |blocks| && n != b && n != BBlock(sb, b) ==> blocks'[n] == blocks[n])
    && (forall x :: 0 <= x < sb.size ==> Bit(sb, blocks', x) == (x == b || Bit(sb, blocks, x)))
  }

  lemma BBlockRange(sb: SuperBlock, b: nat)
    requires b < sb.size
    ensures sb.bmapstart <= BBlock(sb, b) < DataStart(sb)
  {
  }

  lemma AllocatedIsFresh(sb: SuperBlock, blocks: Disk, blocks': Disk, inodes: seq<Inode>, owner: Owner, b: nat)
    requires Own(sb, blocks, inodes, owner) && Allocated(sb, blocks, blocks', b)
    ensures DataStart(sb) <= b && b !in owner
    ensures forall x :: x in owner ==> 0 <= x < |blocks| && blocks'[x] == blocks[x]
    ensures forall n :: 0 <= n < sb.bmapstart ==> blocks'[n] == blocks[n]
  {
    hide Slot;
    hide Bit;
    BBlockRange(sb, b);
    hide BBlock;
  }

  lemma AllocationKeepsSlots(sb: SuperBlock, blocks: Disk, blocks': Disk, inodes: seq<Inode>, owner: Owner, b: nat)
    requires Own(sb, blocks, inodes, owner) && Allocated(sb, blocks, blocks', b)
    ensures SlotsKept(blocks, blocks', inodes)
  {
    hide Slot;
    hide Bit;
    hide BBlock;
    AllocatedIsFresh(sb, blocks, blocks', inodes, owner, b);
    forall i | 0 <= i < |inodes| && 0 < inodes[i].addrs[NDIRECT] < |blocks|
      ensures inodes[i].addrs[NDIRECT] in owner
    {
      IndirectOwned(sb, blocks, inodes, owner, i);
    }
    KeptSlots(blocks, blocks', inodes);
  }

  function WithAddr(ino: Inode, d: nat, b: Word32): Inode
    requires d <= NDIRECT
  {
    ino.(addrs := ino.addrs[d := b])
  }

  /** Putting one block into one slot that was empty. */
  lemma OwnGrows(sb: SuperBlock, blocks: Disk, blocks': Disk, inodes: seq<Inode>, inodes': seq<Inode>, owner: Owner, i: nat, k: nat, b: nat)
    requires Own(sb, blocks, inodes, owner) && |blocks'| == |blocks| && |inodes'| == |inodes|
    requires i < |inodes| && k <= INDIRECT && DataStart(sb) <= b < sb.size && b !in owner
    requires Slot(blocks, inodes[i], k) == 0 && Slot(blocks', inodes'[i], k) == b
    requires forall j, l :: 0 <= j < |inodes| && 0 <= l <= INDIRECT && (j, l) != (i, k) ==>
               Slot(blocks', inodes'[j], l) == Slot(blocks, inodes[j], l)
    requires forall x :: 0 <= x < sb.size ==> Bit(sb, blocks', x) == (x == b || Bit(sb, blocks, x))
    ensures Own(sb, blocks', inodes', owner[b := (i, k)])
  {
  }

  /** bmap storing a new block in ip->addrs (fs.c:379-380, 387-388). */
  lemma AssignAddr(sb: SuperBlock, blocks: Disk, blocks': Disk, inodes: seq<Inode>, owner: Owner, i: nat, d: nat, b: nat)
    requires Own(sb, blocks, inodes, owner) && Allocated(sb, blocks, blocks', b)
    requires i < |inodes| && d <= NDIRECT && inodes[i].addrs[d] == 0
    ensures
      var k := if d == NDIRECT then INDIRECT else d;
      && Own(sb, blocks', inodes[i := WithAddr(inodes[i], d, b)], owner[b := (i, k)])
      && OtherSlotsKept(blocks, blocks', inodes, inodes[i := WithAddr(inodes[i], d, b)], i, k)
  {
    hide Bit;
    AllocatedIsFresh(sb, blocks, blocks', inodes, owner, b);
    AllocationKeepsSlots(sb, blocks, blocks', inodes, owner, b);
    var k := if d == NDIRECT then INDIRECT else d;
    AddrSlots(blocks', inodes[i], d, b);
    hide Slot;
    OwnGrows(sb, blocks, blocks', inodes, inodes[i := WithAddr(inodes[i], d, b)], owner, i, k, b);
  }

  lemma AddrSlots(blocks: Disk, ino: Inode, d: nat, b: Word32)
    requires d <= NDIRECT && ino.addrs[d] == 0 && 0 < b < |blocks|
    requires d == NDIRECT ==> blocks[b] == ZeroBlock()
    ensures
      var k := if d == NDIRECT then INDIRECT else d;
      && Slot(blocks, ino, k) == 0 && Slot(blocks, WithAddr(ino, d, b), k) == b
      && forall l :: 0 <= l <= INDIRECT && l != k ==> Slot(blocks, WithAddr(ino, d, b), l) == Slot(blocks, ino, l)
  {
  }

  ghost predicate OtherSlotsKept(blocks: Disk, blocks': Disk, inodes: seq<Inode>, inodes': seq<Inode>, i: nat, k: nat) {
    |inodes'| == |inodes| &&
    forall j, l :: 0 <= j < |inodes| && 0 <= l <= INDIRECT && (j, l) != (i, k) ==>
      Slot(blocks', inodes'[j], l) == Slot(blocks, inodes[j], l)
  }

  /** bmap storing a new block in the indirect block (fs.c:391-393). */
  lemma AssignEntry(sb: SuperBlock, blocks: Disk, blocks': Disk, inodes: seq<Inode>, owner: Owner, i: nat, k: nat, b: nat)
    requires Own(sb, blocks, inodes, owner) && Allocated(sb, blocks, blocks', b)
    requires i < |inodes| && NDIRECT <= k < INDIRECT && Slot(blocks, inodes[i], k) == 0
    requires 0 < inodes[i].addrs[NDIRECT] < |blocks| && b < WORD_LIMIT
    ensures Own(sb, WithEntry(blocks', inodes[i], k, b), inodes, owner[b := (i, k)])
    ensures OtherSlotsKept(blocks, WithEntry(blocks', inodes[i], k, b), inodes, inodes, i, k)
    ensures Slot(WithEntry(blocks', inodes[i], k, b), inodes[i], k) == b
  {
    hide Bit;
    var ind := inodes[i].addrs[NDIRECT];
    var blocks'' := WithEntry(blocks', inodes[i], k, b);
    AllocatedIsFresh(sb, blocks, blocks', inodes, owner, b);
    AllocationKeepsSlots(sb, blocks, blocks', inodes, owner, b);
    IndirectOwned(sb, blocks, inodes, owner, i);
    EntrySlots(blocks', inodes[i], k, b);
    forall j | 0 <= j < |inodes| && j != i && 0 < inodes[j].addrs[NDIRECT] < |blocks|
      ensures inodes[j].addrs[NDIRECT] != ind
    {
      IndirectOwned(sb, blocks, inodes, owner, j);
    }
    KeptOtherSlots(blocks', inodes, i, PutWord(blocks'[ind], k - NDIRECT, b));
    hide Slot;
    forall x | 0 <= x < sb.size
      ensures Bit(sb, blocks'', x) == Bit(sb, blocks', x)
    {
      BitElsewhere(sb, blocks', ind, PutWord(blocks'[ind], k - NDIRECT, b), x);
    }
    OwnGrows(sb, blocks, blocks'', inodes, inodes, owner, i, k, b);
  }

  lemma BitElsewhere(sb: SuperBlock, blocks: Disk, n: nat, data: Block, x: nat)
    requires GoodLayout(sb, |blocks|) && DataStart(sb) <= n < |blocks| && x < sb.size
    ensures Bit(sb, blocks[n := data], x) == Bit(sb, blocks, x)
  {
    hide BlockBit;
  }

  /** Storing `b` in slot `k` of an inode, in its indirect block. */
  function WithEntry(blocks: Disk, ino: Inode, k: nat, b: Word32): Disk
    requires ino.addrs[NDIRECT] < |blocks| && NDIRECT <= k < INDIRECT
  {
    var ind := ino.addrs[NDIRECT];
    blocks[ind := PutWord(blocks[ind], k - NDIRECT, b)]
  }

  lemma EntrySlots(blocks: Disk, ino: Inode, k: nat, b: Word32)
    requires 0 < ino.addrs[NDIRECT] < |blocks| && NDIRECT <= k < INDIRECT
    ensures forall l :: 0 <= l <= INDIRECT ==> Slot(WithEntry(blocks, ino, k, b), ino, l) == if l == k then b else Slot(blocks, ino, l)
  {
    forall l | 0 <= l <= INDIRECT
      ensures Slot(WithEntry(blocks, ino, k, b), ino, l) == if l == k then b else Slot(blocks, ino, l)
    {
      if NDIRECT <= l < INDIRECT {
        PutWordRoundTrip(blocks[ino.addrs[NDIRECT]], k - NDIRECT, b, l - NDIRECT);
      }
    }
  }

  lemma KeptOtherSlots(blocks: Disk, inodes: seq<Inode>, i: nat, data: Block)
    requires i < |inodes| && inodes[i].addrs[NDIRECT] < |blocks|
    requires forall j :: 0 <= j < |inodes| && j != i && 0 < inodes[j].addrs[NDIRECT] < |blocks| ==> inodes[j].addrs[NDIRECT] != inodes[i].addrs[NDIRECT]
    ensures forall j, l :: 0 <= j < |inodes| && j != i && 0 <= l <= INDIRECT ==>
              Slot(blocks[inodes[i].addrs[NDIRECT] := data], inodes[j], l) == Slot(blocks, inodes[j], l)
  {
    hide WordAt;
  }

  // ---------- bit map updates ----------

  /** Setting or clearing the bit of block `b` (fs.c:68, 92). */
  function WithBit(sb: SuperBlock, blocks: Disk, b: nat, on: bool): Disk
    requires BBlock(sb, b) < |blocks|
  {
    blocks[BBlock(sb, b) := PutBlockBit(blocks[BBlock(sb, b)], b % BPB, on)]
  }

  lemma WithBitAt(sb: SuperBlock, blocks: Disk, b: nat, on: bool, x: nat)
    requires BBlock(sb, b) < |blocks|
    ensures Bit(sb, WithBit(sb, blocks, b, on), x) == if x == b then on else Bit(sb, blocks, x)
  {
    if BBlock(sb, x) == BBlock(sb, b) {
      PutBlockBitAt(blocks[BBlock(sb, b)], b % BPB, on, x % BPB);
    }
  }

  lemma MarkAllocated(sb: SuperBlock, blocks: Disk, b: nat)
    requires GoodLayout(sb, |blocks|) && DataStart(sb) <= b < sb.size && !Bit(sb, blocks, b) && BBlock(sb, b) < |blocks|
    ensures Allocated(sb, blocks, WithBit(sb, blocks, b, true)[b := ZeroBlock()], b)
  {
    BBlockRange(sb, b);
    var blocks' := WithBit(sb, blocks, b, true)[b := ZeroBlock()];
    forall x | 0 <= x < sb.size
      ensures Bit(sb, blocks', x) == (x == b || Bit(sb, blocks, x))
    {
      WithBitAt(sb, blocks, b, true, x);
      BitElsewhere(sb, WithBit(sb, blocks, b, true), b, ZeroBlock(), x);
    }
    hide Bit;
  }

  // ---------- how many blocks are left ----------

  ghost function Capacity(sb: SuperBlock): int {
    sb.size - DataStart(sb)
  }

  ghost predicate Full(sb: SuperBlock, blocks: Disk) {
    forall x :: 0 <= x < sb.size ==> Bit(sb, blocks, x)
  }

  ghost function From(lo: nat, hi: nat): (ns: set<nat>)
    requires lo <= hi
    ensures |ns| == hi - lo && forall n :: n in ns <==> lo <= n < hi
  {
    if lo == hi then {} else From(lo, hi - 1) + {hi - 1}
  }

  /** All bits are set exactly if the owned blocks are as many as there are data blocks. */
  lemma FullCount(sb: SuperBlock, blocks: Disk, inodes: seq<Inode>, owner: Owner)
    requires Own(sb, blocks, inodes, owner)
    ensures |owner| <= Capacity(sb) && (|owner| == Capacity(sb) <==> Full(sb, blocks))
  {
    hide Slot;
    hide Bit;
    var all := From(DataStart(sb), sb.size);
    Within(owner.Keys, all);
    assert |owner| == |owner.Keys|;
    if Full(sb, blocks) {
      assert owner.Keys == all;
    }
  }

  /** Those of the slots `ks` that have no block. */
  ghost function Lacks(blocks: Disk, ino: Inode, ks: set<nat>): set<nat> {
    set k | k in ks && k <= INDIRECT && Slot(blocks, ino, k) == 0
  }

  ghost predicate HasRoom(sb: SuperBlock, blocks: Disk, ino: Inode, owner: Owner, ks: set<nat>) {
    |owner| + |Lacks(blocks, ino, ks)| <= Capacity(sb)
  }

  /** The slots `ks` that were empty have been filled, with one block each, and no other slot
      of the inode has. */
  ghost predicate Took(blocks: Disk, ino: Inode, owner: Owner, blocks': Disk, ino': Inode, owner': Owner, ks: set<nat>) {
    && (forall k :: 0 <= k <= INDIRECT ==> (Slot(blocks', ino', k) == 0 <==> Slot(blocks, ino, k) == 0 && k !in ks))
    && |owner'| == |owner| + |Lacks(blocks, ino, ks)|
  }

  /** What was taken later adds up, and the room for it was there from the start. */
  lemma TookThen(sb: SuperBlock, b0: Disk, n0: Inode, o0: Owner, b1: Disk, n1: Inode, o1: Owner, ks: set<nat>, ls: set<nat>)
    requires Took(b0, n0, o0, b1, n1, o1, ks)
    ensures HasRoom(sb, b0, n0, o0, ks + ls) <==> HasRoom(sb, b1, n1, o1, ls)
    ensures forall b2, n2, o2 :: Took(b1, n1, o1, b2, n2, o2, ls) ==> Took(b0, n0, o0, b2, n2, o2, ks + ls)
  {
    hide Slot;
    assert Lacks(b0, n0, ks + ls) == Lacks(b0, n0, ks) + Lacks(b1, n1, ls);
  }

  lemma TookKept(b0: Disk, n0: Inode, o0: Owner, b1: Disk, inodes: seq<Inode>, i: nat, o1: Owner, ks: set<nat>, b2: Disk)
    requires i < |inodes| && Took(b0, n0, o0, b1, inodes[i], o1, ks) && SlotsKept(b1, b2, inodes)
    ensures Took(b0, n0, o0, b2, inodes[i], o1, ks)
  {
    hide Slot;
  }

  lemma TookSameAddrs(b0: Disk, n0: Inode, o0: Owner, b1: Disk, n1: Inode, o1: Owner, ks: set<nat>, n2: Inode)
    requires Took(b0, n0, o0, b1, n1, o1, ks) && n2.addrs == n1.addrs
    ensures Took(b0, n0, o0, b1, n2, o1, ks)
  {
    assert forall k :: 0 <= k <= INDIRECT ==> Slot(b1, n2, k) == Slot(b1, n1, k);
  }

  lemma LessRoom(sb: SuperBlock, blocks: Disk, ino: Inode, owner: Owner, ks: set<nat>, ls: set<nat>)
    requires ks <= ls && HasRoom(sb, blocks, ino, owner, ls)
    ensures HasRoom(sb, blocks, ino, owner, ks)
  {
    hide Slot;
    Within(Lacks(blocks, ino, ks), Lacks(blocks, ino, ls));
  }

  lemma TookNone(sb: SuperBlock, blocks: Disk, inodes: seq<Inode>, owner: Owner, i: nat, ks: set<nat>)
    requires Own(sb, blocks, inodes, owner) && i < |inodes|
    requires forall k :: k in ks && k <= INDIRECT ==> Slot(blocks, inodes[i], k) != 0
    ensures Took(blocks, inodes[i], owner, blocks, inodes[i], owner, ks) && HasRoom(sb, blocks, inodes[i], owner, ks)
  {
    FullCount(sb, blocks, inodes, owner);
    assert Lacks(blocks, inodes[i], ks) == {};
  }

  lemma TookOne(sb: SuperBlock, blocks: Disk, inodes: seq<Inode>, owner: Owner, blocks': Disk, inodes': seq<Inode>, i: nat, k: nat, b: nat)
    requires Own(sb, blocks, inodes, owner) && i < |inodes| && k <= INDIRECT && Slot(blocks, inodes[i], k) == 0 && b !in owner && b != 0
    requires OtherSlotsKept(blocks, blocks', inodes, inodes', i, k) && Slot(blocks', inodes'[i], k) == b
    ensures Took(blocks, inodes[i], owner, blocks', inodes'[i], owner[b := (i, k)], {k})
  {
    hide Slot;
    assert Lacks(blocks, inodes[i], {k}) == {k};
    assert owner[b := (i, k)].Keys == owner.Keys + {b};
    assert |owner[b := (i, k)]| == |owner[b := (i, k)].Keys| && |owner| == |owner.Keys|;
  }

  /** There is room for one more block exactly if balloc finds one. */
  lemma RoomForOne(sb: SuperBlock, blocks: Disk, inodes: seq<Inode>, owner: Owner, i: nat, k: nat)
    requires Own(sb, blocks, inodes, owner) && i < |inodes| && k <= INDIRECT && Slot(blocks, inodes[i], k) == 0
    ensures HasRoom(sb, blocks, inodes[i], owner, {k}) <==> !Full(sb, blocks)
  {
    hide Slot;
    FullCount(sb, blocks, inodes, owner);
    assert Lacks(blocks, inodes[i], {k}) == {k};
  }

  /** The slots that bmap fills for block `bn` of a file. */
  ghost function Needs(bn: nat): set<nat> {
    if bn < NDIRECT then {bn} else {INDIRECT, bn}
  }

  /** Inode `i` has gained blocks and nothing else has changed: all blocks keep
      their slots, all data and all inodes on disk are as before. */
  ghost predicate Grown(sb: SuperBlock, blocks: Disk, inodes: seq<Inode>, owner: Owner,
                        blocks': Disk, inodes': seq<Inode>, owner': Owner, i: nat) {
    && |blocks'| == |blocks| && |inodes'| == |inodes| && i < |inodes|
    && (forall j :: 0 <= j < |inodes| && j != i ==> inodes'[j] == inodes[j])
    && inodes'[i] == inodes[i].(addrs := inodes'[i].addrs)
    && (forall x :: x in owner ==> x in owner' && owner'[x] == owner[x])
    && (forall x :: x in owner && owner[x].1 != INDIRECT && x < |blocks| ==> blocks'[x] == blocks[x])
    && (forall n :: 0 <= n < sb.bmapstart && n < |blocks| ==> blocks'[n] == blocks[n])
  }

  lemma GrownSize(sb: SuperBlock, blocks: Disk, inodes: seq<Inode>, owner: Owner, blocks': Disk, inodes': seq<Inode>, owner': Owner, i: nat)
    requires Grown(sb, blocks, inodes, owner, blocks', inodes', owner', i)
    ensures |blocks'| == |blocks| && |inodes'| == |inodes|
  {
  }

  lemma GrownNone(sb: SuperBlock, blocks: Disk, inodes: seq<Inode>, owner: Owner, i: nat)
    requires i < |inodes|
    ensures Grown(sb, blocks, inodes, owner, blocks, inodes, owner, i)
  {
  }

  lemma GrownTrans(sb: SuperBlock, b0: Disk, i0: seq<Inode>, o0: Owner, b1: Disk, i1: seq<Inode>, o1: Owner, b2: Disk, i2: seq<Inode>, o2: Owner, i: nat)
    requires Grown(sb, b0, i0, o0, b1, i1, o1, i) && Grown(sb, b1, i1, o1, b2, i2, o2, i)
    ensures Grown(sb, b0, i0, o0, b2, i2, o2, i)
  {
  }

  lemma GrownAddr(sb: SuperBlock, blocks: Disk, blocks': Disk, inodes: seq<Inode>, owner: Owner, i: nat, d: nat, b: Word32, k: nat)
    requires Own(sb, blocks, inodes, owner) && Allocated(sb, blocks, blocks', b) && i < |inodes| && d <= NDIRECT
    ensures Grown(sb, blocks, inodes, owner, blocks', inodes[i := WithAddr(inodes[i], d, b)], owner[b := (i, k)], i)
  {
    hide Own;
    hide Allocated;
    AllocatedIsFresh(sb, blocks, blocks', inodes, owner, b);
    AllocatedSize(sb, blocks, blocks', b);
  }

  lemma AllocatedSize(sb: SuperBlock, blocks: Disk, blocks': Disk, b: nat)
    requires Allocated(sb, blocks, blocks', b)
    ensures |blocks'| == |blocks| && GoodLayout(sb, |blocks|)
  {
  }

  lemma AllocatedHere(sb: SuperBlock, blocks: Disk, blocks': Disk, b: nat)
    requires Allocated(sb, blocks, blocks', b)
    ensures b < sb.size && b < |blocks'| && blocks'[b] == ZeroBlock()
  {
  }

  lemma GrownEntry(sb: SuperBlock, blocks: Disk, blocks': Disk, inodes: seq<Inode>, owner: Owner, i: nat, k: nat, b: Word32)
    requires Own(sb, blocks, inodes, owner) && Allocated(sb, blocks, blocks', b) && i < |inodes|
    requires NDIRECT <= k < INDIRECT && 0 < inodes[i].addrs[NDIRECT] < |blocks'|
    ensures Grown(sb, blocks, inodes, owner, WithEntry(blocks', inodes[i], k, b), inodes, owner[b := (i, k)], i)
  {
    hide Allocated;
    hide Bit;
    hide Slot;
    IndirectOwned(sb, blocks, inodes, owner, i);
    AllocatedIsFresh(sb, blocks, blocks', inodes, owner, b);
    AllocatedSize(sb, blocks, blocks', b);
  }

  /** The logging done by bmap for slot `bn` of an inode that was `ino`, is now
      `ino'`, and has block `addr` there: the block itself, `maps` and perhaps the
      indirect block. */
  ghost predicate BmapLogged(logged: set<nat>, logged': set<nat>, wasEmpty: bool, ino: Inode, ino': Inode, bn: nat, addr: nat, maps: set<nat>) {
    && logged' <= logged + {addr} + maps + (if bn < NDIRECT then {} else {ino'.addrs[NDIRECT]})
    && |maps| <= (if wasEmpty then 1 else 0) + (if ino.addrs[NDIRECT] == 0 < ino'.addrs[NDIRECT] then 1 else 0)
    && (ino.addrs[NDIRECT] != 0 ==> ino'.addrs[NDIRECT] == ino.addrs[NDIRECT])
    && (bn >= NDIRECT ==> ino'.addrs[NDIRECT] != 0)
  }

  lemma BmapLoggedTwice(l0: set<nat>, l1: set<nat>, l2: set<nat>, newInd: bool, newEntry: bool,
                        ino: Inode, ino': Inode, bn: nat, addr: nat, m1: nat, m2: nat)
    requires NDIRECT <= bn && ino'.addrs[NDIRECT] != 0 && (newInd <==> ino.addrs[NDIRECT] == 0)
    requires !newInd ==> l1 == l0 && ino'.addrs[NDIRECT] == ino.addrs[NDIRECT]
    requires newInd ==> l1 == l0 + {m1, ino'.addrs[NDIRECT]}
    requires l2 == if newEntry then l1 + {m2, addr, ino'.addrs[NDIRECT]} else l1
    ensures BmapLogged(l0, l2, newEntry, ino, ino', bn, addr, (if newInd then {m1} else {}) + (if newEntry then {m2} else {}))
  {
  }

  lemma NoIndirectNoEntry(blocks: Disk, ino: Inode, k: nat)
    requires NDIRECT <= k < INDIRECT && ino.addrs[NDIRECT] == 0
    ensures Slot(blocks, ino, k) == 0
  {
  }

  /** The blocks logged by `chunks` turns of the loop of writei, `made` of which
      allocated a data block: data blocks, bit map blocks, and the indirect block. */
  ghost predicate WriteLogged(logged: set<nat>, logged': set<nat>, ino: Inode, ino': Inode, data: set<nat>, maps: set<nat>, chunks: nat, made: nat) {
    && logged' <= logged + data + maps + (if ino'.addrs[NDIRECT] == 0 then {} else {ino'.addrs[NDIRECT]})
    && |data| <= chunks
    && |maps| <= made + (if ino.addrs[NDIRECT] == 0 < ino'.addrs[NDIRECT] then 1 else 0)
    && (ino.addrs[NDIRECT] != 0 ==> ino'.addrs[NDIRECT] == ino.addrs[NDIRECT])
  }

  lemma WriteLoggedStep(l0: set<nat>, l1: set<nat>, l2: set<nat>, ino0: Inode, ino1: Inode, ino2: Inode, data: set<nat>, maps: set<nat>,
                        chunks: nat, made: nat, wasEmpty: bool, bn: nat, addr: nat, more: set<nat>)
    requires WriteLogged(l0, l1, ino0, ino1, data, maps, chunks, made)
    requires BmapLogged(l1, l2, wasEmpty, ino1, ino2, bn, addr, more)
    ensures WriteLogged(l0, l2 + {addr}, ino0, ino2, data + {addr}, maps + more, chunks + 1, made + if wasEmpty then 1 else 0)
  {
  }

  lemma TurnLogged(l0: set<nat>, l1: set<nat>, l2: set<nat>, ino0: Inode, ino1: Inode, ino2: Inode, data: set<nat>, maps: set<nat>, chunks: nat, made: nat,
                   wasEmpty: bool, bn: nat, addr: nat, more: set<nat>)
    requires WriteLogged(l0, l1, ino0, ino1, data, maps, chunks, made)
    requires exists l :: BmapLogged(l1, l, wasEmpty, ino1, ino2, bn, addr, more) && l2 == l + {addr}
    ensures WriteLogged(l0, l2, ino0, ino2, data + {addr}, maps + more, chunks + 1, made + if wasEmpty then 1 else 0)
  {
    var l :| BmapLogged(l1, l, wasEmpty, ino1, ino2, bn, addr, more) && l2 == l + {addr};
    WriteLoggedStep(l0, l1, l, ino0, ino1, ino2, data, maps, chunks, made, wasEmpty, bn, addr, more);
  }

  lemma UnionSize(x: set<nat>, y: set<nat>)
    ensures |x + y| <= |x| + |y|
  {
  }

  lemma WriteLoggedNothing(logged: set<nat>, ino: Inode)
    ensures WriteLogged(logged, logged, ino, ino, {}, {}, 0, 0)
  {
  }

  lemma OwnSameAddrs(sb: SuperBlock, blocks: Disk, inodes: seq<Inode>, owner: Owner, i: nat, ino: Inode)
    requires Own(sb, blocks, inodes, owner) && i < |inodes| && ino.addrs == inodes[i].addrs
    ensures Own(sb, blocks, inodes[i := ino], owner)
  {
    hide WordAt;
    hide Bit;
    forall k | 0 <= k <= INDIRECT
      ensures Slot(blocks, ino, k) == Slot(blocks, inodes[i], k)
    {
    }
    hide Slot;
  }

  /** A bound on the blocks of a whole write, with its inode block. */
  lemma WriteLoggedTotal(l0: set<nat>, l: set<nat>, ino: Inode, ino': Inode, data: set<nat>, maps: set<nat>, chunks: nat, made: nat, inodeBlock: nat)
    returns (touched: set<nat>)
    requires WriteLogged(l0, l, ino, ino', data, maps, chunks, made)
    ensures l + {inodeBlock} <= l0 + touched && |touched| <= chunks + made + 3
  {
    var ind := if ino'.addrs[NDIRECT] == 0 then {} else {ino'.addrs[NDIRECT]};
    var rest := {inodeBlock} + ind;
    UnionSize({inodeBlock}, ind);
    UnionSize(data, maps);
    UnionSize(data + maps, rest);
    touched := data + maps + rest;
  }

  // ---------- freeing ----------

  /** Only bit map blocks differ. */
  ghost predicate OnlyMaps(sb: SuperBlock, blocks: Disk, blocks': Disk) {
    |blocks'| == |blocks| && forall n :: 0 <= n < |blocks| && !(sb.bmapstart <= n < DataStart(sb)) ==> blocks'[n] == blocks[n]
  }

  lemma OnlyMapsKeepsSlots(sb: SuperBlock, blocks: Disk, blocks': Disk, inodes: seq<Inode>, owner: Owner)
    requires Own(sb, blocks, inodes, owner) && OnlyMaps(sb, blocks, blocks')
    ensures SlotsKept(blocks, blocks', inodes)
  {
    hide Slot;
    hide Bit;
    forall i | 0 <= i < |inodes| && 0 < inodes[i].addrs[NDIRECT] < |blocks|
      ensures DataStart(sb) <= inodes[i].addrs[NDIRECT]
    {
      IndirectOwned(sb, blocks, inodes, owner, i);
    }
    KeptSlots(blocks, blocks', inodes);
  }

  /** The blocks in slots lo..hi of inode `i`. */
  ghost function SlotBlocks(owner: Owner, i: nat, lo: nat, hi: nat): set<nat> {
    set b | b in owner && owner[b].0 == i && lo <= owner[b].1 < hi
  }

  /** Giving up the blocks `dropped`: their slots become empty and their bits clear. */
  lemma OwnDrops(sb: SuperBlock, blocks: Disk, blocks': Disk, inodes: seq<Inode>, inodes': seq<Inode>, owner: Owner, dropped: set<nat>)
    requires Own(sb, blocks, inodes, owner) && |blocks'| == |blocks| && |inodes'| == |inodes|
    requires forall j, l :: 0 <= j < |inodes| && 0 <= l <= INDIRECT ==>
               Slot(blocks', inodes'[j], l) == if Slot(blocks, inodes[j], l) in dropped then 0 else Slot(blocks, inodes[j], l)
    requires forall b :: 0 <= b < sb.size ==> Bit(sb, blocks', b) == (Bit(sb, blocks, b) && b !in dropped)
    requires dropped <= owner.Keys
    ensures Own(sb, blocks', inodes', owner - dropped)
  {
  }

  /** Clearing a direct address whose block has been freed (fs.c:416-417). */
  lemma DropAddr(sb: SuperBlock, blocks: Disk, blocks': Disk, inodes: seq<Inode>, owner: Owner, i: nat, d: nat)
    requires Own(sb, blocks, inodes, owner) && i < |inodes| && d < NDIRECT && inodes[i].addrs[d] != 0
    requires OnlyMaps(sb, blocks, blocks')
    requires forall b :: 0 <= b < sb.size ==> Bit(sb, blocks', b) == (Bit(sb, blocks, b) && b != inodes[i].addrs[d])
    ensures Own(sb, blocks', inodes[i := WithAddr(inodes[i], d, 0)], owner - {inodes[i].addrs[d]})
    ensures inodes[i].addrs[d] in owner && owner[inodes[i].addrs[d]] == (i, d)
  {
    hide Bit;
    var x := inodes[i].addrs[d];
    assert Slot(blocks, inodes[i], d) == x;
    OnlyMapsKeepsSlots(sb, blocks, blocks', inodes, owner);
    var inodes' := inodes[i := WithAddr(inodes[i], d, 0)];
    DirectSlots(blocks', inodes[i], d);
    hide Slot;
    forall j, l | 0 <= j < |inodes| && 0 <= l <= INDIRECT
      ensures Slot(blocks', inodes'[j], l) == if Slot(blocks, inodes[j], l) == x then 0 else Slot(blocks, inodes[j], l)
    {
      assert Slot(blocks', inodes[j], l) == Slot(blocks, inodes[j], l);
      assert Slot(blocks, inodes[j], l) == x ==> (j, l) == (i, d);
    }
    OwnDrops(sb, blocks, blocks', inodes, inodes', owner, {x});
  }

  lemma DirectSlots(blocks: Disk, ino: Inode, d: nat)
    requires d < NDIRECT
    ensures forall l :: 0 <= l <= INDIRECT ==> Slot(blocks, WithAddr(ino, d, 0), l) == if l == d then 0 else Slot(blocks, ino, l)
  {
    hide WordAt;
  }

  /** Clearing the indirect address once its entries and the block itself have been
      freed (fs.c:422-430). */
  lemma DropIndirect(sb: SuperBlock, blocks: Disk, blocks': Disk, inodes: seq<Inode>, owner: Owner, i: nat)
    requires Own(sb, blocks, inodes, owner) && i < |inodes| && OnlyMaps(sb, blocks, blocks')
    requires forall b :: 0 <= b < sb.size ==> Bit(sb, blocks', b) == (Bit(sb, blocks, b) && b !in SlotBlocks(owner, i, NDIRECT, INDIRECT + 1))
    ensures Own(sb, blocks', inodes[i := WithAddr(inodes[i], NDIRECT, 0)], owner - SlotBlocks(owner, i, NDIRECT, INDIRECT + 1))
  {
    hide Bit;
    OnlyMapsKeepsSlots(sb, blocks, blocks', inodes, owner);
    var inodes' := inodes[i := WithAddr(inodes[i], NDIRECT, 0)];
    var dropped := SlotBlocks(owner, i, NDIRECT, INDIRECT + 1);
    NoIndirectSlots(blocks', inodes[i]);
    hide Slot;
    assert DataStart(sb) > 0;
    forall j, l | 0 <= j < |inodes| && 0 <= l <= INDIRECT
      ensures Slot(blocks', inodes'[j], l) == if Slot(blocks, inodes[j], l) in dropped then 0 else Slot(blocks, inodes[j], l)
    {
      assert Slot(blocks', inodes[j], l) == Slot(blocks, inodes[j], l);
    }
    OwnDrops(sb, blocks, blocks', inodes, inodes', owner, dropped);
  }

  lemma NoIndirectSlots(blocks: Disk, ino: Inode)
    ensures forall l :: 0 <= l <= INDIRECT ==> Slot(blocks, WithAddr(ino, NDIRECT, 0), l) == if l >= NDIRECT then 0 else Slot(blocks, ino, l)
  {
    hide WordAt;
  }
}

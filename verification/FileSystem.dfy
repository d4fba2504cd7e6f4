/** Block allocation, block mapping and file contents (fs.c).

    `blocks` is what bread returns and log_write changes: the flat disk that the
    buffer cache presents.  The functions run under the inode's lock, one at a
    time.  `inodes` are the in-memory inodes by number. */
module FileSystem {
  import opened Blocks
  import opened Options
  import opened FsLayout
  import opened FsSpec
  import opened FsBytes

  const T_DEV := 3

  /** How readi and writei end: in a panic, in the device switch, with -1, or with
      a byte count. */
  datatype Io = Panic | ToDevice | Fail | Count(n: nat)

  /** What writei accepts (fs.c:493-496): no hole, no 32-bit overflow, no more than
      a file can hold. */
  predicate Fits(size: nat, off: nat, n: nat) {
    off <= size && off + n < WORD_LIMIT && off + n <= MAXBYTES
  }

  class FileSystem {
    const sb: SuperBlock
    var blocks: Disk
    var inodes: seq<Inode>
    ghost var owner: Owner
    ghost var base: Disk          // `blocks` when the transaction began
    ghost var logged: set<nat>    // blocks passed to log_write since then
    var writes: seq<Logged>       // and with what data, in order

    ghost predicate Valid()
      reads this
    {
      Own(sb, blocks, inodes, owner)
    }

    ghost predicate Tracked()
      reads this
    {
      Traced(sb, base, blocks, logged, writes)
    }

    constructor (sb: SuperBlock, blocks: Disk, inodes: seq<Inode>, ghost owner: Owner)
      requires Own(sb, blocks, inodes, owner)
      ensures Valid() && Tracked() && this.sb == sb && this.blocks == blocks && this.inodes == inodes && this.owner == owner && logged == {}
    {
      this.sb, this.blocks, this.inodes := sb, blocks, inodes;
      this.owner, base, logged, writes := owner, blocks, {}, [];
    }

    /** A transaction begins: nothing has been logged for it. */
    method Begin()
      modifies `base, `logged, `writes
      ensures Tracked() && base == blocks && logged == {}
    {
      base, logged, writes := blocks, {}, [];
    }

    /** bread, store, log_write, brelse. */
    method Update(n: nat, data: Block)
      requires sb.inodestart <= n < |blocks|
      requires Tracked()
      modifies `blocks, `logged, `writes
      ensures Tracked()
      ensures blocks == old(blocks)[n := data] && logged == old(logged) + {n}
    {
      blocks := blocks[n := data];
      logged := logged + {n};
      writes := writes + [Logged(n, data)];
    }

    /** The search of balloc (fs.c:63-76): the first block whose bit is clear. */
    method FindFree() returns (r: Option<nat>)
      requires GoodLayout(sb, |blocks|)
      ensures r.Some? ==> r.value < sb.size && !Bit(sb, blocks, r.value) && forall x :: 0 <= x < r.value ==> Bit(sb, blocks, x)
      ensures r.None? ==> forall x :: 0 <= x < sb.size ==> Bit(sb, blocks, x)
    {
      hide Bit;
      hide BlockBit;
      hide BBlock;
      var b := 0;
      while b < sb.size
        invariant b % BPB == 0 && forall x :: 0 <= x < b && x < sb.size ==> Bit(sb, blocks, x)
      {
        BBlockRange(sb, b);
        var bp := blocks[BBlock(sb, b)];
        var bi := 0;
        while bi < BPB && b + bi < sb.size
          invariant 0 <= bi <= BPB && forall x :: 0 <= x < b + bi && x < sb.size ==> Bit(sb, blocks, x)
        {
          BitAt(sb, blocks, b, bi);
          if !BlockBit(bp, bi) {
            return Some(b + bi);
          }
          bi := bi + 1;
        }
        b := b + BPB;
      }
      return None;
    }

    /** The bit map block read at `b` has the bits of the BPB blocks from there on. */
    static lemma BitAt(sb: SuperBlock, blocks: Disk, b: nat, bi: nat)
      requires b % BPB == 0 && bi < BPB && BBlock(sb, b) < |blocks|
      ensures Bit(sb, blocks, b + bi) <==> BlockBit(blocks[BBlock(sb, b)], bi)
    {
    }

    /** balloc (fs.c:57-78).  None is the panic "out of blocks". */
    method Balloc() returns (r: Option<nat>)
      requires Valid()
      requires Tracked()
      modifies `blocks, `logged, `writes
      ensures Tracked()
      ensures r.None? <==> Full(sb, old(blocks))
      ensures r.None? ==> blocks == old(blocks)
      ensures r.Some? ==> Allocated(sb, old(blocks), blocks, r.value) && r.value != 0
      ensures r.Some? ==> logged == old(logged) + {BBlock(sb, r.value), r.value}
    {
      hide Traced;
      hide Slot;
      hide BlockBit;
      r := FindFree();
      if r.Some? {
        var b := r.value;
        BBlockRange(sb, b);
        MarkAllocated(sb, blocks, b);
        Update(BBlock(sb, b), PutBlockBit(blocks[BBlock(sb, b)], b % BPB, true));
        Update(b, ZeroBlock());
      }
    }

    /** bfree (fs.c:81-95); `ok` is false on the panic "freeing free block". */
    method Bfree(b: nat) returns (ok: bool)
      requires GoodLayout(sb, |blocks|) && b < sb.size
      requires Tracked()
      modifies `blocks, `logged, `writes
      ensures Tracked()
      ensures ok <==> Bit(sb, old(blocks), b)
      ensures ok ==> BBlock(sb, b) < |old(blocks)| && blocks == WithBit(sb, old(blocks), b, false) && logged == old(logged) + {BBlock(sb, b)}
      ensures !ok ==> blocks == old(blocks)
    {
      hide Traced;
      BBlockRange(sb, b);
      var bp := blocks[BBlock(sb, b)];
      if !BlockBit(bp, b % BPB) {
        return false;
      }
      Update(BBlock(sb, b), PutBlockBit(bp, b % BPB, false));
      return true;
    }

    /** The address in entry `d` of an inode, which gets a new block if it has none
        (fs.c:379-380, 387-388). */
    method AllocAddr(i: nat, d: nat) returns (r: Option<nat>)
      requires Valid() && i < |inodes| && d <= NDIRECT
      requires Tracked()
      modifies `blocks, `inodes, `owner, `logged, `writes
      ensures Tracked()
      ensures r.Some? ==> Valid() && Grown(sb, old(blocks), old(inodes), old(owner), blocks, inodes, owner, i)
      ensures r.Some? ==> 0 < r.value < WORD_LIMIT && inodes[i] == WithAddr(old(inodes)[i], d, r.value)
      ensures old(inodes)[i].addrs[d] != 0 ==>
                r.Some? && blocks == old(blocks) && inodes == old(inodes) && owner == old(owner) && logged == old(logged)
      ensures r.Some? && old(inodes)[i].addrs[d] == 0 ==>
                && Allocated(sb, old(blocks), blocks, r.value)
                && logged == old(logged) + {BBlock(sb, r.value), r.value}
      ensures var k := if d == NDIRECT then INDIRECT else d;
              && (r.Some? <==> HasRoom(sb, old(blocks), old(inodes)[i], old(owner), {k}))
              && (r.Some? ==> Took(old(blocks), old(inodes)[i], old(owner), blocks, inodes[i], owner, {k}))
      ensures r.None? ==> Full(sb, blocks) && blocks == old(blocks) && inodes == old(inodes) && owner == old(owner)
    {
      hide Traced;
      hide BBlock;
      hide Full;
      hide Grown;
      hide Allocated;
      hide Bit;
      hide HasRoom;
      hide Took;
      ghost var k := if d == NDIRECT then INDIRECT else d;
      var addr := inodes[i].addrs[d];
      assert Slot(blocks, inodes[i], k) == addr;
      hide Slot;
      if addr != 0 {
        assert inodes[i] == WithAddr(inodes[i], d, addr);
        TookNone(sb, blocks, inodes, owner, i, {k});
        GrownNone(sb, blocks, inodes, owner, i);
        return Some(addr);
      }
      RoomForOne(sb, blocks, inodes, owner, i, k);
      r := Balloc();
      if r.Some? {
        AllocatedSize(sb, old(blocks), blocks, r.value);
        AllocatedHere(sb, old(blocks), blocks, r.value);
        AllocatedIsFresh(sb, old(blocks), blocks, inodes, owner, r.value);
        GrownAddr(sb, old(blocks), blocks, inodes, owner, i, d, r.value, k);
        AssignAddr(sb, old(blocks), blocks, inodes, owner, i, d, r.value);
        AddrSlots(blocks, inodes[i], d, r.value);
        inodes := inodes[i := WithAddr(inodes[i], d, r.value)];
        TookOne(sb, old(blocks), old(inodes), owner, blocks, inodes, i, k, r.value);
        owner := owner[r.value := (i, k)];
      }
    }

    /** The same for slot `k`, which is in the indirect block (fs.c:389-395). */
    method AllocEntry(i: nat, k: nat) returns (r: Option<nat>)
      requires Valid() && i < |inodes| && NDIRECT <= k < INDIRECT && inodes[i].addrs[NDIRECT] != 0
      requires Tracked()
      modifies `blocks, `owner, `logged, `writes
      ensures Tracked()
      ensures r.Some? ==> Valid() && Grown(sb, old(blocks), inodes, old(owner), blocks, inodes, owner, i)
      ensures r.Some? ==> Slot(blocks, inodes[i], k) == r.value != 0
      ensures Slot(old(blocks), inodes[i], k) != 0 ==>
                r.Some? && blocks == old(blocks) && owner == old(owner) && logged == old(logged)
      ensures r.Some? && Slot(old(blocks), inodes[i], k) == 0 ==>
                logged == old(logged) + {BBlock(sb, r.value), r.value, inodes[i].addrs[NDIRECT]}
      ensures r.Some? <==> HasRoom(sb, old(blocks), inodes[i], old(owner), {k})
      ensures r.Some? ==> Took(old(blocks), inodes[i], old(owner), blocks, inodes[i], owner, {k})
      ensures r.None? ==> Full(sb, blocks)
    {
      hide Traced;
      hide Bit;
      hide Slot;
      hide HasRoom;
      hide Took;
      hide Full;
      hide Grown;
      hide Allocated;
      var ind := inodes[i].addrs[NDIRECT];
      IndirectOwned(sb, blocks, inodes, owner, i);
      IndirectSlot(blocks, inodes[i], k);
      var addr := WordAt(blocks[ind], k - NDIRECT);
      if addr != 0 {
        TookNone(sb, blocks, inodes, owner, i, {k});
        GrownNone(sb, blocks, inodes, owner, i);
        return Some(addr);
      }
      RoomForOne(sb, blocks, inodes, owner, i, k);
      r := Balloc();
      if r.Some? {
        AllocatedSize(sb, old(blocks), blocks, r.value);
        AllocatedHere(sb, old(blocks), blocks, r.value);
        AllocatedIsFresh(sb, old(blocks), blocks, inodes, owner, r.value);
        GrownEntry(sb, old(blocks), blocks, inodes, owner, i, k, r.value);
        AssignEntry(sb, old(blocks), blocks, inodes, owner, i, k, r.value);
        Update(ind, PutWord(blocks[ind], k - NDIRECT, r.value));
        TookOne(sb, old(blocks), inodes, owner, blocks, inodes, i, k, r.value);
        owner := owner[r.value := (i, k)];
      }
    }

    /** bmap for an indirect slot (fs.c:385-397). */
    method BmapIndirect(i: nat, bn: nat) returns (r: Option<nat>, ghost maps: set<nat>)
      requires Valid() && i < |inodes| && NDIRECT <= bn < MAXFILE
      requires Tracked()
      modifies `blocks, `inodes, `owner, `logged, `writes
      ensures Tracked()
      ensures r.Some? ==> Valid() && Grown(sb, old(blocks), old(inodes), old(owner), blocks, inodes, owner, i)
      ensures r.Some? ==> Slot(blocks, inodes[i], bn) == r.value != 0
      ensures bn < MAXFILE && Slot(old(blocks), old(inodes)[i], bn) != 0 ==>
                r.Some? && blocks == old(blocks) && inodes == old(inodes) && owner == old(owner) && logged == old(logged)
      ensures r.Some? ==> BmapLogged(old(logged), logged, Slot(old(blocks), old(inodes)[i], bn) == 0, old(inodes)[i], inodes[i], bn, r.value, maps)
      ensures r.Some? <==> HasRoom(sb, old(blocks), old(inodes)[i], old(owner), Needs(bn))
      ensures r.Some? ==> Took(old(blocks), old(inodes)[i], old(owner), blocks, inodes[i], owner, Needs(bn))
      ensures r.None? ==> Full(sb, blocks)
    {
      hide Traced;
      hide HasRoom;
      hide Took;
      hide Full;
      hide Grown;
      hide Allocated;
      hide Bit;
      hide Slot;
      hide GoodLayout;
      hide DataStart;
      hide BmapLogged;
      maps := {};
      if inodes[i].addrs[NDIRECT] == 0 {
        NoIndirectNoEntry(blocks, inodes[i], bn);
      }
      assert {INDIRECT} + {bn} == Needs(bn);
      r := AllocAddr(i, NDIRECT);
      if r.None? {
        NoRoomYet(i, bn);
        return;
      }
      ghost var b1, i1, o1 := blocks, inodes, owner;
      TookThen(sb, old(blocks), old(inodes)[i], old(owner), blocks, inodes[i], owner, {INDIRECT}, {bn});
      ghost var m1, l1 := BBlock(sb, r.value), logged;
      if old(inodes)[i].addrs[NDIRECT] == 0 {
        AssignAddr(sb, old(blocks), blocks, old(inodes), old(owner), i, NDIRECT, r.value);
        maps := {m1};
      }
      assert Slot(blocks, inodes[i], bn) == Slot(old(blocks), old(inodes)[i], bn);
      r := AllocEntry(i, bn);
      if r.Some? {
        GrownTrans(sb, old(blocks), old(inodes), old(owner), b1, i1, o1, blocks, inodes, owner, i);
        ghost var newEntry := Slot(old(blocks), old(inodes)[i], bn) == 0;
        BmapLoggedTwice(old(logged), l1, logged, old(inodes)[i].addrs[NDIRECT] == 0, newEntry,
                        old(inodes)[i], inodes[i], bn, r.value, m1, BBlock(sb, r.value));
        maps := maps + if newEntry then {BBlock(sb, r.value)} else {};
      }
    }

    lemma NoRoomYet(i: nat, bn: nat)
      requires i < |inodes| && NDIRECT <= bn && !HasRoom(sb, blocks, inodes[i], owner, {INDIRECT})
      ensures !HasRoom(sb, blocks, inodes[i], owner, Needs(bn))
    {
      if HasRoom(sb, blocks, inodes[i], owner, Needs(bn)) {
        LessRoom(sb, blocks, inodes[i], owner, {INDIRECT}, Needs(bn));
      }
    }

    /** bmap (fs.c:373-400).  None is a panic: out of blocks, or out of range.
        `maps` are the bit map blocks it changed. */
    method Bmap(i: nat, bn: nat) returns (r: Option<nat>, ghost maps: set<nat>)
      requires Valid() && i < |inodes|
      requires Tracked()
      modifies `blocks, `inodes, `owner, `logged, `writes
      ensures Tracked()
      ensures r.Some? ==> bn < MAXFILE && Valid() && Grown(sb, old(blocks), old(inodes), old(owner), blocks, inodes, owner, i)
      ensures r.Some? ==> Slot(blocks, inodes[i], bn) == r.value != 0
      ensures bn < MAXFILE && Slot(old(blocks), old(inodes)[i], bn) != 0 ==>
                r.Some? && blocks == old(blocks) && inodes == old(inodes) && owner == old(owner) && logged == old(logged)
      ensures r.Some? ==> BmapLogged(old(logged), logged, Slot(old(blocks), old(inodes)[i], bn) == 0, old(inodes)[i], inodes[i], bn, r.value, maps)
      ensures r.Some? <==> bn < MAXFILE && HasRoom(sb, old(blocks), old(inodes)[i], old(owner), Needs(bn))
      ensures r.Some? ==> Took(old(blocks), old(inodes)[i], old(owner), blocks, inodes[i], owner, Needs(bn))
      ensures r.None? && bn < MAXFILE ==> Full(sb, blocks)
    {
      hide Traced;
      hide HasRoom;
      hide Took;
      hide Bit;
      maps := {};
      if bn < NDIRECT {
        r := AllocAddr(i, bn);
        if r.Some? && old(inodes)[i].addrs[bn] == 0 {
          maps := {BBlock(sb, r.value)};
        }
      } else if bn < MAXFILE {
        r, maps := BmapIndirect(i, bn);
      } else {
        r := None;
      }
    }

    /** One turn of the loop of writei (fs.c:499-503). */
    method WriteChunk(i: nat, off: nat, piece: seq<Byte>) returns (ok: bool, ghost addr: nat, ghost maps: set<nat>)
      requires Valid() && i < |inodes| && off < MAXBYTES && 0 < |piece| && off % BSIZE + |piece| <= BSIZE
      requires Tracked()
      modifies `blocks, `inodes, `owner, `logged, `writes
      ensures Tracked()
      ensures ok ==> Valid() && |inodes| == |old(inodes)| && Wrote(sb, old(blocks), old(inodes), blocks, inodes, i, off, piece)
      ensures ok && Has(old(blocks), old(inodes)[i], off) ==> inodes == old(inodes)
      ensures ok ==> exists l :: BmapLogged(old(logged), l, !Has(old(blocks), old(inodes)[i], off), old(inodes)[i], inodes[i], off / BSIZE, addr, maps)
                                 && logged == l + {addr}
      ensures ok <==> HasRoom(sb, old(blocks), old(inodes)[i], old(owner), Needs(off / BSIZE))
      ensures ok ==> Took(old(blocks), old(inodes)[i], old(owner), blocks, inodes[i], owner, Needs(off / BSIZE))
      ensures !ok ==> Full(sb, blocks)
    {
      hide HasRoom;
      hide Took;
      hide SlotsKept;
      hide Needs;
      hide Full;
      hide Slot;
      hide Bit;
      hide BmapLogged;
      hide GoodLayout;
      hide Traced;
      hide Own;
      hide Grown;
      hide Wrote;
      addr := 0;
      var r;
      r, maps := Bmap(i, off / BSIZE);
      if r.None? {
        return false, addr, maps;
      }
      ok, addr := true, r.value;
      GrownSize(sb, old(blocks), old(inodes), old(owner), blocks, inodes, owner, i);
      GrownWrote(sb, old(blocks), old(inodes), old(owner), blocks, inodes, owner, i, off);
      StoreWrote(sb, blocks, inodes, owner, i, off, piece);
      WroteTrans(sb, old(blocks), old(inodes), blocks, inodes, Stored(blocks, inodes[i], off, piece), inodes, i, off, [], piece);
      assert [] + piece == piece;
      SlotHigh(sb, blocks, inodes, owner, i, off / BSIZE);
      TookKept(old(blocks), old(inodes)[i], old(owner), blocks, inodes, i, owner, Needs(off / BSIZE), Stored(blocks, inodes[i], off, piece));
      Update(r.value, Patch(blocks[r.value], off % BSIZE, piece));
    }

    /** The loop of writei (fs.c:498-504). */
    method WriteLoop(i: nat, src: seq<Byte>, start: nat)
      returns (ok: bool, ghost data: set<nat>, ghost maps: set<nat>, ghost made: nat)
      requires Valid() && i < |inodes| && start + |src| <= MAXBYTES
      requires FileOk(blocks, inodes[i]) && start <= inodes[i].size
      requires Tracked()
      modifies `blocks, `inodes, `owner, `logged, `writes
      ensures Tracked()
      ensures ok ==> Valid() && |inodes| == |old(inodes)| && Wrote(sb, old(blocks), old(inodes), blocks, inodes, i, start, src)
      ensures ok && start + |src| <= old(inodes)[i].size ==> inodes == old(inodes)
      ensures ok ==> WriteLogged(old(logged), logged, old(inodes)[i], inodes[i], data, maps, Spanned(start, |src|), made)
      ensures ok ==> made <= Spanned(start, |src|) - if start % BSIZE != 0 && |src| > 0 then 1 else 0
      ensures ok <==> HasRoom(sb, old(blocks), old(inodes)[i], old(owner), Reach(start, start + |src|))
      ensures ok ==> Took(old(blocks), old(inodes)[i], old(owner), blocks, inodes[i], owner, Reach(start, start + |src|))
      ensures !ok ==> Full(sb, blocks)
    {
      hide Took;
      hide HasRoom;
      hide Reach;
      hide Full;
      hide Own;
      hide Wrote;
      hide Has;
      hide BmapLogged;
      hide WriteLogged;
      hide Spanned;
      hide Traced;
      hide Written;
      var n, tot, off := |src|, 0, start;
      data, maps, made := {}, {}, 0;
      NothingYet(i, src, start);
      while tot < n
        invariant tot <= n && off == start + tot && |inodes| == |old(inodes)| && Valid() && Tracked()
        invariant tot == 0 || tot == n || off % BSIZE == 0
        invariant Written(old(blocks), old(inodes), old(owner), old(logged), i, src, start, tot, data, maps, made)
      {
        var m := Min(n - tot, BSIZE - off % BSIZE);
        ChunkEnd(off, n - tot);
        ok, data, maps, made := WriteTurn(i, src, start, tot, m, old(blocks), old(inodes), old(owner), old(logged), data, maps, made);
        if !ok {
          return;
        }
        tot, off := tot + m, off + m;
      }
      AllWritten(old(blocks), old(inodes), old(owner), old(logged), i, src, start, data, maps, made);
      ok := true;
    }

    /** What the loop of writei has done after `tot` bytes: the bytes, the inode only if the
        file had to grow, and the blocks logged for it. */
    ghost predicate Written(blocks0: Disk, inodes0: seq<Inode>, owner0: Owner, logged0: set<nat>, i: nat, src: seq<Byte>, start: nat, tot: nat,
                            data: set<nat>, maps: set<nat>, made: nat)
      reads this
    {
      && i < |inodes0| == |inodes| && tot <= |src|
      && Wrote(sb, blocks0, inodes0, blocks, inodes, i, start, src[..tot])
      && (start + tot <= inodes0[i].size ==> inodes == inodes0)
      && WriteLogged(logged0, logged, inodes0[i], inodes[i], data, maps, Spanned(start, tot), made)
      && made <= Spanned(start, tot) - (if start % BSIZE != 0 && tot > 0 then 1 else 0)
      && Took(blocks0, inodes0[i], owner0, blocks, inodes[i], owner, Reach(start, start + tot))
    }

    lemma NothingYet(i: nat, src: seq<Byte>, start: nat)
      requires Valid() && i < |inodes| && start <= MAXBYTES
      ensures Written(blocks, inodes, owner, logged, i, src, start, 0, {}, {}, 0)
    {
      hide Own;
      hide Took;
      TookNone(sb, blocks, inodes, owner, i, Reach(start, start));
      hide Wrote;
      hide WriteLogged;
      WroteNothing(sb, blocks, inodes, i, start);
      WriteLoggedNothing(logged, inodes[i]);
      SpannedNone(start);
    }

    lemma AllWritten(blocks0: Disk, inodes0: seq<Inode>, owner0: Owner, logged0: set<nat>, i: nat, src: seq<Byte>, start: nat, data: set<nat>, maps: set<nat>, made: nat)
      requires Valid() && Written(blocks0, inodes0, owner0, logged0, i, src, start, |src|, data, maps, made)
      ensures HasRoom(sb, blocks0, inodes0[i], owner0, Reach(start, start + |src|))
      ensures Took(blocks0, inodes0[i], owner0, blocks, inodes[i], owner, Reach(start, start + |src|))
      ensures Wrote(sb, blocks0, inodes0, blocks, inodes, i, start, src) && (start + |src| <= inodes0[i].size ==> inodes == inodes0)
      ensures WriteLogged(logged0, logged, inodes0[i], inodes[i], data, maps, Spanned(start, |src|), made)
      ensures made <= Spanned(start, |src|) - if start % BSIZE != 0 && |src| > 0 then 1 else 0
    {
      hide Own;
      hide Wrote;
      hide WriteLogged;
      RoomWas(sb, blocks0, inodes0[i], owner0, blocks, inodes, i, owner, Reach(start, start + |src|));
      assert src[..|src|] == src;
    }

    /** One turn, added to what the loop has done (fs.c:499-503). */
    method WriteTurn(i: nat, src: seq<Byte>, start: nat, tot: nat, m: nat, ghost blocks0: Disk, ghost inodes0: seq<Inode>, ghost owner0: Owner, ghost logged0: set<nat>,
                     ghost data: set<nat>, ghost maps: set<nat>, ghost made: nat)
      returns (ok: bool, ghost data': set<nat>, ghost maps': set<nat>, ghost made': nat)
      requires Valid() && Tracked() && i < |inodes| && start + |src| <= MAXBYTES
      requires i < |inodes0| && FileOk(blocks0, inodes0[i]) && start <= inodes0[i].size
      requires 0 < m && tot + m <= |src| && (start + tot) % BSIZE + m <= BSIZE && (tot == 0 || (start + tot) % BSIZE == 0)
      requires Written(blocks0, inodes0, owner0, logged0, i, src, start, tot, data, maps, made)
      modifies `blocks, `inodes, `owner, `logged, `writes
      ensures Tracked()
      ensures ok ==> Valid() && |inodes| == |old(inodes)| && Written(blocks0, inodes0, owner0, logged0, i, src, start, tot + m, data', maps', made')
      ensures !ok ==> Full(sb, blocks) && !HasRoom(sb, blocks0, inodes0[i], owner0, Reach(start, start + |src|))
    {
      hide Took;
      hide HasRoom;
      hide Reach;
      hide Needs;
      hide Full;
      hide Own;
      hide Wrote;
      hide Has;
      hide BmapLogged;
      hide WriteLogged;
      hide Spanned;
      hide Traced;
      hide FileOk;
      var off := start + tot;
      ghost var addr, more;
      ghost var b1, i1, l1, wasEmpty := blocks, inodes, logged, !Has(blocks, inodes[i], off);
      Backed(off, start, src[..tot], i, blocks0, inodes0);
      data', maps', made' := data, maps, made;
      RoomOnward(sb, blocks0, inodes0[i], owner0, blocks, inodes[i], owner, start, off, off + m, start + |src|);
      ReachOne(off, off + m);
      ok, addr, more := WriteChunk(i, off, src[tot..tot + m]);
      if !ok {
        return;
      }
      WroteTrans(sb, blocks0, inodes0, b1, i1, blocks, inodes, i, start, src[..tot], src[tot..tot + m]);
      assert src[..tot] + src[tot..tot + m] == src[..tot + m];
      TurnLogged(logged0, l1, logged, inodes0[i], i1[i], inodes[i], data, maps, Spanned(start, tot), made, wasEmpty, off / BSIZE, addr, more);
      SpannedStep(start, tot, m);
      data', maps', made' := data + {addr}, maps + more, made + if wasEmpty then 1 else 0;
    }

    /** During the loop of writei: a byte below the old size, or in the middle of
        the block in which the write started, has a block. */
    lemma Backed(off: nat, start: nat, done: seq<Byte>, i: nat, blocks0: Disk, inodes0: seq<Inode>)
      requires i < |inodes0| && FileOk(blocks0, inodes0[i]) && start <= inodes0[i].size
      requires off == start + |done| < MAXBYTES && Wrote(sb, blocks0, inodes0, blocks, inodes, i, start, done)
      ensures |inodes| == |inodes0|
      ensures off < inodes0[i].size || (done == [] && start % BSIZE != 0) ==> Has(blocks, inodes[i], off)
    {
      hide Slot;
      if off < inodes0[i].size || (done == [] && start % BSIZE != 0) {
        HasTail(blocks0, inodes0[i], off);
      }
    }

    /** The inode as the disk has it. */
    ghost function OnDisk(j: nat): Inode
      requires IBlock(sb, j) < |blocks|
      reads this
    {
      GetInode(blocks[IBlock(sb, j)], j % IPB)
    }

    /** iupdate (fs.c:221-236). */
    method Iupdate(i: nat)
      requires Valid() && i < |inodes| && IBlock(sb, i) < |blocks|
      requires Tracked()
      modifies `blocks, `logged, `writes
      ensures Tracked()
      ensures Valid() && SlotsKept(old(blocks), blocks, inodes) && |blocks| == |old(blocks)| && logged == old(logged) + {IBlock(sb, i)}
      ensures OnDisk(i) == inodes[i]
      ensures forall j :: 0 <= j < |inodes| && j != i && IBlock(sb, j) < |blocks| ==> OnDisk(j) == old(OnDisk(j))
      ensures forall j :: 0 <= j < |inodes| && FileOk(old(blocks), inodes[j]) ==>
                FileOk(blocks, inodes[j]) && Contents(blocks, inodes[j]) == Contents(old(blocks), inodes[j])
    {
      hide Traced;
      hide Slot;
      hide Bit;
      hide WordAt;
      var n, bp := IBlock(sb, i), blocks[IBlock(sb, i)];
      WriteKeepsOwn(sb, blocks, inodes, owner, n, PutInode(bp, i % IPB, inodes[i], INODE_WORDS));
      Update(n, PutInode(bp, i % IPB, inodes[i], INODE_WORDS));
      forall j | 0 <= j < |inodes| && FileOk(old(blocks), inodes[j])
        ensures FileOk(blocks, inodes[j]) && Contents(blocks, inodes[j]) == Contents(old(blocks), inodes[j])
      {
        KeptContents(old(blocks), blocks, inodes, owner, j);
      }
      forall j | 0 <= j < |inodes| && IBlock(sb, j) == n
        ensures OnDisk(j) == if j == i then inodes[i] else old(OnDisk(j))
      {
        InodeRoundTrip(bp, i % IPB, inodes[i], j % IPB);
      }
    }

    /** `j` is a file whose inode and blocks are as the last update left them. */
    ghost predicate Settled(j: nat)
      reads this
    {
      SettledAt(sb, blocks, inodes, j)
    }

    /** writei (fs.c:482-511) of the bytes `src` at offset `off`. */
    method Writei(i: nat, src: seq<Byte>, off: nat) returns (r: Io, ghost touched: set<nat>)
      requires Valid() && i < |inodes| && off < WORD_LIMIT && |src| < WORD_LIMIT
      requires inodes[i].kind != T_DEV ==> Settled(i)
      requires Tracked()
      modifies `blocks, `inodes, `owner, `logged, `writes
      ensures Tracked()
      ensures r.ToDevice? <==> old(inodes)[i].kind == T_DEV
      ensures r.Fail? <==> old(inodes)[i].kind != T_DEV && !Fits(old(inodes)[i].size, off, |src|)
      ensures r.ToDevice? || r.Fail? ==> blocks == old(blocks) && inodes == old(inodes) && owner == old(owner) && logged == old(logged)
      ensures r.Count? ==> r.n == |src| && Valid() && |inodes| == |old(inodes)| && Settled(i)
      ensures r.Count? ==> inodes[i] == old(inodes)[i].(size := inodes[i].size, addrs := inodes[i].addrs)
      ensures r.Count? ==> old(inodes)[i].size <= MAXBYTES && Contents(blocks, inodes[i]) == Splice(old(Contents(blocks, inodes[i])), off, src)
      ensures r.Count? ==> forall j :: 0 <= j < |inodes| && j != i && old(Settled(j)) ==>
                Settled(j) && inodes[j] == old(inodes)[j] && Contents(blocks, inodes[j]) == Contents(old(blocks), inodes[j])
      ensures r.Count? ==> logged <= old(logged) + touched && |touched| <= LogBudget(off, |src|)
      ensures r.Panic? <==> (&& old(inodes)[i].kind != T_DEV && Fits(old(inodes)[i].size, off, |src|)
                             && !HasRoom(sb, old(blocks), old(inodes)[i], old(owner), Reach(off, off + |src|)))
      ensures r.Panic? ==> Full(sb, blocks)
      ensures r.Count? ==> Took(old(blocks), old(inodes)[i], old(owner), blocks, inodes[i], owner, Reach(off, off + |src|))
    {
      hide Traced;
      hide Took;
      hide HasRoom;
      hide Reach;
      hide Full;
      hide Own;
      hide Wrote;
      hide Has;
      hide ByteAt;
      hide GetInode;
      hide WriteLogged;
      touched := {};
      var n := |src|;
      if inodes[i].kind == T_DEV {
        return ToDevice, {};
      }
      if off > inodes[i].size || (off + n) % WORD_LIMIT < off {
        return Fail, {};
      }
      if (off + n) % WORD_LIMIT > MAXBYTES {
        return Fail, {};
      }
      ghost var data, maps, made;
      var ok;
      ok, data, maps, made := WriteLoop(i, src, off);
      if !ok {
        return Panic, {};
      }
      touched := WriteLoggedTotal(old(logged), logged, old(inodes)[i], inodes[i], data, maps, Spanned(off, n), made, IBlock(sb, i));
      AfterLoop(i, src, off, old(blocks), old(inodes), old(owner));
      if n > 0 && off + n > inodes[i].size {
        OwnSameAddrs(sb, blocks, inodes, owner, i, inodes[i].(size := off + n));
        TookSameAddrs(old(blocks), old(inodes)[i], old(owner), blocks, inodes[i], owner, Reach(off, off + n), inodes[i].(size := off + n));
        inodes := inodes[i := inodes[i].(size := off + n)];
        ghost var b1 := blocks;
        Iupdate(i);
        TookKept(old(blocks), old(inodes)[i], old(owner), b1, inodes, i, owner, Reach(off, off + n), blocks);
      }
      r := Count(n);
    }

    /** What the loop of writei leaves: the new contents, once the size has been
        brought up to date, and every other file untouched. */
    lemma AfterLoop(i: nat, src: seq<Byte>, off: nat, blocks0: Disk, inodes0: seq<Inode>, owner0: Owner)
      requires Own(sb, blocks0, inodes0, owner0) && i < |inodes0| && FileOk(blocks0, inodes0[i]) && off <= inodes0[i].size
      requires off + |src| <= MAXBYTES && Wrote(sb, blocks0, inodes0, blocks, inodes, i, off, src)
      ensures |inodes| == |inodes0| && |blocks| == |blocks0| && inodes[i] == inodes0[i].(addrs := inodes[i].addrs)
      ensures
        var ino := inodes[i].(size := if off + |src| > inodes0[i].size then off + |src| else inodes0[i].size);
        FileOk(blocks, ino) && Contents(blocks, ino) == Splice(Contents(blocks0, inodes0[i]), off, src)
      ensures forall j :: 0 <= j < |inodes| ==> IBlock(sb, j) < |blocks| && blocks[IBlock(sb, j)] == blocks0[IBlock(sb, j)]
      ensures forall j :: 0 <= j < |inodes| && j != i ==> inodes[j] == inodes0[j]
      ensures forall j :: 0 <= j < |inodes| && j != i && FileOk(blocks0, inodes0[j]) ==>
                FileOk(blocks, inodes[j]) && Contents(blocks, inodes[j]) == Contents(blocks0, inodes0[j])
    {
      hide Own;
      hide Wrote;
      hide Has;
      hide ByteAt;
      forall j | 0 <= j < |inodes0|
        ensures IBlock(sb, j) < |blocks0| == |blocks| && blocks[IBlock(sb, j)] == blocks0[IBlock(sb, j)]
        ensures |inodes| == |inodes0| && (j != i ==> inodes[j] == inodes0[j])
      {
        WroteInodeBlock(sb, blocks0, inodes0, owner0, blocks, inodes, i, off, src, j);
        hide FileOk;
      }
      WroteInodeBlock(sb, blocks0, inodes0, owner0, blocks, inodes, i, off, src, i);
      WroteContents(sb, blocks0, inodes0, blocks, inodes, i, off, src,
                    inodes[i].(size := if off + |src| > inodes0[i].size then off + |src| else inodes0[i].size));
      hide FileOk;
      forall j | 0 <= j < |inodes| && j != i && FileOk(blocks0, inodes0[j])
        ensures FileOk(blocks, inodes[j]) && Contents(blocks, inodes[j]) == Contents(blocks0, inodes0[j])
      {
        WroteOthers(sb, blocks0, inodes0, blocks, inodes, i, off, src, j);
      }
    }

    /** readi (fs.c:453-476).  It reads through bmap, which finds every block below
        the size allocated, so it changes nothing and cannot panic. */
    method Readi(i: nat, off: nat, n: nat) returns (r: Io, dst: seq<Byte>)
      requires Valid() && i < |inodes| && off < WORD_LIMIT && n < WORD_LIMIT
      requires inodes[i].kind != T_DEV ==> FileOk(blocks, inodes[i])
      requires Tracked()
      modifies `blocks, `inodes, `owner, `logged, `writes
      ensures Tracked()
      ensures blocks == old(blocks) && inodes == old(inodes) && owner == old(owner) && logged == old(logged)
      ensures !r.Panic? && (r.ToDevice? <==> inodes[i].kind == T_DEV)
      ensures r.Fail? <==> inodes[i].kind != T_DEV && (off > inodes[i].size || off + n >= WORD_LIMIT)
      ensures r.Count? ==> r.n == |dst| && dst == Contents(blocks, inodes[i])[off..Min(off + n, inodes[i].size)]
    {
      hide Traced;
      hide Own;
      hide Contents;
      hide Slot;
      hide ByteAt;
      hide Grown;
      hide BmapLogged;
      dst := [];
      if inodes[i].kind == T_DEV {
        return ToDevice, [];
      }
      if off > inodes[i].size || (off + n) % WORD_LIMIT < off {
        return Fail, [];
      }
      var left := n;
      if off + n > inodes[i].size {
        left := inodes[i].size - off;
      }
      ghost var c := Contents(blocks, inodes[i]);
      var tot, o := 0, off;
      while tot < left
        invariant tot <= left && o == off + tot && |dst| == tot
        invariant blocks == old(blocks) && inodes == old(inodes) && owner == old(owner) && logged == old(logged) && Tracked()
        invariant dst == c[off..o]
      {
        assert Has(blocks, inodes[i], o);
        ghost var maps;
        var b;
        b, maps := Bmap(i, o / BSIZE);
        var m := Min(left - tot, BSIZE - o % BSIZE);
        SlotInRange(i, o / BSIZE);
        var bp := blocks[b.value];
        BlockRun(c, i, o, m);
        assert c[off..o] + c[o..o + m] == c[off..o + m];
        dst := dst + bp[o % BSIZE..o % BSIZE + m];
        tot, o := tot + m, o + m;
      }
      return Count(left), dst;
    }

    lemma SlotInRange(i: nat, k: nat)
      requires Valid() && i < |inodes| && k < MAXFILE && Slot(blocks, inodes[i], k) != 0
      ensures Slot(blocks, inodes[i], k) < |blocks|
    {
      hide Slot;
      hide Bit;
    }

    /** A run of bytes within one block, seen in the file. */
    lemma BlockRun(c: seq<Byte>, i: nat, o: nat, m: nat)
      requires i < |inodes| && inodes[i].size <= MAXBYTES && c == Contents(blocks, inodes[i])
      requires o + m <= inodes[i].size && o % BSIZE + m <= BSIZE && o < MAXBYTES
      requires Slot(blocks, inodes[i], o / BSIZE) < |blocks|
      ensures c[o..o + m] == blocks[Slot(blocks, inodes[i], o / BSIZE)][o % BSIZE..o % BSIZE + m]
    {
    }

    /** Freeing an owned block never panics and clears exactly its bit. */
    method FreeOwned(b: nat) returns (ok: bool)
      requires GoodLayout(sb, |blocks|) && b < sb.size && Bit(sb, blocks, b)
      requires Tracked()
      modifies `blocks, `logged, `writes
      ensures Tracked()
      ensures ok && OnlyMaps(sb, old(blocks), blocks)
      ensures forall x :: 0 <= x < sb.size ==> Bit(sb, blocks, x) == (Bit(sb, old(blocks), x) && x != b)
    {
      hide Traced;
      BBlockRange(sb, b);
      ok := Bfree(b);
      forall x | 0 <= x < sb.size
        ensures Bit(sb, blocks, x) == (Bit(sb, old(blocks), x) && x != b)
      {
        WithBitAt(sb, old(blocks), b, false, x);
      }
      hide Bit;
      hide PutBlockBit;
    }

    /** One turn of the first loop of itrunc (fs.c:415-418). */
    method FreeAddr(i: nat, d: nat) returns (ok: bool)
      requires Valid() && i < |inodes| && d < NDIRECT
      requires Tracked()
      modifies `blocks, `inodes, `owner, `logged, `writes
      ensures Tracked()
      ensures ok && Valid() && OnlyMaps(sb, old(blocks), blocks)
      ensures inodes == old(inodes)[i := WithAddr(old(inodes)[i], d, 0)]
      ensures owner == old(owner) - SlotBlocks(old(owner), i, d, d + 1)
    {
      hide Traced;
      hide Bit;
      var b := inodes[i].addrs[d];
      assert Slot(blocks, inodes[i], d) == b;
      hide Slot;
      assert SlotBlocks(owner, i, d, d + 1) == if b == 0 then {} else {b} by {
        assert DataStart(sb) > 0;
        forall x | x in owner && owner[x] == (i, d)
          ensures x == b
        {
        }
      }
      if b != 0 {
        ok := FreeOwned(b);
        DropAddr(sb, old(blocks), blocks, inodes, owner, i, d);
        inodes := inodes[i := WithAddr(inodes[i], d, 0)];
        owner := owner - {b};
      } else {
        assert WithAddr(inodes[i], d, 0) == inodes[i];
        ok := true;
      }
    }

    /** The first loop of itrunc (fs.c:414-419). */
    method FreeDirect(i: nat) returns (ok: bool)
      requires Valid() && i < |inodes|
      requires Tracked()
      modifies `blocks, `inodes, `owner, `logged, `writes
      ensures Tracked()
      ensures ok && Valid() && OnlyMaps(sb, old(blocks), blocks) && |inodes| == |old(inodes)|
      ensures inodes == old(inodes)[i := inodes[i]] && inodes[i] == old(inodes)[i].(addrs := inodes[i].addrs)
      ensures inodes[i].addrs[NDIRECT] == old(inodes)[i].addrs[NDIRECT] && forall e :: 0 <= e < NDIRECT ==> inodes[i].addrs[e] == 0
      ensures owner == old(owner) - SlotBlocks(old(owner), i, 0, NDIRECT)
    {
      hide Own;
      hide Traced;
      ok := true;
      var d := 0;
      while d < NDIRECT
        invariant d <= NDIRECT && ok && Valid() && Tracked() && OnlyMaps(sb, old(blocks), blocks) && |inodes| == |old(inodes)|
        invariant inodes == old(inodes)[i := inodes[i]] && inodes[i] == old(inodes)[i].(addrs := inodes[i].addrs)
        invariant inodes[i].addrs[NDIRECT] == old(inodes)[i].addrs[NDIRECT] && forall e :: 0 <= e < d ==> inodes[i].addrs[e] == 0
        invariant owner == old(owner) - SlotBlocks(old(owner), i, 0, d)
      {
        ok := FreeAddr(i, d);
        d := d + 1;
      }
    }

    /** The second half of itrunc (fs.c:421-431). */
    method FreeIndirect(i: nat) returns (ok: bool)
      requires Valid() && i < |inodes|
      requires Tracked()
      modifies `blocks, `inodes, `owner, `logged, `writes
      ensures Tracked()
      ensures ok && Valid() && OnlyMaps(sb, old(blocks), blocks)
      ensures inodes == old(inodes)[i := WithAddr(old(inodes)[i], NDIRECT, 0)]
      ensures owner == old(owner) - SlotBlocks(old(owner), i, NDIRECT, INDIRECT + 1)
    {
      hide Bit;
      hide Traced;
      ok := true;
      var ind := inodes[i].addrs[NDIRECT];
      if ind == 0 {
        NoEntries(i);
        assert WithAddr(inodes[i], NDIRECT, 0) == inodes[i];
        return;
      }
      IndirectOwned(sb, blocks, inodes, owner, i);
      var a := blocks[ind];
      var j := 0;
      while j < NINDIRECT
        invariant j <= NINDIRECT && ok && Tracked() && inodes == old(inodes) && owner == old(owner) && OnlyMaps(sb, old(blocks), blocks)
        invariant forall b :: 0 <= b < sb.size ==> Bit(sb, blocks, b) == (Bit(sb, old(blocks), b) && b !in SlotBlocks(owner, i, NDIRECT, NDIRECT + j))
      {
        EntryBlocks(i, j, old(blocks));
        if WordAt(a, j) != 0 {
          ok := FreeOwned(WordAt(a, j));
        }
        j := j + 1;
      }
      assert SlotBlocks(owner, i, NDIRECT, INDIRECT + 1) == SlotBlocks(owner, i, NDIRECT, NDIRECT + NINDIRECT) + {ind} by {
        hide Slot;
        OnlyIndirect(i, old(blocks));
      }
      ok := FreeOwned(ind);
      hide Slot;
      DropIndirect(sb, old(blocks), blocks, inodes, owner, i);
      owner := owner - SlotBlocks(owner, i, NDIRECT, INDIRECT + 1);
      inodes := inodes[i := WithAddr(inodes[i], NDIRECT, 0)];
    }

    lemma NoEntries(i: nat)
      requires Valid() && i < |inodes| && inodes[i].addrs[NDIRECT] == 0
      ensures SlotBlocks(owner, i, NDIRECT, INDIRECT + 1) == {}
    {
    }

    lemma OnlyIndirect(i: nat, blocks0: Disk)
      requires Own(sb, blocks0, inodes, owner) && i < |inodes| && inodes[i].addrs[NDIRECT] != 0
      ensures SlotBlocks(owner, i, INDIRECT, INDIRECT + 1) == {inodes[i].addrs[NDIRECT]}
    {
      hide Bit;
      IndirectOwned(sb, blocks0, inodes, owner, i);
      assert Slot(blocks0, inodes[i], INDIRECT) == inodes[i].addrs[NDIRECT];
      hide Slot;
    }

    /** What entry `j` of the indirect block adds to the blocks to free. */
    lemma EntryBlocks(i: nat, j: nat, blocks0: Disk)
      requires Own(sb, blocks0, inodes, owner) && i < |inodes| && j < NINDIRECT && 0 < inodes[i].addrs[NDIRECT] < |blocks0|
      ensures
        var b := WordAt(blocks0[inodes[i].addrs[NDIRECT]], j);
        && SlotBlocks(owner, i, NDIRECT, NDIRECT + j + 1) == SlotBlocks(owner, i, NDIRECT, NDIRECT + j) + (if b == 0 then {} else {b})
        && (b != 0 ==> b < sb.size && Bit(sb, blocks0, b) && b !in SlotBlocks(owner, i, NDIRECT, NDIRECT + j))
    {
      hide Bit;
      var b := WordAt(blocks0[inodes[i].addrs[NDIRECT]], j);
      assert Slot(blocks0, inodes[i], NDIRECT + j) == b;
      hide Slot;
      assert DataStart(sb) > 0;
    }

    /** itrunc (fs.c:408-435): every block of the file is freed, once, and no panic
        is reachable; no other file is touched. */
    method Itrunc(i: nat) returns (ok: bool)
      requires Valid() && i < |inodes| && IBlock(sb, i) < |blocks|
      requires Tracked()
      modifies `blocks, `inodes, `owner, `logged, `writes
      ensures Tracked()
      ensures ok && Valid() && |inodes| == |old(inodes)|
      ensures owner == old(owner) - SlotBlocks(old(owner), i, 0, INDIRECT + 1)
      ensures inodes[i] == old(inodes)[i].(size := 0, addrs := inodes[i].addrs) && forall d :: 0 <= d <= NDIRECT ==> inodes[i].addrs[d] == 0
      ensures Settled(i)
      ensures forall j :: 0 <= j < |inodes| && j != i && old(Settled(j)) ==>
                Settled(j) && inodes[j] == old(inodes)[j] && Contents(blocks, inodes[j]) == Contents(old(blocks), inodes[j])
    {
      hide Traced;
      hide Own;
      hide GetInode;
      ok := FreeDirect(i);
      ok := FreeIndirect(i);
      MapsOnly(old(blocks), old(inodes), old(owner));
      OwnSameAddrs(sb, blocks, inodes, owner, i, inodes[i].(size := 0));
      inodes := inodes[i := inodes[i].(size := 0)];
      Iupdate(i);
    }

    /** Changing bit map blocks only changes no file and no inode. */
    lemma MapsOnly(blocks0: Disk, inodes0: seq<Inode>, owner0: Owner)
      requires Own(sb, blocks0, inodes0, owner0) && OnlyMaps(sb, blocks0, blocks)
      ensures forall j :: 0 <= j < |inodes0| ==> IBlock(sb, j) < |blocks| && blocks[IBlock(sb, j)] == blocks0[IBlock(sb, j)]
      ensures forall j :: 0 <= j < |inodes0| && FileOk(blocks0, inodes0[j]) ==>
                FileOk(blocks, inodes0[j]) && Contents(blocks, inodes0[j]) == Contents(blocks0, inodes0[j])
    {
      hide Slot;
      hide Bit;
      OnlyMapsKeepsSlots(sb, blocks0, blocks, inodes0, owner0);
      hide FileOk;
      forall j | 0 <= j < |inodes0| && FileOk(blocks0, inodes0[j])
        ensures FileOk(blocks, inodes0[j]) && Contents(blocks, inodes0[j]) == Contents(blocks0, inodes0[j])
      {
        KeptContents(blocks0, blocks, inodes0, owner0, j);
      }
    }
  }
}

/** The file system's transactions on the log: what fs.c passes to log_write, performed on the
    buffer cache and the log, and committed. */
module LoggedWrites {
  import opened Sequences
  import opened Blocks
  import opened BufferCache
  import opened FsLayout
  import opened FsSpec
  import opened FsBytes
  import opened LogSpec
  import opened FileWrite
  import opened CrashSafety
  import F = FileSystem
  import L = Log

  /** The log header after these log_writes. */
  ghost function AbsorbAll(lh: seq<nat>, writes: seq<Logged>): seq<nat> {
    if writes == [] then lh else Absorb(AbsorbAll(lh, writes[..|writes| - 1]), writes[|writes| - 1].n)
  }

  lemma {:induction false} AbsorbedLists(lh: seq<nat>, writes: seq<Logged>)
    requires Distinct(lh)
    ensures Distinct(AbsorbAll(lh, writes)) && Elements(AbsorbAll(lh, writes)) == Elements(lh) + Numbers(writes)
    decreases |writes|
  {
    if writes != [] {
      var before, n := AbsorbAll(lh, writes[..|writes| - 1]), writes[|writes| - 1].n;
      AbsorbedLists(lh, writes[..|writes| - 1]);
      if n in before {
        assert Elements(before) + {n} == Elements(before);
      } else {
        assert Elements(before + [n]) == Elements(before) + {n};
      }
    }
  }

  /** The blocks are home blocks. */
  ghost predicate Home(a: Area, writes: seq<Logged>, size: nat) {
    InDisk(writes, size) && forall i :: 0 <= i < |writes| ==> !InLog(a, writes[i].n)
  }

  lemma {:induction false} NumbersIn(writes: seq<Logged>, i: nat)
    requires i < |writes|
    ensures writes[i].n in Numbers(writes)
    decreases |writes|
  {
    if i < |writes| - 1 {
      NumbersIn(writes[..|writes| - 1], i);
    }
  }

  lemma HomeNumbers(sb: SuperBlock, a: Area, base: Disk, blocks: Disk, logged: set<nat>, writes: seq<Logged>)
    requires Traced(sb, base, blocks, logged, writes) && a.start + a.size <= sb.inodestart
    ensures Home(a, writes, |base|)
  {
    forall i | 0 <= i < |writes|
      ensures !InLog(a, writes[i].n)
    {
      NumbersIn(writes, i);
    }
  }

  /** The header lists no more blocks than there are different ones. */
  lemma {:induction false} FewAbsorbed(lh: seq<nat>, writes: seq<Logged>, i: nat)
    requires Distinct(lh) && i <= |writes|
    ensures |AbsorbAll(lh, writes[..i])| <= |Elements(lh) + Numbers(writes)|
    decreases |writes|
  {
    if i < |writes| {
      FewAbsorbed(lh, writes[..|writes| - 1], i);
      assert writes[..|writes| - 1][..i] == writes[..i];
      Within(Elements(lh) + Numbers(writes[..|writes| - 1]), Elements(lh) + Numbers(writes));
    } else {
      assert writes[..i] == writes;
      AbsorbedLists(lh, writes);
      ElementsCount(AbsorbAll(lh, writes));
    }
  }

  /** What the log area holds does not matter to the home blocks. */
  lemma {:induction false} ReplaySame(x: Disk, y: Disk, a: Area, writes: seq<Logged>)
    requires SameHome(x, y, a) && InDisk(writes, |x|)
    ensures SameHome(Replay(x, writes), Replay(y, writes), a)
    decreases |writes|
  {
    if writes != [] {
      ReplaySame(x, y, a, writes[..|writes| - 1]);
    }
  }

  /** The buffers of the log area and of the blocks `ns` are not locked. */
  ghost predicate Free<D>(bufs: seq<Buf<D>>, a: Area, ns: set<nat>) {
    |bufs| == NBUF + 1 &&
    forall i :: 0 <= i < NBUF && bufs[i].dev == 1 && (InLog(a, bufs[i].blockno) || bufs[i].blockno in ns) ==> bufs[i].holder == NOBODY
  }

  lemma FreeKept<D>(bufs: seq<Buf<D>>, bufs': seq<Buf<D>>, a: Area, ns: set<nat>)
    requires Free(bufs, a, ns) && LocksKept(bufs, bufs')
    ensures Free(bufs', a, ns)
  {
  }

  lemma FreeOpen<D>(bufs: seq<Buf<D>>, a: Area, ns: set<nat>, lh: seq<nat>)
    requires Free(bufs, a, ns) && Elements(lh) <= ns
    ensures L.Open(bufs, a, lh)
  {
    forall i | 0 <= i < NBUF && bufs[i].dev == 1 && bufs[i].blockno in lh
      ensures bufs[i].holder == NOBODY
    {
      assert bufs[i].blockno in Elements(lh);
    }
  }

  /** The log_writes of an operation, one after the other: what readers see becomes what they
      say, the disk does not change, and the header in memory lists the blocks too.  It fails
      only for want of room in the log or of a buffer. */
  method Perform(l: L.Log, pid: nat, writes: seq<Logged>) returns (ok: bool)
    requires l.Ready(pid) && Home(l.area, writes, |l.cache.disk|) && Free(l.cache.bufs, l.area, Numbers(writes))
    modifies l`lh, l.cache
    ensures l.cache.Valid() && l.cache.disk == old(l.cache.disk) && l.cache.trace == old(l.cache.trace)
    ensures ok ==> l.Ready(pid) && l.cache.flat == Replay(old(l.cache.flat), writes) && l.lh == AbsorbAll(old(l.lh), writes)
    ensures ok ==> l.cache.users == old(l.cache.users) && LocksKept(old(l.cache.bufs), l.cache.bufs)
    ensures !ok ==> l.Starved() || l.outstanding < 1 || |l.lh| >= LOGSIZE || |l.lh| >= l.area.size - 1
    ensures var all := Elements(old(l.lh)) + Numbers(writes);
            old(l.Alone()) && l.outstanding >= 1 && |all| < LOGSIZE && |all| < l.area.size - 1 ==> ok
  {
    hide Linked;
    hide Recency;
    hide Coherent;
    hide CommitReady;
    hide Pins;
    hide NoBuffer;
    hide LocksKept;
    hide Dry;
    hide Cached;
    ghost var bufs0, lh0 := l.cache.bufs, l.lh;
    var i := 0;
    assert writes[..0] == [];
    L.EasedStarts(bufs0);
    while i < |writes|
      invariant i <= |writes| && l.Ready(pid) && l.cache.disk == old(l.cache.disk) && l.cache.trace == old(l.cache.trace)
      invariant l.cache.flat == Replay(old(l.cache.flat), writes[..i]) && l.lh == AbsorbAll(lh0, writes[..i])
      invariant l.cache.users == old(l.cache.users) && LocksKept(bufs0, l.cache.bufs) && Free(l.cache.bufs, l.area, Numbers(writes))
    {
      assert writes[..i + 1][..i] == writes[..i];
      FewAbsorbed(lh0, writes, i);
      ElementsCount(l.lh);
      NumbersIn(writes, i);
      HasBuffer(l.cache.bufs, l.cache.users, l.cache.disk, l.cache.flat, writes[i].n);
      ghost var bufs1 := l.cache.bufs;
      ok := l.UpdateBlock(pid, writes[i].n, writes[i].data);
      if !ok {
        return;
      }
      FreeKept(bufs1, l.cache.bufs, l.area, Numbers(writes));
      L.LocksTrans(bufs0, bufs1, l.cache.bufs);
      i := i + 1;
    }
    assert writes[..i] == writes;
    ok := true;
  }

  /** The log is empty, no operation is open, and readers see the home blocks of `blocks`. */
  ghost predicate Idle(l: L.Log, pid: nat, blocks: Disk)
    reads l, l.cache
  {
    l.Ready(pid) && l.lh == [] && l.outstanding == 0 && !l.committing && SameHome(l.cache.flat, blocks, l.area)
  }

  /** One transaction of filewrite on an idle log: begin_op, its log_writes, end_op
      (file.c:140-145).  After each of its disk writes, also if it panics, the disk recovers to
      the home blocks from before the transaction or to those after it; if it does not panic,
      those after it are on the disk. */
  method Transact(l: L.Log, pid: nat, sb: SuperBlock, ghost m: Moment, ghost m': Moment, ghost inum: nat, ghost logged: set<nat>, writes: seq<Logged>)
    returns (ok: bool)
    requires Idle(l, pid, m.blocks) && LogBelow(sb, l.area) && Free(l.cache.bufs, l.area, Numbers(writes))
    requires Transaction(sb, m, m', inum, logged) && Traced(sb, m.blocks, m'.blocks, logged, writes)
    modifies l, l.cache
    ensures l.cache.Valid() && old(l.cache.trace) <= l.cache.trace
    ensures forall i :: |old(l.cache.trace)| <= i < |l.cache.trace| ==>
              RecoversTo(l.cache.trace[i], l.area, if i < |old(l.cache.trace)| + |logged| then m.blocks else m'.blocks)
    ensures ok ==> Idle(l, pid, m'.blocks) && SameHome(l.cache.disk, m'.blocks, l.area)
    ensures ok ==> l.cache.users == old(l.cache.users) && LocksKept(old(l.cache.bufs), l.cache.bufs)
    ensures old(l.Alone()) && l.area.size > MAXOPBLOCKS + 1 ==> ok
  {
    hide Linked;
    hide Recency;
    hide Coherent;
    hide Pins;
    hide FileWrite.OthersKept;
    hide L.CommitTraced;
    hide Recovered;
    hide GoodLog;
    hide LocksKept;
    hide L.Supplied;
    hide L.Open;
    hide Free;
    hide Dry;
    HomeNumbers(sb, l.area, m.blocks, m'.blocks, logged, writes);
    AbsorbedLists([], writes);
    ElementsCount(AbsorbAll([], writes));
    NothingListed(writes);
    ghost var d, flat, bufs0 := l.cache.disk, l.cache.flat, l.cache.bufs;
    ReplaySame(flat, m.blocks, l.area, writes);
    assert SameHome(d, m.blocks, l.area);
    var began := l.TryBeginOp();
    ok := Perform(l, pid, writes);
    if ok {
      ghost var t0, ns, j, flat', bufs1 := l.cache.trace, l.lh, 0, l.cache.flat, l.cache.bufs;
      FreeKept(bufs0, bufs1, l.area, Numbers(writes));
      FreeOpen(bufs1, l.area, Numbers(writes), ns);
      ok, j := l.EndOp(pid);
      TraceExtends(t0, l.cache.trace, d, flat', l.area, ns, j);
      L.CommitTraceIsAtomic(t0, l.cache.trace, d, flat', l.area, ns, j);
      forall i | |t0| <= i < |l.cache.trace|
        ensures RecoversTo(l.cache.trace[i], l.area, if i < |t0| + |logged| then m.blocks else m'.blocks)
      {
        assert SameHome(Recovered(l.cache.trace[i], l.area), if i < |t0| + |ns| then d else flat', l.area);
      }
      if ok {
        L.LocksTrans(bufs0, bufs1, l.cache.bufs);
      }
    }
  }

  lemma NothingListed(writes: seq<Logged>)
    ensures Elements([]) + Numbers(writes) == Numbers(writes)
  {
  }

  lemma TraceExtends(t0: seq<Disk>, t: seq<Disk>, d: Disk, flat: Disk, a: Area, ns: seq<nat>, j: nat)
    requires Loggable(ns, a, |d|) && |flat| == |d| && j <= 2 * |ns| + 2 && L.CommitTraced(t0, t, d, flat, a, ns, j)
    ensures t0 <= t
  {
  }

  // ---------- a whole filewrite ----------

  /** Since `t0`, each disk recovers to the home blocks of one of the moments up to `hi`, and to
      no earlier one than the disk before it. */
  ghost predicate Follows(t0: seq<Disk>, t: seq<Disk>, a: Area, moments: seq<Moment>, which: seq<nat>, hi: nat) {
    && t0 <= t && |t| == |t0| + |which| && hi < |moments|
    && (forall i :: 0 <= i < |which| ==> which[i] <= hi)
    && (forall i, j :: 0 <= i < j < |which| ==> which[i] <= which[j])
    && (forall i {:trigger which[i]} :: 0 <= i < |which| ==> RecoversTo(t[|t0| + i], a, moments[which[i]].blocks))
  }

  ghost predicate RecoversTo(d: Disk, a: Area, blocks: Disk) {
    GoodLog(d, a) && SameHome(Recovered(d, a), blocks, a)
  }

  lemma FollowsOn(t0: seq<Disk>, t1: seq<Disk>, t: seq<Disk>, a: Area, moments: seq<Moment>, which: seq<nat>, k: nat, n: nat) returns (which': seq<nat>)
    requires Follows(t0, t1, a, moments, which, k) && k + 1 < |moments| && t1 <= t
    requires forall i :: |t1| <= i < |t| ==> RecoversTo(t[i], a, if i < |t1| + n then moments[k].blocks else moments[k + 1].blocks)
    ensures Follows(t0, t, a, moments, which', k + 1)
  {
    hide RecoversTo;
    which' := which + seq(|t| - |t1|, i => if i < n then k else k + 1);
    forall i | 0 <= i < |which'|
      ensures RecoversTo(t[|t0| + i], a, moments[which'[i]].blocks)
    {
      if i < |which| {
        assert t[|t0| + i] == t1[|t0| + i] && which'[i] == which[i];
      }
    }
  }

  /** The transactions of a filewrite one after the other. */
  method TransactAll(l: L.Log, pid: nat, sb: SuperBlock, ghost inum: nat, ghost c: seq<Byte>, ghost off: nat, ghost addr: seq<Byte>,
                     ghost moments: seq<Moment>, ghost logs: seq<set<nat>>, writes: seq<seq<Logged>>)
    returns (ok: bool, ghost which: seq<nat>)
    requires History(sb, inum, c, off, addr, moments, logs, writes)
    requires Idle(l, pid, moments[0].blocks) && LogBelow(sb, l.area) && forall k :: 0 <= k < |writes| ==> Free(l.cache.bufs, l.area, Numbers(writes[k]))
    modifies l, l.cache
    ensures l.cache.Valid() && Follows(old(l.cache.trace), l.cache.trace, l.area, moments, which, |logs|)
    ensures ok ==> Idle(l, pid, moments[|logs|].blocks) && SameHome(l.cache.disk, moments[|logs|].blocks, l.area)
    ensures old(l.Alone()) && l.area.size > MAXOPBLOCKS + 1 ==> ok
  {
    hide Linked;
    hide Recency;
    hide Coherent;
    hide MomentOk;
    hide Transaction;
    hide Traced;
    hide LocksKept;
    hide Free;
    hide Follows;
    hide RecoversTo;
    ghost var t0, bufs0 := l.cache.trace, l.cache.bufs;
    which := [];
    FollowsNone(t0, l.area, moments);
    HomeOnDisk(l, pid, moments[0].blocks);
    L.EasedStarts(bufs0);
    var k := 0;
    while k < |writes|
      invariant k <= |writes| && Idle(l, pid, moments[k].blocks) && SameHome(l.cache.disk, moments[k].blocks, l.area)
      invariant Follows(t0, l.cache.trace, l.area, moments, which, k)
      invariant LocksKept(bufs0, l.cache.bufs) && l.cache.users == old(l.cache.users)
    {
      ghost var t1, bufs1 := l.cache.trace, l.cache.bufs;
      FreeKept(bufs0, bufs1, l.area, Numbers(writes[k]));
      ok := Transact(l, pid, sb, moments[k], moments[k + 1], inum, logs[k], writes[k]);
      which := FollowsOn(t0, t1, l.cache.trace, l.area, moments, which, k, |logs[k]|);
      if !ok {
        FollowsMore(t0, l.cache.trace, l.area, moments, which, k + 1, |logs|);
        return;
      }
      L.LocksTrans(bufs0, bufs1, l.cache.bufs);
      k := k + 1;
    }
    ok := true;
  }

  lemma FollowsNone(t: seq<Disk>, a: Area, moments: seq<Moment>)
    requires |moments| > 0
    ensures Follows(t, t, a, moments, [], 0)
  {
  }

  lemma FollowsMore(t0: seq<Disk>, t: seq<Disk>, a: Area, moments: seq<Moment>, which: seq<nat>, k: nat, hi: nat)
    requires Follows(t0, t, a, moments, which, k) && k <= hi < |moments|
    ensures Follows(t0, t, a, moments, which, hi)
  {
    hide RecoversTo;
  }

  lemma HomeOnDisk(l: L.Log, pid: nat, blocks: Disk)
    requires Idle(l, pid, blocks)
    ensures SameHome(l.cache.disk, blocks, l.area)
  {
    hide Linked;
    hide Recency;
    hide Coherent;
    hide Pins;
  }

  /** Disk `d` recovers to a file system in order, on which the file has its old bytes with the
      first `w` pieces written over them, and every other file the bytes it had at `m0`. */
  ghost predicate RecoversPieces(sb: SuperBlock, d: Disk, a: Area, m0: Moment, m: Moment, inum: nat, c: seq<Byte>, off: nat, addr: seq<Byte>, w: nat) {
    GoodLog(d, a) &&
    var now := Moment(Recovered(d, a), m.inodes, m.owner);
    MomentOk(sb, now, inum, c, off, addr, Upto(addr, w)) && FileWrite.OthersKept(sb, m0, now, inum)
  }

  lemma PiecesThere(sb: SuperBlock, d: Disk, a: Area, inum: nat, c: seq<Byte>, off: nat, addr: seq<Byte>,
                    moments: seq<Moment>, logs: seq<set<nat>>, writes: seq<seq<Logged>>, w: nat)
    requires History(sb, inum, c, off, addr, moments, logs, writes) && w < |moments| && LogBelow(sb, a) && RecoversTo(d, a, moments[w].blocks)
    ensures RecoversPieces(sb, d, a, moments[0], moments[w], inum, c, off, addr, w)
  {
    hide Own;
    hide FileOk;
    hide GetInode;
    hide Contents;
    hide Transaction;
    hide Traced;
    hide GoodLog;
    hide Recovered;
    assert MomentOk(sb, moments[w], inum, c, off, addr, Upto(addr, w));
    HomeDecides(sb, Recovered(d, a), moments[w], a);
    OthersThroughout(sb, inum, c, off, addr, moments, logs, writes, w);
  }

  /** filewrite (file.c:118-156) on log and cache: whatever it returns, and wherever it stops,
      every disk it leaves behind recovers to a file system in order on which the file has its
      old bytes with the first so many pieces written over them, and later disks have no
      fewer.  If nothing panics, the pieces that fit are on the disk. */
  method FilewriteOnLog(fs: F.FileSystem, f: OpenFile, addr: seq<Byte>, l: L.Log, pid: nat)
    returns (r: F.Io, ok: bool, ghost moments: seq<Moment>, ghost which: seq<nat>)
    requires fs.Valid() && f.inum < |fs.inodes| && f.off < WORD_LIMIT && |addr| < WORD_LIMIT
    requires fs.inodes[f.inum].kind != F.T_DEV && fs.Settled(f.inum)
    requires Idle(l, pid, fs.blocks) && LogBelow(fs.sb, l.area) && forall i :: 0 <= i < NBUF ==> l.cache.bufs[i].holder == NOBODY
    modifies fs, f, l, l.cache
    ensures l.cache.Valid() && old(l.cache.trace) <= l.cache.trace && |l.cache.trace| == |old(l.cache.trace)| + |which|
    ensures forall i, j :: 0 <= i < j < |which| ==> which[i] <= which[j]
    ensures forall i {:trigger which[i]} :: 0 <= i < |which| ==>
              && which[i] < |moments|
              && RecoversPieces(fs.sb, l.cache.trace[|old(l.cache.trace)| + i], l.area, old(Now(fs)), moments[which[i]], f.inum,
                                old(Contents(fs.blocks, fs.inodes[f.inum])), old(f.off), addr, which[i])
    ensures ok && !r.Panic? ==> SameHome(l.cache.disk, fs.blocks, l.area)
    ensures var fit := Fitting(old(fs.inodes)[f.inum].size, old(f.off), |addr|);
            && (r.Panic? <==> f.writable && !HasRoom(fs.sb, old(fs.blocks), old(fs.inodes)[f.inum], old(fs.owner), Reach(old(f.off), old(f.off) + fit)))
            && (r.Count? <==> f.writable && !r.Panic? && fit == |addr|) && (r.Count? ==> r.n == |addr|)
            && (f.writable && !r.Panic? ==>
                  && f.off == old(f.off) + fit && fs.Valid() && f.inum < |fs.inodes| && fs.Settled(f.inum)
                  && Spliced(Contents(fs.blocks, fs.inodes[f.inum]), old(Contents(fs.blocks, fs.inodes[f.inum])), old(f.off), addr, fit))
    ensures old(l.Alone()) && l.area.size > MAXOPBLOCKS + 1 ==> ok
  {
    hide Own;
    hide GetInode;
    hide Contents;
    hide HasRoom;
    hide Reach;
    hide Fitting;
    hide Linked;
    hide Recency;
    hide Coherent;
    hide History;
    hide RecoversPieces;
    hide RecoversTo;
    hide Spliced;
    hide SameHome;
    ghost var logs;
    var writes;
    ghost var m0, c, off := Now(fs), Contents(fs.blocks, fs.inodes[f.inum]), f.off;
    r, moments, logs, writes := Filewrite(fs, f, addr);
    HistorySize(fs.sb, f.inum, c, off, addr, moments, logs, writes);
    ok, which := TransactAll(l, pid, fs.sb, f.inum, c, off, addr, moments, logs, writes);
    forall i | 0 <= i < |which|
      ensures RecoversPieces(fs.sb, l.cache.trace[|old(l.cache.trace)| + i], l.area, m0, moments[which[i]], f.inum, c, off, addr, which[i])
    {
      PiecesThere(fs.sb, l.cache.trace[|old(l.cache.trace)| + i], l.area, f.inum, c, off, addr, moments, logs, writes, which[i]);
    }
  }

  lemma HistorySize(sb: SuperBlock, inum: nat, c: seq<Byte>, off: nat, addr: seq<Byte>, moments: seq<Moment>, logs: seq<set<nat>>, writes: seq<seq<Logged>>)
    requires History(sb, inum, c, off, addr, moments, logs, writes)
    ensures |moments| == |logs| + 1 && |writes| == |logs|
  {
  }
}

/** log.c over the buffer cache. */
module Log {
  import opened Sequences
  import opened Blocks
  import opened Options
  import opened LogSpec
  import opened BufferCache

  class Log {
    const area: Area
    const cache: BufferCache<Block>
    var lh: seq<nat>      // log.lh.block[..log.lh.n]
    var outstanding: int  // operations between begin_op and end_op
    var committing: bool

    /** initlog before recovery (log.c:60-64). */
    constructor (area: Area, cache: BufferCache<Block>)
      ensures this.area == area && this.cache == cache && lh == [] && outstanding == 0 && !committing
    {
      this.area, this.cache, lh := area, cache, [];
      outstanding, committing := 0, false;
    }

    /** Process `pid` uses no buffer. */
    ghost predicate Quiet(pid: nat)
      reads cache
    {
      cache.Valid() && pid != NOBODY && forall i :: 0 <= i < NBUF ==> pid !in cache.users[i]
    }

    /** The buffers of the log area and of the blocks `ns` are not locked. */
    ghost predicate Unlocked(ns: seq<nat>)
      reads cache
    {
      Open(cache.bufs, area, ns)
    }

    /** No process uses any buffer. */
    ghost predicate Alone()
      reads cache
    {
      |cache.users| == NBUF && forall i :: 0 <= i < NBUF ==> cache.users[i] == {}
    }

    ghost predicate Starved()
      reads cache
    {
      Dry(cache.bufs)
    }

    ghost function Pinned(): set<nat>
      reads cache
      requires |cache.bufs| > NBUF
    {
      Pins(cache.bufs, NBUF)
    }

    ghost function Logged(): set<nat>
      reads this
    {
      Elements(lh)
    }

    /** Process `pid` holds buffer `x` for block `m` and `y` for block `n`. */
    ghost predicate HasPair(pid: nat, x: nat, m: nat, y: nat, n: nat)
      reads cache
    {
      && cache.Valid() && pid != NOBODY && x != y
      && cache.Holds(pid, x) && Caches(cache.bufs[x], 1, m)
      && cache.Holds(pid, y) && Caches(cache.bufs[y], 1, n)
      && m < |cache.flat| && n < |cache.flat|
      && cache.bufs[x].data == cache.flat[m] && cache.bufs[y].data == cache.flat[n]
      && pid in cache.users[x] && pid in cache.users[y]
      && forall i :: 0 <= i < NBUF && i != x && i != y ==> pid !in cache.users[i]
    }

    /** Two breads in a row, of blocks whose buffers are not locked.  If the second block is
        pinned, only the first can fail. */
    method BreadPair(pid: nat, m: nat, n: nat) returns (ok: bool, x: nat, y: nat)
      requires Quiet(pid) && m != n && cache.Available(pid, 1, m) && cache.Available(pid, 1, n)
      modifies cache
      ensures cache.Valid() && cache.disk == old(cache.disk) && cache.flat == old(cache.flat) && cache.trace == old(cache.trace)
      ensures ok ==> HasPair(pid, x, m, y, n) && Lent(old(cache.bufs), cache.bufs, x, y)
      ensures ok ==> cache.users == old(cache.users)[x := old(cache.users)[x] + {pid}][y := old(cache.users)[y] + {pid}]
      ensures ok ==> pid !in old(cache.users)[x] && pid !in old(cache.users)[y]
      ensures !ok ==> m >= |cache.disk| || n >= |cache.disk| || Starved()
      ensures ok ==> !NoBuffer(old(cache.bufs), 1, m)
      ensures m < |cache.disk| && n < |cache.disk| && !NoBuffer(old(cache.bufs), 1, m) && n in old(Pinned()) ==> ok
      ensures m < |cache.disk| && n < |cache.disk| && old(Alone()) && old(Pinned()) == {} ==> ok
    {
      hide Linked;
      hide Recency;
      hide Coherent;
      hide Pins;
      hide NoBuffer;
      HasBuffer(cache.bufs, cache.users, cache.disk, cache.flat, m);
      var r := cache.Bread(pid, 1, m);
      if r.None? {
        NoBufferIs(cache.bufs, m);
        return false, 0, 0;
      }
      HasBuffer(cache.bufs, cache.users, cache.disk, cache.flat, n);
      if old(Alone()) {
        SecondBuffer(cache.bufs, cache.users, cache.disk, cache.flat, r.value, n);
      }
      InUse(cache.bufs, cache.users, cache.disk, cache.flat, r.value, pid);
      var s := cache.Bread(pid, 1, n);
      if s.None? {
        NoBufferIs(cache.bufs, n);
        return false, 0, 0;
      }
      return true, r.value, s.value;
    }

    /** memmove from buffer `x` to `y`, bwrite `y`, brelse both. */
    method Transfer(pid: nat, x: nat, m: nat, y: nat, n: nat)
      requires HasPair(pid, x, m, y, n) && m != n
      modifies cache
      ensures Quiet(pid) && Returned(old(cache.bufs), cache.bufs, x, y)
      ensures n < |cache.disk| && m < |old(cache.flat)|
      ensures cache.flat == old(cache.flat)[n := old(cache.flat)[m]]
      ensures cache.disk == old(cache.disk)[n := old(cache.flat)[m]]
      ensures cache.trace == old(cache.trace) + [cache.disk]
      ensures cache.users == old(cache.users)[x := old(cache.users)[x] - {pid}][y := old(cache.users)[y] - {pid}]
    {
      hide Linked;
      hide Recency;
      hide Coherent;
      HeldBlock(cache.bufs, cache.users, cache.disk, cache.flat, y);
      cache.SetData(pid, y, cache.bufs[x].data);
      var ok := cache.Bwrite(pid, y);
      ok := cache.Brelse(pid, x);
      ok := cache.Brelse(pid, y);
    }

    /** One turn of the loop of write_log (log.c:183-188). */
    method LogOne(pid: nat, home: nat, slot: nat) returns (ok: bool)
      requires Quiet(pid) && home != slot && cache.Available(pid, 1, slot) && cache.Available(pid, 1, home)
      modifies cache
      ensures cache.Valid()
      ensures !ok ==> Unwritten(old(cache.disk), old(cache.flat), old(cache.trace))
      ensures !ok ==> home >= |cache.disk| || slot >= |cache.disk| || Starved()
      ensures home < |cache.disk| && slot < |cache.disk| && home in old(Pinned()) ==> (ok <==> !NoBuffer(old(cache.bufs), 1, slot))
      ensures ok ==> Quiet(pid) && Copied(old(cache.disk), old(cache.flat), old(cache.trace), home, slot)
      ensures ok ==> cache.users == old(cache.users) && Pinned() == old(Pinned()) - {slot}
      ensures ok ==> Served(old(cache.bufs), cache.bufs, slot) && LocksKept(old(cache.bufs), cache.bufs)
    {
      hide Linked;
      hide Recency;
      hide Coherent;
      hide Pins;
      hide NoBuffer;
      hide Served;
      hide LocksKept;
      hide Lent;
      hide Returned;
      ghost var bufs0, users0, flat0 := cache.bufs, cache.users, cache.flat;
      var got, to, from := BreadPair(pid, slot, home);
      if !got {
        return false;
      }
      ghost var bufs1, users1, flat1 := cache.bufs, cache.users, cache.flat;
      Transfer(pid, from, home, to, slot);
      assert cache.users == users0;
      ServedBy(bufs0, bufs1, cache.bufs, users0, users1, cache.disk, flat0, flat1, cache.flat, from, to, slot, old(cache.disk));
      ServedPins(bufs0, cache.bufs, slot);
      ServedLocks(bufs0, cache.bufs, slot, users0, old(cache.disk), flat0);
      return true;
    }

    /** One turn of the loop of install_trans (log.c:75-80). */
    method InstallOne(pid: nat, slot: nat, home: nat) returns (ok: bool)
      requires Quiet(pid) && home != slot && cache.Available(pid, 1, slot) && cache.Available(pid, 1, home)
      modifies cache
      ensures cache.Valid()
      ensures !ok ==> Unwritten(old(cache.disk), old(cache.flat), old(cache.trace))
      ensures !ok ==> home >= |cache.disk| || slot >= |cache.disk| || Starved()
      ensures home < |cache.disk| && slot < |cache.disk| && home in old(Pinned()) ==> (ok <==> !NoBuffer(old(cache.bufs), 1, slot))
      ensures home < |cache.disk| && slot < |cache.disk| && old(Alone()) && old(Pinned()) == {} ==> ok
      ensures ok ==> Quiet(pid) && Copied(old(cache.disk), old(cache.flat), old(cache.trace), slot, home)
      ensures ok ==> cache.users == old(cache.users) && Pinned() == old(Pinned()) - {home}
      ensures ok ==> Served(old(cache.bufs), cache.bufs, home) && LocksKept(old(cache.bufs), cache.bufs)
    {
      hide Linked;
      hide Recency;
      hide Coherent;
      hide Pins;
      hide NoBuffer;
      hide Served;
      hide LocksKept;
      hide Lent;
      hide Returned;
      ghost var bufs0, users0, flat0 := cache.bufs, cache.users, cache.flat;
      var got, lbuf, dbuf := BreadPair(pid, slot, home);
      if !got {
        return false;
      }
      ghost var bufs1, users1, flat1 := cache.bufs, cache.users, cache.flat;
      Transfer(pid, lbuf, slot, dbuf, home);
      assert cache.users == users0;
      ServedBy(bufs0, bufs1, cache.bufs, users0, users1, cache.disk, flat0, flat1, cache.flat, lbuf, dbuf, home, old(cache.disk));
      ServedPins(bufs0, cache.bufs, home);
      ServedLocks(bufs0, cache.bufs, home, users0, old(cache.disk), flat0);
      return true;
    }

    lemma Reachable(pid: nat, ns: seq<nat>, n: nat)
      requires Quiet(pid) && Unlocked(ns) && (InLog(area, n) || n in ns)
      ensures cache.Available(pid, 1, n)
    {
    }

    ghost predicate Unwritten(disk: Disk, flat: Disk, trace: seq<Disk>)
      reads cache
    {
      cache.disk == disk && cache.flat == flat && cache.trace == trace
    }

    /** Since the given state, the content of block `m` has been written to `n`. */
    ghost predicate Copied(disk: Disk, flat: Disk, trace: seq<Disk>, m: nat, n: nat)
      reads cache
    {
      && m < |flat| && n < |flat| == |disk|
      && cache.disk == disk[n := flat[m]]
      && cache.flat == flat[n := flat[m]]
      && cache.trace == trace + [cache.disk]
    }

    /** write_log (log.c:178-190).  It made `k` writes, all of them unless a panic
        stopped it. */
    method WriteLog(pid: nat) returns (ok: bool, ghost k: nat)
      requires Quiet(pid) && Loggable(lh, area, |cache.disk|) && Pinned() == Logged() && Unlocked(lh)
      modifies cache
      ensures cache.Valid() && k <= |lh| && (ok ==> k == |lh| && Quiet(pid))
      ensures ok ==> cache.users == old(cache.users) && Pinned() == old(Pinned())
      ensures ok ==> LocksKept(old(cache.bufs), cache.bufs) && Steady(old(cache.bufs), cache.bufs)
      ensures ok <==> Supplied(old(cache.bufs), area.start + 1, area.start + |lh|)
      ensures !ok ==> Starved() && (!Cached(old(cache.bufs), area.start + 1) ==> k == 0)
      ensures CopiedToLog(old(cache.trace), old(cache.disk), old(cache.flat), area, lh, k, cache.disk, cache.flat, cache.trace)
    {
      hide Linked;
      hide Recency;
      hide Coherent;
      hide Pins;
      hide CopiedToLog;
      hide NoBuffer;
      hide Served;
      hide LocksKept;
      hide Steady;
      hide Supplied;
      hide Open;
      ghost var disk0, flat0, bufs0 := cache.disk, cache.flat, cache.bufs;
      CopyStarts(cache.trace, disk0, flat0, area, lh);
      SteadyStarts(bufs0, area.start + 1);
      var tail := 0;
      k := 0;
      while tail < |lh|
        invariant k == tail <= |lh| && Quiet(pid) && Unlocked(lh)
        invariant cache.users == old(cache.users) && Pinned() == old(Pinned())
        invariant LocksKept(bufs0, cache.bufs) && Steady(bufs0, cache.bufs) && Supplied(bufs0, area.start + 1, area.start + k)
        invariant CopiedToLog(old(cache.trace), disk0, flat0, area, lh, k, cache.disk, cache.flat, cache.trace)
      {
        CopyTurn(old(cache.trace), disk0, flat0, area, lh, k, cache.disk, cache.flat, cache.trace);
        Reachable(pid, lh, area.start + tail + 1);
        Reachable(pid, lh, lh[tail]);
        ghost var bufs1 := cache.bufs;
        SupplyTurn(bufs0, bufs1, area.start + 1, area.start + tail + 1, area.start + |lh|);
        ok := LogOne(pid, lh[tail], area.start + tail + 1);
        if !ok {
          return;
        }
        LocksTrans(bufs0, bufs1, cache.bufs);
        OpenKept(bufs1, cache.bufs, area, lh);
        SteadyNext(bufs0, bufs1, cache.bufs, area.start + tail + 1);
        tail, k := tail + 1, k + 1;
      }
      ok := true;
    }

    /** install_trans (log.c:70-82). */
    method InstallTrans(pid: nat) returns (ok: bool, ghost k: nat)
      requires Quiet(pid) && Loggable(lh, area, |cache.disk|)
      requires forall n :: area.start < n < area.start + area.size ==> cache.flat[n] == cache.disk[n]
      requires (Pinned() == {} || (Pinned() == Logged() && Distinct(lh))) && Unlocked(lh)
      modifies cache
      ensures cache.Valid() && k <= |lh| && (ok ==> k == |lh| && Quiet(pid))
      ensures ok ==> cache.users == old(cache.users) && Pinned() == {}
      ensures ok ==> LocksKept(old(cache.bufs), cache.bufs) && Eased(old(cache.bufs), cache.bufs)
      ensures !ok ==> Starved()
      ensures old(Pinned()) == Logged() && Supplied(old(cache.bufs), area.start + 1, area.start + |lh|) ==> ok
      ensures old(Alone()) && old(Pinned()) == {} ==> ok
      ensures Installed(old(cache.trace), old(cache.disk), old(cache.flat), area, lh, k, cache.disk, cache.flat, cache.trace)
    {
      hide Linked;
      hide Recency;
      hide Coherent;
      hide Pins;
      hide Installed;
      hide Left;
      hide Elements;
      hide NoBuffer;
      hide Served;
      hide LocksKept;
      hide Eased;
      hide Supplied;
      hide Open;
      LeftEnds(old(Pinned()), lh);
      ghost var disk0, flat0, bufs0 := cache.disk, cache.flat, cache.bufs;
      EasedStarts(bufs0);
      InstallStarts(cache.trace, disk0, flat0, area, lh);
      var tail := 0;
      k := 0;
      while tail < |lh|
        invariant k == tail <= |lh| && Quiet(pid) && Unlocked(lh)
        invariant cache.users == old(cache.users) && Pinned() == Left(old(Pinned()), lh, k)
        invariant LocksKept(bufs0, cache.bufs) && Eased(bufs0, cache.bufs)
        invariant Installed(old(cache.trace), disk0, flat0, area, lh, k, cache.disk, cache.flat, cache.trace)
      {
        InstallTurn(old(cache.trace), disk0, flat0, area, lh, k, cache.disk, cache.flat, cache.trace);
        LeftNext(old(Pinned()), lh, k);
        Reachable(pid, lh, area.start + tail + 1);
        Reachable(pid, lh, lh[tail]);
        ghost var bufs1 := cache.bufs;
        EasedSupply(bufs0, bufs1, area.start + 1, area.start + |lh|, area.start + tail + 1);
        ok := InstallOne(pid, area.start + tail + 1, lh[tail]);
        if !ok {
          return;
        }
        LocksTrans(bufs0, bufs1, cache.bufs);
        OpenKept(bufs1, cache.bufs, area, lh);
        EasedNext(bufs0, bufs1, cache.bufs, lh[tail]);
        tail, k := tail + 1, k + 1;
      }
      ok := true;
    }

    /** The stores of write_head into the header buffer (log.c:107-110). */
    method FillHeader(b: Block) returns (hb: Block)
      requires |lh| <= LOGSIZE && forall i :: 0 <= i < |lh| ==> lh[i] < WORD_LIMIT
      ensures hb == PutHeader(b, lh, |lh|)
    {
      hb := PutWord(b, 0, |lh|);
      var i := 0;
      while i < |lh|
        invariant i <= |lh| && hb == PutHeader(b, lh, i)
      {
        hb := PutWord(hb, i + 1, lh[i]);
        i := i + 1;
      }
    }

    /** write_head (log.c:102-113). */
    method WriteHead(pid: nat) returns (ok: bool)
      requires Quiet(pid) && |lh| <= LOGSIZE && forall i :: 0 <= i < |lh| ==> lh[i] < WORD_LIMIT
      requires area.start < |cache.disk| && cache.flat[area.start] == cache.disk[area.start] && cache.Available(pid, 1, area.start)
      modifies cache
      ensures cache.Valid()
      ensures ok <==> !NoBuffer(old(cache.bufs), 1, area.start)
      ensures !ok ==> Unwritten(old(cache.disk), old(cache.flat), old(cache.trace)) && Starved()
      ensures ok ==> Quiet(pid) && cache.users == old(cache.users) && Pinned() == old(Pinned()) - {area.start}
      ensures ok ==> Served(old(cache.bufs), cache.bufs, area.start) && LocksKept(old(cache.bufs), cache.bufs)
      ensures ok ==> cache.disk == WithHeader(old(cache.disk), area.start, lh)
      ensures ok ==> cache.flat == WithHeader(old(cache.flat), area.start, lh)
      ensures ok ==> cache.trace == old(cache.trace) + [cache.disk]
    {
      hide Linked;
      hide Recency;
      hide Coherent;
      hide PutHeader;
      hide Pins;
      hide NoBuffer;
      hide Served;
      hide LocksKept;
      ghost var bufs0, users0, disk0, flat0 := cache.bufs, cache.users, cache.disk, cache.flat;
      var r := cache.Bread(pid, 1, area.start);
      if r.None? {
        NoBufferIs(cache.bufs, area.start);
        return false;
      }
      var b := r.value;
      ghost var bufs1, users1 := cache.bufs, cache.users;
      var hb := FillHeader(cache.bufs[b].data);
      StoreAndRelease(pid, b, hb);
      ok := true;
      assert cache.users == users0;
      ServedBy(bufs0, bufs1, cache.bufs, users0, users1, cache.disk, flat0, flat0, cache.flat, b, b, area.start, disk0);
      ServedPins(bufs0, cache.bufs, area.start);
      ServedLocks(bufs0, cache.bufs, area.start, users0, disk0, flat0);
    }

    /** A held buffer is filled, written and given up (log.c:107-112). */
    method StoreAndRelease(pid: nat, b: nat, data: Block)
      requires cache.Valid() && pid != NOBODY && cache.Holds(pid, b) && pid in cache.users[b]
      modifies cache
      ensures cache.Valid() && Returned(old(cache.bufs), cache.bufs, b, b)
      ensures var n := old(cache.bufs)[b].blockno;
              && n < |old(cache.disk)| == |old(cache.flat)| && cache.disk == old(cache.disk)[n := data] && cache.flat == old(cache.flat)[n := data]
      ensures cache.trace == old(cache.trace) + [cache.disk] && cache.users == old(cache.users)[b := old(cache.users)[b] - {pid}]
    {
      hide Linked;
      hide Recency;
      hide Coherent;
      HeldBlock(cache.bufs, cache.users, cache.disk, cache.flat, b);
      cache.SetData(pid, b, data);
      var ok := cache.Bwrite(pid, b);
      ok := cache.Brelse(pid, b);
    }

    /** The loads of read_head from the header buffer (log.c:91-94). */
    static method ParseHeader(hb: Block) returns (ns: seq<nat>)
      requires HeaderCount(hb) <= LOGSIZE
      ensures ns == HeaderBlocks(hb)
    {
      ns := [];
      while |ns| < WordAt(hb, 0)
        invariant |ns| <= HeaderCount(hb) && ns == HeaderBlocks(hb)[..|ns|]
      {
        ns := ns + [WordAt(hb, |ns| + 1)];
      }
    }

    /** read_head (log.c:85-96). */
    method ReadHead(pid: nat) returns (ok: bool)
      requires Quiet(pid) && area.start < |cache.disk| && HeaderCount(cache.flat[area.start]) <= LOGSIZE && cache.Available(pid, 1, area.start)
      modifies this`lh, cache
      ensures cache.Valid() && Unwritten(old(cache.disk), old(cache.flat), old(cache.trace))
      ensures ok ==> Quiet(pid) && lh == HeaderBlocks(cache.flat[area.start])
      ensures ok ==> cache.users == old(cache.users) && Pinned() == old(Pinned()) && LocksKept(old(cache.bufs), cache.bufs)
      ensures ok <==> !NoBuffer(old(cache.bufs), 1, area.start)
      ensures !ok ==> Starved()
    {
      hide Linked;
      hide Recency;
      hide Coherent;
      hide Pins;
      hide NoBuffer;
      hide LocksKept;
      ghost var bufs0, users0 := cache.bufs, cache.users;
      var r := cache.Bread(pid, 1, area.start);
      if r.None? {
        NoBufferIs(cache.bufs, area.start);
        return false;
      }
      var b := r.value;
      lh := ParseHeader(cache.bufs[b].data);
      ghost var bufs1 := cache.bufs;
      ok := cache.Brelse(pid, b);
      PinsSame(bufs1, cache.bufs);
      assert cache.users == users0;
      ReadLocks(bufs0, bufs1, cache.bufs, users0, cache.disk, cache.flat, b);
    }

    /** recover_from_log (log.c:116-122), on a cache that agrees with the disk and pins
        nothing, as at boot. */
    method RecoverFromLog(pid: nat) returns (ok: bool, ghost k: nat)
      requires Quiet(pid) && GoodLog(cache.disk, area) && cache.flat == cache.disk && Pinned() == {}
      requires Unlocked(HeaderBlocks(cache.disk[area.start]))
      modifies this`lh, cache
      ensures cache.Valid() && k <= RecoveryWrites(old(cache.disk), area)
      ensures cache.flat == cache.disk == RecoveryDisk(old(cache.disk), area, k)
      ensures RecoveryTraced(old(cache.trace), cache.trace, old(cache.disk), area, k)
      ensures ok ==> k == RecoveryWrites(old(cache.disk), area) && Ready(pid) && lh == []
      ensures old(Alone()) ==> ok
      ensures !ok ==> Starved()
    {
      hide Linked;
      hide Recency;
      hide Coherent;
      hide Pins;
      hide Installed;
      hide RecoveryTraced;
      hide RecoveryDisk;
      hide WithHeader;
      hide NoBuffer;
      hide Served;
      hide LocksKept;
      hide Open;
      ghost var bufs0, ns := cache.bufs, HeaderBlocks(cache.disk[area.start]);
      k := 0;
      HasBuffer(cache.bufs, cache.users, cache.disk, cache.flat, area.start);
      Reachable(pid, ns, area.start);
      ok := ReadHead(pid);
      RecoveryStarts(cache.trace, cache.disk, area);
      if !ok {
        return;
      }
      OpenKept(bufs0, cache.bufs, area, ns);
      ghost var bufs1 := cache.bufs;
      ok, k := InstallTrans(pid);
      RecoveryInstalled(old(cache.trace), old(cache.disk), area, k, cache.disk, cache.flat, cache.trace);
      if !ok {
        return;
      }
      RecoveryCleared(old(cache.trace), old(cache.disk), area, cache.disk, cache.trace);
      OpenKept(bufs1, cache.bufs, area, ns);
      Reachable(pid, ns, area.start);
      HasBuffer(cache.bufs, cache.users, cache.disk, cache.flat, area.start);
      lh := [];
      ok := WriteHead(pid);
      if ok {
        k := k + 1;
      }
    }

    /** Between transactions: what is not logged is on the disk, the log is empty there, and
        the cache pins the logged blocks. */
    ghost predicate Ready(pid: nat)
      reads this, cache
    {
      Quiet(pid) && Recorded()
    }

    ghost predicate Recorded()
      reads this, cache
    {
      && CommitReady(cache.disk, cache.flat, area, lh)
      && |cache.bufs| == NBUF + 1 && Pinned() == Logged() && Distinct(lh)
      && forall n :: area.start <= n < area.start + area.size ==> cache.flat[n] == cache.disk[n]
    }

    /** The first two steps of commit (log.c:196-197). */
    method LogAndCommit(pid: nat) returns (ok: bool, ghost j: nat)
      requires Ready(pid) && Unlocked(lh)
      modifies cache
      ensures cache.Valid() && j <= |lh| + 1
      ensures CommitTraced(old(cache.trace), cache.trace, old(cache.disk), old(cache.flat), area, lh, j)
      ensures ok ==> j == |lh| + 1 && Quiet(pid) && cache.users == old(cache.users) && Pinned() == Logged()
      ensures ok ==> LocksKept(old(cache.bufs), cache.bufs) && Steady(old(cache.bufs), cache.bufs)
      ensures ok <==> Supplied(old(cache.bufs), area.start, area.start + |lh|)
      ensures !ok ==> Starved() && (lh != [] && !Cached(old(cache.bufs), area.start + 1) ==> j == 0)
      ensures ok ==> cache.disk == CommitDisk(old(cache.disk), old(cache.flat), area, lh, |lh| + 1)
      ensures ok ==> cache.flat == WithHeader(CopyToLog(old(cache.flat), old(cache.flat), area.start, lh, |lh|), area.start, lh)
      ensures ok ==> forall n :: area.start <= n < area.start + area.size ==> cache.flat[n] == cache.disk[n]
    {
      hide Linked;
      hide Recency;
      hide Coherent;
      hide CopyToLog;
      hide Install;
      hide PutHeader;
      hide WordAt;
      hide Pins;
      hide CopiedToLog;
      hide CommitTraced;
      hide CommitDisk;
      hide WithHeader;
      hide NoBuffer;
      hide Served;
      hide LocksKept;
      hide Steady;
      hide Supplied;
      hide Open;
      ghost var bufs0 := cache.bufs;
      SupplySplit(bufs0, area.start, area.start + |lh|);
      ok, j := WriteLog(pid);
      CopiedTraced(old(cache.trace), old(cache.disk), old(cache.flat), area, lh, j, cache.disk, cache.flat, cache.trace);
      if !ok {
        return;
      }
      HeaderTraced(old(cache.trace), old(cache.disk), old(cache.flat), area, lh, cache.disk, cache.flat, cache.trace);
      ghost var bufs1 := cache.bufs;
      OpenKept(bufs0, bufs1, area, lh);
      Reachable(pid, lh, area.start);
      SupplyHead(bufs0, bufs1, area.start, area.start + |lh|);
      ok := WriteHead(pid);
      if ok {
        LocksTrans(bufs0, bufs1, cache.bufs);
        SteadyNext(bufs0, bufs1, cache.bufs, area.start);
        j := j + 1;
      }
    }

    /** The last three steps of commit (log.c:198-200), of a transaction that
        started from disk `d` and view `flat`. */
    method InstallAndClear(pid: nat, ghost d: Disk, ghost flat: Disk, ghost t: seq<Disk>) returns (ok: bool, ghost j: nat)
      requires CommitReady(d, flat, area, lh) && Quiet(pid) && Pinned() == Logged() && Distinct(lh) && Unlocked(lh)
      requires cache.disk == CommitDisk(d, flat, area, lh, |lh| + 1)
      requires cache.flat == WithHeader(CopyToLog(flat, flat, area.start, lh, |lh|), area.start, lh)
      requires forall n :: area.start <= n < area.start + area.size ==> cache.flat[n] == cache.disk[n]
      requires CommitTraced(t, cache.trace, d, flat, area, lh, |lh| + 1)
      modifies this`lh, cache
      ensures cache.Valid() && j <= 2 * |old(lh)| + 2 && (ok ==> j == 2 * |old(lh)| + 2)
      ensures CommitTraced(t, cache.trace, d, flat, area, old(lh), j)
      ensures ok ==> Ready(pid) && lh == [] && SameHome(cache.disk, flat, area) && SameHome(cache.flat, flat, area)
      ensures ok ==> cache.users == old(cache.users) && LocksKept(old(cache.bufs), cache.bufs)
      ensures !ok ==> Starved()
      ensures Supplied(old(cache.bufs), area.start, area.start + |old(lh)|) ==> ok
    {
      hide Linked;
      hide Recency;
      hide Coherent;
      hide CopyToLog;
      hide Install;
      hide PutHeader;
      hide WordAt;
      hide CommitTraced;
      hide CommitDisk;
      hide SameHome;
      hide Pins;
      hide Installed;
      hide NoBuffer;
      hide Served;
      hide LocksKept;
      hide Eased;
      hide Supplied;
      hide Open;
      ghost var bufs0 := cache.bufs;
      SupplySplit(bufs0, area.start, area.start + |lh|);
      ghost var ns, t1, disk1, flat1 := lh, cache.trace, cache.disk, cache.flat;
      ok, j := InstallTrans(pid);
      CommitInstallTraced(t, t1, cache.trace, d, flat, area, ns, j, disk1, flat1, cache.disk, cache.flat);
      if !ok {
        j := |ns| + 1 + j;
        return;
      }
      CommitCleared(t, d, flat, area, ns, disk1, flat1, cache.disk, cache.flat, t1, cache.trace);
      j := |ns| + 1 + j;
      ghost var bufs1 := cache.bufs;
      OpenKept(bufs0, bufs1, area, ns);
      Reachable(pid, ns, area.start);
      EasedSupply(bufs0, bufs1, area.start, area.start + |ns|, area.start);
      lh := [];
      ok := WriteHead(pid);
      if ok {
        LocksTrans(bufs0, bufs1, cache.bufs);
        j := j + 1;
      }
    }

    /** commit (log.c:193-202).  It made `j` writes, all of them unless a panic
        stopped it; a crash after any of them is atomic. */
    method Commit(pid: nat) returns (ok: bool, ghost j: nat)
      requires Ready(pid) && Unlocked(lh)
      modifies this`lh, cache
      ensures cache.Valid() && j <= 2 * |old(lh)| + 2
      ensures ok ==> j == if old(lh) == [] then 0 else 2 * |old(lh)| + 2
      ensures CommitTraced(old(cache.trace), cache.trace, old(cache.disk), old(cache.flat), area, old(lh), j)
      ensures ok ==> Ready(pid) && lh == [] && SameHome(cache.disk, old(cache.flat), area) && SameHome(cache.flat, old(cache.flat), area)
      ensures ok <==> old(lh) == [] || Supplied(old(cache.bufs), area.start, area.start + |old(lh)|)
      ensures !old(Starved()) ==> ok
      ensures |old(lh)| >= NBUF ==> !ok && j == 0
      ensures old(Alone()) ==> (ok <==> |old(lh)| < NBUF)
      ensures ok ==> cache.users == old(cache.users) && LocksKept(old(cache.bufs), cache.bufs)
      ensures !ok ==> Starved()
    {
      hide Linked;
      hide Recency;
      hide Coherent;
      hide CopyToLog;
      hide Install;
      hide PutHeader;
      hide WordAt;
      hide Pins;
      hide Dry;
      hide LocksKept;
      hide Steady;
      hide Supplied;
      hide Open;
      ghost var d, flat, t, bufs0 := cache.disk, cache.flat, cache.trace, cache.bufs;
      ElementsCount(lh);
      SupplyFacts(bufs0, cache.users, d, flat, area.start, area.start + |lh|);
      if |lh| == 0 {
        return true, 0;
      }
      ok, j := LogAndCommit(pid);
      if ok {
        OpenKept(bufs0, cache.bufs, area, lh);
        SupplySteady(bufs0, cache.bufs, area.start, area.start + |lh|);
        ghost var bufs1 := cache.bufs;
        ok, j := InstallAndClear(pid, d, flat, t);
        LocksTrans(bufs0, bufs1, cache.bufs);
      }
    }

    /** log_write (log.c:214-233) by a process that holds buffer `b`; `ok` is false
        on its panics. */
    method LogWrite(pid: nat, b: nat) returns (ok: bool)
      requires cache.Valid() && pid != NOBODY && cache.Holds(pid, b)
      requires Recorded() && !InLog(area, cache.bufs[b].blockno)
      modifies this`lh, cache
      ensures cache.Valid() && Recorded()
      ensures ok <==> old(|lh| < LOGSIZE && |lh| < area.size - 1 && outstanding >= 1)
      ensures !ok ==> lh == old(lh) && cache.flat == old(cache.flat)
      ensures ok ==>
                var x := old(cache.bufs)[b];
                && x.blockno < |cache.flat|
                && lh == Absorb(old(lh), x.blockno)
                && cache.flat == old(cache.flat)[x.blockno := x.data]
                && cache.bufs == old(cache.bufs)[b := x.(dirty := true)]
      ensures cache.disk == old(cache.disk) && cache.trace == old(cache.trace) && cache.users == old(cache.users)
    {
      hide Linked;
      hide Recency;
      hide Coherent;
      hide Pins;
      HeldBlock(cache.bufs, cache.users, cache.disk, cache.flat, b);
      if |lh| >= LOGSIZE || |lh| >= area.size - 1 || outstanding < 1 {
        return false;
      }
      PinsChanged(cache.bufs, cache.users, cache.disk, cache.flat, b, cache.bufs[b].(dirty := true));
      lh := Record(cache.bufs[b].blockno);
      assert Logged() == old(Logged()) + {cache.bufs[b].blockno};
      cache.MarkDirty(pid, b);
      return true;
    }

    /** The search and store of log_write (log.c:224-230). */
    method Record(blockno: nat) returns (ns: seq<nat>)
      ensures ns == Absorb(lh, blockno)
    {
      var i := 0;
      while i < |lh|
        invariant i <= |lh| && blockno !in lh[..i]
      {
        if lh[i] == blockno {
          return lh[i := blockno];
        }
        i := i + 1;
      }
      return lh + [blockno];
    }

    /** bread, a change of the data, log_write, brelse: how fs.c changes a block (fs.c:229-234,
        and so on), whatever other buffers the process holds.  What readers see changes in that
        block, the disk does not, and the block is in the next commit. */
    method UpdateBlock(pid: nat, n: nat, data: Block) returns (ok: bool)
      requires cache.Valid() && pid != NOBODY && Recorded() && cache.Available(pid, 1, n)
      requires n < |cache.disk| && !InLog(area, n)
      modifies this`lh, cache
      ensures cache.Valid() && Recorded() && cache.disk == old(cache.disk) && cache.trace == old(cache.trace)
      ensures ok <==> old(|lh| < LOGSIZE && |lh| < area.size - 1 && outstanding >= 1) && !NoBuffer(old(cache.bufs), 1, n)
      ensures ok ==> lh == Absorb(old(lh), n) && cache.flat == old(cache.flat)[n := data]
      ensures ok ==> cache.users == old(cache.users) && LocksKept(old(cache.bufs), cache.bufs)
      ensures !ok ==> lh == old(lh) && cache.flat == old(cache.flat)
      ensures NoBuffer(old(cache.bufs), 1, n) ==> Starved()
    {
      hide Linked;
      hide Recency;
      hide Coherent;
      hide CommitReady;
      hide Pins;
      hide NoBuffer;
      var r := cache.Bread(pid, 1, n);
      if r.None? {
        NoBufferIs(cache.bufs, n);
        return false;
      }
      ghost var bufs1 := cache.bufs;
      cache.SetData(pid, r.value, data);
      PinsSame(bufs1, cache.bufs);
      ok := LogWrite(pid, r.value);
      if ok {
        ghost var bufs2 := cache.bufs;
        var _ := cache.Brelse(pid, r.value);
        PinsSame(bufs2, cache.bufs);
        assert cache.users == old(cache.users);
        ReadLocks(old(cache.bufs), bufs2, cache.bufs, old(cache.users), cache.disk, old(cache.flat), r.value);
      }
    }

    /** One pass of the wait loop of begin_op (log.c:130-139). */
    method TryBeginOp() returns (began: bool)
      modifies `outstanding
      ensures began <==> !committing && |lh| + (old(outstanding) + 1) * MAXOPBLOCKS <= LOGSIZE
      ensures outstanding == old(outstanding) + if began then 1 else 0
    {
      if committing || |lh| + (outstanding + 1) * MAXOPBLOCKS > LOGSIZE {
        return false;
      }
      outstanding := outstanding + 1;
      return true;
    }

    /** end_op (log.c:146-174): the last operation out puts everything that was
        logged on the disk. */
    method EndOp(pid: nat) returns (ok: bool, ghost j: nat)
      requires Ready(pid) && Unlocked(lh)
      modifies this, cache
      ensures cache.Valid() && (committing && !old(committing) ==> !ok)
      ensures !ok ==> old(committing) || (outstanding == 0 && Starved())
      ensures ok <==> (&& !old(committing)
                       && (old(outstanding) != 1 || old(lh) == [] || Supplied(old(cache.bufs), area.start, area.start + |old(lh)|)))
      ensures old(Alone()) ==> (ok <==> !old(committing) && (old(outstanding) != 1 || |old(lh)| < NBUF))
      ensures ok ==> cache.users == old(cache.users) && LocksKept(old(cache.bufs), cache.bufs)
      ensures ok ==> !old(committing) && Ready(pid) && outstanding == old(outstanding) - 1 && !committing
      ensures ok && outstanding == 0 ==> lh == [] && SameHome(cache.disk, old(cache.flat), area)
      ensures ok && outstanding != 0 ==> lh == old(lh) && cache.disk == old(cache.disk)
      ensures ok ==> SameHome(cache.flat, old(cache.flat), area)
      ensures j <= 2 * |old(lh)| + 2 && CommitTraced(old(cache.trace), cache.trace, old(cache.disk), old(cache.flat), area, old(lh), j)
    {
      hide Supplied;
      hide Open;
      outstanding := outstanding - 1;
      if committing {
        return false, 0;
      }
      if outstanding != 0 {
        return true, 0;
      }
      committing := true;
      ok, j := Commit(pid);
      if ok {
        committing := false;
      }
    }
  }

  // ---------- buffers in use ----------

  ghost predicate Open<D>(bufs: seq<Buf<D>>, a: Area, ns: seq<nat>) {
    |bufs| == NBUF + 1 &&
    forall i :: 0 <= i < NBUF && bufs[i].dev == 1 && (InLog(a, bufs[i].blockno) || bufs[i].blockno in ns) ==> bufs[i].holder == NOBODY
  }

  lemma OpenKept<D>(bufs: seq<Buf<D>>, bufs': seq<Buf<D>>, a: Area, ns: seq<nat>)
    requires Open(bufs, a, ns) && LocksKept(bufs, bufs')
    ensures Open(bufs', a, ns)
  {
  }

  lemma LocksTrans<D>(b0: seq<Buf<D>>, b1: seq<Buf<D>>, b2: seq<Buf<D>>)
    requires LocksKept(b0, b1) && LocksKept(b1, b2)
    ensures LocksKept(b0, b2)
  {
  }

  /** A buffer has been locked, perhaps recycled for it, and unlocked. */
  lemma ReadLocks<D>(b0: seq<Buf<D>>, b1: seq<Buf<D>>, b2: seq<Buf<D>>, users: seq<set<nat>>, disk: seq<D>, flat: seq<D>, b: nat)
    requires Coherent(b0, users, disk, flat) && b < NBUF && |b1| == |b2| == NBUF + 1
    requires b0[b].holder == NOBODY && forall i :: 0 <= i < NBUF && i != b ==> b1[i] == b0[i]
    requires forall i :: 0 <= i < NBUF ==> SameBlock(b2[i], b1[i]) && b2[i].holder == if i == b then NOBODY else b1[i].holder
    ensures LocksKept(b0, b2)
  {
  }

  /** The log blocks from `lo` to `hi` can be read one after the other. */
  ghost predicate Supplied<D>(bufs: seq<Buf<D>>, lo: nat, hi: nat) {
    !Dry(bufs) || forall n :: lo <= n <= hi ==> Cached(bufs, n)
  }

  /** As many buffers can be recycled as before, and if none, the same blocks are cached. */
  ghost predicate Steady<D>(bufs: seq<Buf<D>>, bufs': seq<Buf<D>>) {
    |bufs| == NBUF + 1 == |bufs'| && (Dry(bufs) <==> Dry(bufs')) && (Dry(bufs) ==> SameBlocks(bufs, bufs'))
  }

  /** No fewer can. */
  ghost predicate Eased<D>(bufs: seq<Buf<D>>, bufs': seq<Buf<D>>) {
    |bufs| == NBUF + 1 == |bufs'| && (Dry(bufs') ==> Dry(bufs) && SameBlocks(bufs, bufs'))
  }

  lemma SteadyStarts<D>(bufs: seq<Buf<D>>, n: nat)
    requires |bufs| == NBUF + 1 && n > 0
    ensures Steady(bufs, bufs) && LocksKept(bufs, bufs) && Supplied(bufs, n, n - 1)
  {
  }

  lemma SteadyNext<D>(b0: seq<Buf<D>>, b1: seq<Buf<D>>, b2: seq<Buf<D>>, w: nat)
    requires Steady(b0, b1) && Served(b1, b2, w) && w !in Pins(b1, NBUF)
    ensures Steady(b0, b2)
  {
    ServedSupply(b1, b2, w);
  }

  lemma EasedStarts<D>(bufs: seq<Buf<D>>)
    requires |bufs| == NBUF + 1
    ensures Eased(bufs, bufs) && LocksKept(bufs, bufs)
  {
  }

  lemma EasedNext<D>(b0: seq<Buf<D>>, b1: seq<Buf<D>>, b2: seq<Buf<D>>, w: nat)
    requires Eased(b0, b1) && Served(b1, b2, w)
    ensures Eased(b0, b2)
  {
    ServedSupply(b1, b2, w);
  }

  /** The next log block is there exactly if the blocks up to it were at the start. */
  lemma SupplyTurn<D>(b0: seq<Buf<D>>, b1: seq<Buf<D>>, lo: nat, n: nat, hi: nat)
    requires Steady(b0, b1) && 0 < lo <= n <= hi && Supplied(b0, lo, n - 1)
    ensures !NoBuffer(b1, 1, n) <==> Supplied(b0, lo, n)
    ensures Supplied(b0, lo, hi) ==> Supplied(b0, lo, n)
    ensures NoBuffer(b1, 1, n) ==> !Supplied(b0, lo, hi) && (Cached(b0, lo) || n == lo)
  {
    hide NoBuffer;
    hide Cached;
    NoBufferIs(b1, n);
    if Dry(b0) {
      CachedSame(b0, b1, n);
    }
  }

  lemma EasedSupply<D>(b0: seq<Buf<D>>, b1: seq<Buf<D>>, lo: nat, hi: nat, n: nat)
    requires Eased(b0, b1) && lo <= n <= hi
    ensures Supplied(b0, lo, hi) ==> !NoBuffer(b1, 1, n)
  {
    hide NoBuffer;
    hide Cached;
    NoBufferIs(b1, n);
    if Dry(b1) {
      CachedSame(b0, b1, n);
    }
  }

  lemma SupplySplit<D>(bufs: seq<Buf<D>>, lo: nat, hi: nat)
    requires lo <= hi
    ensures Supplied(bufs, lo, hi) <==> Supplied(bufs, lo + 1, hi) && (!Dry(bufs) || Cached(bufs, lo))
  {
  }

  lemma SupplyHead<D>(b0: seq<Buf<D>>, b1: seq<Buf<D>>, lo: nat, hi: nat)
    requires Steady(b0, b1)
    ensures !NoBuffer(b1, 1, lo) <==> !Dry(b0) || Cached(b0, lo)
    ensures NoBuffer(b1, 1, lo) && Supplied(b0, lo + 1, hi) && lo < hi ==> Cached(b0, lo + 1)
  {
    NoBufferIs(b1, lo);
    if Dry(b0) {
      CachedSame(b0, b1, lo);
    }
  }

  lemma SupplySteady<D>(b0: seq<Buf<D>>, b1: seq<Buf<D>>, lo: nat, hi: nat)
    requires Steady(b0, b1) && Supplied(b0, lo, hi)
    ensures Supplied(b1, lo, hi)
  {
    hide Cached;
    if Dry(b1) {
      forall n: nat | lo <= n <= hi
        ensures Cached(b1, n)
      {
        CachedSame(b0, b1, n);
      }
    }
  }

  /** Without buffers in use, what is pinned decides; with NBUF blocks pinned, no other is cached. */
  lemma SupplyFacts<D>(bufs: seq<Buf<D>>, users: seq<set<nat>>, disk: seq<D>, flat: seq<D>, lo: nat, hi: nat)
    requires Coherent(bufs, users, disk, flat) && lo <= hi && lo !in Pins(bufs, NBUF)
    ensures !Dry(bufs) ==> Supplied(bufs, lo, hi)
    ensures |Pins(bufs, NBUF)| == NBUF ==> !Supplied(bufs, lo, hi) && forall n :: n !in Pins(bufs, NBUF) ==> !Cached(bufs, n)
    ensures (forall i :: 0 <= i < NBUF ==> users[i] == {}) && |Pins(bufs, NBUF)| < NBUF ==> Supplied(bufs, lo, hi)
    ensures |Pins(bufs, NBUF)| <= NBUF && LocksKept(bufs, bufs)
  {
    PinsCount(bufs, users, disk, flat);
    forall n: nat
      ensures |Pins(bufs, NBUF)| == NBUF && n !in Pins(bufs, NBUF) ==> !Cached(bufs, n)
    {
      PinsAt(bufs, NBUF, n);
    }
    forall i | 0 <= i < NBUF
      ensures BufOk(bufs[i], users[i], flat)
    {
    }
    if i :| 0 <= i < NBUF && !bufs[i].dirty && users[i] == {} {
      assert Eligible(bufs[i]);
    }
  }

  /** A process that has referenced a buffer keeps it from being recycled. */
  lemma InUse<D>(bufs: seq<Buf<D>>, users: seq<set<nat>>, disk: seq<D>, flat: seq<D>, b: nat, pid: nat)
    requires Coherent(bufs, users, disk, flat) && b < NBUF && pid in users[b]
    ensures !Eligible(bufs[b])
  {
    assert BufOk(bufs[b], users[b], flat);
  }

  /** Two free buffers have been locked, and perhaps recycled for it. */
  ghost predicate Lent<D>(bufs: seq<Buf<D>>, bufs': seq<Buf<D>>, x: nat, y: nat) {
    |bufs| == NBUF + 1 == |bufs'| &&
    forall i :: 0 <= i < NBUF ==>
      if i == x || i == y then bufs[i].holder == NOBODY && bufs'[i].dirty == bufs[i].dirty && (SameBlock(bufs'[i], bufs[i]) || Eligible(bufs[i]))
      else bufs'[i] == bufs[i]
  }

  /** They have been unlocked, and `y` has been written. */
  ghost predicate Returned<D>(bufs: seq<Buf<D>>, bufs': seq<Buf<D>>, x: nat, y: nat) {
    |bufs| == NBUF + 1 == |bufs'| &&
    forall i :: 0 <= i < NBUF ==>
      && SameBlock(bufs'[i], bufs[i]) && bufs'[i].holder == (if i == x || i == y then NOBODY else bufs[i].holder)
      && bufs'[i].dirty == (bufs[i].dirty && i != y)
  }

  /** The two together. */
  lemma ServedBy<D>(bufs0: seq<Buf<D>>, bufs1: seq<Buf<D>>, bufs: seq<Buf<D>>, users: seq<set<nat>>, users1: seq<set<nat>>, disk: seq<D>,
                    flat0: seq<D>, flat1: seq<D>, flat: seq<D>, x: nat, y: nat, w: nat, disk0: seq<D>)
    requires Coherent(bufs0, users, disk0, flat0) && Coherent(bufs1, users1, disk0, flat1) && Coherent(bufs, users, disk, flat)
    requires (Lent(bufs0, bufs1, x, y) || Lent(bufs0, bufs1, y, x)) && Returned(bufs1, bufs, x, y)
    requires y < NBUF && bufs1[y].valid && bufs1[y].blockno == w
    ensures Served(bufs0, bufs, w)
  {
    forall i | 0 <= i < NBUF
      ensures bufs[i].refcnt == bufs0[i].refcnt && (bufs[i].dirty <==> bufs0[i].dirty && bufs0[i].blockno != w)
    {
      assert BufOk(bufs0[i], users[i], flat0) && BufOk(bufs[i], users[i], flat);
      assert BufOk(bufs1[i], users1[i], flat1) && BufOk(bufs1[y], users1[y], flat1);
      assert i != y && bufs1[i].dirty ==> !Caches(bufs1[i], bufs1[y].dev, bufs1[y].blockno);
    }
  }

  /** What is left of a set after the first `k` of these are taken away. */
  ghost function Left(ns: set<nat>, s: seq<nat>, k: nat): set<nat>
    requires k <= |s|
  {
    ns - Elements(s[..k])
  }

  lemma LeftEnds(ns: set<nat>, s: seq<nat>)
    ensures Left(ns, s, 0) == ns
    ensures ns == {} || ns == Elements(s) ==> Left(ns, s, |s|) == {}
  {
  }

  lemma LeftNext(ns: set<nat>, s: seq<nat>, k: nat)
    requires k < |s|
    ensures Left(ns, s, k + 1) == Left(ns, s, k) - {s[k]}
    ensures |Left(ns, s, k)| <= |ns| && (ns == {} ==> Left(ns, s, k) == {})
    ensures Distinct(s) && ns == Elements(s) ==> s[k] in Left(ns, s, k)
    ensures ns == Elements(s) ==> ns != {}
  {
    assert s[k] in Elements(s);
    assert s[..k + 1] == s[..k] + [s[k]];
  }

  /** With one buffer in use and none pinned, there is another. */
  lemma SecondBuffer<D>(bufs: seq<Buf<D>>, users: seq<set<nat>>, disk: seq<D>, flat: seq<D>, x: nat, n: nat)
    requires Coherent(bufs, users, disk, flat) && forall i :: 0 <= i < NBUF && i != x ==> users[i] == {}
    ensures Pins(bufs, NBUF) == {} ==> !NoBuffer(bufs, 1, n)
  {
    var i := if x == 0 then 1 else 0;
    assert BufOk(bufs[i], users[i], flat);
    PinsAt(bufs, NBUF, bufs[i].blockno);
  }

  ghost predicate CopyTraced<D>(t0: seq<seq<D>>, t: seq<seq<D>>, d: seq<D>, flat: seq<D>, start: nat, ns: seq<nat>, k: nat)
    requires k <= |ns| && start + |ns| < |d| && forall i :: 0 <= i < |ns| ==> ns[i] < |flat|
  {
    |t| == |t0| + k && t0 <= t && forall i :: |t0| <= i < |t| ==> t[i] == CopyToLog(d, flat, start, ns, i - |t0| + 1)
  }

  ghost predicate InstallTraced<D>(t0: seq<seq<D>>, t: seq<seq<D>>, d: seq<D>, start: nat, ns: seq<nat>, k: nat)
    requires k <= |ns| && start + |ns| < |d| && forall i :: 0 <= i < |ns| ==> ns[i] < |d|
  {
    |t| == |t0| + k && t0 <= t && forall i :: |t0| <= i < |t| ==> t[i] == Install(d, start, ns, i - |t0| + 1)
  }

  ghost predicate RecoveryTraced(t0: seq<Disk>, t: seq<Disk>, d: Disk, a: Area, k: nat)
    requires GoodLog(d, a) && k <= RecoveryWrites(d, a)
  {
    |t| == |t0| + k && t0 <= t && forall i :: |t0| <= i < |t| ==> t[i] == RecoveryDisk(d, a, i - |t0| + 1)
  }

  ghost predicate CommitTraced(t0: seq<Disk>, t: seq<Disk>, d: Disk, flat: Disk, a: Area, ns: seq<nat>, j: nat)
    requires Loggable(ns, a, |d|) && |flat| == |d| && j <= 2 * |ns| + 2
  {
    |t| == |t0| + j && t0 <= t && forall i :: |t0| <= i < |t| ==> t[i] == CommitDisk(d, flat, a, ns, i - |t0| + 1)
  }

  /** After `k` turns of write_log that began with disk `d` and view `f`. */
  ghost predicate CopiedToLog(t0: seq<Disk>, d: Disk, f: Disk, a: Area, ns: seq<nat>, k: nat, disk: Disk, flat: Disk, t: seq<Disk>)
    requires Loggable(ns, a, |d|) && |f| == |d| && k <= |ns|
  {
    && disk == CopyToLog(d, f, a.start, ns, k) && flat == CopyToLog(f, f, a.start, ns, k)
    && CopyTraced(t0, t, d, f, a.start, ns, k)
  }

  lemma CopyStarts(t: seq<Disk>, d: Disk, f: Disk, a: Area, ns: seq<nat>)
    requires Loggable(ns, a, |d|) && |f| == |d|
    ensures CopiedToLog(t, d, f, a, ns, 0, d, f, t)
  {
  }

  lemma CopyTurn(t0: seq<Disk>, d: Disk, f: Disk, a: Area, ns: seq<nat>, k: nat, disk: Disk, flat: Disk, t: seq<Disk>)
    requires Loggable(ns, a, |d|) && |f| == |d| && k < |ns| && CopiedToLog(t0, d, f, a, ns, k, disk, flat, t)
    ensures |flat| == |f| && |disk| == |d|
    ensures var slot, x := a.start + k + 1, flat[ns[k]];
            CopiedToLog(t0, d, f, a, ns, k + 1, disk[slot := x], flat[slot := x], t + [disk[slot := x]])
  {
    CopyToLogAt(f, f, a, ns, k, ns[k]);
  }

  /** After `k` turns of install_trans that began with disk `d` and view `f`. */
  ghost predicate Installed(t0: seq<Disk>, d: Disk, f: Disk, a: Area, ns: seq<nat>, k: nat, disk: Disk, flat: Disk, t: seq<Disk>)
    requires Loggable(ns, a, |d|) && |f| == |d| && k <= |ns|
  {
    && disk == Install(d, a.start, ns, k) && flat == Install(f, a.start, ns, k)
    && InstallTraced(t0, t, d, a.start, ns, k)
  }

  lemma InstallStarts(t: seq<Disk>, d: Disk, f: Disk, a: Area, ns: seq<nat>)
    requires Loggable(ns, a, |d|) && |f| == |d|
    ensures Installed(t, d, f, a, ns, 0, d, f, t)
  {
  }

  lemma InstallTurn(t0: seq<Disk>, d: Disk, f: Disk, a: Area, ns: seq<nat>, k: nat, disk: Disk, flat: Disk, t: seq<Disk>)
    requires Loggable(ns, a, |d|) && |f| == |d| && k < |ns| && Installed(t0, d, f, a, ns, k, disk, flat, t)
    requires forall n :: a.start < n < a.start + a.size ==> f[n] == d[n]
    ensures |flat| == |f| && |disk| == |d|
    ensures var slot, home := a.start + k + 1, ns[k];
            Installed(t0, d, f, a, ns, k + 1, disk[home := flat[slot]], flat[home := flat[slot]], t + [disk[home := flat[slot]]])
  {
    InstallAt(d, a, ns, k, a.start + k + 1);
    InstallAt(f, a, ns, k, a.start + k + 1);
  }

  lemma RecoveryStarts(t: seq<Disk>, d: Disk, a: Area)
    requires GoodLog(d, a)
    ensures RecoveryDisk(d, a, 0) == d && RecoveryTraced(t, t, d, a, 0)
  {
  }

  lemma RecoveryInstalled(t0: seq<Disk>, d: Disk, a: Area, k: nat, disk: Disk, flat: Disk, t: seq<Disk>)
    requires GoodLog(d, a) && k < RecoveryWrites(d, a)
    requires Installed(t0, d, d, a, HeaderBlocks(d[a.start]), k, disk, flat, t)
    ensures flat == disk == RecoveryDisk(d, a, k) && RecoveryTraced(t0, t, d, a, k)
  {
    hide WordAt;
    hide Install;
  }

  /** The last write of a recovery. */
  lemma RecoveryCleared(t0: seq<Disk>, d: Disk, a: Area, disk: Disk, t: seq<Disk>)
    requires GoodLog(d, a)
    requires var k := RecoveryWrites(d, a) - 1; disk == RecoveryDisk(d, a, k) && RecoveryTraced(t0, t, d, a, k)
    ensures |disk| == |d|
    ensures var disk' := WithHeader(disk, a.start, []);
            && disk' == RecoveryDisk(d, a, RecoveryWrites(d, a))
            && RecoveryTraced(t0, t + [disk'], d, a, RecoveryWrites(d, a))
            && CommitReady(disk', disk', a, [])
  {
    hide Install;
    HeaderRoundTrip(disk[a.start], []);
  }

  lemma CopiedTraced(t0: seq<Disk>, d: Disk, f: Disk, a: Area, ns: seq<nat>, k: nat, disk: Disk, flat: Disk, t: seq<Disk>)
    requires Loggable(ns, a, |d|) && |f| == |d| && k <= |ns| && CopiedToLog(t0, d, f, a, ns, k, disk, flat, t)
    ensures CommitTraced(t0, t, d, f, a, ns, k)
  {
    hide CopyToLog;
    hide Install;
  }

  lemma CopiedArea(d: Disk, f: Disk, a: Area, ns: seq<nat>)
    requires Loggable(ns, a, |d|) && |f| == |d| && forall n :: a.start <= n < a.start + a.size ==> f[n] == d[n]
    ensures forall n :: a.start <= n < a.start + a.size ==> CopyToLog(f, f, a.start, ns, |ns|)[n] == CopyToLog(d, f, a.start, ns, |ns|)[n]
  {
    forall n | a.start <= n < a.start + a.size
      ensures CopyToLog(f, f, a.start, ns, |ns|)[n] == CopyToLog(d, f, a.start, ns, |ns|)[n]
    {
      CopyToLogAt(d, f, a, ns, |ns|, n);
      CopyToLogAt(f, f, a, ns, |ns|, n);
    }
  }

  /** The write of write_head that commits. */
  lemma HeaderTraced(t0: seq<Disk>, d: Disk, f: Disk, a: Area, ns: seq<nat>, disk: Disk, flat: Disk, t: seq<Disk>)
    requires Loggable(ns, a, |d|) && |f| == |d| && CopiedToLog(t0, d, f, a, ns, |ns|, disk, flat, t)
    requires forall n :: a.start <= n < a.start + a.size ==> f[n] == d[n]
    ensures |disk| == |d| == |flat| && forall n :: a.start <= n < a.start + a.size ==> flat[n] == disk[n]
    ensures var disk', flat' := WithHeader(disk, a.start, ns), WithHeader(flat, a.start, ns);
            && disk' == CommitDisk(d, f, a, ns, |ns| + 1)
            && flat' == WithHeader(CopyToLog(f, f, a.start, ns, |ns|), a.start, ns)
            && CommitTraced(t0, t + [disk'], d, f, a, ns, |ns| + 1)
            && (forall n :: a.start <= n < a.start + a.size ==> flat'[n] == disk'[n])
  {
    hide CopyToLog;
    hide Install;
    hide PutHeader;
    hide CommitDisk;
    hide CommitTraced;
    hide CopyTraced;
    hide WordAt;
    CopiedTraced(t0, d, f, a, ns, |ns|, disk, flat, t);
    CopiedArea(d, f, a, ns);
    CommitSteps(d, f, a, ns);
    LastTraced(t0, t, d, f, a, ns, |ns|);
  }

  lemma LastTraced(t0: seq<Disk>, t: seq<Disk>, d: Disk, flat: Disk, a: Area, ns: seq<nat>, j: nat)
    requires Loggable(ns, a, |d|) && |flat| == |d| && j < 2 * |ns| + 2 && CommitTraced(t0, t, d, flat, a, ns, j)
    ensures CommitTraced(t0, t + [CommitDisk(d, flat, a, ns, j + 1)], d, flat, a, ns, j + 1)
  {
    hide CommitDisk;
  }

  /** The installs of a commit follow its header. */
  lemma CommitInstallTraced(t0: seq<Disk>, t1: seq<Disk>, t: seq<Disk>, d: Disk, f: Disk, a: Area, ns: seq<nat>, k: nat,
                            disk1: Disk, flat1: Disk, disk: Disk, flat: Disk)
    requires Loggable(ns, a, |d|) && |f| == |d| == |flat1| && k <= |ns|
    requires disk1 == CommitDisk(d, f, a, ns, |ns| + 1) && CommitTraced(t0, t1, d, f, a, ns, |ns| + 1)
    requires |disk1| == |d| && Installed(t1, disk1, flat1, a, ns, k, disk, flat, t)
    ensures CommitTraced(t0, t, d, f, a, ns, |ns| + 1 + k)
  {
    hide CopyToLog;
    hide PutHeader;
  }

  /** The last write of a commit. */
  lemma CommitCleared(t0: seq<Disk>, d: Disk, f: Disk, a: Area, ns: seq<nat>, disk1: Disk, flat1: Disk, disk: Disk, flat: Disk,
                      t1: seq<Disk>, t: seq<Disk>)
    requires CommitReady(d, f, a, ns) && disk1 == CommitDisk(d, f, a, ns, |ns| + 1) && |disk1| == |d|
    requires flat1 == WithHeader(CopyToLog(f, f, a.start, ns, |ns|), a.start, ns)
    requires forall n :: a.start <= n < a.start + a.size ==> flat1[n] == disk1[n]
    requires Installed(t1, disk1, flat1, a, ns, |ns|, disk, flat, t) && CommitTraced(t0, t, d, f, a, ns, 2 * |ns| + 1)
    ensures |disk| == |d| == |flat| && flat[a.start] == disk[a.start]
    ensures var disk', flat' := WithHeader(disk, a.start, []), WithHeader(flat, a.start, []);
            && CommitTraced(t0, t + [disk'], d, f, a, ns, 2 * |ns| + 2)
            && SameHome(disk', f, a) && SameHome(flat', f, a) && CommitReady(disk', flat', a, [])
            && (forall n :: a.start <= n < a.start + a.size ==> flat'[n] == disk'[n])
  {
    hide CopyToLog;
    hide Install;
    hide PutHeader;
    hide CommitTraced;
    CommitSteps(d, f, a, ns);
    CommitDone(d, f, a, ns);
    LastTraced(t0, t, d, f, a, ns, 2 * |ns| + 1);
    InstallAt(disk1, a, ns, |ns|, a.start);
    InstallAt(flat1, a, ns, |ns|, a.start);
  }

  /** A crash or panic at any point of a commit: every disk it leaves behind
      recovers to the home blocks before the transaction or to those after it. */
  lemma CommitTraceIsAtomic(t0: seq<Disk>, t: seq<Disk>, d: Disk, flat: Disk, a: Area, ns: seq<nat>, j: nat)
    requires CommitReady(d, flat, a, ns) && j <= 2 * |ns| + 2 && CommitTraced(t0, t, d, flat, a, ns, j)
    ensures forall i :: |t0| <= i < |t| ==>
              GoodLog(t[i], a) && SameHome(Recovered(t[i], a), if i < |t0| + |ns| then d else flat, a)
  {
    hide CommitDisk;
    hide CommitReady;
    hide GoodLog;
    hide SameHome;
    hide Recovered;
    forall i | |t0| <= i < |t|
      ensures GoodLog(t[i], a) && SameHome(Recovered(t[i], a), if i < |t0| + |ns| then d else flat, a)
    {
      CommitIsAtomic(d, flat, a, ns, i - |t0| + 1);
    }
  }

  lemma RecoveryTraceRestarts(t0: seq<Disk>, t: seq<Disk>, d: Disk, a: Area, k: nat)
    requires GoodLog(d, a) && k <= RecoveryWrites(d, a) && RecoveryTraced(t0, t, d, a, k)
    ensures forall i :: |t0| <= i < |t| ==> GoodLog(t[i], a) && SameHome(Recovered(t[i], a), Recovered(d, a), a)
  {
    hide RecoveryDisk;
    hide SameHome;
    hide Recovered;
    forall i | |t0| <= i < |t|
      ensures GoodLog(t[i], a) && SameHome(Recovered(t[i], a), Recovered(d, a), a)
    {
      RecoveryRestarts(d, a, i - |t0| + 1);
    }
  }
}

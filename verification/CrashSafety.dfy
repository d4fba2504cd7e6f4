/** A crash during filewrite: the log (log.c), the file system (fs.c) and the cutting into
    transactions (file.c:118-156) together. */
module CrashSafety {
  import opened Blocks
  import opened FsLayout
  import opened FsSpec
  import opened FsBytes
  import opened LogSpec
  import opened FileWrite
  import G = GroupCommit

  /** The log lies below the inodes (mkfs.c:101-102) and has room for one operation. */
  ghost predicate LogBelow(sb: SuperBlock, a: Area) {
    a.start + a.size <= sb.inodestart && MAXOPBLOCKS < a.size
  }

  /** The log header lists exactly these blocks, each once, in some order. */
  ghost predicate Lists(ns: seq<nat>, logged: set<nat>) {
    |ns| == |logged| && forall n :: n in logged <==> n in ns
  }

  /** The home blocks of a disk decide what file system is on it. */
  lemma HomeDecides(sb: SuperBlock, x: Disk, m: Moment, a: Area)
    requires SameHome(x, m.blocks, a) && LogBelow(sb, a) && Own(sb, m.blocks, m.inodes, m.owner)
    ensures Own(sb, x, m.inodes, m.owner)
    ensures forall j: nat :: SettledAt(sb, m.blocks, m.inodes, j) ==>
              SettledAt(sb, x, m.inodes, j) && Contents(x, m.inodes[j]) == Contents(m.blocks, m.inodes[j])
  {
    hide Slot;
    hide BlockBit;
    hide GetInode;
    var y := m.blocks;
    assert forall n :: sb.inodestart <= n < |x| ==> x[n] == y[n];
    forall i | 0 <= i < |m.inodes| && 0 < m.inodes[i].addrs[NDIRECT] < |y|
      ensures x[m.inodes[i].addrs[NDIRECT]] == y[m.inodes[i].addrs[NDIRECT]]
    {
      IndirectOwned(sb, y, m.inodes, m.owner, i);
    }
    KeptSlots(y, x, m.inodes);
    forall b | 0 <= b < sb.size
      ensures Bit(sb, x, b) == Bit(sb, y, b)
    {
      BBlockRange(sb, b);
    }
    OwnTransfer(sb, y, x, m.inodes, m.owner);
    forall j: nat | SettledAt(sb, y, m.inodes, j)
      ensures SettledAt(sb, x, m.inodes, j) && Contents(x, m.inodes[j]) == Contents(y, m.inodes[j])
    {
      KeptContents(y, x, m.inodes, m.owner, j);
    }
  }

  /** A crash after any write of the commit of one operation, and crashes inside any
      recoveries after it, lose the operation or keep it, as a whole. */
  lemma OperationIsAtomic(sb: SuperBlock, m: Moment, m': Moment, inum: nat, logged: set<nat>, ns: seq<nat>, a: Area, d: Disk, j: nat, ks: seq<nat>)
    requires Own(sb, m.blocks, m.inodes, m.owner) && Transaction(sb, m, m', inum, logged) && Lists(ns, logged)
    requires LogBelow(sb, a) && SameHome(d, m.blocks, a) && HeaderCount(d[a.start]) == 0 && j <= 2 * |ns| + 2
    ensures CommitReady(d, m'.blocks, a, ns) && GoodLog(CommitDisk(d, m'.blocks, a, ns, j), a)
    ensures GoodLog(AfterCrashes(CommitDisk(d, m'.blocks, a, ns, j), a, ks), a)
    ensures SameHome(Recovered(AfterCrashes(CommitDisk(d, m'.blocks, a, ns, j), a, ks), a), if j <= |ns| then m.blocks else m'.blocks, a)
  {
    ReadyToCommit(sb, m, m', inum, logged, ns, a, d);
    CrashAtomicity(d, m'.blocks, a, ns, j, ks);
  }

  lemma ReadyToCommit(sb: SuperBlock, m: Moment, m': Moment, inum: nat, logged: set<nat>, ns: seq<nat>, a: Area, d: Disk)
    requires Own(sb, m.blocks, m.inodes, m.owner) && Transaction(sb, m, m', inum, logged) && Lists(ns, logged)
    requires LogBelow(sb, a) && SameHome(d, m.blocks, a) && HeaderCount(d[a.start]) == 0
    ensures CommitReady(d, m'.blocks, a, ns)
  {
    hide OthersKept;
    forall i | 0 <= i < |ns|
      ensures ns[i] < |d| && !InLog(a, ns[i])
    {
      assert ns[i] in logged;
    }
  }

  /** A crash at any write of any transaction of filewrite, and any crashes during the
      recoveries after it: the recovered disk is a file system in order, on which the file has
      its old bytes overwritten with the first `w` pieces and nothing else: those committed
      before, and this one from its header write on. */
  lemma CrashDuringWrite(sb: SuperBlock, inum: nat, c: seq<Byte>, off: nat, addr: seq<Byte>, moments: seq<Moment>, logs: seq<set<nat>>, writes: seq<seq<Logged>>,
                         k: nat, ns: seq<nat>, a: Area, d: Disk, j: nat, ks: seq<nat>)
    returns (w: nat, x: Disk)
    requires History(sb, inum, c, off, addr, moments, logs, writes) && k < |logs| && Lists(ns, logs[k])
    requires LogBelow(sb, a) && SameHome(d, moments[k].blocks, a) && HeaderCount(d[a.start]) == 0 && j <= 2 * |ns| + 2
    ensures w == if j <= |ns| then k else k + 1
    ensures CommitReady(d, moments[k + 1].blocks, a, ns) && GoodLog(CommitDisk(d, moments[k + 1].blocks, a, ns, j), a)
    ensures GoodLog(AfterCrashes(CommitDisk(d, moments[k + 1].blocks, a, ns, j), a, ks), a)
    ensures x == Recovered(AfterCrashes(CommitDisk(d, moments[k + 1].blocks, a, ns, j), a, ks), a)
    ensures MomentOk(sb, Moment(x, moments[w].inodes, moments[w].owner), inum, c, off, addr, Upto(addr, w))
    ensures forall f :: 0 <= f < |moments[0].inodes| && f != inum && SettledAt(sb, moments[0].blocks, moments[0].inodes, f) ==>
              f < |moments[w].inodes| && SettledAt(sb, x, moments[w].inodes, f) && moments[w].inodes[f] == moments[0].inodes[f] &&
              Contents(x, moments[w].inodes[f]) == Contents(moments[0].blocks, moments[0].inodes[f])
  {
    w := if j <= |ns| then k else k + 1;
    OperationIsAtomic(sb, moments[k], moments[k + 1], inum, logs[k], ns, a, d, j, ks);
    x := Recovered(AfterCrashes(CommitDisk(d, moments[k + 1].blocks, a, ns, j), a, ks), a);
    HomeDecides(sb, x, moments[w], a);
    OthersThroughout(sb, inum, c, off, addr, moments, logs, writes, w);
  }

  lemma {:induction false} OthersThroughout(sb: SuperBlock, inum: nat, c: seq<Byte>, off: nat, addr: seq<Byte>, moments: seq<Moment>, logs: seq<set<nat>>, writes: seq<seq<Logged>>, w: nat)
    requires History(sb, inum, c, off, addr, moments, logs, writes) && w < |moments|
    ensures OthersKept(sb, moments[0], moments[w], inum)
    decreases w
  {
    hide OthersKept;
    hide MomentOk;
    hide LoggedOnly;
    OthersSame(sb, moments[0], inum);
    if w > 0 {
      OthersThroughout(sb, inum, c, off, addr, moments, logs, writes, w - 1);
      assert Transaction(sb, moments[w - 1], moments[w], inum, logs[w - 1]);
      OthersTrans(sb, moments[0], moments[w - 1], moments[w], inum);
    }
  }

  lemma OthersSame(sb: SuperBlock, m: Moment, inum: nat)
    ensures OthersKept(sb, m, m, inum)
  {
    hide FileOk;
    hide GetInode;
  }

  lemma OthersTrans(sb: SuperBlock, m: Moment, m1: Moment, m2: Moment, inum: nat)
    requires OthersKept(sb, m, m1, inum) && OthersKept(sb, m1, m2, inum)
    ensures OthersKept(sb, m, m2, inum)
  {
    hide FileOk;
    hide GetInode;
    hide Contents;
  }

  // ---------- several operations in one commit ----------

  /** A file system in order: blocks owned once, and every file whole and stored as it is in memory. */
  ghost predicate InOrder(sb: SuperBlock, m: Moment) {
    Own(sb, m.blocks, m.inodes, m.owner) && forall j: nat :: j < |m.inodes| ==> SettledAt(sb, m.blocks, m.inodes, j)
  }

  ghost predicate HasFileSystem(sb: SuperBlock, blocks: Disk) {
    exists inodes, owner :: InOrder(sb, Moment(blocks, inodes, owner))
  }

  lemma HomeHasFileSystem(sb: SuperBlock, x: Disk, y: Disk, a: Area)
    requires SameHome(x, y, a) && LogBelow(sb, a) && HasFileSystem(sb, y)
    ensures HasFileSystem(sb, x)
  {
    hide Own;
    hide SettledAt;
    var inodes, owner :| InOrder(sb, Moment(y, inodes, owner));
    HomeDecides(sb, x, Moment(y, inodes, owner), a);
    assert InOrder(sb, Moment(x, inodes, owner));
  }

  /** Each transaction of filewrite leaves every file in order, if it finds them so. */
  lemma TransactionsKeepOrder(sb: SuperBlock, inum: nat, c: seq<Byte>, off: nat, addr: seq<Byte>, moments: seq<Moment>, logs: seq<set<nat>>, writes: seq<seq<Logged>>, w: nat)
    requires History(sb, inum, c, off, addr, moments, logs, writes) && w < |moments|
    requires InOrder(sb, moments[0])
    ensures InOrder(sb, moments[w])
  {
    hide Own;
    hide SettledAt;
    OthersThroughout(sb, inum, c, off, addr, moments, logs, writes, w);
    assert MomentOk(sb, moments[w], inum, c, off, addr, Upto(addr, w));
    forall j: nat | j < |moments[w].inodes|
      ensures SettledAt(sb, moments[w].blocks, moments[w].inodes, j)
    {
      assert SettledAt(sb, moments[0].blocks, moments[0].inodes, j);
    }
  }

  /** The operations between two quiet moments, which one commit makes durable: none is open
      at `from`, some are from then on, and the last of them ends with the step to `to`. */
  ghost predicate Group(run: seq<G.State>, from: nat, to: nat) {
    && from < to < |run| && G.Idle(run[from])
    && (forall j :: from < j < to ==> run[j].outstanding > 0)
    && run[to].outstanding == 0 && run[to].mode.Committing?
  }

  ghost predicate GroupsKeepOrder(sb: SuperBlock, run: seq<G.State>) {
    forall from: nat, to: nat :: Group(run, from, to) && HasFileSystem(sb, run[from].flat) ==> HasFileSystem(sb, run[to].flat)
  }

  ghost predicate RecordInOrder(sb: SuperBlock, s: G.State) {
    forall m :: 0 <= m < |s.quiet| ==> HasFileSystem(sb, s.quiet[m])
  }

  /** While operations are open, there is an idle moment from which on some were. */
  lemma {:induction false} GroupStarts(a: Area, run: seq<G.State>, i: nat) returns (from: nat)
    requires G.IsRun(a, run) && i < |run| && run[i].outstanding > 0
    ensures from < i && G.Idle(run[from]) && forall j :: from < j <= i ==> run[j].outstanding > 0
  {
    hide G.Next;
    if i == 0 {
      assert false;
    } else if run[i - 1].outstanding > 0 {
      from := GroupStarts(a, run, i - 1);
    } else {
      G.RunInv(a, run, i - 1);
      OperationStarts(a, run[i - 1], run[i]);
      from := i - 1;
    }
  }

  lemma OperationStarts(a: Area, s: G.State, s': G.State)
    requires G.Booked(a, s) && G.Next(a, s, s') && s.outstanding <= 0 < s'.outstanding
    ensures G.Idle(s)
  {
    if s.outstanding < 0 {
      G.SumNat(s.ops);
    }
  }

  lemma CommitStarts(a: Area, s: G.State, s': G.State)
    requires G.Booked(a, s) && G.Next(a, s, s') && |s'.quiet| > |s.quiet|
    ensures s.outstanding > 0 && s'.outstanding == 0 && s'.mode.Committing?
  {
    var p: nat :| G.EndOp(a, s, s', p);
    G.SumPositive(s.ops, p);
  }

  /** An idle machine shows a file system if all the quiet moments on record do. */
  lemma IdleInOrder(sb: SuperBlock, a: Area, s: G.State)
    requires G.Inv(a, s) && G.Idle(s) && RecordInOrder(sb, s) && LogBelow(sb, a)
    ensures HasFileSystem(sb, s.flat)
  {
    hide HasFileSystem;
    assert SameHome(s.flat, s.quiet[s.durable], a);
    HomeHasFileSystem(sb, s.flat, s.quiet[s.durable], a);
  }

  lemma {:induction false} RecordsInOrder(sb: SuperBlock, a: Area, run: seq<G.State>, i: nat)
    requires G.IsRun(a, run) && i < |run| && LogBelow(sb, a) && HasFileSystem(sb, run[0].flat) && GroupsKeepOrder(sb, run)
    ensures RecordInOrder(sb, run[i])
  {
    hide HasFileSystem;
    hide G.Next;
    hide G.Inv;
    if i > 0 {
      RecordsInOrder(sb, a, run, i - 1);
      G.RecordStep(a, run[i - 1], run[i]);
      if |run[i].quiet| > |run[i - 1].quiet| {
        G.RunInv(a, run, i - 1);
        CommitStarts(a, run[i - 1], run[i]);
        var from := GroupStarts(a, run, i - 1);
        G.RunInv(a, run, from);
        RecordsInOrder(sb, a, run, from);
        IdleInOrder(sb, a, run[from]);
        assert Group(run, from, i);
      }
    }
  }

  /** In any run of any processes, with any crashes: if the first disk holds a file system in
      order and every group of operations that one commit makes durable leaves one when it
      finds one, then every disk at every time recovers to one. */
  lemma RecoversToFileSystem(sb: SuperBlock, a: Area, run: seq<G.State>, i: nat)
    requires G.IsRun(a, run) && i < |run| && LogBelow(sb, a)
    requires HasFileSystem(sb, run[0].flat) && GroupsKeepOrder(sb, run)
    ensures GoodLog(run[i].disk, a) && HasFileSystem(sb, Recovered(run[i].disk, a))
  {
    hide HasFileSystem;
    hide G.Next;
    G.RunInv(a, run, i);
    G.InvRecovers(a, run[i]);
    RecordsInOrder(sb, a, run, i);
    HomeHasFileSystem(sb, Recovered(run[i].disk, a), run[i].quiet[run[i].durable], a);
  }
}

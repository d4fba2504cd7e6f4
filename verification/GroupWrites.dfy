/** Runs of the log whose commits are single transactions of filewrite: the steps of
    `GroupCommit` that perform one, and why such runs keep the file system in order. */
module GroupWrites {
  import opened Sequences
  import opened Blocks
  import opened FsLayout
  import opened FsSpec
  import opened FsBytes
  import opened LogSpec
  import opened FileWrite
  import opened CrashSafety
  import opened LoggedWrites
  import G = GroupCommit

  /** A transaction on file `inum`, and its log_writes: what WritePiece leaves. */
  ghost predicate FileTransaction(sb: SuperBlock, m: Moment, m': Moment, inum: nat, logged: set<nat>, writes: seq<Logged>) {
    && Transaction(sb, m, m', inum, logged) && Traced(sb, m.blocks, m'.blocks, logged, writes)
    && Own(sb, m'.blocks, m'.inodes, m'.owner) && SettledAt(sb, m'.blocks, m'.inodes, inum)
  }

  /** If `blocks` holds a file system in order, these are the log_writes of a transaction on it. */
  ghost predicate AreTransaction(sb: SuperBlock, blocks: Disk, writes: seq<Logged>) {
    HasFileSystem(sb, blocks) ==> exists inodes, owner :: InOrder(sb, Moment(blocks, inodes, owner)) && Transacts(sb, Moment(blocks, inodes, owner), writes)
  }

  ghost predicate Transacts(sb: SuperBlock, m: Moment, writes: seq<Logged>) {
    exists m', inum, logged :: FileTransaction(sb, m, m', inum, logged, writes)
  }

  /** From `from` to `to` process `p` alone begins an operation, makes these log_writes, and ends it. */
  ghost predicate Performed(a: Area, run: seq<G.State>, from: nat, to: nat, p: nat, writes: seq<Logged>) {
    && to == from + 2 * |writes| + 2 < |run| && Written(a, run, from, p, writes, |writes|)
    && G.EndOp(a, run[to - 1], run[to], p)
  }

  /** From `from` on process `p` alone begins an operation and makes the first `k` of these log_writes. */
  ghost predicate Written(a: Area, run: seq<G.State>, from: nat, p: nat, writes: seq<Logged>, k: nat) {
    && k <= |writes| && from + 1 + 2 * k < |run| && G.BeginOp(run[from], run[from + 1], p)
    && (forall i {:trigger writes[i]} :: 0 <= i < k ==> Logs(a, run[from + 1 + 2 * i], run[from + 2 + 2 * i], run[from + 3 + 2 * i], p, writes[i]))
  }

  /** Both parts of log_write. */
  ghost predicate Logs(a: Area, s: G.State, s1: G.State, s2: G.State, p: nat, w: Logged) {
    G.GuardLogWrite(a, s, s1, p) && G.Append(a, s1, s2, p, w.n, w.data)
  }

  /** Every group of the run is one transaction. */
  ghost predicate SingleWrites(sb: SuperBlock, a: Area, run: seq<G.State>) {
    forall from: nat, to: nat :: Group(run, from, to) ==> SingleWrite(sb, a, run, from, to)
  }

  ghost predicate SingleWrite(sb: SuperBlock, a: Area, run: seq<G.State>, from: nat, to: nat) {
    from < |run| && exists p, writes :: Performed(a, run, from, to, p, writes) && AreTransaction(sb, run[from].flat, writes)
  }

  lemma LogsFlat(a: Area, s: G.State, s1: G.State, s2: G.State, p: nat, w: Logged)
    requires Logs(a, s, s1, s2, p, w)
    ensures w.n < |s.flat| && s2.flat == s.flat[w.n := w.data]
  {
  }

  lemma BeginsFlat(s: G.State, s': G.State, p: nat)
    requires G.BeginOp(s, s', p)
    ensures s'.flat == s.flat
  {
  }

  lemma {:induction false} FlatReplays(a: Area, run: seq<G.State>, from: nat, p: nat, writes: seq<Logged>, k: nat)
    requires Written(a, run, from, p, writes, k) && InDisk(writes, |run[from].flat|)
    ensures run[from + 1 + 2 * k].flat == Replay(run[from].flat, writes[..k])
    decreases k
  {
    hide Logs;
    hide G.BeginOp;
    if k == 0 {
      BeginsFlat(run[from], run[from + 1], p);
    } else {
      FlatReplays(a, run, from, p, writes, k - 1);
      assert writes[..k][..k - 1] == writes[..k - 1];
      LogsFlat(a, run[from + 2 * k - 1], run[from + 2 * k], run[from + 1 + 2 * k], p, writes[k - 1]);
    }
  }

  /** A group that is one transaction leaves a file system in order, if it finds one. */
  lemma SingleWriteKeeps(sb: SuperBlock, a: Area, run: seq<G.State>, from: nat, to: nat)
    requires SingleWrite(sb, a, run, from, to) && to < |run| && HasFileSystem(sb, run[from].flat)
    ensures HasFileSystem(sb, run[to].flat)
  {
    hide Own;
    hide SettledAt;
    hide Traced;
    hide FileTransaction;
    hide Performed;
    var p, writes :| Performed(a, run, from, to, p, writes) && AreTransaction(sb, run[from].flat, writes);
    var inodes, owner :| InOrder(sb, Moment(run[from].flat, inodes, owner)) && Transacts(sb, Moment(run[from].flat, inodes, owner), writes);
    var m := Moment(run[from].flat, inodes, owner);
    var m', inum, logged :| FileTransaction(sb, m, m', inum, logged, writes);
    TransactionKeeps(sb, m, m', inum, logged, writes);
    GroupReplays(a, run, from, to, p, writes);
    assert InOrder(sb, Moment(run[to].flat, m'.inodes, m'.owner));
  }

  lemma GroupReplays(a: Area, run: seq<G.State>, from: nat, to: nat, p: nat, writes: seq<Logged>)
    requires Performed(a, run, from, to, p, writes) && InDisk(writes, |run[from].flat|)
    ensures run[to].flat == Replay(run[from].flat, writes)
  {
    FlatReplays(a, run, from, p, writes, |writes|);
    assert writes[..|writes|] == writes;
  }

  lemma TransactionKeeps(sb: SuperBlock, m: Moment, m': Moment, inum: nat, logged: set<nat>, writes: seq<Logged>)
    requires InOrder(sb, m) && FileTransaction(sb, m, m', inum, logged, writes)
    ensures InOrder(sb, m') && InDisk(writes, |m.blocks|) && Replay(m.blocks, writes) == m'.blocks
  {
    hide Own;
    hide SettledAt;
    forall j: nat | j < |m'.inodes|
      ensures SettledAt(sb, m'.blocks, m'.inodes, j)
    {
      assert j < |m.inodes| ==> SettledAt(sb, m.blocks, m.inodes, j);
    }
  }

  /** In any run of filewrites with any crashes, where each transaction has its own commit, every
      disk at every time recovers to a file system in order. */
  lemma FilewritesRecover(sb: SuperBlock, a: Area, run: seq<G.State>, i: nat)
    requires G.IsRun(a, run) && i < |run| && LogBelow(sb, a) && HasFileSystem(sb, run[0].flat) && SingleWrites(sb, a, run)
    ensures GoodLog(run[i].disk, a) && HasFileSystem(sb, Recovered(run[i].disk, a))
  {
    hide HasFileSystem;
    hide SingleWrite;
    hide G.IsRun;
    forall from: nat, to: nat | Group(run, from, to) && HasFileSystem(sb, run[from].flat)
      ensures HasFileSystem(sb, run[to].flat)
    {
      SingleWriteKeeps(sb, a, run, from, to);
    }
    RecoversToFileSystem(sb, a, run, i);
  }

  // ---------- every transaction has such a group ----------

  /** After `k` of the log_writes. */
  ghost function Writing(s: G.State, p: nat, writes: seq<Logged>, k: nat): G.State
    requires p < |s.ops| && k <= |writes| && InDisk(writes, |s.flat|)
  {
    s.(outstanding := 1, lh := AbsorbAll([], writes[..k]), flat := Replay(s.flat, writes[..k]),
       ops := s.ops[p := G.Open(|AbsorbAll([], writes[..k])|, false)])
  }

  lemma LogStep(a: Area, s: G.State, p: nat, writes: seq<Logged>, k: nat) returns (s1: G.State)
    requires Starts(a, s, p, writes) && k < |writes|
    ensures Logs(a, Writing(s, p, writes, k), s1, Writing(s, p, writes, k + 1), p, writes[k])
    ensures s1.stop == G.No == Writing(s, p, writes, k).stop
    ensures s1.outstanding > 0 && Writing(s, p, writes, k + 1).outstanding > 0
  {
    var t := Writing(s, p, writes, k);
    s1 := t.(ops := t.ops[p := t.ops[p].(passed := true)]);
    assert writes[..k + 1][..k] == writes[..k];
    FewAbsorbed([], writes, k);
    FewAbsorbed([], writes, k + 1);
    NothingListed(writes);
    assert s1.ops[p := G.Open(|AbsorbAll([], writes[..k + 1])|, false)] == Writing(s, p, writes, k + 1).ops;
  }

  lemma {:induction false} WritesRun(a: Area, run: seq<G.State>, p: nat, writes: seq<Logged>, k: nat) returns (run': seq<G.State>)
    requires |run| > 0 && G.IsRun(a, run) && Starts(a, G.Last(run), p, writes) && k <= |writes|
    ensures G.IsRun(a, run') && run <= run' && |run'| == |run| + 1 + 2 * k && G.Last(run') == Writing(G.Last(run), p, writes, k)
    ensures Written(a, run', |run| - 1, p, writes, k)
    ensures forall j :: |run| <= j < |run'| ==> run'[j].outstanding > 0
    decreases k
  {
    hide G.IsRun;
    hide G.BeginOp;
    hide Logs;
    hide Written;
    hide Writing;
    var s := G.Last(run);
    if k == 0 {
      run' := run + [Writing(s, p, writes, 0)];
      WritesBegin(a, run, p, writes);
    } else {
      var run1 := WritesRun(a, run, p, writes, k - 1);
      var s1 := LogStep(a, s, p, writes, k - 1);
      WritesGoOn(a, run1, |run| - 1, s1, Writing(s, p, writes, k), p, writes, k - 1);
      run' := run1 + [s1, Writing(s, p, writes, k)];
    }
  }

  /** At the idle state `s`, process `p` can begin an operation with these log_writes. */
  ghost predicate Starts(a: Area, s: G.State, p: nat, writes: seq<Logged>) {
    && G.Idle(s) && !s.committing && s.lh == [] && p < |s.ops| && s.ops[p] == G.Closed
    && Home(a, writes, |s.flat|) && |Numbers(writes)| <= MAXOPBLOCKS && a.size > MAXOPBLOCKS + 1
  }

  lemma WritesBegin(a: Area, run: seq<G.State>, p: nat, writes: seq<Logged>)
    requires G.IsRun(a, run) && Starts(a, G.Last(run), p, writes)
    ensures var t := Writing(G.Last(run), p, writes, 0);
            G.IsRun(a, run + [t]) && Written(a, run + [t], |run| - 1, p, writes, 0) && t.outstanding > 0
  {
    var s := G.Last(run);
    var t := Writing(s, p, writes, 0);
    assert writes[..0] == [];
    assert G.BeginOp(s, t, p);
    assert G.Next(a, s, t);
  }

  lemma WritesGoOn(a: Area, run: seq<G.State>, from: nat, s1: G.State, s2: G.State, p: nat, writes: seq<Logged>, k: nat)
    requires G.IsRun(a, run) && Written(a, run, from, p, writes, k) && k < |writes| && |run| == from + 2 + 2 * k
    requires G.Last(run).stop == G.No == s1.stop && Logs(a, G.Last(run), s1, s2, p, writes[k])
    ensures G.IsRun(a, run + [s1, s2]) && Written(a, run + [s1, s2], from, p, writes, k + 1)
  {
    hide G.BeginOp;
    StepsOn(a, run, s1, s2, p, writes[k]);
    var run' := run + [s1, s2];
    hide G.IsRun;
    hide Logs;
    forall i | 0 <= i < k + 1
      ensures Logs(a, run'[from + 1 + 2 * i], run'[from + 2 + 2 * i], run'[from + 3 + 2 * i], p, writes[i])
    {
      if i < k {
        assert Logs(a, run[from + 1 + 2 * i], run[from + 2 + 2 * i], run[from + 3 + 2 * i], p, writes[i]);
      }
    }
  }

  lemma StepsOn(a: Area, run: seq<G.State>, s1: G.State, s2: G.State, p: nat, w: Logged)
    requires G.IsRun(a, run) && Logs(a, G.Last(run), s1, s2, p, w) && G.Last(run).stop == G.No == s1.stop
    ensures G.IsRun(a, run + [s1, s2])
  {
    assert G.Next(a, G.Last(run), s1) && G.Next(a, s1, s2);
  }

  /** From an idle moment of any run, any transaction can be performed as a group of its own. */
  lemma TransactionRuns(sb: SuperBlock, a: Area, run: seq<G.State>, p: nat, m: Moment, m': Moment, inum: nat, logged: set<nat>, writes: seq<Logged>)
    returns (run': seq<G.State>)
    requires |run| > 0 && G.IsRun(a, run) && G.Idle(G.Last(run)) && p < |G.Last(run).ops| && LogBelow(sb, a) && a.size > MAXOPBLOCKS + 1
    requires G.Last(run).flat == m.blocks && FileTransaction(sb, m, m', inum, logged, writes)
    ensures G.IsRun(a, run') && run <= run' && Group(run', |run| - 1, |run'| - 1) && G.Last(run').flat == m'.blocks
    ensures Performed(a, run', |run| - 1, |run'| - 1, p, writes)
    ensures InOrder(sb, m) ==> SingleWrite(sb, a, run', |run| - 1, |run'| - 1)
  {
    hide Own;
    hide SettledAt;
    hide G.IsRun;
    hide Written;
    hide Writing;
    IdleStarts(sb, a, run, p, m, m', inum, logged, writes);
    var run1 := WritesRun(a, run, p, writes, |writes|);
    var u := EndRun(a, run1, G.Last(run), p, writes);
    run' := run1 + [u];
    WrittenOn(a, run1, u, |run| - 1, p, writes);
    GroupReplays(a, run', |run| - 1, |run'| - 1, p, writes);
    if InOrder(sb, m) {
      assert m == Moment(m.blocks, m.inodes, m.owner) && Transacts(sb, m, writes);
      assert AreTransaction(sb, m.blocks, writes);
    }
  }

  lemma IdleStarts(sb: SuperBlock, a: Area, run: seq<G.State>, p: nat, m: Moment, m': Moment, inum: nat, logged: set<nat>, writes: seq<Logged>)
    requires G.IsRun(a, run) && G.Idle(G.Last(run)) && p < |G.Last(run).ops| && LogBelow(sb, a) && a.size > MAXOPBLOCKS + 1
    requires G.Last(run).flat == m.blocks && FileTransaction(sb, m, m', inum, logged, writes)
    ensures Starts(a, G.Last(run), p, writes)
  {
    hide Own;
    hide SettledAt;
    hide G.Next;
    G.RunInv(a, run, |run| - 1);
    NoneOpen(G.Last(run).ops, p);
    HomeNumbers(sb, a, m.blocks, m'.blocks, logged, writes);
  }

  lemma EndRun(a: Area, run: seq<G.State>, s: G.State, p: nat, writes: seq<Logged>) returns (u: G.State)
    requires G.IsRun(a, run) && Starts(a, s, p, writes) && G.Last(run) == Writing(s, p, writes, |writes|)
    ensures G.IsRun(a, run + [u]) && G.EndOp(a, G.Last(run), u, p) && u.outstanding == 0 && u.mode.Committing?
  {
    assert writes[..|writes|] == writes;
    FewAbsorbed([], writes, |writes|);
    NothingListed(writes);
    var t := G.Last(run);
    u := t.(outstanding := 0, ops := t.ops[p := G.Closed], committing := true, mode := G.Committing(0, t.disk), quiet := t.quiet + [t.flat]);
    assert G.EndOp(a, t, u, p);
    assert G.Next(a, t, u);
  }

  lemma WrittenOn(a: Area, run: seq<G.State>, u: G.State, from: nat, p: nat, writes: seq<Logged>)
    requires Written(a, run, from, p, writes, |writes|)
    ensures Written(a, run + [u], from, p, writes, |writes|)
  {
    hide G.BeginOp;
    hide Logs;
    var run' := run + [u];
    forall i | 0 <= i < |writes|
      ensures Logs(a, run'[from + 1 + 2 * i], run'[from + 2 + 2 * i], run'[from + 3 + 2 * i], p, writes[i])
    {
      assert Logs(a, run[from + 1 + 2 * i], run[from + 2 + 2 * i], run[from + 3 + 2 * i], p, writes[i]);
    }
  }

  lemma NoneOpen(ops: seq<G.Op>, p: nat)
    requires G.Sum(G.IsOpen, ops) == 0 && p < |ops|
    ensures ops[p] == G.Closed
  {
    if ops[p].Open? {
      G.SumPositive(ops, p);
    }
  }
}

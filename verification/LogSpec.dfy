/** What log.c does to the disk, one block write at a time, and why a crash
    between any two writes is harmless. */
module LogSpec {
  import opened Blocks

  const MAXOPBLOCKS := 10
  const LOGSIZE := MAXOPBLOCKS * 3

  /** log.start and log.size: a header block, then size - 1 log blocks. */
  datatype Area = Area(start: nat, size: nat)

  predicate InLog(a: Area, n: nat) {
    a.start <= n < a.start + a.size
  }

  /** log.c:223-230: a block that is already logged keeps its slot. */
  function Absorb(lh: seq<nat>, n: nat): seq<nat> {
    if n in lh then lh else lh + [n]
  }

  // ---------- the header block (log.c:34-37) ----------

  function HeaderCount(b: Block): nat {
    WordAt(b, 0)
  }

  function HeaderBlocks(b: Block): seq<nat>
    requires HeaderCount(b) <= LOGSIZE
  {
    seq(HeaderCount(b), i requires 0 <= i < HeaderCount(b) => WordAt(b, i + 1))
  }

  /** Where the fields of struct logheader are in its block. */
  lemma HeaderLayout(b: Block)
    ensures HeaderCount(b) == Little(b, 0, 4)
    ensures HeaderCount(b) <= LOGSIZE ==> forall i :: 0 <= i < HeaderCount(b) ==> HeaderBlocks(b)[i] == Little(b, 4 + 4 * i, 4)
  {
    hide WordAt;
    hide Little;
    WordLayout(b, 0);
    forall i: nat | i + 1 < WORDS
      ensures WordAt(b, i + 1) == Little(b, 4 + 4 * i, 4)
    {
      WordLayout(b, i + 1);
    }
  }

  /** The header stores of write_head (log.c:107-110): the count, then entry by
      entry; the rest of the block keeps what it held. */
  function PutHeader(b: Block, ns: seq<nat>, k: nat): Block
    requires k <= |ns| <= LOGSIZE && forall i :: 0 <= i < |ns| ==> ns[i] < WORD_LIMIT
  {
    if k == 0 then PutWord(b, 0, |ns|) else PutWord(PutHeader(b, ns, k - 1), k, ns[k - 1])
  }

  lemma {:induction false} PutHeaderWord(b: Block, ns: seq<nat>, k: nat, j: nat)
    requires j <= k <= |ns| <= LOGSIZE && forall i :: 0 <= i < |ns| ==> ns[i] < WORD_LIMIT
    ensures WordAt(PutHeader(b, ns, k), j) == if j == 0 then |ns| else ns[j - 1]
    decreases k
  {
    hide WordAt;
    hide PutWord;
    if k == 0 {
      PutWordRoundTrip(b, 0, |ns|, 0);
    } else {
      PutWordRoundTrip(PutHeader(b, ns, k - 1), k, ns[k - 1], j);
      if j < k { PutHeaderWord(b, ns, k - 1, j); }
    }
  }

  lemma PutHeaderWords(b: Block, ns: seq<nat>, k: nat)
    requires k <= |ns| <= LOGSIZE && forall i :: 0 <= i < |ns| ==> ns[i] < WORD_LIMIT
    ensures WordAt(PutHeader(b, ns, k), 0) == |ns|
    ensures forall i :: 0 <= i < k ==> WordAt(PutHeader(b, ns, k), i + 1) == ns[i]
  {
    hide WordAt;
    hide PutHeader;
    PutHeaderWord(b, ns, k, 0);
    forall i | 0 <= i < k
      ensures WordAt(PutHeader(b, ns, k), i + 1) == ns[i]
    {
      PutHeaderWord(b, ns, k, i + 1);
    }
  }

  /** What write_head stores, read_head reads back. */
  lemma HeaderRoundTrip(b: Block, ns: seq<nat>)
    requires |ns| <= LOGSIZE && forall i :: 0 <= i < |ns| ==> ns[i] < WORD_LIMIT
    ensures HeaderCount(PutHeader(b, ns, |ns|)) == |ns|
    ensures HeaderBlocks(PutHeader(b, ns, |ns|)) == ns
  {
    PutHeaderWords(b, ns, |ns|);
  }

  // ---------- disks between writes ----------

  ghost predicate SameHome(x: Disk, y: Disk, a: Area) {
    |x| == |y| && forall n :: 0 <= n < |x| && !InLog(a, n) ==> x[n] == y[n]
  }

  /** Logged block numbers fit the header and the log area, and name home blocks. */
  ghost predicate Loggable(ns: seq<nat>, a: Area, diskSize: nat) {
    && |ns| <= LOGSIZE
    && |ns| < a.size
    && a.start + a.size <= diskSize <= WORD_LIMIT
    && forall i :: 0 <= i < |ns| ==> ns[i] < diskSize && !InLog(a, ns[i])
  }

  /** A disk the kernel may find at boot. */
  ghost predicate GoodLog(d: Disk, a: Area) {
    && a.start < |d|
    && HeaderCount(d[a.start]) <= LOGSIZE
    && Loggable(HeaderBlocks(d[a.start]), a, |d|)
  }

  /** The disk after the first `k` writes of install_trans (log.c:74-81). */
  function Install<D>(d: seq<D>, start: nat, ns: seq<nat>, k: nat): (r: seq<D>)
    requires k <= |ns| && start + |ns| < |d| && forall i :: 0 <= i < |ns| ==> ns[i] < |d|
    ensures |r| == |d|
  {
    if k == 0 then d
    else var r := Install(d, start, ns, k - 1); r[ns[k - 1] := r[start + k]]
  }

  /** The disk after the first `k` writes of write_log (log.c:182-189), which
      copies the cached content `flat` of the logged blocks. */
  function CopyToLog<D>(d: seq<D>, flat: seq<D>, start: nat, ns: seq<nat>, k: nat): (r: seq<D>)
    requires k <= |ns| && start + |ns| < |d| && forall i :: 0 <= i < |ns| ==> ns[i] < |flat|
    ensures |r| == |d|
  {
    if k == 0 then d
    else CopyToLog(d, flat, start, ns, k - 1)[start + k := flat[ns[k - 1]]]
  }

  /** The disk after write_head (log.c:102-113). */
  function WithHeader(d: Disk, start: nat, ns: seq<nat>): Disk
    requires start < |d| && |ns| <= LOGSIZE && forall i :: 0 <= i < |ns| ==> ns[i] < WORD_LIMIT
  {
    d[start := PutHeader(d[start], ns, |ns|)]
  }

  /** The disk after the first `j` of the 2n + 2 writes of commit (log.c:193-202). */
  function CommitDisk(d: Disk, flat: Disk, a: Area, ns: seq<nat>, j: nat): (r: Disk)
    requires Loggable(ns, a, |d|) && |flat| == |d| && j <= 2 * |ns| + 2
    ensures |r| == |d|
  {
    var copied := CopyToLog(d, flat, a.start, ns, if j < |ns| then j else |ns|);
    if j <= |ns| then copied
    else
      var committed := WithHeader(copied, a.start, ns);
      var installed := Install(committed, a.start, ns, if j <= 2 * |ns| + 1 then j - |ns| - 1 else |ns|);
      if j <= 2 * |ns| + 1 then installed else WithHeader(installed, a.start, [])
  }

  /** The commit point and the end of a commit. */
  lemma CommitSteps(d: Disk, flat: Disk, a: Area, ns: seq<nat>)
    requires Loggable(ns, a, |d|) && |flat| == |d|
    ensures
      var committed := CommitDisk(d, flat, a, ns, |ns| + 1);
      && committed == WithHeader(CopyToLog(d, flat, a.start, ns, |ns|), a.start, ns)
      && CommitDisk(d, flat, a, ns, 2 * |ns| + 2) == WithHeader(Install(committed, a.start, ns, |ns|), a.start, [])
  {
  }

  function RecoveryWrites(d: Disk, a: Area): nat
    requires GoodLog(d, a)
  {
    HeaderCount(d[a.start]) + 1
  }

  /** The disk after the first `k` writes of recover_from_log (log.c:116-122). */
  function RecoveryDisk(d: Disk, a: Area, k: nat): (r: Disk)
    requires GoodLog(d, a) && k <= RecoveryWrites(d, a)
    ensures |r| == |d|
  {
    var ns := HeaderBlocks(d[a.start]);
    if k <= |ns| then Install(d, a.start, ns, k)
    else WithHeader(Install(d, a.start, ns, |ns|), a.start, [])
  }

  function Recovered(d: Disk, a: Area): Disk
    requires GoodLog(d, a)
  {
    RecoveryDisk(d, a, RecoveryWrites(d, a))
  }

  // ---------- what installing and copying change ----------

  /** The last of the first `k` entries that names `n`, or `k` if none does. */
  function LastEntry(ns: seq<nat>, k: nat, n: nat): (i: nat)
    requires k <= |ns|
    ensures i < k ==> ns[i] == n
    ensures i >= k ==> i == k && n !in ns[..k]
  {
    if k == 0 then 0
    else if ns[k - 1] == n then k - 1
    else var i := LastEntry(ns, k - 1, n); if i < k - 1 then i else k
  }

  lemma {:induction false} InstallAt<D>(d: seq<D>, a: Area, ns: seq<nat>, k: nat, n: nat)
    requires Loggable(ns, a, |d|) && k <= |ns| && n < |d|
    ensures Install(d, a.start, ns, k)[n] ==
            var i := LastEntry(ns, k, n);
            if i < k then d[a.start + 1 + i] else d[n]
  {
    if k > 0 {
      InstallAt(d, a, ns, k - 1, n);
      InstallAt(d, a, ns, k - 1, a.start + k);
    }
  }

  lemma {:induction false} CopyToLogAt<D>(d: seq<D>, flat: seq<D>, a: Area, ns: seq<nat>, k: nat, n: nat)
    requires Loggable(ns, a, |d|) && |flat| == |d| && k <= |ns| && n < |d|
    ensures CopyToLog(d, flat, a.start, ns, k)[n] ==
            if a.start < n <= a.start + k then flat[ns[n - a.start - 1]] else d[n]
  {
    if k > 0 {
      CopyToLogAt(d, flat, a, ns, k - 1, n);
    }
  }

  // ---------- crash safety ----------

  lemma InstallTwice<D>(d: seq<D>, a: Area, ns: seq<nat>, k: nat, n: nat)
    requires Loggable(ns, a, |d|) && k <= |ns| && n < |d|
    ensures Install(Install(d, a.start, ns, k), a.start, ns, |ns|)[n] == Install(d, a.start, ns, |ns|)[n]
  {
    var i := LastEntry(ns, |ns|, n);
    InstallAt(d, a, ns, k, n);
    InstallAt(d, a, ns, |ns|, n);
    InstallAt(Install(d, a.start, ns, k), a, ns, |ns|, n);
    if i < |ns| {
      InstallAt(d, a, ns, k, a.start + 1 + i);
    } else {
      LastEntryNone(ns, k, n);
    }
  }

  lemma CopyThenInstall<D>(d: seq<D>, flat: seq<D>, header: D, a: Area, ns: seq<nat>, n: nat)
    requires Loggable(ns, a, |d|) && |flat| == |d| && n < |d| && !InLog(a, n)
    ensures Install(CopyToLog(d, flat, a.start, ns, |ns|)[a.start := header], a.start, ns, |ns|)[n] ==
            if n in ns then flat[n] else d[n]
  {
    InstallAt(CopyToLog(d, flat, a.start, ns, |ns|)[a.start := header], a, ns, |ns|, n);
    var i := LastEntry(ns, |ns|, n);
    CopyToLogAt(d, flat, a, ns, |ns|, if i < |ns| then a.start + 1 + i else n);
  }

  /** A crash inside recovery loses nothing: recovering again, from the start,
      reaches the same home blocks. */
  lemma RecoveryRestarts(d: Disk, a: Area, k: nat)
    requires GoodLog(d, a) && k <= RecoveryWrites(d, a)
    ensures GoodLog(RecoveryDisk(d, a, k), a)
    ensures SameHome(Recovered(RecoveryDisk(d, a, k), a), Recovered(d, a), a)
  {
    var ns := HeaderBlocks(d[a.start]);
    if k <= |ns| {
      InstallAt(d, a, ns, k, a.start);
      forall n | 0 <= n < |d| && !InLog(a, n)
        ensures Install(Install(d, a.start, ns, k), a.start, ns, |ns|)[n] == Install(d, a.start, ns, |ns|)[n]
      {
        InstallTwice(d, a, ns, k, n);
      }
    } else {
      HeaderRoundTrip(Install(d, a.start, ns, |ns|)[a.start], []);
    }
  }

  lemma LastEntryNone(ns: seq<nat>, k: nat, n: nat)
    requires k <= |ns| && n !in ns
    ensures LastEntry(ns, k, n) == k
  {
  }

  /** Crashes after `ks[0]`, `ks[1]`, ... writes of successive recoveries. */
  function AfterCrashes(d: Disk, a: Area, ks: seq<nat>): Disk
    requires GoodLog(d, a)
    decreases |ks|
  {
    if ks == [] then d
    else
      RecoveryRestarts(d, a, Min(ks[0], RecoveryWrites(d, a)));
      AfterCrashes(RecoveryDisk(d, a, Min(ks[0], RecoveryWrites(d, a))), a, ks[1..])
  }

  lemma {:induction false} RecoverySurvivesCrashes(d: Disk, a: Area, ks: seq<nat>)
    requires GoodLog(d, a)
    ensures GoodLog(AfterCrashes(d, a, ks), a)
    ensures SameHome(Recovered(AfterCrashes(d, a, ks), a), Recovered(d, a), a)
    decreases |ks|
  {
    if ks != [] {
      var k := Min(ks[0], RecoveryWrites(d, a));
      RecoveryRestarts(d, a, k);
      RecoverySurvivesCrashes(RecoveryDisk(d, a, k), a, ks[1..]);
    }
  }

  /** The log is empty, and the home blocks that are not logged are up to date. */
  ghost predicate CommitReady(d: Disk, flat: Disk, a: Area, ns: seq<nat>) {
    && Loggable(ns, a, |d|) && |flat| == |d|
    && HeaderCount(d[a.start]) == 0
    && forall n :: 0 <= n < |d| && !InLog(a, n) && n !in ns ==> d[n] == flat[n]
  }

  /** A crash after any `j` writes of a commit leaves a disk that recovers to the
      home blocks from before the transaction, until the header is written, and
      to those after it from then on. */
  lemma CommitIsAtomic(d: Disk, flat: Disk, a: Area, ns: seq<nat>, j: nat)
    requires CommitReady(d, flat, a, ns) && j <= 2 * |ns| + 2
    ensures GoodLog(CommitDisk(d, flat, a, ns, j), a)
    ensures SameHome(Recovered(CommitDisk(d, flat, a, ns, j), a), if j <= |ns| then d else flat, a)
  {
    hide CommitDisk;
    hide RecoveryDisk;
    hide CopyToLog;
    hide Install;
    hide PutHeader;
    hide WordAt;
    if j <= |ns| {
      BeforeHeader(d, flat, a, ns, j);
    } else {
      AfterHeader(d, flat, a, ns);
      CommitTail(d, flat, a, ns, j);
      RecoveryRestarts(CommitDisk(d, flat, a, ns, |ns| + 1), a, j - |ns| - 1);
    }
  }

  /** Once the header is written, commit does what recovery would do. */
  lemma CommitTail(d: Disk, flat: Disk, a: Area, ns: seq<nat>, j: nat)
    requires Loggable(ns, a, |d|) && |flat| == |d| && |ns| < j <= 2 * |ns| + 2
    requires
      var committed := CommitDisk(d, flat, a, ns, |ns| + 1);
      GoodLog(committed, a) && HeaderBlocks(committed[a.start]) == ns
    ensures CommitDisk(d, flat, a, ns, j) == RecoveryDisk(CommitDisk(d, flat, a, ns, |ns| + 1), a, j - |ns| - 1)
  {
  }

  lemma BeforeHeader(d: Disk, flat: Disk, a: Area, ns: seq<nat>, j: nat)
    requires CommitReady(d, flat, a, ns) && j <= |ns|
    ensures GoodLog(CommitDisk(d, flat, a, ns, j), a)
    ensures SameHome(Recovered(CommitDisk(d, flat, a, ns, j), a), d, a)
  {
    forall n | 0 <= n < |d|
      ensures CommitDisk(d, flat, a, ns, j)[n] == if a.start < n <= a.start + j then flat[ns[n - a.start - 1]] else d[n]
    {
      CopyToLogAt(d, flat, a, ns, j, n);
    }
  }

  lemma AfterHeader(d: Disk, flat: Disk, a: Area, ns: seq<nat>)
    requires CommitReady(d, flat, a, ns)
    ensures
      var committed := CommitDisk(d, flat, a, ns, |ns| + 1);
      && GoodLog(committed, a) && HeaderBlocks(committed[a.start]) == ns
      && SameHome(Recovered(committed, a), flat, a)
  {
    var copied := CopyToLog(d, flat, a.start, ns, |ns|);
    var committed := WithHeader(copied, a.start, ns);
    HeaderRoundTrip(copied[a.start], ns);
    assert CommitDisk(d, flat, a, ns, |ns| + 1) == committed;
    forall n | 0 <= n < |d| && !InLog(a, n)
      ensures Install(committed, a.start, ns, |ns|)[n] == flat[n]
    {
      CopyThenInstall(d, flat, PutHeader(copied[a.start], ns, |ns|), a, ns, n);
    }
  }

  /** After all its writes, a commit has installed the transaction and left the
      log empty, on the disk and in the cache's view of it. */
  lemma CommitDone(d: Disk, flat: Disk, a: Area, ns: seq<nat>)
    requires CommitReady(d, flat, a, ns)
    ensures
      var view := WithHeader(CopyToLog(flat, flat, a.start, ns, |ns|), a.start, ns);
      var view' := WithHeader(Install(view, a.start, ns, |ns|), a.start, []);
      var d' := CommitDisk(d, flat, a, ns, 2 * |ns| + 2);
      && SameHome(d', flat, a) && SameHome(view', flat, a)
      && HeaderCount(d'[a.start]) == 0
      && forall n :: a.start < n < a.start + a.size ==> d'[n] == CommitDisk(d, flat, a, ns, |ns| + 1)[n] && view'[n] == view[n]
  {
    var copied, view := CopyToLog(d, flat, a.start, ns, |ns|), CopyToLog(flat, flat, a.start, ns, |ns|);
    forall n | 0 <= n < |d| && !InLog(a, n)
      ensures Install(WithHeader(copied, a.start, ns), a.start, ns, |ns|)[n] == flat[n]
      ensures Install(WithHeader(view, a.start, ns), a.start, ns, |ns|)[n] == flat[n]
    {
      CopyThenInstall(d, flat, PutHeader(copied[a.start], ns, |ns|), a, ns, n);
      CopyThenInstall(flat, flat, PutHeader(view[a.start], ns, |ns|), a, ns, n);
    }
    forall n | a.start < n < a.start + a.size
      ensures Install(WithHeader(copied, a.start, ns), a.start, ns, |ns|)[n] == WithHeader(copied, a.start, ns)[n]
      ensures Install(WithHeader(view, a.start, ns), a.start, ns, |ns|)[n] == WithHeader(view, a.start, ns)[n]
    {
      InstallAt(WithHeader(copied, a.start, ns), a, ns, |ns|, n);
      InstallAt(WithHeader(view, a.start, ns), a, ns, |ns|, n);
    }
    HeaderRoundTrip(Install(WithHeader(copied, a.start, ns), a.start, ns, |ns|)[a.start], []);
  }

  /** Crash atomicity of log.c: a crash after any `j` writes of a commit, then
      crashes inside any number of recoveries, then one recovery that completes. */
  lemma CrashAtomicity(d: Disk, flat: Disk, a: Area, ns: seq<nat>, j: nat, ks: seq<nat>)
    requires CommitReady(d, flat, a, ns) && j <= 2 * |ns| + 2
    ensures GoodLog(CommitDisk(d, flat, a, ns, j), a)
    ensures
      var crashed := AfterCrashes(CommitDisk(d, flat, a, ns, j), a, ks);
      GoodLog(crashed, a) && SameHome(Recovered(crashed, a), if j <= |ns| then d else flat, a)
  {
    CommitIsAtomic(d, flat, a, ns, j);
    RecoverySurvivesCrashes(CommitDisk(d, flat, a, ns, j), a, ks);
  }
}

/** Group commit: every interleaving of begin_op, log_write, end_op, the block
    writes of commit and of recovery, and crashes (log.c). */
module GroupCommit {
  import opened Sequences
  import opened Blocks
  import opened LogSpec
  import BufferCache

  const NBUF := BufferCache.NBUF

  /** A process outside any operation, or inside one that has added `spent` block
      numbers to the log.  `passed` means it is between the guard of log_write,
      which runs outside log.lock, and the section under the lock. */
  datatype Op = Closed | Open(spent: nat, passed: bool)

  /** What is writing the disk, and after how many of its writes we are.  A commit
      remembers the disk `d` it started from. */
  datatype Mode = Running | Committing(writes: nat, d: Disk) | Recovering(writes: nat, d: Disk)

  /** The panics of log.c; a commit that finds every buffer of the cache pinned by a logged
      block panics in its first bread (bio.c:81-92); and `Overrun` is a commit of more blocks
      than the log area holds, where this model stops. */
  datatype Stop = No | TooBig | OutsideOp | CommittingInEndOp | NoBuffers | Overrun

  /** `flat` is the logical content; `quiet` lists what it was each time the last
      open operation ended, and `durable` says which of these is on the disk. */
  datatype State = State(disk: Disk, flat: Disk, lh: seq<nat>, outstanding: int, committing: bool,
                         ops: seq<Op>, mode: Mode, stop: Stop, quiet: seq<Disk>, durable: nat)

  // ---------- steps ----------

  function CommitWrites(lh: seq<nat>): nat {
    if lh == [] then 0 else 2 * |lh| + 2
  }

  ghost predicate Init(a: Area, s: State) {
    && s.stop == No && s.mode == Running
    && a.size > 0 && a.start + a.size <= |s.disk| <= WORD_LIMIT && HeaderCount(s.disk[a.start]) == 0
    && s.lh == [] && s.outstanding == 0 && !s.committing
    && (forall p :: 0 <= p < |s.ops| ==> s.ops[p] == Closed)
    && s.flat == s.disk && s.quiet == [s.flat] && s.durable == 0
  }

  ghost predicate BeginOp(s: State, s': State, p: nat) {
    && p < |s.ops| && s.ops[p] == Closed && !s.mode.Recovering?
    && !s.committing && |s.lh| + (s.outstanding + 1) * MAXOPBLOCKS <= LOGSIZE
    && s' == s.(outstanding := s.outstanding + 1, ops := s.ops[p := Open(0, false)])
  }

  /** log.c:218-221 */
  ghost predicate GuardLogWrite(a: Area, s: State, s': State, p: nat) {
    && p < |s.ops| && s.ops[p].Open? && !s.ops[p].passed
    && s' == if |s.lh| >= LOGSIZE || |s.lh| >= a.size - 1 then s.(stop := TooBig)
             else if s.outstanding < 1 then s.(stop := OutsideOp)
             else s.(ops := s.ops[p := s.ops[p].(passed := true)])
  }

  /** log.c:223-232, by a process that keeps to its reservation. */
  ghost predicate Append(a: Area, s: State, s': State, p: nat, n: nat, data: Block) {
    && p < |s.ops| && s.ops[p].Open? && s.ops[p].passed
    && n < |s.flat| && !InLog(a, n)
    && (n in s.lh || s.ops[p].spent < MAXOPBLOCKS)
    && s' == s.(lh := Absorb(s.lh, n), flat := s.flat[n := data],
                ops := s.ops[p := Open(s.ops[p].spent + if n in s.lh then 0 else 1, false)])
  }

  ghost predicate EndOp(a: Area, s: State, s': State, p: nat) {
    && p < |s.ops| && s.ops[p].Open? && !s.ops[p].passed
    && var t := s.(outstanding := s.outstanding - 1, ops := s.ops[p := Closed]);
       s' == if s.committing then t.(stop := CommittingInEndOp)
             else if t.outstanding != 0 then t
             else if |s.lh| >= NBUF then t.(stop := NoBuffers)
             else if |s.lh| >= a.size then t.(stop := Overrun)
             else t.(committing := true, mode := Committing(0, s.disk), quiet := s.quiet + [s.flat])
  }

  ghost predicate CommitWrite(a: Area, s: State, s': State) {
    && s.mode.Committing? && |s.quiet| > 0 && s.mode.writes < CommitWrites(s.lh)
    && Loggable(s.lh, a, |s.mode.d|) && |s.flat| == |s.mode.d|
    && var j := s.mode.writes + 1;
       s' == s.(disk := CommitDisk(s.mode.d, s.flat, a, s.lh, j), mode := Committing(j, s.mode.d),
                durable := if j == |s.lh| + 1 then |s.quiet| - 1 else s.durable)
  }

  ghost predicate CommitEnd(s: State, s': State) {
    && s.mode.Committing? && |s.quiet| > 0 && s.mode.writes == CommitWrites(s.lh)
    && s' == s.(lh := [], committing := false, mode := Running,
                durable := if s.lh == [] then |s.quiet| - 1 else s.durable)
  }

  /** Everything but the disk is lost; the next boot starts recovery. */
  ghost predicate Crash(s: State, s': State) {
    s' == s.(flat := s.disk, lh := [], outstanding := 0, committing := false,
             ops := seq(|s.ops|, i => Closed), mode := Recovering(0, s.disk), stop := No)
  }

  ghost predicate RecoveryWrite(a: Area, s: State, s': State) {
    && s.mode.Recovering? && GoodLog(s.mode.d, a) && s.mode.writes < RecoveryWrites(s.mode.d, a)
    && var k := s.mode.writes + 1;
       s' == s.(disk := RecoveryDisk(s.mode.d, a, k), mode := Recovering(k, s.mode.d))
  }

  ghost predicate RecoveryEnd(a: Area, s: State, s': State) {
    && s.mode.Recovering? && GoodLog(s.mode.d, a) && s.mode.writes == RecoveryWrites(s.mode.d, a)
    && s' == s.(flat := s.disk, mode := Running)
  }

  /** Steps of a machine that has not stopped. */
  ghost predicate Step(a: Area, s: State, s': State) {
    || (exists p :: BeginOp(s, s', p))
    || (exists p :: GuardLogWrite(a, s, s', p))
    || (exists p, n, data :: Append(a, s, s', p, n, data))
    || (exists p :: EndOp(a, s, s', p))
    || CommitWrite(a, s, s')
    || CommitEnd(s, s')
    || RecoveryWrite(a, s, s')
    || RecoveryEnd(a, s, s')
  }

  ghost predicate Next(a: Area, s: State, s': State) {
    Crash(s, s') || (s.stop == No && Step(a, s, s'))
  }

  ghost predicate IsRun(a: Area, run: seq<State>) {
    && |run| > 0 && Init(a, run[0])
    && forall i :: 0 <= i < |run| - 1 ==> Next(a, run[i], run[i + 1])
  }

  // ---------- reservations ----------

  function IsOpen(op: Op): int {
    if op.Open? then 1 else 0
  }

  /** What an operation may still add to the log. */
  function Left(op: Op): int {
    if op.Open? then MAXOPBLOCKS - op.spent else 0
  }

  function Sum(f: Op -> int, ops: seq<Op>): int {
    if ops == [] then 0 else f(ops[0]) + Sum(f, ops[1..])
  }

  lemma {:induction false} SumUpdate(f: Op -> int, ops: seq<Op>, p: nat, op: Op)
    requires p < |ops|
    ensures Sum(f, ops[p := op]) == Sum(f, ops) - f(ops[p]) + f(op)
  {
    if p == 0 {
      assert ops[0 := op][1..] == ops[1..];
    } else {
      assert ops[p := op][1..] == ops[1..][p - 1 := op];
      SumUpdate(f, ops[1..], p - 1, op);
    }
  }

  lemma {:induction false} SumZero(f: Op -> int, ops: seq<Op>)
    requires f(Closed) == 0 && forall p :: 0 <= p < |ops| ==> ops[p] == Closed
    ensures Sum(f, ops) == 0
  {
    if ops != [] {
      SumZero(f, ops[1..]);
    }
  }

  /** Each open operation leaves at most a full reservation. */
  lemma {:induction false} LeftBound(ops: seq<Op>)
    requires forall p :: 0 <= p < |ops| && ops[p].Open? ==> ops[p].spent <= MAXOPBLOCKS
    ensures 0 <= Sum(Left, ops) <= MAXOPBLOCKS * Sum(IsOpen, ops)
  {
    if ops != [] {
      LeftBound(ops[1..]);
    }
  }

  lemma {:induction false} SumPositive(ops: seq<Op>, p: nat)
    requires p < |ops| && ops[p].Open?
    ensures Sum(IsOpen, ops) >= 1
  {
    SumNat(ops[1..]);
    if p > 0 {
      SumPositive(ops[1..], p - 1);
    }
  }

  lemma SumNat(ops: seq<Op>)
    ensures Sum(IsOpen, ops) >= 0
  {
  }

  // ---------- invariant ----------

  /** Log bookkeeping in memory. */
  ghost predicate Booked(a: Area, s: State) {
    && s.outstanding == Sum(IsOpen, s.ops)
    && (forall p :: 0 <= p < |s.ops| && s.ops[p].Open? ==> s.ops[p].spent <= MAXOPBLOCKS)
    && |s.lh| + Sum(Left, s.ops) <= LOGSIZE
    && Distinct(s.lh)
    && (forall i :: 0 <= i < |s.lh| ==> s.lh[i] < |s.flat| && !InLog(a, s.lh[i]))
    && (s.mode.Running? && s.outstanding == 0 && s.stop == No ==> s.lh == [])
    && (s.committing <==> s.mode.Committing?)
    && (!s.mode.Running? ==> s.outstanding == 0)
    && (s.mode.Recovering? ==> s.lh == [])
    && s.stop != OutsideOp && s.stop != CommittingInEndOp
  }

  /** Logical content against the disk. */
  ghost predicate Stored(a: Area, s: State) {
    && a.size > 0 && a.start + a.size <= |s.disk| == |s.flat| <= WORD_LIMIT
    && s.durable < |s.quiet|
    && match s.mode
       case Running =>
         && HeaderCount(s.disk[a.start]) == 0
         && SameHome(s.disk, s.quiet[s.durable], a)
         && forall n :: 0 <= n < |s.disk| && !InLog(a, n) && n !in s.lh ==> s.disk[n] == s.flat[n]
       case Committing(j, d) =>
         && CommitReady(d, s.flat, a, s.lh) && j <= CommitWrites(s.lh)
         && s.disk == CommitDisk(d, s.flat, a, s.lh, j)
         && s.quiet[|s.quiet| - 1] == s.flat
         && SameHome(if j <= |s.lh| then d else s.flat, s.quiet[s.durable], a)
         && (j > |s.lh| ==> s.durable == |s.quiet| - 1)
       case Recovering(k, d) =>
         && GoodLog(d, a) && k <= RecoveryWrites(d, a)
         && s.disk == RecoveryDisk(d, a, k)
         && SameHome(Recovered(d, a), s.quiet[s.durable], a)
  }

  ghost predicate Inv(a: Area, s: State) {
    Booked(a, s) && Stored(a, s)
  }

  lemma InitInv(a: Area, s: State)
    requires Init(a, s)
    ensures Inv(a, s)
  {
    SumZero(IsOpen, s.ops);
    SumZero(Left, s.ops);
  }

  /** In any state, a crash now would recover to the durable quiet moment. */
  lemma InvRecovers(a: Area, s: State)
    requires Inv(a, s)
    ensures GoodLog(s.disk, a) && SameHome(Recovered(s.disk, a), s.quiet[s.durable], a)
  {
    match s.mode
    case Running =>
    case Committing(j, d) => CommitIsAtomic(d, s.flat, a, s.lh, j);
    case Recovering(k, d) => RecoveryRestarts(d, a, k);
  }

  // ---------- every step keeps the invariant ----------

  lemma BeginOpInv(a: Area, s: State, s': State, p: nat)
    requires Inv(a, s) && s.stop == No && BeginOp(s, s', p)
    ensures Inv(a, s')
  {
    SumNat(s.ops);
    LeftBound(s.ops);
    SumUpdate(IsOpen, s.ops, p, Open(0, false));
    SumUpdate(Left, s.ops, p, Open(0, false));
  }

  lemma GuardInv(a: Area, s: State, s': State, p: nat)
    requires Inv(a, s) && s.stop == No && GuardLogWrite(a, s, s', p)
    ensures Inv(a, s')
  {
    SumPositive(s.ops, p);
    SumUpdate(IsOpen, s.ops, p, s.ops[p].(passed := true));
    SumUpdate(Left, s.ops, p, s.ops[p].(passed := true));
  }

  lemma AppendInv(a: Area, s: State, s': State, p: nat, n: nat, data: Block)
    requires Inv(a, s) && s.stop == No && Append(a, s, s', p, n, data)
    ensures Inv(a, s')
  {
    SumPositive(s.ops, p);
    SumUpdate(IsOpen, s.ops, p, s'.ops[p]);
    SumUpdate(Left, s.ops, p, s'.ops[p]);
  }

  lemma EndOpInv(a: Area, s: State, s': State, p: nat)
    requires Inv(a, s) && s.stop == No && EndOp(a, s, s', p)
    ensures Inv(a, s')
  {
    SumPositive(s.ops, p);
    LeftBound(s.ops);
    SumUpdate(IsOpen, s.ops, p, Closed);
    SumUpdate(Left, s.ops, p, Closed);
    LeftBound(s'.ops);
  }

  lemma CommitEndInv(a: Area, s: State, s': State)
    requires Inv(a, s) && CommitEnd(s, s')
    ensures Inv(a, s')
  {
    LeftBound(s.ops);
    CommitDone(s.mode.d, s.flat, a, s.lh);
  }

  lemma CrashInv(a: Area, s: State, s': State)
    requires Inv(a, s) && Crash(s, s')
    ensures Inv(a, s')
  {
    SumZero(IsOpen, s'.ops);
    SumZero(Left, s'.ops);
    InvRecovers(a, s);
  }

  lemma RecoveryEndInv(a: Area, s: State, s': State)
    requires Inv(a, s) && RecoveryEnd(a, s, s')
    ensures Inv(a, s')
  {
  }

  lemma CommitWriteInv(a: Area, s: State, s': State)
    requires Inv(a, s) && CommitWrite(a, s, s')
    ensures Inv(a, s')
  {
    hide CommitDisk;
    hide Sum;
  }

  lemma RecoveryWriteInv(a: Area, s: State, s': State)
    requires Inv(a, s) && RecoveryWrite(a, s, s')
    ensures Inv(a, s')
  {
    hide RecoveryDisk;
    hide Recovered;
    hide Sum;
  }

  lemma NextInv(a: Area, s: State, s': State)
    requires Inv(a, s) && Next(a, s, s')
    ensures Inv(a, s')
  {
    hide Inv;
    hide Crash;
    hide BeginOp;
    hide GuardLogWrite;
    hide Append;
    hide EndOp;
    hide CommitWrite;
    hide CommitEnd;
    hide RecoveryWrite;
    hide RecoveryEnd;
    if Crash(s, s') {
      CrashInv(a, s, s');
    } else if p :| BeginOp(s, s', p) {
      BeginOpInv(a, s, s', p);
    } else if p :| GuardLogWrite(a, s, s', p) {
      GuardInv(a, s, s', p);
    } else if p, n, data :| Append(a, s, s', p, n, data) {
      AppendInv(a, s, s', p, n, data);
    } else if p :| EndOp(a, s, s', p) {
      EndOpInv(a, s, s', p);
    } else if CommitEnd(s, s') {
      CommitEndInv(a, s, s');
    } else if RecoveryEnd(a, s, s') {
      RecoveryEndInv(a, s, s');
    } else if CommitWrite(a, s, s') {
      CommitWriteInv(a, s, s');
    } else {
      RecoveryWriteInv(a, s, s');
    }
  }

  lemma {:induction false} RunInv(a: Area, run: seq<State>, i: nat)
    requires IsRun(a, run) && i < |run|
    ensures Inv(a, run[i])
  {
    if i == 0 {
      InitInv(a, run[0]);
    } else {
      RunInv(a, run, i - 1);
      NextInv(a, run[i - 1], run[i]);
    }
  }

  // ---------- what it means for every run ----------

  /** The machine is up and has not stopped, and no operation is open. */
  predicate Quiet(s: State) {
    s.outstanding == 0 && s.stop == No && !s.mode.Recovering?
  }

  /** The quiet moments on record stay on record, and those a step adds are quiet. */
  lemma RecordStep(a: Area, s: State, s': State)
    requires Next(a, s, s')
    ensures s.quiet <= s'.quiet
    ensures |s'.quiet| > |s.quiet| ==> Quiet(s') && s'.quiet == s.quiet + [s'.flat]
  {
  }

  /** Every quiet moment on record happened. */
  lemma {:induction false} QuietMoment(a: Area, run: seq<State>, i: nat, m: nat) returns (j: nat)
    requires IsRun(a, run) && i < |run| && m < |run[i].quiet|
    ensures j <= i && Quiet(run[j]) && run[j].flat == run[i].quiet[m] && m < |run[j].quiet|
  {
    hide Next;
    if i == 0 {
      j := 0;
    } else if m < |run[i - 1].quiet| {
      RecordStep(a, run[i - 1], run[i]);
      j := QuietMoment(a, run, i - 1, m);
    } else {
      RecordStep(a, run[i - 1], run[i]);
      j := i;
    }
  }

  /** A crash at any time of any run recovers to the logical disk of a moment of
      that run at which the machine was up and no operation was open. */
  lemma CrashesRecoverQuietMoments(a: Area, run: seq<State>, i: nat)
    requires IsRun(a, run) && i < |run|
    ensures GoodLog(run[i].disk, a)
    ensures exists j :: 0 <= j <= i && Quiet(run[j]) && SameHome(Recovered(run[i].disk, a), run[j].flat, a)
  {
    RunInv(a, run, i);
    InvRecovers(a, run[i]);
    var j := QuietMoment(a, run, i, run[i].durable);
  }

  /** The machine is idle: up, not stopped, with no operation open and no commit under way. */
  predicate Idle(s: State) {
    s.mode.Running? && s.stop == No && s.outstanding == 0
  }

  /** Since the idle moment `s`, what is durable is what was then, or was recorded later. */
  predicate Since(s: State, t: State) {
    && s.quiet <= t.quiet
    && (t.durable == s.durable || t.durable >= |s.quiet|)
    && (t.mode.Committing? ==> |t.quiet| > |s.quiet|)
  }

  lemma SinceStep(a: Area, s: State, t: State, t': State)
    requires Since(s, t) && Next(a, t, t')
    ensures Since(s, t')
  {
  }

  lemma SinceNow(a: Area, run: seq<State>, i: nat)
    requires IsRun(a, run) && i < |run| && Idle(run[i])
    ensures Since(run[i], run[i])
  {
  }

  lemma {:induction false} SinceThen(a: Area, run: seq<State>, i0: nat, i: nat)
    requires IsRun(a, run) && i0 <= i < |run| && Idle(run[i0])
    ensures Since(run[i0], run[i])
    decreases i
  {
    hide Next;
    hide Since;
    if i == i0 {
      SinceNow(a, run, i0);
    }
    if i > i0 {
      SinceThen(a, run, i0, i - 1);
      assert Next(a, run[i - 1], run[i]);
      SinceStep(a, run[i0], run[i - 1], run[i]);
    }
  }

  lemma {:induction false} QuietGrows(a: Area, run: seq<State>, i: nat, j: nat)
    requires IsRun(a, run) && i <= j < |run|
    ensures run[i].quiet <= run[j].quiet
    decreases j
  {
    hide Next;
    if i < j {
      QuietGrows(a, run, i, j - 1);
      RecordStep(a, run[j - 1], run[j]);
    }
  }

  /** What an idle moment shows is never lost again: a crash at any later time recovers to
      the logical disk of that moment, or of a later quiet one. */
  lemma NothingCommittedIsLost(a: Area, run: seq<State>, i0: nat, i: nat)
    requires IsRun(a, run) && i0 <= i < |run| && Idle(run[i0])
    ensures GoodLog(run[i].disk, a)
    ensures exists j :: i0 <= j <= i && Quiet(run[j]) && SameHome(Recovered(run[i].disk, a), run[j].flat, a)
  {
    hide Next;
    hide Recovered;
    RunInv(a, run, i0);
    RunInv(a, run, i);
    InvRecovers(a, run[i]);
    SinceThen(a, run, i0, i);
    var d := run[i].durable;
    if d == run[i0].durable {
      assert Quiet(run[i0]) && SameHome(Recovered(run[i].disk, a), run[i0].flat, a);
    } else {
      var j := QuietMoment(a, run, i, d);
      if j < i0 { QuietGrows(a, run, j, i0); }
    }
  }

  /** Nothing is lost once it is committed: with no operation open and no commit
      under way, the disk has the whole logical content. */
  lemma EndedOperationsAreDurable(a: Area, run: seq<State>, i: nat)
    requires IsRun(a, run) && i < |run| && Idle(run[i])
    ensures SameHome(run[i].disk, run[i].flat, a)
  {
    RunInv(a, run, i);
  }

  /** No home block is written while an operation is open. */
  lemma NoHomeWriteDuringOperations(a: Area, run: seq<State>, i: nat)
    requires IsRun(a, run) && i + 1 < |run| && run[i].outstanding > 0
    ensures run[i + 1].disk == run[i].disk
  {
    RunInv(a, run, i);
    assert Next(a, run[i], run[i + 1]);
  }

  /** No operation is open during a commit, and none starts. */
  lemma NoOperationDuringCommit(a: Area, run: seq<State>, i: nat)
    requires IsRun(a, run) && i + 1 < |run| && run[i].committing
    ensures run[i].outstanding == 0 && run[i + 1].outstanding == 0
  {
    RunInv(a, run, i);
    RunInv(a, run, i + 1);
    assert Next(a, run[i], run[i + 1]);
  }

  /** The reservations of begin_op are enough, whatever the interleaving: the log
      header never overflows, no block is logged twice, and the panics of end_op
      and of log_write outside an operation are unreachable. */
  lemma ReservationsHold(a: Area, run: seq<State>, i: nat)
    requires IsRun(a, run) && i < |run|
    ensures |run[i].lh| + Sum(Left, run[i].ops) <= LOGSIZE && |run[i].lh| <= LOGSIZE
    ensures Distinct(run[i].lh)
    ensures run[i].outstanding == Sum(IsOpen, run[i].ops)
    ensures run[i].stop != OutsideOp && run[i].stop != CommittingInEndOp
  {
    RunInv(a, run, i);
    LeftBound(run[i].ops);
  }

  // ---------- does the log area hold a whole transaction? ----------

  /** With no room beside the header, no log_write gets past its guard. */
  ghost predicate NonePassed(s: State) {
    forall p :: 0 <= p < |s.ops| && s.ops[p].Open? ==> !s.ops[p].passed
  }

  lemma NonePassedStep(a: Area, s: State, s': State)
    requires a.size == 1 && NonePassed(s) && |s.lh| < 1 && s.stop != Overrun && Next(a, s, s')
    ensures NonePassed(s') && |s'.lh| < 1 && s'.stop != Overrun
  {
  }

  lemma BigAreaStep(a: Area, s: State, s': State)
    requires a.size >= LOGSIZE && s.stop != Overrun && Next(a, s, s')
    ensures s'.stop != Overrun
  {
  }

  /** Yes, if it has LOGSIZE blocks, because a commit that long has no buffers; or if it has
      none beside the header, because then log_write always panics. */
  lemma {:induction false} LogAreaHolds(a: Area, run: seq<State>, i: nat)
    requires IsRun(a, run) && i < |run|
    requires a.size == 1 || a.size >= LOGSIZE
    ensures run[i].stop != Overrun
    ensures a.size == 1 ==> NonePassed(run[i]) && |run[i].lh| < 1
  {
    hide Next;
    if i > 0 {
      LogAreaHolds(a, run, i - 1);
      assert Next(a, run[i - 1], run[i]);
      if a.size == 1 {
        NonePassedStep(a, run[i - 1], run[i]);
      } else {
        BigAreaStep(a, run[i - 1], run[i]);
      }
    }
  }

  // ---------- runs of three processes ----------

  function Last(run: seq<State>): State
    requires |run| > 0
  {
    run[|run| - 1]
  }

  lemma Extend(a: Area, run: seq<State>, s: State) returns (run': seq<State>)
    requires IsRun(a, run) && Next(a, Last(run), s)
    ensures IsRun(a, run') && run'[0] == run[0] && Last(run') == s
  {
    run' := run + [s];
  }

  /** The first `k` blocks behind the log area. */
  function Homes(a: Area, k: nat): (ns: seq<nat>)
    ensures |ns| == k && forall i :: 0 <= i < k ==> ns[i] == a.start + a.size + i
  {
    if k == 0 then [] else Homes(a, k - 1) + [a.start + a.size + k - 1]
  }

  /** Three processes have logged the first `k` blocks in turn, and `marks` says which of
      them has passed the guard again. */
  function Writers(a: Area, s: State, k: nat, marks: set<nat>): State
    requires |s.ops| >= 3
  {
    s.(lh := Homes(a, k), outstanding := 3,
       ops := s.ops[0 := Open((k + 2) / 3, 0 in marks)][1 := Open((k + 1) / 3, 1 in marks)][2 := Open(k / 3, 2 in marks)])
  }

  lemma {:induction false} ThreeWriters(a: Area, s: State, k: nat) returns (run: seq<State>)
    requires Init(a, s) && k <= a.size - 1 && k <= LOGSIZE
    requires |s.ops| >= 3 && a.start + a.size + k <= |s.disk|
    ensures IsRun(a, run) && run[0] == s && Last(run) == Writers(a, s, k, {})
  {
    if k == 0 {
      run := [s];
      var t := s;
      for p := 0 to 3
        invariant IsRun(a, run) && run[0] == s && Last(run) == t
        invariant |t.ops| == |s.ops| && forall q :: p <= q < |t.ops| ==> t.ops[q] == s.ops[q]
        invariant forall q :: 0 <= q < p ==> t.ops[q] == Open(0, false)
        invariant t == s.(outstanding := p, ops := t.ops)
      {
        var u := t.(outstanding := p + 1, ops := t.ops[p := Open(0, false)]);
        assert BeginOp(t, u, p);
        run := Extend(a, run, u);
        t := u;
      }
      assert t.ops == Writers(a, s, 0, {}).ops;
    } else {
      run := ThreeWriters(a, s, k - 1);
      run := PassGuard(a, s, run, k - 1, {}, (k - 1) % 3);
      run := AppendHome(a, s, run, k - 1, {(k - 1) % 3});
      assert {(k - 1) % 3} - {(k - 1) % 3} == {};
    }
  }

  lemma PassGuard(a: Area, s: State, run: seq<State>, k: nat, marks: set<nat>, p: nat) returns (run': seq<State>)
    requires |s.ops| >= 3 && s.stop == No && IsRun(a, run) && Last(run) == Writers(a, s, k, marks)
    requires p < 3 && p !in marks && k < LOGSIZE && k < a.size - 1
    ensures IsRun(a, run') && run'[0] == run[0] && Last(run') == Writers(a, s, k, marks + {p})
  {
    var t := Last(run);
    var u := t.(ops := t.ops[p := t.ops[p].(passed := true)]);
    assert GuardLogWrite(a, t, u, p);
    assert u.ops == Writers(a, s, k, marks + {p}).ops;
    run' := Extend(a, run, u);
  }

  lemma Turn(a: Area, s: State, k: nat, marks: set<nat>)
    requires |s.ops| >= 3 && k % 3 in marks
    ensures var t := Writers(a, s, k, marks);
            && t.ops[k % 3] == Open(k / 3, true)
            && Writers(a, s, k + 1, marks - {k % 3}).ops == t.ops[k % 3 := Open(k / 3 + 1, false)]
  {
  }

  lemma AppendStep(a: Area, s: State, s': State, p: nat, n: nat, data: Block)
    requires s.stop == No && Append(a, s, s', p, n, data)
    ensures Next(a, s, s')
  {
  }

  /** The process whose turn it is logs the next block behind the log area, without changing it. */
  lemma AppendHome(a: Area, s: State, run: seq<State>, k: nat, marks: set<nat>) returns (run': seq<State>)
    requires |s.ops| >= 3 && s.stop == No && IsRun(a, run) && Last(run) == Writers(a, s, k, marks)
    requires k % 3 in marks && k < LOGSIZE && a.start + a.size + k < |s.flat|
    ensures IsRun(a, run') && run'[0] == run[0] && Last(run') == Writers(a, s, k + 1, marks - {k % 3})
  {
    hide Next;
    hide Init;
    var t, p := Last(run), k % 3;
    var n := a.start + a.size + k;
    Turn(a, s, k, marks);
    var u := Writers(a, s, k + 1, marks - {p});
    assert t.flat[n := t.flat[n]] == t.flat;
    assert Append(a, t, u, p, n, t.flat[n]);
    AppendStep(a, t, u, p, n, t.flat[n]);
    run' := Extend(a, run, u);
  }

  /** How a group of `k` blocks that is too long for its commit stops. */
  function Stops(a: Area, k: nat): Stop {
    if k >= NBUF then NoBuffers else if k >= a.size then Overrun else No
  }

  lemma EndAll(a: Area, s: State, run: seq<State>, k: nat) returns (run': seq<State>)
    requires |s.ops| >= 3 && s.stop == No && !s.committing && IsRun(a, run) && Last(run) == Writers(a, s, k, {}) && Stops(a, k) != No
    ensures IsRun(a, run') && run'[0] == run[0] && Last(run').lh == Homes(a, k) && Last(run').stop == Stops(a, k)
  {
    run' := run;
    for p := 0 to 3
      invariant IsRun(a, run') && run'[0] == run[0]
      invariant Last(run').outstanding == 3 - p && Last(run').lh == Homes(a, k) && !Last(run').committing
      invariant Last(run').stop == if p == 3 then Stops(a, k) else No
      invariant |Last(run').ops| == |s.ops| && forall q :: p <= q < 3 ==> Last(run').ops[q].Open? && !Last(run').ops[q].passed
    {
      var t := Last(run');
      var u := t.(outstanding := t.outstanding - 1, ops := t.ops[p := Closed], stop := if p == 2 then Stops(a, k) else No);
      assert EndOp(a, t, u, p);
      run' := Extend(a, run', u);
    }
  }

  /** With 2 to LOGSIZE - 1 blocks, no: two processes can both pass the guard of log_write
      before either takes log.lock. */
  lemma LogAreaOverruns(a: Area, s: State) returns (run: seq<State>)
    requires Init(a, s) && 2 <= a.size < LOGSIZE
    requires |s.ops| >= 3 && a.start + 2 * a.size <= |s.disk|
    ensures IsRun(a, run) && run[0] == s && |Last(run).lh| == a.size && Last(run).stop == Overrun
  {
    var k := a.size - 2;
    run := ThreeWriters(a, s, k);
    run := PassGuard(a, s, run, k, {}, k % 3);
    run := PassGuard(a, s, run, k, {k % 3}, (k + 1) % 3);
    run := AppendHome(a, s, run, k, {k % 3, (k + 1) % 3});
    run := AppendHome(a, s, run, k + 1, {(k + 1) % 3});
    assert {k % 3} + {(k + 1) % 3} - {k % 3} == {(k + 1) % 3};
    run := EndAll(a, s, run, k + 2);
  }

  /** The log area holds every transaction of every run exactly when it has LOGSIZE blocks or
      more, or only the header. */
  lemma LogAreaHoldsExactlyWhen(a: Area, s: State)
    requires Init(a, s) && |s.ops| >= 3 && a.start + 2 * a.size <= |s.disk|
    ensures (forall run: seq<State>, i: nat :: IsRun(a, run) && run[0] == s && i < |run| ==> run[i].stop != Overrun)
            <==> a.size == 1 || a.size >= LOGSIZE
  {
    if a.size == 1 || a.size >= LOGSIZE {
      forall run: seq<State>, i: nat | IsRun(a, run) && run[0] == s && i < |run|
        ensures run[i].stop != Overrun
      {
        LogAreaHolds(a, run, i);
      }
    } else {
      var run := LogAreaOverruns(a, s);
      assert run[|run| - 1].stop == Overrun;
    }
  }

  // ---------- does a commit get its buffers? ----------

  function IsPassed(op: Op): int {
    if op.Open? && op.passed then 1 else 0
  }

  lemma {:induction false} PassedAreOpen(ops: seq<Op>)
    ensures 0 <= Sum(IsPassed, ops) <= Sum(IsOpen, ops)
  {
    if ops != [] {
      PassedAreOpen(ops[1..]);
    }
  }

  /** Three operations at most are open, and each of them can pass the guard at most once
      before the log is long enough to stop it. */
  ghost predicate Short(a: Area, s: State) {
    s.outstanding * MAXOPBLOCKS <= LOGSIZE && |s.lh| + Sum(IsPassed, s.ops) <= a.size + 1
  }

  lemma ShortAfterGuard(a: Area, s: State, s': State, p: nat)
    requires Booked(a, s) && s.stop == No && Short(a, s) && GuardLogWrite(a, s, s', p)
    ensures Short(a, s') && s'.stop != NoBuffers
  {
    SumUpdate(IsPassed, s.ops, p, s.ops[p].(passed := true));
    SumUpdate(IsOpen, s.ops, p, s.ops[p].(passed := true));
    PassedAreOpen(s.ops[p := s.ops[p].(passed := true)]);
  }

  lemma ShortAfterEnd(a: Area, s: State, s': State, p: nat)
    requires Booked(a, s) && s.stop == No && Short(a, s) && EndOp(a, s, s', p)
    ensures Short(a, s') && (s'.stop == NoBuffers ==> NBUF <= a.size + 1)
  {
    SumUpdate(IsPassed, s.ops, p, Closed);
    PassedAreOpen(s.ops);
  }

  lemma ShortStep(a: Area, s: State, s': State)
    requires Booked(a, s) && Short(a, s) && Next(a, s, s')
    ensures Short(a, s')
    ensures s'.stop == NoBuffers ==> NBUF <= a.size + 1
  {
    hide EndOp;
    hide GuardLogWrite;
    if Crash(s, s') {
      SumZero(IsPassed, s'.ops);
    } else if p: nat :| BeginOp(s, s', p) {
      SumUpdate(IsPassed, s.ops, p, Open(0, false));
    } else if p: nat :| GuardLogWrite(a, s, s', p) {
      ShortAfterGuard(a, s, s', p);
    } else if p: nat, n, data :| Append(a, s, s', p, n, data) {
      SumUpdate(IsPassed, s.ops, p, s'.ops[p]);
      assert s'.stop == No;
    } else if p: nat :| EndOp(a, s, s', p) {
      ShortAfterEnd(a, s, s', p);
    } else {
      assert s'.stop == No;
      PassedAreOpen(s.ops);
    }
  }

  lemma {:induction false} RunsAreShort(a: Area, run: seq<State>, i: nat)
    requires IsRun(a, run) && i < |run|
    ensures Short(a, run[i]) && (run[i].stop == NoBuffers ==> NBUF <= a.size + 1)
  {
    hide Next;
    hide Stored;
    hide Booked;
    if i == 0 {
      SumZero(IsPassed, run[0].ops);
    } else {
      hide Short;
      RunsAreShort(a, run, i - 1);
      RunInv(a, run, i - 1);
      assert Next(a, run[i - 1], run[i]);
      ShortStep(a, run[i - 1], run[i]);
    }
  }

  /** Three operations can pin every buffer: by their reservations alone, or by passing the
      guard together. */
  lemma PinsEveryBuffer(a: Area, s: State) returns (run: seq<State>)
    requires Init(a, s) && a.size >= LOGSIZE - 1 && |s.ops| >= 3 && a.start + a.size + LOGSIZE <= |s.disk|
    ensures IsRun(a, run) && run[0] == s && Last(run).stop == NoBuffers
  {
    var k := if a.size > LOGSIZE then LOGSIZE else a.size - 2;
    run := ThreeWriters(a, s, k);
    if a.size == LOGSIZE {
      run := PassGuard(a, s, run, 28, {}, 1);
      run := PassGuard(a, s, run, 28, {1}, 2);
      assert {1} + {2} == {1, 2};
      run := AppendHome(a, s, run, 28, {1, 2});
      assert {1, 2} - {1} == {2};
      run := AppendHome(a, s, run, 29, {2});
      assert {2} - {2} == {};
    } else if a.size == LOGSIZE - 1 {
      run := PassGuard(a, s, run, 27, {}, 0);
      run := PassGuard(a, s, run, 27, {0}, 1);
      run := PassGuard(a, s, run, 27, {0, 1}, 2);
      run := AppendHome(a, s, run, 27, {0, 1, 2});
      assert {0, 1, 2} - {0} == {1, 2};
      run := AppendHome(a, s, run, 28, {1, 2});
      assert {1, 2} - {1} == {2};
      run := AppendHome(a, s, run, 29, {2});
      assert {2} - {2} == {};
    }
    run := EndAll(a, s, run, LOGSIZE);
  }

  /** No run brings a group of NBUF blocks, which pins every buffer, to a commit exactly when
      the log area is shorter than LOGSIZE - 1 blocks.  mkfs makes it LOGSIZE blocks long
      (mkfs.c:25).  Buffers that readers hold are no part of this state; what they do to a
      commit is in Log. */
  lemma PinsEveryBufferExactlyWhen(a: Area, s: State)
    requires Init(a, s) && |s.ops| >= 3 && a.start + a.size + LOGSIZE <= |s.disk|
    ensures (forall run: seq<State>, i: nat :: IsRun(a, run) && run[0] == s && i < |run| ==> run[i].stop != NoBuffers)
            <==> a.size < LOGSIZE - 1
  {
    if a.size < LOGSIZE - 1 {
      forall run: seq<State>, i: nat | IsRun(a, run) && run[0] == s && i < |run|
        ensures run[i].stop != NoBuffers
      {
        RunsAreShort(a, run, i);
      }
    } else {
      var run := PinsEveryBuffer(a, s);
      assert run[|run| - 1].stop == NoBuffers;
    }
  }
}

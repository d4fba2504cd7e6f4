/** sleep and wakeup (proc.c:415-474): every interleaving, for any number of
    processes that share a spin lock `lk` and wait on any number of channels.

    `blocked[c]` is the condition that makes a process sleep on channel `c`: the
    sleep lock is locked (sleeplock.c:22-42), the pipe is empty or full
    (pipe.c:85-111).  Clients keep one rule: having made `blocked[c]` false, a
    process calls wakeup(c) before it gives up `lk`. */
module SleepWakeup {
  import opened Options
  import T = ProcTable

  /** Where a process is.  `owed` are the channels it has unblocked under `lk` and
      not yet woken. */
  datatype Pc =
    | Outside
    | Inside(owed: set<nat>)               // holds lk
    | WakeupWaits(owed: set<nat>, c: nat)  // in wakeup(c), holds lk, waits for ptable.lock
    | WakeupHas(owed: set<nat>, c: nat)    // in wakeup(c), holds both locks
    | SleepWaits(c: nat)                   // in sleep(c), holds lk, waits for ptable.lock (proc.c:435)
    | SleepBoth(c: nat)                    // in sleep(c), holds both locks (proc.c:436)
    | SleepMarks(c: nat)                   // in sleep(c), lk released (proc.c:439-440)
    | SleepSwitches(c: nat)                // SLEEPING, ptable.lock held until the scheduler releases it
    | Asleep(c: nat)                       // SLEEPING on channel c
    | Runnable                             // woken
    | Resumed                              // rescheduled, holds ptable.lock (proc.c:445-449)
    | Returns                              // waits for lk (proc.c:450)

  datatype State = State(procs: seq<Pc>, lk: Option<nat>, ptable: Option<nat>, blocked: seq<bool>)

  predicate HasLk(pc: Pc) {
    pc.Inside? || pc.WakeupWaits? || pc.WakeupHas? || pc.SleepWaits? || pc.SleepBoth?
  }

  predicate HasPtable(pc: Pc) {
    pc.WakeupHas? || pc.SleepBoth? || pc.SleepMarks? || pc.SleepSwitches? || pc.Resumed?
  }

  /** Past the point where it gave up `lk` to sleep on `c`, and not woken. */
  predicate GoneToSleep(pc: Pc, c: nat) {
    pc == SleepMarks(c) || pc == SleepSwitches(c) || pc == Asleep(c)
  }

  function Owed(pc: Pc): set<nat> {
    if pc.Inside? || pc.WakeupWaits? || pc.WakeupHas? then pc.owed else {}
  }

  // ---------- steps of process p ----------

  ghost predicate Init(s: State) {
    s.lk == None && s.ptable == None && forall p :: 0 <= p < |s.procs| ==> s.procs[p] == Outside
  }

  function Moves(s: State, p: nat, pc: Pc): State
    requires p < |s.procs|
  {
    s.(procs := s.procs[p := pc])
  }

  /** wakeup1: every process SLEEPING on `c` becomes RUNNABLE. */
  function Woken(procs: seq<Pc>, c: nat): (r: seq<Pc>)
    ensures |r| == |procs|
    ensures forall p :: 0 <= p < |procs| ==> r[p] == if procs[p] == Asleep(c) then Runnable else procs[p]
  {
    seq(|procs|, p requires 0 <= p < |procs| => if procs[p] == Asleep(c) then Runnable else procs[p])
  }

  /** What a process that holds `lk` does next. */
  datatype Choice = Release | Block(c: nat) | Unblock(c: nat) | CallWakeup(c: nat) | CallSleep(c: nat)

  ghost predicate InsideStep(s: State, s': State, p: nat, owed: set<nat>, choice: Choice)
    requires p < |s.procs|
  {
    match choice
    case Release => owed == {} && s' == Moves(s, p, Outside).(lk := None)
    case Block(c) => c < |s.blocked| && s' == Moves(s, p, Inside(owed - {c})).(blocked := s.blocked[c := true])
    case Unblock(c) => c < |s.blocked| && s' == Moves(s, p, Inside(owed + {c})).(blocked := s.blocked[c := false])
    case CallWakeup(c) => s' == Moves(s, p, WakeupWaits(owed, c))
    case CallSleep(c) => c < |s.blocked| && s.blocked[c] && owed == {} && s' == Moves(s, p, SleepWaits(c))
  }

  ghost predicate Step(s: State, s': State, p: nat, choice: Choice) {
    p < |s.procs| &&
    match s.procs[p]
    case Outside =>    // acquire(lk)
      s.lk == None && s' == Moves(s, p, Inside({})).(lk := Some(p))
    case Inside(owed) =>
      InsideStep(s, s', p, owed, choice)
    case WakeupWaits(owed, c) =>
      s.ptable == None && s' == Moves(s, p, WakeupHas(owed, c)).(ptable := Some(p))
    case WakeupHas(owed, c) =>
      s' == s.(procs := Woken(s.procs, c)[p := Inside(owed - {c})], ptable := None)
    case SleepWaits(c) =>
      s.ptable == None && s' == Moves(s, p, SleepBoth(c)).(ptable := Some(p))
    case SleepBoth(c) =>
      s' == Moves(s, p, SleepMarks(c)).(lk := None)
    case SleepMarks(c) =>
      s' == Moves(s, p, SleepSwitches(c))
    case SleepSwitches(c) =>
      s' == Moves(s, p, Asleep(c)).(ptable := None)
    case Asleep(c) =>  // kill (proc.c:484-497) makes it RUNNABLE early
      s.ptable == None && s' == Moves(s, p, Runnable)
    case Runnable =>
      s.ptable == None && s' == Moves(s, p, Resumed).(ptable := Some(p))
    case Resumed =>
      s' == Moves(s, p, Returns).(ptable := None)
    case Returns =>
      s.lk == None && s' == Moves(s, p, Inside({})).(lk := Some(p))
  }

  ghost predicate Next(s: State, s': State) {
    exists p, choice :: Step(s, s', p, choice)
  }

  ghost predicate IsRun(run: seq<State>) {
    && |run| > 0 && Init(run[0])
    && forall i :: 0 <= i < |run| - 1 ==> Next(run[i], run[i + 1])
  }

  // ---------- invariant ----------

  ghost predicate LkOk(s: State) {
    && (forall p :: 0 <= p < |s.procs| ==> (HasLk(s.procs[p]) <==> s.lk == Some(p)))
    && (s.lk.Some? ==> s.lk.value < |s.procs|)
  }

  ghost predicate PtableOk(s: State) {
    && (forall p :: 0 <= p < |s.procs| ==> (HasPtable(s.procs[p]) <==> s.ptable == Some(p)))
    && (s.ptable.Some? ==> s.ptable.value < |s.procs|)
  }

  /** Whoever holds `lk` still has to wake channel `c`. */
  predicate WakeupComing(s: State, c: nat) {
    s.lk.Some? && s.lk.value < |s.procs| && c in Owed(s.procs[s.lk.value])
  }

  ghost predicate SleepersOk(s: State) {
    && (forall p :: 0 <= p < |s.procs| ==> SleepJustified(s, s.procs[p]))
    && (forall p, c: nat {:trigger GoneToSleep(s.procs[p], c)} ::
          0 <= p < |s.procs| && c < |s.blocked| && GoneToSleep(s.procs[p], c) ==> s.blocked[c] || WakeupComing(s, c))
  }

  /** On the way into sleep, with `lk` held, the reason to sleep holds. */
  predicate SleepJustified(s: State, pc: Pc) {
    pc.SleepWaits? || pc.SleepBoth? ==> pc.c < |s.blocked| && s.blocked[pc.c]
  }

  ghost predicate Inv(s: State) {
    LkOk(s) && PtableOk(s) && SleepersOk(s)
  }

  lemma StepLk(s: State, s': State, p: nat, choice: Choice)
    requires LkOk(s) && Step(s, s', p, choice)
    ensures LkOk(s') && |s'.procs| == |s.procs| && |s'.blocked| == |s.blocked|
  {
  }

  lemma StepPtable(s: State, s': State, p: nat, choice: Choice)
    requires PtableOk(s) && Step(s, s', p, choice)
    ensures PtableOk(s')
  {
  }

  /** A step keeps the reason for each sleep, or leaves its wakeup to come. */
  lemma StepReasons(s: State, s': State, p: nat, choice: Choice, q: nat, c: nat)
    requires Inv(s) && Step(s, s', p, choice) && |s'.procs| == |s.procs| && |s'.blocked| == |s.blocked|
    requires q < |s.procs| && c < |s.blocked| && GoneToSleep(s'.procs[q], c)
    ensures s'.blocked[c] || WakeupComing(s', c)
  {
    assert GoneToSleep(s.procs[q], c) || (q == p && SleepJustified(s, s.procs[p]));
  }

  lemma StepInv(s: State, s': State, p: nat, choice: Choice)
    requires Inv(s) && Step(s, s', p, choice)
    ensures Inv(s')
  {
    StepLk(s, s', p, choice);
    StepPtable(s, s', p, choice);
    forall q, c: nat {:trigger GoneToSleep(s'.procs[q], c)} | 0 <= q < |s'.procs| && c < |s'.blocked| && GoneToSleep(s'.procs[q], c)
      ensures s'.blocked[c] || WakeupComing(s', c)
    {
      StepReasons(s, s', p, choice, q, c);
    }
    hide GoneToSleep;
    hide WakeupComing;
  }

  lemma {:induction false} RunInv(run: seq<State>, i: nat)
    requires IsRun(run) && i < |run|
    ensures Inv(run[i])
  {
    if i > 0 {
      RunInv(run, i - 1);
      hide Inv;
      var p, choice :| Step(run[i - 1], run[i], p, choice);
      hide Step;
      StepInv(run[i - 1], run[i], p, choice);
    }
  }

  /** No wakeup is lost: whenever `lk` is free, every process asleep on a channel
      is asleep for a reason that still holds. */
  lemma NoLostWakeup(run: seq<State>, i: nat, p: nat, c: nat)
    requires IsRun(run) && i < |run| && p < |run[i].procs| && c < |run[i].blocked|
    requires run[i].lk == None && run[i].procs[p] == Asleep(c)
    ensures run[i].blocked[c]
  {
    RunInv(run, i);
    assert GoneToSleep(run[i].procs[p], c);
  }

  /** `lk` excludes: no two processes are inside at once. */
  lemma MutualExclusion(run: seq<State>, i: nat, p: nat, q: nat)
    requires IsRun(run) && i < |run| && p < |run[i].procs| && q < |run[i].procs|
    requires HasLk(run[i].procs[p]) && HasLk(run[i].procs[q])
    ensures p == q
  {
    RunInv(run, i);
  }

  // ---------- the process table ----------

  /** A process of the protocol is asleep on a channel exactly if its entry of the table is. */
  ghost predicate InTable(pcs: seq<Pc>, procs: seq<T.Proc>) {
    |pcs| == |procs| && forall p, c: nat {:trigger T.Other(c), pcs[p]} :: 0 <= p < |pcs| ==> (pcs[p] == Asleep(c) <==> T.SleepsOn(procs[p], T.Other(c)))
  }

  /** What wakeup does to the table is the protocol's step, and makes the woken RUNNABLE. */
  lemma WakeupInTable(pcs: seq<Pc>, procs: seq<T.Proc>, procs': seq<T.Proc>, c: nat)
    requires InTable(pcs, procs) && T.AllWoken(procs, procs', T.Other(c))
    ensures InTable(Woken(pcs, c), procs')
    ensures forall p :: 0 <= p < |pcs| && pcs[p] == Asleep(c) ==> Woken(pcs, c)[p] == Runnable && procs'[p].state == T.RUNNABLE
  {
    forall p, d: nat | 0 <= p < |pcs|
      ensures Woken(pcs, c)[p] == Asleep(d) <==> T.SleepsOn(procs'[p], T.Other(d))
    {
      assert T.Other(c) == T.Other(c) && T.Other(d) == T.Other(d);
      assert pcs[p] == Asleep(c) <==> T.SleepsOn(procs[p], T.Other(c));
      assert pcs[p] == Asleep(d) <==> T.SleepsOn(procs[p], T.Other(d));
    }
  }
}

/** acquiresleep and releasesleep (sleeplock.c:22-42) as programs of any number of processes,
    in every interleaving, on the sleep and wakeup of proc.c.  Channel 0 is the lock, and
    `blocked[0]` its field locked. */
module SleepLockRun {
  import opened Options
  import W = SleepWakeup

  /** Where a process is in the two functions. */
  datatype Client =
    | Idle         // does not have the sleep lock
    | Testing      // in acquiresleep, holds the spin lock, at the test of locked
    | Waiting      // in acquiresleep, in sleep
    | Taking       // in acquiresleep, has set locked
    | Holding      // has the sleep lock
    | Releasing    // in releasesleep, holds the spin lock
    | Freed        // in releasesleep, has cleared locked
    | Waking       // in releasesleep, in wakeup
    | Leaving      // in releasesleep, back from wakeup

  datatype State = State(sys: W.State, clients: seq<Client>)

  /** It has the sleep lock, or is about to return with it, or has not cleared it yet. */
  predicate Owner(cl: Client) {
    cl.Taking? || cl.Holding? || cl.Releasing?
  }

  /** What it does with the spin lock held. */
  function Plan(cl: Client, locked: bool): W.Choice {
    match cl
    case Testing => if locked then W.CallSleep(0) else W.Block(0)
    case Releasing => W.Unblock(0)
    case Freed => W.CallWakeup(0)
    case _ => W.Release
  }

  /** Where it is after a step that leaves its kernel part at `pc`. */
  function Then(cl: Client, locked: bool, pc: W.Pc): Client {
    match cl
    case Idle => Testing
    case Testing => if locked then Waiting else Taking
    case Waiting => if pc.Inside? then Testing else Waiting
    case Taking => Holding
    case Holding => Releasing
    case Releasing => Freed
    case Freed => Waking
    case Waking => if pc.Inside? then Leaving else Waking
    case Leaving => Idle
  }

  ghost predicate Init(s: State) {
    && W.Init(s.sys) && s.sys.blocked == [false] && |s.clients| == |s.sys.procs|
    && forall p :: 0 <= p < |s.clients| ==> s.clients[p] == Idle
  }

  ghost predicate Step(s: State, s': State, p: nat) {
    && p < |s.clients| == |s.sys.procs| == |s'.sys.procs| && |s.sys.blocked| == 1
    && var locked := s.sys.blocked[0];
       && W.Step(s.sys, s'.sys, p, Plan(s.clients[p], locked))
       && s'.clients == s.clients[p := Then(s.clients[p], locked, s'.sys.procs[p])]
  }

  ghost predicate Next(s: State, s': State) {
    exists p :: Step(s, s', p)
  }

  ghost predicate IsRun(run: seq<State>) {
    && |run| > 0 && Init(run[0])
    && forall i :: 0 <= i < |run| - 1 ==> Next(run[i], run[i + 1])
  }

  /** The two parts of a process agree. */
  predicate Agrees(cl: Client, pc: W.Pc) {
    match cl
    case Idle => pc.Outside?
    case Holding => pc.Outside?
    case Freed => pc == W.Inside({0})
    case Waking => pc == W.WakeupWaits({0}, 0) || pc == W.WakeupHas({0}, 0)
    case Waiting =>
      || pc == W.SleepWaits(0) || pc == W.SleepBoth(0) || pc == W.SleepMarks(0) || pc == W.SleepSwitches(0)
      || pc == W.Asleep(0) || pc.Runnable? || pc.Resumed? || pc.Returns?
    case _ => pc == W.Inside({})
  }

  ghost predicate AllAgree(s: State) {
    |s.clients| == |s.sys.procs| && |s.sys.blocked| == 1 &&
    forall p :: 0 <= p < |s.clients| ==> Agrees(s.clients[p], s.sys.procs[p])
  }

  /** locked says whether there is an owner, and there is one at most. */
  ghost predicate OwnerOk(s: State) {
    && |s.sys.blocked| == 1
    && (forall p, q :: 0 <= p < |s.clients| && 0 <= q < |s.clients| && Owner(s.clients[p]) && Owner(s.clients[q]) ==> p == q)
    && (s.sys.blocked[0] <==> exists p :: 0 <= p < |s.clients| && Owner(s.clients[p]))
  }

  lemma StepAgrees(s: State, s': State, p: nat)
    requires AllAgree(s) && Step(s, s', p)
    ensures AllAgree(s')
  {
    forall q | 0 <= q < |s'.clients|
      ensures Agrees(s'.clients[q], s'.sys.procs[q])
    {
      assert Agrees(s.clients[q], s.sys.procs[q]) && Agrees(s.clients[p], s.sys.procs[p]);
    }
  }

  lemma StepOwner(s: State, s': State, p: nat)
    requires AllAgree(s) && OwnerOk(s) && Step(s, s', p)
    ensures OwnerOk(s')
  {
    assert Agrees(s.clients[p], s.sys.procs[p]);
    forall q | 0 <= q < |s.clients| && q != p
      ensures s'.clients[q] == s.clients[q]
    {
    }
    if Owner(s'.clients[p]) {
      assert s'.sys.blocked[0];
    } else if s.clients[p].Releasing? {
      assert Owner(s.clients[p]) && !s'.sys.blocked[0];
    } else if q :| 0 <= q < |s.clients| && Owner(s.clients[q]) {
      assert q != p && Owner(s'.clients[q]);
    }
  }

  lemma InitInv(s: State)
    requires Init(s)
    ensures AllAgree(s) && OwnerOk(s) && W.Inv(s.sys)
  {
  }

  lemma {:induction false} RunInv(run: seq<State>, i: nat)
    requires IsRun(run) && i < |run|
    ensures AllAgree(run[i]) && OwnerOk(run[i]) && W.Inv(run[i].sys)
  {
    hide W.Step;
    hide W.Inv;
    hide AllAgree;
    hide OwnerOk;
    if i == 0 {
      InitInv(run[0]);
    } else {
      RunInv(run, i - 1);
      var p: nat :| Step(run[i - 1], run[i], p);
      StepAgrees(run[i - 1], run[i], p);
      StepOwner(run[i - 1], run[i], p);
      W.StepInv(run[i - 1].sys, run[i].sys, p, Plan(run[i - 1].clients[p], run[i - 1].sys.blocked[0]));
    }
  }

  /** No two processes have the sleep lock. */
  lemma Excludes(run: seq<State>, i: nat, p: nat, q: nat)
    requires IsRun(run) && i < |run| && p < |run[i].clients| && q < |run[i].clients|
    requires Owner(run[i].clients[p]) && Owner(run[i].clients[q])
    ensures p == q
  {
    RunInv(run, i);
  }

  /** Whenever the spin lock is free, a process asleep in acquiresleep waits for one that
      has the sleep lock and will wake it: no wakeup of releasesleep is lost. */
  lemma SleepersHaveHolder(run: seq<State>, i: nat, p: nat) returns (q: nat)
    requires IsRun(run) && i < |run| && p < |run[i].clients| && p < |run[i].sys.procs|
    requires run[i].sys.lk == None && run[i].clients[p].Waiting? && run[i].sys.procs[p].Asleep?
    ensures q < |run[i].clients| && q != p && run[i].clients[q] == Holding
  {
    RunInv(run, i);
    var s := run[i];
    assert Agrees(s.clients[p], s.sys.procs[p]);
    assert W.GoneToSleep(s.sys.procs[p], 0);
    q :| 0 <= q < |s.clients| && Owner(s.clients[q]);
    assert Agrees(s.clients[q], s.sys.procs[q]);
  }
}

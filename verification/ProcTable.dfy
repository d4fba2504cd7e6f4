/** The process table (proc.c).  Each method is one stretch of code under
    ptable.lock, so any interleaving of processes, CPUs and interrupts is some
    sequence of calls, and Valid() describes every moment the lock is free. */
module ProcTable {
  import opened Sequences
  import opened Options

  const INIT := 0    // initproc's slot

  datatype ProcState = UNUSED | EMBRYO | SLEEPING | RUNNABLE | RUNNING | ZOMBIE

  /** What a process sleeps on: the address of a struct proc (in wait), or of
      something else. */
  datatype Chan = ProcAt(p: nat) | Other(id: nat)

  /** `embryo` is the child that a process in fork has allocated and not yet
      finished. */
  datatype Proc = Proc(state: ProcState, pid: nat, parent: Option<nat>, chan: Chan, killed: bool, embryo: Option<nat>)

  predicate Alive(p: Proc) {
    p.state == RUNNABLE || p.state == RUNNING || p.state == SLEEPING
  }

  predicate Born(p: Proc) {
    Alive(p) || p.state == ZOMBIE
  }

  predicate Used(p: Proc) {
    p.state != UNUSED
  }

  /** A CPU runs a process exactly when that process is RUNNING, and then no other
      CPU does. */
  ghost predicate CpusOk(procs: seq<Proc>, cpus: seq<Option<nat>>) {
    && (forall c :: 0 <= c < |cpus| && cpus[c].Some? ==> cpus[c].value < |procs| && procs[cpus[c].value].state == RUNNING)
    && (forall p :: 0 <= p < |procs| && procs[p].state == RUNNING ==> Some(p) in cpus)
    && (forall c, d :: 0 <= c < d < |cpus| && cpus[c].Some? ==> cpus[c] != cpus[d])
  }

  /** init lives, and everyone else has a living parent. */
  ghost predicate ParentsOk(procs: seq<Proc>) {
    && INIT < |procs| && Alive(procs[INIT])
    && (forall p :: 0 <= p < |procs| && p != INIT && Born(procs[p]) ==>
          procs[p].parent.Some? && procs[p].parent.value < |procs| && procs[p].parent.value != p && Alive(procs[procs[p].parent.value]))
  }

  predicate Waiting(p: Proc, i: nat) {
    p.state == SLEEPING && p.chan == ProcAt(i)
  }

  predicate ZombieChild(p: Proc, parent: nat) {
    p.state == ZOMBIE && p.parent == Some(parent)
  }

  /** Only a process itself sleeps on its struct proc, in wait, and then it has no
      zombie child. */
  ghost predicate WaitersOk(procs: seq<Proc>) {
    && (forall p, i :: 0 <= p < |procs| && Waiting(procs[p], i) ==> i == p)
    && (forall p, q :: 0 <= p < |procs| && 0 <= q < |procs| && Waiting(procs[p], p) ==> !ZombieChild(procs[q], p))
  }

  /** A process in fork is building an EMBRYO of its own. */
  ghost predicate EmbryosOk(procs: seq<Proc>) {
    && (forall p :: 0 <= p < |procs| && procs[p].embryo.Some? ==>
          Alive(procs[p]) && procs[p].embryo.value < |procs| && procs[procs[p].embryo.value].state == EMBRYO)
    && (forall p, q :: 0 <= p < q < |procs| && procs[p].embryo.Some? ==> procs[p].embryo != procs[q].embryo)
  }

  /** Process ids are never reused; who has exited is a zombie until reaped, once. */
  ghost predicate PidsOk(procs: seq<Proc>, nextpid: nat, exited: seq<nat>, reaped: seq<nat>) {
    && (forall p, q :: 0 <= p < q < |procs| && Used(procs[p]) && Used(procs[q]) ==> procs[p].pid != procs[q].pid)
    && (forall p :: 0 <= p < |procs| && Used(procs[p]) ==> procs[p].pid < nextpid && procs[p].pid !in reaped)
    && (forall p :: 0 <= p < |procs| && Used(procs[p]) ==> (procs[p].pid in exited <==> procs[p].state == ZOMBIE))
    && (forall i :: 0 <= i < |exited| ==> exited[i] < nextpid)
    && (forall i :: 0 <= i < |reaped| ==> reaped[i] in exited)
    && Distinct(exited) && Distinct(reaped)
  }

  /** wakeup1 (proc.c:457-465). */
  function Woken(procs: seq<Proc>, chan: Chan): (r: seq<Proc>)
    ensures |r| == |procs|
    ensures forall p :: 0 <= p < |procs| ==> r[p] == WokenProc(procs[p], chan)
  {
    seq(|procs|, p requires 0 <= p < |procs| => WokenProc(procs[p], chan))
  }

  function WokenProc(p: Proc, chan: Chan): Proc {
    if p.state == SLEEPING && p.chan == chan then p.(state := RUNNABLE) else p
  }

  /** Asleep on `chan`. */
  predicate SleepsOn(p: Proc, chan: Chan) {
    p.state == SLEEPING && p.chan == chan
  }

  /** Whoever slept on the channel is RUNNABLE and otherwise what it was, nobody sleeps there any
      more, and no other entry has changed. */
  ghost predicate AllWoken(procs: seq<Proc>, procs': seq<Proc>, chan: Chan) {
    && |procs'| == |procs|
    && (forall p :: 0 <= p < |procs'| ==> !SleepsOn(procs'[p], chan))
    && (forall p :: 0 <= p < |procs| && SleepsOn(procs[p], chan) ==> procs'[p] == procs[p].(state := RUNNABLE))
    && (forall p :: 0 <= p < |procs| && !SleepsOn(procs[p], chan) ==> procs'[p] == procs[p])
  }

  /** The process stays what it was, but may have been woken or marked killed. */
  predicate Resting(p: Proc, p': Proc) {
    p' == p.(state := p'.state, killed := p'.killed) && (p'.state == p.state || (p.state == SLEEPING && p'.state == RUNNABLE))
  }

  // ---------- what each part of the invariant depends on ----------

  lemma CpusFrame(procs: seq<Proc>, procs': seq<Proc>, cpus: seq<Option<nat>>)
    requires CpusOk(procs, cpus) && |procs'| == |procs|
    requires forall p :: 0 <= p < |procs| ==> (procs'[p].state == RUNNING <==> procs[p].state == RUNNING)
    ensures CpusOk(procs', cpus)
  {
  }

  lemma ParentsFrame(procs: seq<Proc>, procs': seq<Proc>)
    requires ParentsOk(procs) && |procs'| == |procs|
    requires forall p :: 0 <= p < |procs| ==> Alive(procs[p]) ==> Alive(procs'[p])
    requires forall p :: 0 <= p < |procs| ==> Born(procs'[p]) ==> Born(procs[p]) && procs'[p].parent == procs[p].parent
    ensures ParentsOk(procs')
  {
  }

  lemma WaitersFrame(procs: seq<Proc>, procs': seq<Proc>)
    requires WaitersOk(procs) && |procs'| == |procs|
    requires forall p, i :: 0 <= p < |procs| && Waiting(procs'[p], i) ==> Waiting(procs[p], i)
    requires forall p, i :: 0 <= p < |procs| && ZombieChild(procs'[p], i) ==> ZombieChild(procs[p], i)
    ensures WaitersOk(procs')
  {
  }

  lemma EmbryosFrame(procs: seq<Proc>, procs': seq<Proc>)
    requires EmbryosOk(procs) && |procs'| == |procs|
    requires forall p :: 0 <= p < |procs| ==> procs'[p].embryo == procs[p].embryo && (Alive(procs[p]) ==> Alive(procs'[p]))
    requires forall p :: 0 <= p < |procs| && procs[p].state == EMBRYO ==> procs'[p].state == EMBRYO
    ensures EmbryosOk(procs')
  {
  }

  lemma PidsFrame(procs: seq<Proc>, procs': seq<Proc>, nextpid: nat, exited: seq<nat>, reaped: seq<nat>)
    requires PidsOk(procs, nextpid, exited, reaped) && |procs'| == |procs|
    requires forall p :: 0 <= p < |procs| && Used(procs'[p]) ==> Used(procs[p]) && procs'[p].pid == procs[p].pid
    requires forall p :: 0 <= p < |procs| && Used(procs'[p]) ==> (procs'[p].state == ZOMBIE <==> procs[p].state == ZOMBIE)
    ensures PidsOk(procs', nextpid, exited, reaped)
  {
  }

  ghost predicate TableOk(procs: seq<Proc>, cpus: seq<Option<nat>>, nextpid: nat, exited: seq<nat>, reaped: seq<nat>) {
    && CpusOk(procs, cpus) && ParentsOk(procs) && WaitersOk(procs) && EmbryosOk(procs)
    && PidsOk(procs, nextpid, exited, reaped)
  }

  /** Waking processes and marking them killed. */
  lemma RestingKeeps(procs: seq<Proc>, procs': seq<Proc>, cpus: seq<Option<nat>>, nextpid: nat, exited: seq<nat>, reaped: seq<nat>)
    requires TableOk(procs, cpus, nextpid, exited, reaped) && |procs'| == |procs|
    requires forall p :: 0 <= p < |procs| ==> Resting(procs[p], procs'[p])
    ensures TableOk(procs', cpus, nextpid, exited, reaped)
  {
    CpusFrame(procs, procs', cpus);
    ParentsFrame(procs, procs');
    WaitersFrame(procs, procs');
    EmbryosFrame(procs, procs');
    PidsFrame(procs, procs', nextpid, exited, reaped);
    hide CpusOk;
    hide ParentsOk;
    hide WaitersOk;
    hide EmbryosOk;
    hide PidsOk;
  }

  lemma CpusLeave(procs: seq<Proc>, cpus: seq<Option<nat>>, c: nat, p: nat, x: Proc)
    requires CpusOk(procs, cpus) && c < |cpus| && cpus[c] == Some(p) && p < |procs| && x.state != RUNNING
    ensures procs[p].state == RUNNING && CpusOk(procs[p := x], cpus[c := None])
  {
    var procs', cpus' := procs[p := x], cpus[c := None];
    forall q | 0 <= q < |procs'| && procs'[q].state == RUNNING
      ensures Some(q) in cpus'
    {
      var d :| 0 <= d < |cpus| && cpus[d] == Some(q);
      assert cpus'[d] == Some(q);
    }
  }

  lemma CpusEnter(procs: seq<Proc>, cpus: seq<Option<nat>>, c: nat, p: nat, x: Proc)
    requires CpusOk(procs, cpus) && c < |cpus| && cpus[c] == None && p < |procs| && procs[p].state != RUNNING && x.state == RUNNING
    ensures CpusOk(procs[p := x], cpus[c := Some(p)])
  {
    var procs', cpus' := procs[p := x], cpus[c := Some(p)];
    assert cpus'[c] == Some(p);
    forall q | 0 <= q < |procs'| && procs'[q].state == RUNNING
      ensures Some(q) in cpus'
    {
      if q != p {
        var d :| 0 <= d < |cpus| && cpus[d] == Some(q);
        assert cpus'[d] == Some(q);
      }
    }
  }

  lemma WaitersSleep(procs: seq<Proc>, p: nat, x: Proc)
    requires WaitersOk(procs) && p < |procs| && x.state != ZOMBIE
    requires x.state == SLEEPING && x.chan.ProcAt? ==> x.chan.p == p && forall q :: 0 <= q < |procs| ==> !ZombieChild(procs[q], p)
    ensures WaitersOk(procs[p := x])
  {
  }

  /** The process on CPU `c` gives it up: it yields, sleeps, or has no zombie child
      and waits for one. */
  lemma DescheduleKeeps(procs: seq<Proc>, cpus: seq<Option<nat>>, nextpid: nat, exited: seq<nat>, reaped: seq<nat>, c: nat, p: nat, x: Proc)
    requires TableOk(procs, cpus, nextpid, exited, reaped) && c < |cpus| && cpus[c] == Some(p) && p < |procs|
    requires x == procs[p].(state := x.state, chan := x.chan) && (x.state == RUNNABLE || x.state == SLEEPING)
    requires x.state == SLEEPING && x.chan.ProcAt? ==> x.chan.p == p && forall q :: 0 <= q < |procs| ==> !ZombieChild(procs[q], p)
    ensures TableOk(procs[p := x], cpus[c := None], nextpid, exited, reaped)
  {
    hide CpusOk;
    hide ParentsOk;
    hide WaitersOk;
    hide EmbryosOk;
    hide PidsOk;
    CpusLeave(procs, cpus, c, p, x);
    ParentsFrame(procs, procs[p := x]);
    WaitersSleep(procs, p, x);
    EmbryosFrame(procs, procs[p := x]);
    PidsFrame(procs, procs[p := x], nextpid, exited, reaped);
  }

  /** The scheduler of an idle CPU picks a RUNNABLE process. */
  lemma ScheduleKeeps(procs: seq<Proc>, cpus: seq<Option<nat>>, nextpid: nat, exited: seq<nat>, reaped: seq<nat>, c: nat, p: nat)
    requires TableOk(procs, cpus, nextpid, exited, reaped) && c < |cpus| && cpus[c] == None && p < |procs| && procs[p].state == RUNNABLE
    ensures TableOk(procs[p := procs[p].(state := RUNNING)], cpus[c := Some(p)], nextpid, exited, reaped)
  {
    hide CpusOk;
    hide ParentsOk;
    hide WaitersOk;
    hide EmbryosOk;
    hide PidsOk;
    var procs' := procs[p := procs[p].(state := RUNNING)];
    CpusEnter(procs, cpus, c, p, procs'[p]);
    ParentsFrame(procs, procs');
    WaitersFrame(procs, procs');
    EmbryosFrame(procs, procs');
    PidsFrame(procs, procs', nextpid, exited, reaped);
  }

  // ---------- fork ----------

  /** fork's child slot is taken: `p` is building `np` (proc.c:81-90). */
  lemma AllocKeeps(procs: seq<Proc>, cpus: seq<Option<nat>>, nextpid: nat, exited: seq<nat>, reaped: seq<nat>, p: nat, np: nat)
    requires TableOk(procs, cpus, nextpid, exited, reaped) && p < |procs| && np < |procs|
    requires Alive(procs[p]) && procs[p].embryo == None && procs[np].state == UNUSED
    ensures TableOk(Allocated(procs, p, np, nextpid), cpus, nextpid + 1, exited, reaped)
  {
    hide CpusOk;
    hide ParentsOk;
    hide WaitersOk;
    var procs' := Allocated(procs, p, np, nextpid);
    CpusFrame(procs, procs', cpus);
    ParentsFrame(procs, procs');
    WaitersFrame(procs, procs');
    EmbryosAlloc(procs, p, np, nextpid);
    PidsAlloc(procs, nextpid, exited, reaped, p, np);
    hide EmbryosOk;
    hide PidsOk;
  }

  function Allocated(procs: seq<Proc>, p: nat, np: nat, pid: nat): (r: seq<Proc>)
    requires p < |procs| && np < |procs|
    ensures |r| == |procs|
  {
    procs[np := procs[np].(state := EMBRYO, pid := pid)][p := procs[p].(embryo := Some(np))]
  }

  lemma EmbryosAlloc(procs: seq<Proc>, p: nat, np: nat, pid: nat)
    requires EmbryosOk(procs) && p < |procs| && np < |procs| && Alive(procs[p]) && procs[p].embryo == None && procs[np].state == UNUSED
    ensures EmbryosOk(Allocated(procs, p, np, pid))
  {
  }

  lemma PidsAlloc(procs: seq<Proc>, nextpid: nat, exited: seq<nat>, reaped: seq<nat>, p: nat, np: nat)
    requires PidsOk(procs, nextpid, exited, reaped) && p < |procs| && np < |procs| && Alive(procs[p]) && procs[np].state == UNUSED
    ensures PidsOk(Allocated(procs, p, np, nextpid), nextpid + 1, exited, reaped)
  {
  }

  /** fork ends: the child becomes RUNNABLE, or its slot is given back. */
  function Forked(procs: seq<Proc>, p: nat, np: nat, ok: bool): (r: seq<Proc>)
    requires p < |procs| && np < |procs|
    ensures |r| == |procs|
  {
    procs[np := if ok then procs[np].(state := RUNNABLE, parent := Some(p)) else procs[np].(state := UNUSED)][p := procs[p].(embryo := None)]
  }

  lemma ForkKeeps(procs: seq<Proc>, cpus: seq<Option<nat>>, nextpid: nat, exited: seq<nat>, reaped: seq<nat>, p: nat, np: nat, ok: bool)
    requires TableOk(procs, cpus, nextpid, exited, reaped) && p < |procs| && np < |procs|
    requires Alive(procs[p]) && procs[p].embryo == Some(np) && procs[np].state == EMBRYO
    ensures TableOk(Forked(procs, p, np, ok), cpus, nextpid, exited, reaped)
  {
    hide CpusOk;
    hide WaitersOk;
    hide PidsOk;
    var procs' := Forked(procs, p, np, ok);
    CpusFrame(procs, procs', cpus);
    WaitersFrame(procs, procs');
    PidsFrame(procs, procs', nextpid, exited, reaped);
    ParentsFork(procs, p, np, ok);
    EmbryosFork(procs, p, np, ok);
    hide EmbryosOk;
    hide ParentsOk;
  }

  lemma ParentsFork(procs: seq<Proc>, p: nat, np: nat, ok: bool)
    requires ParentsOk(procs) && p < |procs| && np < |procs| && Alive(procs[p]) && procs[np].state == EMBRYO
    ensures ParentsOk(Forked(procs, p, np, ok))
  {
  }

  lemma EmbryosFork(procs: seq<Proc>, p: nat, np: nat, ok: bool)
    requires EmbryosOk(procs) && p < |procs| && np < |procs| && Alive(procs[p]) && procs[p].embryo == Some(np) && procs[np].state == EMBRYO
    ensures EmbryosOk(Forked(procs, p, np, ok))
  {
  }

  // ---------- exit ----------

  predicate AbandonsZombie(procs: seq<Proc>, p: nat) {
    exists q :: 0 <= q < |procs| && ZombieChild(procs[q], p)
  }

  /** What the loop of exit does to one entry: a child of `p` goes to init, and
      init is woken once a zombie has gone to it. */
  function Inherited(x: Proc, p: nat, done: bool, woke: bool): Proc {
    var y := if woke then WokenProc(x, ProcAt(INIT)) else x;
    if done && x.parent == Some(p) then y.(parent := Some(INIT)) else y
  }

  /** The table after the waking and the reparenting. */
  function Abandoned(procs: seq<Proc>, p: nat): (r: seq<Proc>)
    requires p < |procs| && procs[p].parent.Some?
    ensures |r| == |procs|
    ensures forall q :: 0 <= q < |procs| ==>
      r[q] == Inherited(WokenProc(procs[q], ProcAt(procs[p].parent.value)), p, true, AbandonsZombie(procs, p))
  {
    var woke := AbandonsZombie(procs, p);
    seq(|procs|, q requires 0 <= q < |procs| => Inherited(WokenProc(procs[q], ProcAt(procs[p].parent.value)), p, true, woke))
  }

  function Exited(procs: seq<Proc>, p: nat): (r: seq<Proc>)
    requires p < |procs| && procs[p].parent.Some?
    ensures |r| == |procs|
  {
    Abandoned(procs, p)[p := Abandoned(procs, p)[p].(state := ZOMBIE)]
  }

  /** `p` is a zombie with its parent; its children are init's; whoever waits for the parent, and
      init if a zombie went to it, is awake; nothing else has changed. */
  ghost predicate HasExited(procs: seq<Proc>, procs': seq<Proc>, p: nat) {
    && p < |procs| == |procs'| && procs[p].parent.Some?
    && procs'[p] == procs[p].(state := ZOMBIE)
    && forall q :: 0 <= q < |procs| && q != p ==>
         procs'[q] == procs[q].(parent := if procs[q].parent == Some(p) then Some(INIT) else procs[q].parent,
                                state := if Waiting(procs[q], procs[p].parent.value) || (AbandonsZombie(procs, p) && Waiting(procs[q], INIT)) then RUNNABLE
                                         else procs[q].state)
  }

  lemma ExitedMeans(procs: seq<Proc>, p: nat)
    requires p < |procs| && procs[p].parent.Some? && procs[p].parent.value != p && procs[p].state == RUNNING
    ensures HasExited(procs, Exited(procs, p), p)
  {
  }

  lemma ParentsExit(procs: seq<Proc>, p: nat)
    requires ParentsOk(procs) && p < |procs| && p != INIT && Alive(procs[p])
    ensures procs[p].parent.Some? && ParentsOk(Exited(procs, p))
  {
    hide Exited;
    var procs' := Exited(procs, p);
    assert forall q :: 0 <= q < |procs| && q != p ==> (Alive(procs[q]) <==> Alive(procs'[q])) by {
      assert procs' == Abandoned(procs, p)[p := procs'[p]] by { ExitedAt(procs, p); }
    }
    ExitedAt(procs, p);
    forall q | 0 <= q < |procs'| && q != INIT && Born(procs'[q])
      ensures procs'[q].parent.Some? && procs'[q].parent.value < |procs'| && procs'[q].parent.value != q && Alive(procs'[procs'[q].parent.value])
    {
      assert Born(procs[q]);
    }
  }

  lemma ExitedAt(procs: seq<Proc>, p: nat)
    requires p < |procs| && procs[p].parent.Some?
    ensures Exited(procs, p)[p].state == ZOMBIE
    ensures Exited(procs, p) == Abandoned(procs, p)[p := Exited(procs, p)[p]]
    ensures forall q :: 0 <= q < |procs| ==> Exited(procs, p)[q].parent == if procs[q].parent == Some(p) then Some(INIT) else procs[q].parent
    ensures forall q :: 0 <= q < |procs| ==> Exited(procs, p)[q].pid == procs[q].pid && Exited(procs, p)[q].embryo == procs[q].embryo
  {
  }

  lemma WaitersExit(procs: seq<Proc>, p: nat)
    requires WaitersOk(procs) && p < |procs| && procs[p].parent.Some? && procs[p].parent.value != p
    ensures WaitersOk(Exited(procs, p))
  {
    var procs' := Exited(procs, p);
    var parent := procs[p].parent.value;
    forall r, i | 0 <= r < |procs'| && Waiting(procs'[r], i)
      ensures i == r
    {
      assert Waiting(procs[r], i);
    }
    forall r, q | 0 <= r < |procs'| && 0 <= q < |procs'| && Waiting(procs'[r], r)
      ensures !ZombieChild(procs'[q], r)
    {
      assert Waiting(procs[r], r) && r != parent;
      if q != p && procs[q].parent == Some(p) && procs[q].state == ZOMBIE {
        assert ZombieChild(procs[q], p);
      }
    }
  }

  lemma AbandonedSame(procs: seq<Proc>, p: nat)
    requires p < |procs| && procs[p].parent.Some?
    ensures forall q :: 0 <= q < |procs| ==>
      var x, y := procs[q], Abandoned(procs, p)[q];
      && (Alive(x) <==> Alive(y)) && (!Alive(x) || x.state == RUNNING ==> y.state == x.state) && (y.state == RUNNING ==> x.state == RUNNING)
      && y.pid == x.pid && y.embryo == x.embryo
  {
  }

  lemma PidsExit(procs: seq<Proc>, nextpid: nat, exited: seq<nat>, reaped: seq<nat>, p: nat)
    requires PidsOk(procs, nextpid, exited, reaped) && p < |procs| && procs[p].parent.Some? && Alive(procs[p])
    ensures PidsOk(Exited(procs, p), nextpid, exited + [procs[p].pid], reaped)
  {
    hide Inherited;
    hide WokenProc;
    var procs1 := Abandoned(procs, p);
    AbandonedSame(procs, p);
    PidsFrame(procs, procs1, nextpid, exited, reaped);
    var procs' := procs1[p := procs1[p].(state := ZOMBIE)];
    var exited' := exited + [procs[p].pid];
    assert exited'[|exited|] == procs[p].pid;
    assert forall i :: 0 <= i < |exited| ==> exited'[i] == exited[i];
    assert forall q :: 0 <= q < |procs| && q != p && Used(procs1[q]) ==> procs1[q].pid != procs1[p].pid;
  }

  lemma ExitKeeps(procs: seq<Proc>, cpus: seq<Option<nat>>, nextpid: nat, exited: seq<nat>, reaped: seq<nat>, c: nat, p: nat)
    requires TableOk(procs, cpus, nextpid, exited, reaped) && c < |cpus| && cpus[c] == Some(p) && p < |procs|
    requires p != INIT && procs[p].embryo == None
    ensures procs[p].parent.Some? && TableOk(Exited(procs, p), cpus[c := None], nextpid, exited + [procs[p].pid], reaped)
  {
    assert procs[p].state == RUNNING;
    hide CpusOk;
    hide WaitersOk;
    hide EmbryosOk;
    hide PidsOk;
    ParentsExit(procs, p);
    hide ParentsOk;
    hide Inherited;
    hide WokenProc;
    var procs1 := Abandoned(procs, p);
    AbandonedSame(procs, p);
    CpusFrame(procs, procs1, cpus);
    CpusLeave(procs1, cpus, c, p, procs1[p].(state := ZOMBIE));
    WaitersExit(procs, p);
    PidsExit(procs, nextpid, exited, reaped, p);
    EmbryosFrame(procs, procs1);
    EmbryosLeave(procs1, p, procs1[p].(state := ZOMBIE));
  }

  lemma EmbryosLeave(procs: seq<Proc>, p: nat, x: Proc)
    requires EmbryosOk(procs) && p < |procs| && procs[p].embryo == None == x.embryo && procs[p].state != EMBRYO
    ensures EmbryosOk(procs[p := x])
  {
  }

  // ---------- wait ----------

  function ReapedProc(x: Proc): Proc {
    x.(state := UNUSED, pid := 0, parent := None, killed := false)
  }

  lemma ReapKeeps(procs: seq<Proc>, cpus: seq<Option<nat>>, nextpid: nat, exited: seq<nat>, reaped: seq<nat>, q: nat)
    requires TableOk(procs, cpus, nextpid, exited, reaped) && q < |procs| && procs[q].state == ZOMBIE
    ensures TableOk(procs[q := ReapedProc(procs[q])], cpus, nextpid, exited, reaped + [procs[q].pid])
  {
    hide CpusOk;
    hide ParentsOk;
    hide WaitersOk;
    hide EmbryosOk;
    hide PidsOk;
    var procs' := procs[q := ReapedProc(procs[q])];
    CpusFrame(procs, procs', cpus);
    ParentsFrame(procs, procs');
    WaitersFrame(procs, procs');
    EmbryosFrame(procs, procs');
    PidsReap(procs, nextpid, exited, reaped, q);
  }

  lemma PidsReap(procs: seq<Proc>, nextpid: nat, exited: seq<nat>, reaped: seq<nat>, q: nat)
    requires PidsOk(procs, nextpid, exited, reaped) && q < |procs| && procs[q].state == ZOMBIE
    ensures PidsOk(procs[q := ReapedProc(procs[q])], nextpid, exited, reaped + [procs[q].pid])
  {
  }

  class ProcTable {
    var procs: seq<Proc>
    var cpus: seq<Option<nat>>     // c->proc
    var nextpid: nat
    ghost var exited: seq<nat>     // pids in the order of exit
    ghost var reaped: seq<nat>     // pids returned by wait

    ghost predicate Valid()
      reads this
    {
      TableOk(procs, cpus, nextpid, exited, reaped)
    }

    ghost predicate Runs(c: nat, p: nat)
      reads this
    {
      c < |cpus| && cpus[c] == Some(p) && p < |procs|
    }

    /** pinit and userinit (proc.c:24-27, 119-154): init is RUNNABLE, no CPU is busy. */
    constructor (nproc: nat, ncpu: nat)
      requires nproc > 0
      ensures Valid() && |procs| == nproc && |cpus| == ncpu && exited == [] && reaped == [] && Unmarked()
      ensures procs[INIT].state == RUNNABLE && procs[INIT].pid == 1 && nextpid == 2
      ensures forall p :: 0 <= p < nproc && p != INIT ==> procs[p].state == UNUSED
      ensures forall c :: 0 <= c < ncpu ==> cpus[c] == None
    {
      procs := seq(nproc, i => Proc(if i == INIT then RUNNABLE else UNUSED, if i == INIT then 1 else 0, None, Other(0), false, None));
      cpus := seq(ncpu, i => None);
      nextpid, exited, reaped := 2, [], [];
    }

    /** wakeup1 (proc.c:457-465), also from inside exit. */
    method Wakeup1(chan: Chan)
      modifies `procs
      ensures procs == Woken(old(procs), chan) && AllWoken(old(procs), procs, chan)
    {
      var p := 0;
      while p < |procs|
        invariant p <= |procs| == |old(procs)|
        invariant forall q :: 0 <= q < |procs| ==> procs[q] == if q < p then WokenProc(old(procs)[q], chan) else old(procs)[q]
      {
        if procs[p].state == SLEEPING && procs[p].chan == chan {
          procs := procs[p := procs[p].(state := RUNNABLE)];
        }
        p := p + 1;
      }
      assert procs == Woken(old(procs), chan);
    }

    /** wakeup (proc.c:468-474). */
    method Wakeup(chan: Chan)
      requires Valid()
      modifies `procs
      ensures Valid() && procs == Woken(old(procs), chan) && AllWoken(old(procs), procs, chan)
    {
      hide TableOk;
      hide AllWoken;
      Wakeup1(chan);
      RestingKeeps(old(procs), procs, cpus, nextpid, exited, reaped);
    }

    /** No free entry is marked killed, so no process starts out killed. */
    ghost predicate Unmarked()
      reads `procs
    {
      forall q :: 0 <= q < |procs| && procs[q].state == UNUSED ==> !procs[q].killed
    }

    /** kill (proc.c:479-498) marks the first entry with the pid, whatever its state: a free
        one too, if pid is 0 or that of a fork that failed, and then the next process to get
        the entry starts out killed. */
    method Kill(pid: nat) returns (found: bool)
      requires Valid()
      modifies `procs
      ensures Valid() && |procs| == |old(procs)|
      ensures found <==> exists q :: 0 <= q < |procs| && old(procs)[q].pid == pid
      ensures !found ==> procs == old(procs)
      ensures found ==>
                exists q :: 0 <= q < |procs| && old(procs)[q].pid == pid && procs == old(procs)[q := procs[q]] &&
                            procs[q].killed && procs[q].state != SLEEPING && Resting(old(procs)[q], procs[q]) &&
                            (forall k :: 0 <= k < q ==> old(procs)[k].pid != pid) &&
                            (old(Unmarked()) ==> (Unmarked() <==> old(procs)[q].state != UNUSED))
    {
      hide TableOk;
      var p := 0;
      while p < |procs|
        invariant p <= |procs| && procs == old(procs)
        invariant forall q :: 0 <= q < p ==> procs[q].pid != pid
      {
        if procs[p].pid == pid {
          procs := procs[p := procs[p].(killed := true)];
          if procs[p].state == SLEEPING {
            procs := procs[p := procs[p].(state := RUNNABLE)];
          }
          RestingKeeps(old(procs), procs, cpus, nextpid, exited, reaped);
          assert old(procs)[p].pid == pid && procs == old(procs)[p := procs[p]];
          return true;
        }
        p := p + 1;
      }
      found := false;
    }

    /** One pick of the scheduler's scan, from entry `p0` on (proc.c:334-353). */
    method Schedule(c: nat, p0: nat) returns (picked: Option<nat>)
      requires Valid() && c < |cpus| && cpus[c] == None && p0 <= |procs|
      modifies `procs, `cpus
      ensures Valid()
      ensures picked == None ==> procs == old(procs) && cpus == old(cpus) && forall q :: p0 <= q < |procs| ==> procs[q].state != RUNNABLE
      ensures picked.Some? ==>
                && p0 <= picked.value < |old(procs)| && old(procs)[picked.value].state == RUNNABLE
                && procs == old(procs)[picked.value := old(procs)[picked.value].(state := RUNNING)] && cpus == old(cpus)[c := picked]
                && (forall q :: p0 <= q < picked.value ==> procs[q].state != RUNNABLE)
      ensures forall q :: p0 <= q < |old(procs)| && old(procs)[q].state == RUNNABLE ==> picked.Some? && picked.value <= q
    {
      hide TableOk;
      var p := p0;
      while p < |procs|
        invariant p0 <= p <= |procs| && procs == old(procs) && cpus == old(cpus)
        invariant forall q :: p0 <= q < p ==> procs[q].state != RUNNABLE
      {
        if procs[p].state == RUNNABLE {
          ScheduleKeeps(procs, cpus, nextpid, exited, reaped, c, p);
          cpus := cpus[c := Some(p)];
          procs := procs[p := procs[p].(state := RUNNING)];
          return Some(p);
        }
        p := p + 1;
      }
      picked := None;
    }

    /** yield and sched (proc.c:385-392), back in the scheduler. */
    method Yield(c: nat, p: nat)
      requires Valid() && Runs(c, p)
      modifies `procs, `cpus
      ensures Valid() && procs == old(procs)[p := old(procs)[p].(state := RUNNABLE)] && cpus == old(cpus)[c := None]
    {
      hide TableOk;
      DescheduleKeeps(procs, cpus, nextpid, exited, reaped, c, p, procs[p].(state := RUNNABLE));
      procs := procs[p := procs[p].(state := RUNNABLE)];
      cpus := cpus[c := None];
    }

    /** sleep on anything but a struct proc, down to sched (proc.c:439-442). */
    method Sleep(c: nat, p: nat, chan: Chan)
      requires Valid() && Runs(c, p) && chan.Other?
      modifies `procs, `cpus
      ensures Valid() && procs == old(procs)[p := old(procs)[p].(state := SLEEPING, chan := chan)] && cpus == old(cpus)[c := None]
    {
      hide TableOk;
      DescheduleKeeps(procs, cpus, nextpid, exited, reaped, c, p, procs[p].(chan := chan, state := SLEEPING));
      procs := procs[p := procs[p].(chan := chan, state := SLEEPING)];
      cpus := cpus[c := None];
    }

    /** allocproc's search, for the fork of the running process (proc.c:78-92). */
    method AllocProc(c: nat, p: nat) returns (np: Option<nat>)
      requires Valid() && Runs(c, p) && procs[p].embryo == None
      modifies `procs, `nextpid
      ensures Valid()
      ensures np == None ==> procs == old(procs) && nextpid == old(nextpid) && forall q :: 0 <= q < |procs| ==> procs[q].state != UNUSED
      ensures np.Some? ==>
                && np.value < |old(procs)| && old(procs)[np.value].state == UNUSED
                && procs == Allocated(old(procs), p, np.value, old(nextpid)) && nextpid == old(nextpid) + 1
      ensures np.Some? ==>
                && procs[np.value].state == EMBRYO && procs[np.value].pid == old(nextpid) && procs[p].embryo == np
                && (forall q :: 0 <= q < |procs| && q != p && q != np.value ==> procs[q] == old(procs)[q])
      ensures old(Unmarked()) ==> Unmarked() && (np.Some? ==> !procs[np.value].killed)
    {
      hide TableOk;
      hide Alive;
      RunsAlive(c, p);
      np := FindUnused();
      if np == None { return; }
      AllocKeeps(procs, cpus, nextpid, exited, reaped, p, np.value);
      TakeSlot(p, np.value);
    }

    method TakeSlot(p: nat, q: nat)
      requires p < |procs| && q < |procs| && p != q
      modifies `procs, `nextpid
      ensures procs == Allocated(old(procs), p, q, old(nextpid)) && nextpid == old(nextpid) + 1
    {
      procs := procs[q := procs[q].(state := EMBRYO, pid := nextpid)];
      procs := procs[p := procs[p].(embryo := Some(q))];
      nextpid := nextpid + 1;
    }

    method FindUnused() returns (np: Option<nat>)
      ensures np == None ==> forall q :: 0 <= q < |procs| ==> procs[q].state != UNUSED
      ensures np.Some? ==> np.value < |procs| && procs[np.value].state == UNUSED
    {
      var q := 0;
      while q < |procs|
        invariant q <= |procs|
        invariant forall r :: 0 <= r < q ==> procs[r].state != UNUSED
      {
        if procs[q].state == UNUSED { return Some(q); }
        q := q + 1;
      }
      np := None;
    }

    /** The rest of fork: the child is made RUNNABLE (proc.c:200, 217), or its stack or
        page table could not be had and the slot goes back (proc.c:95-98, 192-197). */
    method Fork(c: nat, p: nat, np: nat, ok: bool) returns (pid: int)
      requires Valid() && Runs(c, p) && procs[p].embryo == Some(np)
      modifies `procs
      ensures Valid() && np < |old(procs)| && procs == Forked(old(procs), p, np, ok)
      ensures pid == if ok then procs[np].pid else -1
      ensures ok ==> procs[np].parent == Some(p) && procs[np].state == RUNNABLE && procs[np].pid == old(procs)[np].pid
      ensures !ok ==> procs[np].state == UNUSED
      ensures p != np && procs[p] == old(procs)[p].(embryo := None) && forall q :: 0 <= q < |procs| && q != p && q != np ==> procs[q] == old(procs)[q]
      ensures procs[np].killed == old(procs)[np].killed
      ensures old(Unmarked()) ==> (Unmarked() <==> ok || !procs[np].killed)
    {
      hide TableOk;
      hide Alive;
      RunsAlive(c, p);
      ForkKeeps(procs, cpus, nextpid, exited, reaped, p, np, ok);
      pid := FinishFork(p, np, ok);
    }

    method FinishFork(p: nat, np: nat, ok: bool) returns (pid: int)
      requires p < |procs| && np < |procs| && p != np
      modifies `procs
      ensures procs == Forked(old(procs), p, np, ok) && pid == if ok then procs[np].pid else -1
    {
      if !ok {
        procs := procs[np := procs[np].(state := UNUSED)];
        pid := -1;
      } else {
        procs := procs[np := procs[np].(parent := Some(p))];
        pid := procs[np].pid;
        procs := procs[np := procs[np].(state := RUNNABLE)];
      }
      procs := procs[p := procs[p].(embryo := None)];
    }

    lemma RunsAlive(c: nat, p: nat)
      requires Valid() && Runs(c, p)
      ensures procs[p].state == RUNNING && Alive(procs[p])
      ensures procs[p].embryo.Some? ==> procs[p].embryo.value < |procs| && procs[procs[p].embryo.value].state == EMBRYO
      ensures p != INIT ==> procs[p].parent.Some? && procs[p].parent.value < |procs| && procs[p].parent.value != p
    {
    }

    /** exit (proc.c:250-266); init may not exit (proc.c:234). */
    method Exit(c: nat, p: nat) returns (panicked: bool)
      requires Valid() && Runs(c, p) && procs[p].embryo == None
      modifies `procs, `cpus, `exited
      ensures panicked <==> p == INIT
      ensures panicked ==> procs == old(procs) && cpus == old(cpus) && exited == old(exited)
      ensures !panicked ==>
                && Valid() && old(procs)[p].parent.Some? && procs == Exited(old(procs), p)
                && cpus == old(cpus)[c := None] && exited == old(exited) + [old(procs)[p].pid]
      ensures !panicked ==> HasExited(old(procs), procs, p)
    {
      hide TableOk;
      hide HasExited;
      hide AbandonsZombie;
      hide Inherited;
      hide WokenProc;
      hide Woken;
      if p == INIT { return true; }
      RunsAlive(c, p);
      ExitKeeps(procs, cpus, nextpid, exited, reaped, c, p);
      Disinherit(p);
      AbandonedSame(old(procs), p);
      procs := procs[p := procs[p].(state := ZOMBIE)];
      assert procs == Exited(old(procs), p);
      ExitedMeans(old(procs), p);
      cpus := cpus[c := None];
      exited := exited + [procs[p].pid];
      panicked := false;
    }

    /** The wakeup of the parent, and the children (proc.c:253-262). */
    method Disinherit(p: nat)
      requires p < |procs| && procs[p].parent.Some? && procs[p].state == RUNNING
      modifies `procs
      ensures procs == Abandoned(old(procs), p)
    {
      Wakeup1(ProcAt(procs[p].parent.value));
      GiveAwayChildren(p);
      ExitedIs(old(procs), procs, p);
    }

    /** exit's loop over the table (proc.c:256-262). */
    method GiveAwayChildren(p: nat)
      modifies `procs
      ensures |procs| == |old(procs)|
      ensures forall q :: 0 <= q < |procs| ==> procs[q] == Inherited(old(procs)[q], p, true, AbandonsZombie(old(procs), p))
    {
      var i, woke := 0, false;
      while i < |procs|
        invariant i <= |procs| == |old(procs)|
        invariant woke <==> exists q :: 0 <= q < i && ZombieChild(old(procs)[q], p)
        invariant forall q :: 0 <= q < |procs| ==> procs[q] == Inherited(old(procs)[q], p, q < i, woke)
      {
        ghost var before, was := procs, woke;
        if procs[i].parent == Some(p) {
          procs := procs[i := procs[i].(parent := Some(INIT))];
          if procs[i].state == ZOMBIE {
            Wakeup1(ProcAt(INIT));
            woke := true;
            assert ZombieChild(old(procs)[i], p);
          }
        }
        i := i + 1;
      }
    }

    /** wait's scan (proc.c:281-310): a zombie child is reaped; otherwise the process gives
        up, or sleeps on itself. */
    method Wait(c: nat, p: nat) returns (r: WaitResult)
      requires Valid() && Runs(c, p)
      modifies `procs, `cpus, `reaped
      ensures Valid()
      ensures r.Reaped? <==> AbandonsZombie(old(procs), p)
      ensures r.Reaped? ==>
                && r.pid !in old(reaped) && r.pid in exited && reaped == old(reaped) + [r.pid] && cpus == old(cpus)
                && r.slot < |old(procs)| && ZombieChild(old(procs)[r.slot], p) && r.pid == old(procs)[r.slot].pid
                && procs == old(procs)[r.slot := ReapedProc(old(procs)[r.slot])]
                && procs[r.slot].state == UNUSED && procs[r.slot].pid == 0 && procs[r.slot].parent == None && !procs[r.slot].killed
      ensures r.Failed? ==>
                && procs == old(procs) && cpus == old(cpus) && reaped == old(reaped)
                && (procs[p].killed || !HasChild(procs, p))
      ensures r.Asleep? ==>
                && !old(procs)[p].killed && HasChild(old(procs), p) && reaped == old(reaped)
                && procs == old(procs)[p := old(procs)[p].(state := SLEEPING, chan := ProcAt(p))] && cpus == old(cpus)[c := None]
      ensures old(Unmarked()) ==> Unmarked()
    {
      hide TableOk;
      var zombie, havekids := FindZombie(p);
      if zombie.Some? {
        var q := zombie.value;
        ReapKeeps(procs, cpus, nextpid, exited, reaped, q);
        ZombiePid(procs, cpus, nextpid, exited, reaped, q);
        r := WaitResult.Reaped(q, procs[q].pid);
        procs := procs[q := procs[q].(pid := 0, parent := None, killed := false, state := UNUSED)];
        reaped := reaped + [r.pid];
        return;
      }
      if !havekids || procs[p].killed { return Failed; }
      DescheduleKeeps(procs, cpus, nextpid, exited, reaped, c, p, procs[p].(chan := ProcAt(p), state := SLEEPING));
      procs := procs[p := procs[p].(chan := ProcAt(p), state := SLEEPING)];
      cpus := cpus[c := None];
      r := Asleep;
    }

    /** The loop of that scan, which ends at the first zombie child. */
    method FindZombie(p: nat) returns (zombie: Option<nat>, havekids: bool)
      ensures zombie.Some? <==> AbandonsZombie(procs, p)
      ensures zombie.Some? ==> zombie.value < |procs| && ZombieChild(procs[zombie.value], p)
      ensures zombie == None ==> (havekids <==> HasChild(procs, p))
    {
      var q := 0;
      havekids := false;
      while q < |procs|
        invariant q <= |procs|
        invariant havekids <==> HasChild(procs[..q], p)
        invariant forall k :: 0 <= k < q ==> !ZombieChild(procs[k], p)
      {
        assert procs[..q + 1] == procs[..q] + [procs[q]];
        if procs[q].parent == Some(p) {
          havekids := true;
          assert procs[..q + 1][q].parent == Some(p);
          if procs[q].state == ZOMBIE {
            assert ZombieChild(procs[q], p);
            return Some(q), true;
          }
        }
        q := q + 1;
      }
      assert procs[..q] == procs;
      zombie := None;
    }
  }

  lemma EmbryoIsNew(procs: seq<Proc>, cpus: seq<Option<nat>>, nextpid: nat, exited: seq<nat>, reaped: seq<nat>, p: nat, np: nat)
    requires TableOk(procs, cpus, nextpid, exited, reaped) && p < |procs| && procs[p].embryo == Some(np)
    ensures np < |procs| && np != INIT && procs[np].state == EMBRYO && procs[np].embryo == None
    ensures forall q :: 0 <= q < |procs| ==> !ZombieChild(procs[q], np)
  {
    hide CpusOk;
    hide WaitersOk;
    hide PidsOk;
  }

  /** fork, the child's exit on another CPU, and wait: the parent gets the child, or another of its
      children that had exited before. */
  method ForkExitWait(t: ProcTable, c: nat, p: nat, np: nat, c': nat) returns (pid: int, r: WaitResult)
    requires t.Valid() && t.Runs(c, p) && t.procs[p].embryo == Some(np) && c' < |t.cpus| && t.cpus[c'] == None
    modifies t
    ensures t.Valid() && pid == old(t.procs)[np].pid
    ensures r.Reaped? && (!AbandonsZombie(old(t.procs), p) ==> r.slot == np && r.pid == pid)
  {
    hide TableOk;
    EmbryoIsNew(t.procs, t.cpus, t.nextpid, t.exited, t.reaped, p, np);
    pid := t.Fork(c, p, np, true);
    var picked := t.Schedule(c', np);
    var panicked := t.Exit(c', np);
    assert ZombieChild(t.procs[np], p);
    r := t.Wait(c, p);
  }

  predicate HasChild(procs: seq<Proc>, p: nat) {
    exists q :: 0 <= q < |procs| && procs[q].parent == Some(p)
  }

  datatype WaitResult = Reaped(slot: nat, pid: nat) | Failed | Asleep

  lemma ExitedIs(procs: seq<Proc>, procs': seq<Proc>, p: nat)
    requires p < |procs| && procs[p].parent.Some? && |procs'| == |procs| && procs[p].state == RUNNING
    requires forall q :: 0 <= q < |procs| ==>
      procs'[q] == Inherited(Woken(procs, ProcAt(procs[p].parent.value))[q], p, true, AbandonsZombie(Woken(procs, ProcAt(procs[p].parent.value)), p))
    ensures procs' == Abandoned(procs, p)
  {
  }

  lemma ZombiePid(procs: seq<Proc>, cpus: seq<Option<nat>>, nextpid: nat, exited: seq<nat>, reaped: seq<nat>, q: nat)
    requires TableOk(procs, cpus, nextpid, exited, reaped) && q < |procs| && procs[q].state == ZOMBIE
    ensures procs[q].pid in exited && procs[q].pid !in reaped
  {
  }

  // ---------- what the invariant means ----------

  /** A RUNNING process is on exactly one CPU, and what a CPU runs is RUNNING. */
  lemma OneCpuEach(t: ProcTable, p: nat)
    requires t.Valid() && p < |t.procs|
    ensures t.procs[p].state == RUNNING <==> exists c :: 0 <= c < |t.cpus| && t.cpus[c] == Some(p)
    ensures forall c, d :: 0 <= c < |t.cpus| && 0 <= d < |t.cpus| && t.cpus[c] == Some(p) == t.cpus[d] ==> c == d
  {
  }

  /** No zombie is lost: until it is reaped, once, some living process that is not asleep
      in wait can reap it. */
  lemma ZombiesAreReapable(t: ProcTable, q: nat)
    requires t.Valid() && q < |t.procs| && t.procs[q].state == ZOMBIE
    ensures t.procs[q].pid in t.exited && t.procs[q].pid !in t.reaped
    ensures exists p :: 0 <= p < |t.procs| && ZombieChild(t.procs[q], p) && Alive(t.procs[p]) && forall i :: !Waiting(t.procs[p], i)
  {
  }
}

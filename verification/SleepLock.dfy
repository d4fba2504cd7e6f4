/** Sleep locks (sleeplock.c).  Each method is one stretch under the lock's spin lock; a
    process is known by its pid, which no two live processes share. */
module SleepLock {
  import opened Options

  class SleepLock {
    var locked: bool
    var pid: nat
    ghost var holder: Option<nat>    // who has acquired it and not released it
    ghost var asleep: set<nat>       // who sleeps on it

    /** Whenever the spin lock is free: one holder at most, and no one sleeps on a lock
        that is not held. */
    ghost predicate Valid()
      reads this
    {
      && (locked <==> holder.Some?) && pid == (if holder.Some? then holder.value else 0)
      && (asleep != {} ==> locked) && (holder.Some? ==> holder.value > 0)
    }

    constructor ()
      ensures Valid() && holder == None && asleep == {}
    {
      locked, pid, holder, asleep := false, 0, None, {};
    }

    /** acquiresleep up to where it returns or sleeps (sleeplock.c:24-31).  A process that is
        woken, or killed in its sleep, comes here again. */
    method Acquire(p: nat) returns (taken: bool)
      requires Valid() && p > 0
      modifies this
      ensures Valid() && (taken <==> old(holder) == None)
      ensures taken ==> holder == Some(p) && asleep == {}
      ensures !taken ==> holder == old(holder) && asleep == old(asleep) + {p}
    {
      if locked {
        asleep := asleep + {p};
        return false;
      }
      locked := true;
      pid := p;
      holder := Some(p);
      taken := true;
    }

    /** kill ends a sleep early (proc.c:489-490). */
    ghost method Woken(p: nat)
      requires Valid()
      modifies `asleep
      ensures Valid() && asleep == old(asleep) - {p}
    {
      asleep := asleep - {p};
    }

    /** releasesleep (sleeplock.c:34-42): everyone who slept is woken. */
    method Release(p: nat)
      requires Valid() && holder == Some(p)
      modifies this
      ensures Valid() && holder == None && asleep == {}
    {
      locked := false;
      pid := 0;
      holder := None;
      asleep := {};
    }

    /** holdingsleep (sleeplock.c:44-53). */
    method Holding(p: nat) returns (r: bool)
      requires Valid() && p > 0
      ensures r <==> holder == Some(p)
    {
      r := locked && pid == p;
    }
  }
}

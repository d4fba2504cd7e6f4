/** Pipes (pipe.c).  Each method is one stretch of code under `p->lock`, from
    acquire, or from the return of sleep, to release or sleep; so any interleaving
    of readers, writers and closers is some sequence of calls.  The processes
    SLEEPING on the two channels are part of the state, and sleep releases the
    lock atomically (see SleepWakeup). */
module Pipe {

  const PIPESIZE := 512
  const UINT := 0x1_0000_0000

  /** The outcome of such a stretch: return a count, return -1, or sleep. */
  datatype Outcome = Return(n: nat) | Error | Sleep

  /** A counter that wraps still indexes the same slot, because PIPESIZE divides 2^32. */
  lemma WrapKeepsSlot(n: nat)
    ensures n % UINT % PIPESIZE == n % PIPESIZE
  {
  }

  /** Two counters at most PIPESIZE apart are told apart by their 32-bit values. */
  lemma WrapKeepsDistance(r: nat, w: nat)
    requires r <= w <= r + PIPESIZE
    ensures r % UINT == w % UINT <==> r == w
    ensures w % UINT == (r % UINT + PIPESIZE) % UINT <==> w == r + PIPESIZE
  {
  }

  lemma OtherSlot(i: nat, w: nat)
    requires i < w < i + PIPESIZE
    ensures i % PIPESIZE != w % PIPESIZE
  {
  }

  lemma NextCounter(n: nat)
    ensures (n % UINT + 1) % UINT == (n + 1) % UINT
  {
  }

  class Pipe<T(0)> {
    var data: array<T>
    var nread: nat       // uint: wraps
    var nwrite: nat
    var readopen: bool
    var writeopen: bool
    var readers: set<nat>    // asleep on &p->nread
    var writers: set<nat>    // asleep on &p->nwrite
    ghost var accepted: seq<T>    // all bytes ever stored
    ghost var delivered: seq<T>   // all bytes ever taken out

    /** The ring holds exactly the bytes accepted and not yet delivered, in order. */
    ghost predicate Fifo()
      reads this, data
    {
      && data.Length == PIPESIZE
      && delivered <= accepted && |accepted| <= |delivered| + PIPESIZE
      && nread == |delivered| % UINT && nwrite == |accepted| % UINT
      && forall i :: |delivered| <= i < |accepted| ==> data[i % PIPESIZE] == accepted[i]
    }

    ghost predicate Empty()
      reads this
    {
      |accepted| == |delivered|
    }

    ghost predicate Full()
      reads this
    {
      |accepted| == |delivered| + PIPESIZE
    }

    /** A reader sleeps only at an empty pipe that may still be written, a writer
        only at a full pipe that may still be read. */
    ghost predicate SleepersOk()
      reads this
    {
      && (readers != {} ==> Empty() && writeopen && readopen)
      && (writers != {} ==> Full() && readopen && writeopen)
    }

    ghost predicate Valid()
      reads this, data
    {
      Fifo() && SleepersOk()
    }

    /** Readers and writers never sleep at the same time. */
    lemma NeverBothAsleep()
      requires Valid()
      ensures readers == {} || writers == {}
    {
    }

    /** pipealloc (pipe.c:31-37). */
    constructor ()
      ensures Valid() && fresh(data) && accepted == [] && delivered == [] && readopen && writeopen && readers == {} && writers == {}
    {
      data := new T[PIPESIZE];
      nread, nwrite, readopen, writeopen := 0, 0, true, true;
      readers, writers := {}, {};
      accepted, delivered := [], [];
    }

    /** One byte into the ring (pipe.c:93). */
    method Put(x: T)
      requires Fifo() && !Full()
      modifies this`nwrite, this`accepted, data
      ensures Fifo() && accepted == old(accepted) + [x]
    {
      WrapKeepsSlot(|accepted|);
      NextCounter(|accepted|);
      forall i | |delivered| <= i < |accepted|
        ensures i % PIPESIZE != nwrite % PIPESIZE
      {
        OtherSlot(i, |accepted|);
      }
      data[nwrite % PIPESIZE] := x;
      nwrite := (nwrite + 1) % UINT;
      accepted := accepted + [x];
    }

    /** One byte out of the ring (pipe.c:116). */
    method Get() returns (x: T)
      requires Fifo() && !Empty()
      modifies this`nread, this`delivered
      ensures Fifo() && x == accepted[|old(delivered)|] && delivered == old(delivered) + [x]
    {
      WrapKeepsSlot(|delivered|);
      NextCounter(|delivered|);
      x := data[nread % PIPESIZE];
      nread := (nread + 1) % UINT;
      delivered := delivered + [x];
    }

    /** pipewrite (pipe.c:79-98) by process `p`, from byte `i` on: it stores until
        it is done or the pipe is full, and returns how far it came.  A killed
        writer leaves a full pipe without a wakeup, so it strands the readers that
        were asleep exactly when it had more than a pipeful to write.  Stranded
        readers sleep on until a later writer sleeps or finishes. */
    method Write(p: nat, addr: seq<T>, i: nat, killed: bool) returns (out: Outcome, i': nat)
      requires Fifo() && writeopen && i <= |addr| && p !in readers && p !in writers
      modifies this, data
      ensures Fifo() && data == old(data) && readopen == old(readopen) && writeopen
      ensures old(SleepersOk()) ==> (SleepersOk() <==> !(killed && old(readers) != {} && |addr| - i > PIPESIZE))
      ensures i <= i' <= |addr| && accepted == old(accepted) + addr[i..i'] && delivered == old(delivered)
      ensures i' == |addr| || Full()
      ensures out == if i' == |addr| then Return(|addr|) else if readopen && !killed then Sleep else Error
      ensures writers == if out.Sleep? then old(writers) + {p} else old(writers)
      ensures readers == if out.Error? then old(readers) else {}
    {
      i' := i;
      while i' < |addr|
        invariant i <= i' <= |addr| && Fifo() && data == old(data)
        invariant accepted == old(accepted) + addr[i..i'] && delivered == old(delivered)
        invariant readopen == old(readopen) && writeopen && readers == old(readers) && writers == old(writers)
        invariant i' > i && old(SleepersOk()) ==> old(writers) == {}
      {
        WrapKeepsDistance(|delivered|, |accepted|);
        if nwrite == (nread + PIPESIZE) % UINT {
          if !readopen || killed {
            return Error, i';
          }
          readers := {};
          writers := writers + {p};
          return Sleep, i';
        }
        Put(addr[i']);
        i' := i' + 1;
      }
      readers := {};
      return Return(|addr|), i';
    }

    /** piperead (pipe.c:101-121) by process `p`. */
    method Read(p: nat, n: nat, killed: bool) returns (out: Outcome, dst: seq<T>)
      requires Fifo() && readopen && p !in readers && p !in writers
      modifies this
      ensures Fifo() && data == old(data) && readopen && writeopen == old(writeopen)
      ensures old(SleepersOk()) ==> SleepersOk()
      ensures accepted == old(accepted) && delivered == old(delivered) + dst && |dst| <= n
      ensures out == if old(Empty()) && writeopen then (if killed then Error else Sleep) else Return(|dst|)
      ensures out.Return? ==> (|dst| == n || Empty()) && writers == {} && readers == old(readers)
      ensures !out.Return? ==> dst == [] && writers == old(writers)
      ensures out.Sleep? ==> readers == old(readers) + {p}
      ensures out.Error? ==> readers == old(readers)
    {
      dst := [];
      WrapKeepsDistance(|delivered|, |accepted|);
      if nread == nwrite && writeopen {
        if killed {
          return Error, [];
        }
        readers := readers + {p};
        return Sleep, [];
      }
      while |dst| < n
        invariant |dst| <= n && Fifo() && data == old(data)
        invariant accepted == old(accepted) && delivered == old(delivered) + dst
        invariant readopen && writeopen == old(writeopen) && readers == old(readers) && writers == old(writers)
      {
        WrapKeepsDistance(|delivered|, |accepted|);
        if nread == nwrite {
          break;
        }
        var x := Get();
        dst := dst + [x];
      }
      writers := {};
      return Return(|dst|), dst;
    }

    /** pipeclose (pipe.c:60-75): the last descriptor of an end goes away, so no
        process is using that end. */
    method Close(writable: bool)
      requires Fifo() && (if writable then writers == {} else readers == {})
      requires if writable then writeopen else readopen
      modifies this
      ensures Fifo() && data == old(data) && accepted == old(accepted) && delivered == old(delivered)
      ensures old(SleepersOk()) ==> SleepersOk()
      ensures writeopen == (old(writeopen) && !writable) && readopen == (old(readopen) && writable)
      ensures if writable then readers == {} && writers == old(writers) else writers == {} && readers == old(readers)
    {
      if writable {
        writeopen := false;
        readers := {};
      } else {
        readopen := false;
        writers := {};
      }
    }

    /** kill ends the sleep of `p` early (proc.c:489-490). */
    method Woken(p: nat)
      requires Fifo()
      modifies `readers, `writers
      ensures Fifo() && readers == old(readers) - {p} && writers == old(writers) - {p}
      ensures old(SleepersOk()) ==> SleepersOk()
    {
      readers := readers - {p};
      writers := writers - {p};
    }
  }

  /** A reader asleep at a pipe that a killed writer has filled, while the next reader takes a byte. */
  method KilledWriterStrandsReader(addr: seq<int>) returns (p: Pipe<int>)
    requires |addr| == PIPESIZE + 1
    ensures p.Fifo() && p.readers == {1} && !p.Empty() && p.delivered == [addr[0]]
  {
    p := new Pipe<int>();
    var out, dst := p.Read(1, 1, false);
    var i;
    out, i := p.Write(2, addr, 0, true);
    out, dst := p.Read(3, 1, false);
    assert |p.accepted| == PIPESIZE;
  }
}

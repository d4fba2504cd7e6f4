/** The buffer cache (bio.c) over the in-memory disk driver (memide.c).

    `struct buf *` is an index into `bufs`; index HEAD is the list head.  Each
    method is one section under `bcache.lock` or under a buffer's sleep lock, so
    any interleaving of processes is some sequence of calls. */
module BufferCache {
  import opened Sequences
  import opened Options

  const NBUF := 30
  const HEAD := NBUF
  const NOBODY := 0 // pid of a free sleep lock

  datatype Buf<D> = Buf(valid: bool, dirty: bool, dev: nat, blockno: nat, holder: nat,
                     refcnt: nat, prev: nat, next: nat, data: D)

  predicate Caches<D>(b: Buf<D>, dev: nat, blockno: nat) {
    b.dev == dev && b.blockno == blockno
  }

  /** Only a clean buffer that nobody references may be recycled: a dirty one
      holds a logged block that is not yet installed. */
  predicate Eligible<D>(b: Buf<D>) {
    b.refcnt == 0 && !b.dirty
  }

  ghost predicate SameButLinks<D>(x: Buf<D>, y: Buf<D>) {
    x.(prev := 0, next := 0) == y.(prev := 0, next := 0)
  }

  // ---------- the circular list ----------

  /** The list node at position `i` of `order`, with the head at both ends. */
  function At(order: seq<nat>, i: int): nat {
    if 0 <= i < |order| then order[i] else HEAD
  }

  /** `order` lists distinct buffers, and from the head both link directions
      visit exactly them. */
  ghost predicate Linked<D>(bufs: seq<Buf<D>>, order: seq<nat>) {
    && |bufs| == NBUF + 1
    && (forall i :: 0 <= i < |order| ==> order[i] < NBUF)
    && (forall i, j :: 0 <= i < j < |order| ==> order[i] != order[j])
    && bufs[HEAD].next == At(order, 0)
    && bufs[HEAD].prev == At(order, |order| - 1)
    && (forall i {:trigger bufs[order[i]].next} :: 0 <= i < |order| ==> bufs[order[i]].next == At(order, i + 1))
    && (forall i {:trigger bufs[order[i]].prev} :: 0 <= i < |order| ==> bufs[order[i]].prev == At(order, i - 1))
  }

  /** Every buffer is on the list, most recently dropped first. */
  ghost predicate Recency(order: seq<nat>, stamp: seq<nat>, clock: nat) {
    && |order| == NBUF == |stamp|
    && (forall b :: 0 <= b < NBUF ==> b in order)
    && (forall i :: 0 <= i < |order| ==> order[i] < NBUF && stamp[order[i]] < clock)
    && (forall i, j :: 0 <= i < j < |order| ==> stamp[order[i]] > stamp[order[j]])
  }

  // ---------- agreement with the flat disk ----------

  /** `users` are the processes between their bget and their brelse. */
  ghost predicate BufOk<D>(b: Buf<D>, users: set<nat>, flat: seq<D>) {
    && b.refcnt == |users|
    && (b.holder != NOBODY ==> b.holder in users)
    && (b.dirty ==> b.valid)
    && (b.valid ==> b.dev == 1 && b.blockno < |flat|)
    && (b.valid && b.holder == NOBODY ==> b.data == flat[b.blockno])
  }

  ghost predicate Pinned<D>(bufs: seq<Buf<D>>, n: nat) {
    exists i :: 0 <= i < NBUF < |bufs| && bufs[i].dirty && bufs[i].blockno == n
  }

  /** `flat` is what a reader must see: a block's content is in a valid cached
      copy that nobody is changing, or, if it is not pinned, on the disk. */
  ghost predicate Coherent<D>(bufs: seq<Buf<D>>, users: seq<set<nat>>, disk: seq<D>, flat: seq<D>) {
    && |bufs| == NBUF + 1
    && |users| == NBUF
    && |disk| == |flat|
    && (forall i, j :: 0 <= i < NBUF && 0 <= j < NBUF && i != j && bufs[i].dev != 0 ==> !Caches(bufs[j], bufs[i].dev, bufs[i].blockno))
    && (forall i :: 0 <= i < NBUF ==> BufOk(bufs[i], users[i], flat))
    && (forall n :: 0 <= n < |disk| ==> Pinned(bufs, n) || disk[n] == flat[n])
  }

  /** bget's panic: the block is not cached and nothing may be recycled. */
  ghost predicate NoBuffer<D>(bufs: seq<Buf<D>>, dev: nat, blockno: nat) {
    |bufs| == NBUF + 1 && forall i :: 0 <= i < NBUF ==> !Caches(bufs[i], dev, blockno) && !Eligible(bufs[i])
  }

  // ---------- pinned blocks ----------

  /** The blocks that the first `k` buffers pin. */
  ghost function Pins<D>(bufs: seq<Buf<D>>, k: nat): set<nat>
    requires k <= |bufs|
  {
    if k == 0 then {} else Pins(bufs, k - 1) + if bufs[k - 1].dirty then {bufs[k - 1].blockno} else {}
  }

  lemma {:induction false} PinsAt<D>(bufs: seq<Buf<D>>, k: nat, n: nat)
    requires k <= |bufs|
    ensures n in Pins(bufs, k) <==> exists i :: 0 <= i < k && bufs[i].dirty && bufs[i].blockno == n
  {
    if k > 0 {
      PinsAt(bufs, k - 1, n);
    }
  }

  lemma {:induction false} PinsUpTo<D>(bufs: seq<Buf<D>>, k: nat)
    requires k <= |bufs|
    requires forall i, j :: 0 <= i < j < k && bufs[i].dirty && bufs[j].dirty ==> bufs[i].blockno != bufs[j].blockno
    ensures |Pins(bufs, k)| <= k && (|Pins(bufs, k)| == k <==> forall i :: 0 <= i < k ==> bufs[i].dirty)
  {
    if k > 0 {
      PinsUpTo(bufs, k - 1);
      PinsAt(bufs, k - 1, bufs[k - 1].blockno);
      assert (forall i :: 0 <= i < k ==> bufs[i].dirty) <==> bufs[k - 1].dirty && forall i :: 0 <= i < k - 1 ==> bufs[i].dirty;
    }
  }

  /** At most NBUF blocks are pinned, and then no buffer is clean. */
  lemma PinsCount<D>(bufs: seq<Buf<D>>, users: seq<set<nat>>, disk: seq<D>, flat: seq<D>)
    requires Coherent(bufs, users, disk, flat)
    ensures |Pins(bufs, NBUF)| <= NBUF && (|Pins(bufs, NBUF)| == NBUF <==> forall i :: 0 <= i < NBUF ==> bufs[i].dirty)
  {
    forall i, j | 0 <= i < j < NBUF && bufs[i].dirty && bufs[j].dirty
      ensures bufs[i].blockno != bufs[j].blockno
    {
      assert BufOk(bufs[i], users[i], flat) && BufOk(bufs[j], users[j], flat);
    }
    PinsUpTo(bufs, NBUF);
  }

  lemma PinsSame<D>(bufs: seq<Buf<D>>, bufs': seq<Buf<D>>)
    requires |bufs| == NBUF + 1 == |bufs'|
    requires forall i :: 0 <= i < NBUF ==> bufs'[i].dirty == bufs[i].dirty && (bufs[i].dirty ==> bufs'[i].blockno == bufs[i].blockno)
    ensures Pins(bufs', NBUF) == Pins(bufs, NBUF)
  {
    forall n: nat
      ensures n in Pins(bufs', NBUF) <==> n in Pins(bufs, NBUF)
    {
      PinsAt(bufs, NBUF, n);
      PinsAt(bufs', NBUF, n);
    }
  }

  /** Buffer `b` is cleaned or dirtied. */
  lemma PinsChanged<D>(bufs: seq<Buf<D>>, users: seq<set<nat>>, disk: seq<D>, flat: seq<D>, b: nat, x: Buf<D>)
    requires Coherent(bufs, users, disk, flat) && b < NBUF && bufs[b].valid && x.blockno == bufs[b].blockno
    ensures Pins(bufs[b := x], NBUF) == if x.dirty then Pins(bufs, NBUF) + {x.blockno} else Pins(bufs, NBUF) - {x.blockno}
  {
    var bufs' := bufs[b := x];
    assert BufOk(bufs[b], users[b], flat);
    forall n: nat
      ensures n in Pins(bufs', NBUF) <==> if n == x.blockno then x.dirty else n in Pins(bufs, NBUF)
    {
      PinsAt(bufs, NBUF, n);
      PinsAt(bufs', NBUF, n);
      if n == x.blockno {
        OnlyHere(bufs, users, disk, flat, b);
        if x.dirty { assert bufs'[b].dirty; }
      } else if i :| 0 <= i < NBUF && bufs[i].dirty && bufs[i].blockno == n {
        assert bufs'[i].dirty && bufs'[i].blockno == n;
      }
    }
  }

  lemma OnlyHere<D>(bufs: seq<Buf<D>>, users: seq<set<nat>>, disk: seq<D>, flat: seq<D>, b: nat)
    requires Coherent(bufs, users, disk, flat) && b < NBUF && bufs[b].valid
    ensures forall i :: 0 <= i < NBUF && i != b && bufs[i].dirty ==> bufs[i].blockno != bufs[b].blockno
  {
    forall i | 0 <= i < NBUF && i != b && bufs[i].dirty
      ensures bufs[i].blockno != bufs[b].blockno
    {
      assert BufOk(bufs[i], users[i], flat) && BufOk(bufs[b], users[b], flat);
    }
  }

  /** The cached blocks and, one short of NBUF, the pinned blocks leave room for a bread. */
  lemma HasBuffer<D>(bufs: seq<Buf<D>>, users: seq<set<nat>>, disk: seq<D>, flat: seq<D>, n: nat)
    requires Coherent(bufs, users, disk, flat)
    ensures n in Pins(bufs, NBUF) ==> !NoBuffer(bufs, 1, n)
    ensures n !in Pins(bufs, NBUF) && |Pins(bufs, NBUF)| == NBUF ==> NoBuffer(bufs, 1, n)
    ensures |Pins(bufs, NBUF)| < NBUF && (forall i :: 0 <= i < NBUF ==> users[i] == {}) ==> !NoBuffer(bufs, 1, n)
  {
    PinsCount(bufs, users, disk, flat);
    PinsAt(bufs, NBUF, n);
    forall i | 0 <= i < NBUF
      ensures BufOk(bufs[i], users[i], flat)
    {
    }
    if n in Pins(bufs, NBUF) {
      var i :| 0 <= i < NBUF && bufs[i].dirty && bufs[i].blockno == n;
      assert Caches(bufs[i], 1, n);
    } else if i :| 0 <= i < NBUF && !bufs[i].dirty {
      assert users[i] == {} ==> Eligible(bufs[i]);
    }
  }

  // ---------- breads that come and go ----------

  ghost predicate Cached<D>(bufs: seq<Buf<D>>, n: nat) {
    exists i :: 0 <= i < NBUF < |bufs| && Caches(bufs[i], 1, n)
  }

  /** No buffer can be recycled. */
  ghost predicate Dry<D>(bufs: seq<Buf<D>>) {
    |bufs| == NBUF + 1 && forall i :: 0 <= i < NBUF ==> !Eligible(bufs[i])
  }

  lemma NoBufferIs<D>(bufs: seq<Buf<D>>, n: nat)
    requires |bufs| == NBUF + 1
    ensures NoBuffer(bufs, 1, n) <==> !Cached(bufs, n) && Dry(bufs)
  {
  }

  predicate SameBlock<D>(x: Buf<D>, y: Buf<D>) {
    x.dev == y.dev && x.blockno == y.blockno
  }

  ghost predicate SameBlocks<D>(bufs: seq<Buf<D>>, bufs': seq<Buf<D>>) {
    |bufs| == NBUF + 1 == |bufs'| && forall i :: 0 <= i < NBUF ==> SameBlock(bufs'[i], bufs[i])
  }

  /** What is locked stays as it is, and nothing else is locked. */
  ghost predicate LocksKept<D>(bufs: seq<Buf<D>>, bufs': seq<Buf<D>>) {
    |bufs| == NBUF + 1 == |bufs'| &&
    forall i :: 0 <= i < NBUF ==> bufs'[i].holder == bufs[i].holder && (bufs[i].holder != NOBODY ==> SameBlock(bufs'[i], bufs[i]))
  }

  /** Blocks have been read and given up again, and of these `w` has been written: only
      eligible buffers have been recycled. */
  ghost predicate Served<D>(bufs: seq<Buf<D>>, bufs': seq<Buf<D>>, w: nat) {
    |bufs| == NBUF + 1 == |bufs'| &&
    forall i :: 0 <= i < NBUF ==>
      && bufs'[i].refcnt == bufs[i].refcnt && bufs'[i].holder == bufs[i].holder
      && (SameBlock(bufs'[i], bufs[i]) || Eligible(bufs[i]))
      && (bufs'[i].dirty <==> bufs[i].dirty && bufs[i].blockno != w)
  }

  lemma ServedPins<D>(bufs: seq<Buf<D>>, bufs': seq<Buf<D>>, w: nat)
    requires Served(bufs, bufs', w)
    ensures Pins(bufs', NBUF) == Pins(bufs, NBUF) - {w}
  {
    forall n: nat
      ensures n in Pins(bufs', NBUF) <==> n in Pins(bufs, NBUF) && n != w
    {
      PinsAt(bufs, NBUF, n);
      PinsAt(bufs', NBUF, n);
      if i :| 0 <= i < NBUF && bufs[i].dirty && bufs[i].blockno == n {
        assert n != w ==> bufs'[i].dirty && bufs'[i].blockno == n;
      }
    }
  }

  lemma ServedLocks<D>(bufs: seq<Buf<D>>, bufs': seq<Buf<D>>, w: nat, users: seq<set<nat>>, disk: seq<D>, flat: seq<D>)
    requires Coherent(bufs, users, disk, flat) && Served(bufs, bufs', w)
    ensures LocksKept(bufs, bufs')
  {
    forall i | 0 <= i < NBUF && bufs[i].holder != NOBODY
      ensures SameBlock(bufs'[i], bufs[i])
    {
      assert BufOk(bufs[i], users[i], flat);
    }
  }

  /** Buffers that can be recycled still can; while there are none, the cache holds the same
      blocks; and writing a block that is not pinned frees none. */
  lemma ServedSupply<D>(bufs: seq<Buf<D>>, bufs': seq<Buf<D>>, w: nat)
    requires Served(bufs, bufs', w)
    ensures Dry(bufs') ==> Dry(bufs)
    ensures Dry(bufs) ==> SameBlocks(bufs, bufs')
    ensures w !in Pins(bufs, NBUF) ==> (Dry(bufs) <==> Dry(bufs'))
  {
    PinsAt(bufs, NBUF, w);
    if i :| 0 <= i < NBUF && Eligible(bufs[i]) {
      assert Eligible(bufs'[i]);
    }
    if w !in Pins(bufs, NBUF) && Dry(bufs) {
      forall i | 0 <= i < NBUF
        ensures !Eligible(bufs'[i])
      {
        assert !Eligible(bufs[i]);
      }
    }
  }

  lemma CachedSame<D>(bufs: seq<Buf<D>>, bufs': seq<Buf<D>>, n: nat)
    requires SameBlocks(bufs, bufs')
    ensures Cached(bufs, n) <==> Cached(bufs', n)
  {
    if i :| 0 <= i < NBUF && Caches(bufs[i], 1, n) {
      assert SameBlock(bufs'[i], bufs[i]) && Caches(bufs'[i], 1, n);
    }
    if i :| 0 <= i < NBUF && Caches(bufs'[i], 1, n) {
      assert SameBlock(bufs'[i], bufs[i]) && Caches(bufs[i], 1, n);
    }
  }

  /** Only buffer `b` changed, and nobody held it before. */
  ghost predicate OthersKept<D>(bufs: seq<Buf<D>>, bufs': seq<Buf<D>>, b: nat) {
    |bufs| == NBUF + 1 == |bufs'| && b < NBUF && bufs[b].holder == NOBODY &&
    forall i :: 0 <= i <= NBUF && i != b ==> bufs'[i] == bufs[i]
  }

  /** The eligible buffer whose last drop to refcnt 0 is the oldest. */
  ghost predicate LeastRecentlyUsed<D>(bufs: seq<Buf<D>>, stamp: seq<nat>, b: nat)
    requires |bufs| == NBUF + 1 && |stamp| == NBUF
  {
    && b < NBUF
    && Eligible(bufs[b])
    && forall i :: 0 <= i < NBUF && Eligible(bufs[i]) ==> stamp[b] <= stamp[i]
  }

  /** From place `k` of the list on no buffer can be recycled. */
  ghost predicate NoneBehind<D>(bufs: seq<Buf<D>>, order: seq<nat>, k: int) {
    forall i :: 0 <= k <= i < |order| && order[i] < |bufs| ==> !Eligible(bufs[order[i]])
  }

  lemma OldestEligible<D>(bufs: seq<Buf<D>>, order: seq<nat>, stamp: seq<nat>, clock: nat, k: nat)
    requires |bufs| == NBUF + 1 && Recency(order, stamp, clock)
    requires 0 < k <= NBUF && NoneBehind(bufs, order, k) && Eligible(bufs[order[k - 1]])
    ensures LeastRecentlyUsed(bufs, stamp, order[k - 1])
  {
    hide Eligible;
    forall i | 0 <= i < NBUF && Eligible(bufs[i])
      ensures stamp[order[k - 1]] <= stamp[i]
    {
      var j := Position(order, i);
      assert j < k;
    }
  }

  lemma NoneEligible<D>(bufs: seq<Buf<D>>, order: seq<nat>, stamp: seq<nat>, clock: nat)
    requires |bufs| == NBUF + 1 && Recency(order, stamp, clock) && NoneBehind(bufs, order, 0)
    ensures forall i :: 0 <= i < NBUF ==> !Eligible(bufs[i])
  {
    forall i | 0 <= i < NBUF
      ensures !Eligible(bufs[i])
    {
      var j := Position(order, i);
    }
  }

  /** A change of one buffer that keeps its identity, and of what a reader must
      see of its block, keeps the agreement. */
  lemma CoherentUpdate<D>(bufs: seq<Buf<D>>, users: seq<set<nat>>, disk: seq<D>, flat: seq<D>,
                       b: nat, x: Buf<D>, u: set<nat>, disk': seq<D>, flat': seq<D>)
    requires Coherent(bufs, users, disk, flat) && b < NBUF
    requires Caches(x, bufs[b].dev, bufs[b].blockno) || (forall i :: 0 <= i < NBUF ==> !Caches(bufs[i], x.dev, x.blockno))
    requires BufOk(x, u, flat') && |disk'| == |flat'| == |disk|
    requires forall n :: 0 <= n < |disk| && !(bufs[b].valid && n == bufs[b].blockno) ==> disk'[n] == disk[n] && flat'[n] == flat[n]
    requires bufs[b].valid && !(x.dirty && x.blockno == bufs[b].blockno) ==> disk'[bufs[b].blockno] == flat'[bufs[b].blockno]
    ensures Coherent(bufs[b := x], users[b := u], disk', flat')
  {
    var bufs' := bufs[b := x];
    forall n | 0 <= n < |disk'|
      ensures Pinned(bufs', n) || disk'[n] == flat'[n]
    {
      if Pinned(bufs, n) {
        var i :| 0 <= i < NBUF && bufs[i].dirty && bufs[i].blockno == n;
        assert BufOk(bufs[i], users[i], flat);
        assert i != b ==> bufs'[i].dirty && bufs'[i].blockno == n;
        if i == b && x.dirty && x.blockno == n {
          assert bufs'[b].dirty && bufs'[b].blockno == n;
        }
      } else if bufs[b].valid && n == bufs[b].blockno && x.dirty && x.blockno == n {
        assert bufs'[b].dirty && bufs'[b].blockno == n;
      }
    }
    forall i | 0 <= i < NBUF
      ensures BufOk(bufs'[i], users[b := u][i], flat')
    {
      assert BufOk(bufs[i], users[i], flat);
      assert BufOk(bufs[b], users[b], flat);
      assert i != b && bufs[i].valid && bufs[b].valid ==> !Caches(bufs[i], bufs[b].dev, bufs[b].blockno);
    }
  }

  /** Splicing a node out of the list (bio.c:132-133). */
  ghost predicate SplicedOut<D>(bufs: seq<Buf<D>>, b: Buf<D>, bufs': seq<Buf<D>>) {
    |bufs| == |bufs'| == NBUF + 1 &&
    forall i :: 0 <= i <= NBUF ==>
      bufs'[i] == bufs[i].(prev := if i == b.next then b.prev else bufs[i].prev,
                           next := if i == b.prev then b.next else bufs[i].next)
  }

  lemma SplicedBy<D>(bufs: seq<Buf<D>>, b: nat)
    requires |bufs| == NBUF + 1 && b <= NBUF && bufs[b].next <= NBUF && bufs[b].prev <= NBUF
    ensures var n, p := bufs[b].next, bufs[b].prev;
            var bufs1 := bufs[n := bufs[n].(prev := p)];
            SplicedOut(bufs, bufs[b], bufs1[p := bufs1[p].(next := n)])
  {
  }

  lemma UnlinkLinked<D>(bufs: seq<Buf<D>>, order: seq<nat>, k: nat, bufs': seq<Buf<D>>)
    requires Linked(bufs, order) && k < |order| && |bufs'| == |bufs|
    requires SplicedOut(bufs, bufs[order[k]], bufs')
    ensures Linked(bufs', Without(order, k))
  {
    hide Without;
    hide SplicedOut;
    var order' := Without(order, k);
    WithoutDistinct(order, k);
    AtWithout(order, k, 0);
    AtWithout(order, k, |order'| - 1);
    forall i | 0 <= i < |order'|
      ensures bufs'[order'[i]].next == At(order', i + 1) && bufs'[order'[i]].prev == At(order', i - 1)
    {
      UnlinkedNode(bufs, order, k, bufs', order', i);
    }
    UnlinkHead(bufs, order, k, bufs');
  }

  lemma UnlinkedNode<D>(bufs: seq<Buf<D>>, order: seq<nat>, k: nat, bufs': seq<Buf<D>>, order': seq<nat>, i: nat)
    requires Linked(bufs, order) && k < |order| && |bufs'| == |bufs| && SplicedOut(bufs, bufs[order[k]], bufs')
    requires order' == Without(order, k) && i < |order'|
    ensures order'[i] < NBUF && bufs'[order'[i]].next == At(order', i + 1) && bufs'[order'[i]].prev == At(order', i - 1)
  {
    hide SplicedOut;
    hide Linked;
    UnlinkNode(bufs, order, k, bufs', if i < k then i else i + 1);
  }

  /** What splicing node `k` out does to the links of another node. */
  lemma UnlinkNode<D>(bufs: seq<Buf<D>>, order: seq<nat>, k: nat, bufs': seq<Buf<D>>, i: nat)
    requires Linked(bufs, order) && k < |order| && |bufs'| == |bufs| && i < |order| && i != k
    requires SplicedOut(bufs, bufs[order[k]], bufs')
    ensures order[i] < NBUF && bufs'[order[i]].next == At(order, if i + 1 == k then k + 1 else i + 1)
    ensures bufs'[order[i]].prev == At(order, if i - 1 == k then k - 1 else i - 1)
  {
    assert bufs[order[k]].next == At(order, k + 1) && bufs[order[k]].prev == At(order, k - 1);
    assert bufs[order[i]].next == At(order, i + 1) && bufs[order[i]].prev == At(order, i - 1);
  }

  lemma UnlinkHead<D>(bufs: seq<Buf<D>>, order: seq<nat>, k: nat, bufs': seq<Buf<D>>)
    requires Linked(bufs, order) && k < |order| && |bufs'| == |bufs|
    requires SplicedOut(bufs, bufs[order[k]], bufs')
    ensures bufs'[HEAD].next == At(order, if k == 0 then 1 else 0)
    ensures bufs'[HEAD].prev == At(order, if k == |order| - 1 then k - 1 else |order| - 1)
  {
    assert bufs[order[k]].next == At(order, k + 1) && bufs[order[k]].prev == At(order, k - 1);
  }

  lemma AtWithout(order: seq<nat>, k: nat, i: int)
    requires k < |order| && -1 <= i < |order|
    ensures |Without(order, k)| == |order| - 1 && At(Without(order, k), i) == At(order, if i < k then i else i + 1)
  {
  }

  lemma WithoutDistinct(order: seq<nat>, k: nat)
    requires k < |order| && forall i, j :: 0 <= i < j < |order| ==> order[i] != order[j]
    ensures forall i, j :: 0 <= i < j < |Without(order, k)| ==> Without(order, k)[i] != Without(order, k)[j]
    ensures forall i :: 0 <= i < |Without(order, k)| ==> Without(order, k)[i] in order
  {
  }

  /** Inserting a node behind the head (bio.c:50-54, 134-137). */
  lemma PushLinked<D>(bufs: seq<Buf<D>>, order: seq<nat>, b: nat, bufs': seq<Buf<D>>)
    requires Linked(bufs, order) && b < NBUF && b !in order && |bufs'| == |bufs|
    requires forall i :: 0 <= i <= NBUF ==>
      bufs'[i] == bufs[i].(prev := if i == b then HEAD else if i == bufs[HEAD].next then b else bufs[i].prev,
                           next := if i == b then bufs[HEAD].next else if i == HEAD then b else bufs[i].next)
    ensures Linked(bufs', [b] + order)
  {
  }

  lemma HeldBlock<D>(bufs: seq<Buf<D>>, users: seq<set<nat>>, disk: seq<D>, flat: seq<D>, b: nat)
    requires Coherent(bufs, users, disk, flat) && b < NBUF && bufs[b].valid
    ensures bufs[b].blockno < |flat| == |disk|
  {
  }

  lemma CoherentLinks<D>(bufs: seq<Buf<D>>, bufs': seq<Buf<D>>, users: seq<set<nat>>, disk: seq<D>, flat: seq<D>)
    requires Coherent(bufs, users, disk, flat) && |bufs'| == NBUF + 1
    requires forall i :: 0 <= i < NBUF ==> SameButLinks(bufs'[i], bufs[i])
    ensures Coherent(bufs', users, disk, flat)
  {
  }

  lemma RecencyMoved(order: seq<nat>, k: nat, stamp: seq<nat>, clock: nat)
    requires Recency(order, stamp, clock) && k < |order|
    requires forall i, j :: 0 <= i < j < |order| ==> order[i] != order[j]
    ensures order[k] !in Without(order, k)
    ensures Recency([order[k]] + Without(order, k), stamp[order[k] := clock], clock + 1)
  {
    hide Without;
    MovedAt(order, k);
    var order' := [order[k]] + Without(order, k);
    forall b | 0 <= b < NBUF
      ensures b in order'
    {
      var j := Position(order, b);
      if j != k {
        assert order'[if j < k then j + 1 else j] == b;
      }
    }
    forall i, j | 0 <= i < j < |order'|
      ensures stamp[order[k] := clock][order'[i]] > stamp[order[k] := clock][order'[j]]
    {
      assert order'[j] == order[if j - 1 < k then j - 1 else j];
      if i > 0 { assert order'[i] == order[if i - 1 < k then i - 1 else i]; }
    }
  }

  lemma OnList<D>(bufs: seq<Buf<D>>, order: seq<nat>, stamp: seq<nat>, clock: nat, b: nat)
    requires Linked(bufs, order) && Recency(order, stamp, clock) && b < NBUF
    ensures b in order && |bufs| == NBUF + 1 && |stamp| == NBUF && forall i, j :: 0 <= i < j < |order| ==> order[i] != order[j]
  {
  }

  lemma MovedAt(order: seq<nat>, k: nat)
    requires k < |order| && forall i, j :: 0 <= i < j < |order| ==> order[i] != order[j]
    ensures order[k] !in Without(order, k)
    ensures forall i :: 0 < i < |order| ==> ([order[k]] + Without(order, k))[i] == order[if i - 1 < k then i - 1 else i]
  {
  }

  function Unused<D>(zero: D): Buf<D> {
    Buf(false, false, 0, 0, NOBODY, 0, HEAD, HEAD, zero)
  }

  lemma BootRecency(order: seq<nat>)
    requires |order| == NBUF && forall i :: 0 <= i < NBUF ==> order[i] == NBUF - 1 - i
    ensures Recency(order, seq(NBUF, i => i), NBUF)
  {
    forall b: nat | b < NBUF
      ensures b in order
    {
      assert order[NBUF - 1 - b] == b;
    }
  }

  class BufferCache<D> {
    var bufs: seq<Buf<D>>
    var disk: seq<D>                   // memdisk
    ghost var order: seq<nat>        // buffers from head.next round to head.prev
    ghost var stamp: seq<nat>        // when each buffer last dropped to refcnt 0
    ghost var clock: nat
    ghost var users: seq<set<nat>>   // processes that reference each buffer
    ghost var flat: seq<D>             // last data written or logged, block by block
    ghost var trace: seq<seq<D>>       // the disk after each write so far

    ghost predicate Valid()
      reads this
    {
      && |bufs| == NBUF + 1 && |users| == NBUF && |disk| == |flat|
      && Linked(bufs, order) && Recency(order, stamp, clock) && Coherent(bufs, users, disk, flat)
    }

    /** binit (bio.c:38-56) on a machine that has just started: all buffers are
        zeroed, so they name block 0 of device 0. */
    constructor (image: seq<D>, zero: D)
      ensures Valid()
      ensures disk == image && flat == image && trace == []
      ensures forall i :: 0 <= i < NBUF ==> bufs[i].holder == NOBODY && users[i] == {} && !bufs[i].valid
    {
      disk, flat, trace := image, image, [];
      bufs := seq(NBUF + 1, i => Unused(zero));
      order, stamp, clock, users := [], seq(NBUF, i => i), NBUF, seq(NBUF, i => {});
      new;
      var b := 0;
      while b < NBUF
        invariant b <= NBUF
        invariant Linked(bufs, order) && disk == flat == image && trace == [] && clock == NBUF
        invariant stamp == seq(NBUF, i => i) && users == seq(NBUF, i => {})
        invariant |order| == b && forall i :: 0 <= i < b ==> order[i] == b - 1 - i
        invariant forall i :: 0 <= i < NBUF ==> SameButLinks(bufs[i], Unused(zero))
      {
        PushFront(b);
        b := b + 1;
      }
      BootRecency(order);
    }

    method PushFront(b: nat)
      requires Linked(bufs, order) && b < NBUF && b !in order
      modifies `bufs, `order
      ensures Linked(bufs, order) && order == [b] + old(order)
      ensures forall i :: 0 <= i <= NBUF ==> SameButLinks(bufs[i], old(bufs)[i])
    {
      bufs := bufs[b := bufs[b].(next := bufs[HEAD].next, prev := HEAD)];
      var first := bufs[HEAD].next;
      bufs := bufs[first := bufs[first].(prev := b)];
      bufs := bufs[HEAD := bufs[HEAD].(next := b)];
      PushLinked(old(bufs), order, b, bufs);
      order := [b] + order;
    }

    method Unlink(b: nat, ghost k: nat)
      requires Linked(bufs, order) && k < |order| && b == order[k]
      modifies `bufs, `order
      ensures Linked(bufs, order) && order == Without(old(order), k)
      ensures forall i :: 0 <= i <= NBUF ==> SameButLinks(bufs[i], old(bufs)[i])
    {
      hide Without;
      assert bufs[order[k]].next == At(order, k + 1) && bufs[order[k]].prev == At(order, k - 1);
      var n, p := bufs[b].next, bufs[b].prev;
      SplicedBy(bufs, b);
      bufs := bufs[n := bufs[n].(prev := p)];
      bufs := bufs[p := bufs[p].(next := n)];
      UnlinkLinked(old(bufs), order, k, bufs);
      order := Without(order, k);
    }

    /** The first loop of bget (bio.c:69-76). */
    method FindCached(dev: nat, blockno: nat) returns (b: nat)
      requires Linked(bufs, order) && Recency(order, stamp, clock)
      ensures b <= NBUF
      ensures b < NBUF ==> Caches(bufs[b], dev, blockno)
      ensures b == HEAD ==> forall i :: 0 <= i < NBUF ==> !Caches(bufs[i], dev, blockno)
    {
      b := bufs[HEAD].next;
      ghost var k := 0;
      while b != HEAD
        invariant 0 <= k <= NBUF && b == At(order, k)
        invariant forall i :: 0 <= i < k ==> !Caches(bufs[order[i]], dev, blockno)
        decreases NBUF - k
      {
        if bufs[b].dev == dev && bufs[b].blockno == blockno {
          return;
        }
        assert bufs[order[k]].next == At(order, k + 1);
        b := bufs[b].next;
        k := k + 1;
      }
      forall i | 0 <= i < NBUF
        ensures !Caches(bufs[i], dev, blockno)
      {
        var j := Position(order, i);
      }
    }

    /** The second loop of bget (bio.c:81-91): least recently used first. */
    method FindVictim() returns (b: nat)
      requires Linked(bufs, order) && Recency(order, stamp, clock)
      ensures b <= NBUF
      ensures b < NBUF ==> LeastRecentlyUsed(bufs, stamp, b)
      ensures b == HEAD ==> forall i :: 0 <= i < NBUF ==> !Eligible(bufs[i])
    {
      hide LeastRecentlyUsed;
      b := bufs[HEAD].prev;
      ghost var k := NBUF;
      while b != HEAD
        invariant 0 <= k <= NBUF && b == At(order, k - 1)
        invariant NoneBehind(bufs, order, k)
        decreases k
      {
        if bufs[b].refcnt == 0 && !bufs[b].dirty {
          OldestEligible(bufs, order, stamp, clock, k);
          return;
        }
        assert bufs[order[k - 1]].prev == At(order, k - 2);
        b := bufs[b].prev;
        k := k - 1;
      }
      NoneEligible(bufs, order, stamp, clock);
    }

    /** bget under bcache.lock (bio.c:61-93).  None is the panic "no buffers". */
    method Reference(pid: nat, dev: nat, blockno: nat) returns (r: Option<nat>)
      requires Valid()
      requires forall i :: 0 <= i < NBUF && Caches(bufs[i], dev, blockno) ==> pid !in users[i]
      modifies `bufs, `users
      ensures Valid()
      ensures r.Some? ==> r.value < NBUF && users == old(users)[r.value := old(users)[r.value] + {pid}]
      ensures r.Some? && Caches(old(bufs)[r.value], dev, blockno) ==>
                bufs == old(bufs)[r.value := old(bufs)[r.value].(refcnt := old(bufs)[r.value].refcnt + 1)]
      ensures r.Some? && !Caches(old(bufs)[r.value], dev, blockno) ==>
                && (forall i :: 0 <= i < NBUF ==> !Caches(old(bufs)[i], dev, blockno))
                && LeastRecentlyUsed(old(bufs), stamp, r.value)
                && bufs == old(bufs)[r.value := old(bufs)[r.value].(dev := dev, blockno := blockno, valid := false, dirty := false, refcnt := 1)]
      ensures r.None? ==> bufs == old(bufs) && users == old(users)
      ensures r.None? ==> NoBuffer(bufs, dev, blockno)
    {
      hide Linked;
      hide Recency;
      var b := FindCached(dev, blockno);
      if b != HEAD {
        Refresh(b, bufs[b].(refcnt := bufs[b].refcnt + 1), users[b] + {pid}, disk, flat);
        bufs := bufs[b := bufs[b].(refcnt := bufs[b].refcnt + 1)];
        users := users[b := users[b] + {pid}];
        return Some(b);
      }
      b := FindVictim();
      if b != HEAD {
        assert BufOk(bufs[b], users[b], flat);
        var x := bufs[b].(dev := dev, blockno := blockno, valid := false, dirty := false, refcnt := 1);
        Refresh(b, x, users[b] + {pid}, disk, flat);
        bufs := bufs[b := x];
        users := users[b := users[b] + {pid}];
        return Some(b);
      }
      return None;
    }

    /** acquiresleep on a buffer once its lock is free (sleeplock.c:22-32). */
    method AcquireBuf(pid: nat, b: nat)
      requires Valid() && b < NBUF && pid != NOBODY && pid in users[b] && bufs[b].holder == NOBODY
      modifies `bufs
      ensures Valid() && bufs == old(bufs)[b := old(bufs)[b].(holder := pid)]
    {
      Refresh(b, bufs[b].(holder := pid), users[b], disk, flat);
      bufs := bufs[b := bufs[b].(holder := pid)];
    }

    /** iderw on a buffer without B_DIRTY (memide.c:38-60); `ok` is false on its panics. */
    method DiskRead(pid: nat, b: nat) returns (ok: bool)
      requires Valid() && b < NBUF && !bufs[b].dirty
      modifies `bufs
      ensures Valid()
      ensures var x := old(bufs)[b];
              && (ok <==> x.holder == pid && !x.valid && x.dev == 1 && x.blockno < |disk|)
              && bufs == if ok then old(bufs)[b := x.(data := flat[x.blockno], valid := true)] else old(bufs)
    {
      var x := bufs[b];
      if x.holder != pid || x.valid || x.dev != 1 || x.blockno >= |disk| {
        return false;
      }
      assert BufOk(x, users[b], flat);
      NotPinned(b);
      Refresh(b, x.(data := disk[x.blockno], valid := true), users[b], disk, flat);
      bufs := bufs[b := x.(data := disk[x.blockno], valid := true)];
      return true;
    }

    /** iderw on a buffer with B_DIRTY (memide.c:38-60); `ok` is false on its panics. */
    method DiskWrite(pid: nat, b: nat) returns (ok: bool)
      requires Valid() && b < NBUF && bufs[b].dirty
      modifies `bufs, `disk, `flat, `trace
      ensures Valid() && (ok <==> old(bufs)[b].holder == pid)
      ensures ok ==>
                var x := old(bufs)[b];
                && x.blockno < |old(disk)|
                && disk == old(disk)[x.blockno := x.data] && flat == old(flat)[x.blockno := x.data]
                && trace == old(trace) + [disk] && bufs == old(bufs)[b := x.(dirty := false)]
      ensures !ok ==> bufs == old(bufs) && disk == old(disk) && flat == old(flat) && trace == old(trace)
    {
      var x := bufs[b];
      assert BufOk(x, users[b], flat);
      if x.holder != pid || x.dev != 1 || x.blockno >= |disk| {
        return false;
      }
      Refresh(b, x.(dirty := false), users[b], disk[x.blockno := x.data], flat[x.blockno := x.data]);
      bufs := bufs[b := x.(dirty := false)];
      disk, flat := disk[x.blockno := x.data], flat[x.blockno := x.data];
      trace := trace + [disk];
      return true;
    }

    /** All of bget (bio.c:61-93), for a caller that finds the sleep lock free. */
    method Bget(pid: nat, dev: nat, blockno: nat) returns (r: Option<nat>)
      requires Valid() && pid != NOBODY && Available(pid, dev, blockno)
      modifies `bufs, `users
      ensures Valid()
      ensures r.None? <==> NoBuffer(old(bufs), dev, blockno)
      ensures r.None? ==> bufs == old(bufs) && users == old(users)
      ensures r.Some? ==>
                && r.value < NBUF && bufs[r.value].holder == pid
                && (Caches(old(bufs)[r.value], dev, blockno) || Eligible(old(bufs)[r.value]))
                && pid !in old(users)[r.value] && bufs[r.value].dirty == old(bufs)[r.value].dirty
                && (bufs[r.value].dirty ==> old(bufs)[r.value].blockno == blockno)
                && Caches(bufs[r.value], dev, blockno)
                && !(bufs[r.value].dirty && !bufs[r.value].valid)
                && (bufs[r.value].valid ==> dev == 1 && blockno < |flat| == |disk| && bufs[r.value].data == flat[blockno])
                && OthersKept(old(bufs), bufs, r.value)
                && users == old(users)[r.value := old(users)[r.value] + {pid}]
    {
      hide Linked;
      hide Recency;
      r := Reference(pid, dev, blockno);
      if r.Some? {
        assert BufOk(bufs[r.value], users[r.value], flat);
        assert BufOk(old(bufs)[r.value], old(users)[r.value], flat);
        AcquireBuf(pid, r.value);
      }
    }

    /** bread (bio.c:96-106).  None is a panic: no buffers, or a block off the disk. */
    method Bread(pid: nat, dev: nat, blockno: nat) returns (r: Option<nat>)
      requires Valid() && pid != NOBODY && Available(pid, dev, blockno)
      modifies `bufs, `users
      ensures Valid()
      ensures r.None? <==> dev != 1 || blockno >= |disk| || NoBuffer(old(bufs), dev, blockno)
      ensures NoBuffer(old(bufs), dev, blockno) ==> bufs == old(bufs) && users == old(users)
      ensures r.Some? ==>
                && r.value < NBUF && pid !in old(users)[r.value] && bufs[r.value].dirty == old(bufs)[r.value].dirty
                && (Caches(old(bufs)[r.value], dev, blockno) || Eligible(old(bufs)[r.value]))
      ensures r.Some? ==> Pins(bufs, NBUF) == Pins(old(bufs), NBUF)
      ensures r.Some? ==>
                && blockno < |disk|
                && Holds(pid, r.value) && Caches(bufs[r.value], dev, blockno)
                && bufs[r.value].data == flat[blockno]
                && OthersKept(old(bufs), bufs, r.value)
                && users == old(users)[r.value := old(users)[r.value] + {pid}]
    {
      hide Linked;
      hide Recency;
      hide Coherent;
      r := Bget(pid, dev, blockno);
      if r.Some? && !bufs[r.value].valid {
        var ok := DiskRead(pid, r.value);
        if !ok {
          return None;
        }
      }
      if r.Some? {
        PinsSame(old(bufs), bufs);
      }
    }

    /** The sleep lock of the buffer for this block, if there is one, is free and
        the process does not use it already. */
    ghost predicate Available(pid: nat, dev: nat, blockno: nat)
      reads this
    {
      |bufs| == NBUF + 1 && |users| == NBUF &&
      forall i :: 0 <= i < NBUF && Caches(bufs[i], dev, blockno) ==> pid !in users[i] && bufs[i].holder == NOBODY
    }

    ghost predicate Holds(pid: nat, b: nat)
      reads this
    {
      b < NBUF < |bufs| && bufs[b].holder == pid && bufs[b].valid
    }

    /** memmove into the data of a held buffer. */
    method SetData(pid: nat, b: nat, data: D)
      requires Valid() && pid != NOBODY && Holds(pid, b)
      modifies `bufs
      ensures Valid() && bufs == old(bufs)[b := old(bufs)[b].(data := data)]
    {
      assert BufOk(bufs[b], users[b], flat);
      Refresh(b, bufs[b].(data := data), users[b], disk, flat);
      bufs := bufs[b := bufs[b].(data := data)];
    }

    /** bwrite (bio.c:109-116); panics unless the caller holds the lock. */
    method Bwrite(pid: nat, b: nat) returns (ok: bool)
      requires Valid() && pid != NOBODY && b < NBUF && bufs[b].valid
      modifies `bufs, `disk, `flat, `trace
      ensures Valid() && (ok <==> old(bufs)[b].holder == pid)
      ensures ok ==>
                var x := old(bufs)[b];
                && x.blockno < |old(disk)|
                && disk == old(disk)[x.blockno := x.data] && flat == old(flat)[x.blockno := x.data]
                && trace == old(trace) + [disk] && bufs == old(bufs)[b := x.(dirty := false)]
      ensures !ok ==> bufs == old(bufs) && disk == old(disk) && flat == old(flat) && trace == old(trace)
    {
      if bufs[b].holder != pid {
        return false;
      }
      assert BufOk(bufs[b], users[b], flat);
      Refresh(b, bufs[b].(dirty := true), users[b], disk, flat);
      bufs := bufs[b := bufs[b].(dirty := true)];
      ok := DiskWrite(pid, b);
    }

    /** The end of log_write (log.c:231): the new data is what readers must see,
        and the buffer is pinned. */
    method MarkDirty(pid: nat, b: nat)
      requires Valid() && pid != NOBODY && Holds(pid, b)
      modifies `bufs, `flat
      ensures Valid() && bufs == old(bufs)[b := old(bufs)[b].(dirty := true)]
      ensures bufs[b].blockno < |flat| && flat == old(flat)[bufs[b].blockno := bufs[b].data]
    {
      var x := bufs[b];
      assert BufOk(x, users[b], flat);
      Refresh(b, x.(dirty := true), users[b], disk, flat[x.blockno := x.data]);
      bufs := bufs[b := x.(dirty := true)];
      flat := flat[x.blockno := x.data];
    }

    /** The releasesleep of brelse (bio.c:123-126).  The caller has written or
        logged its changes, so the data is what readers must see. */
    method ReleaseBuf(pid: nat, b: nat) returns (ok: bool)
      requires Valid() && pid != NOBODY && b < NBUF
      requires bufs[b].holder == pid && bufs[b].valid ==> bufs[b].data == flat[bufs[b].blockno]
      modifies `bufs
      ensures Valid() && (ok <==> old(bufs)[b].holder == pid)
      ensures bufs == if ok then old(bufs)[b := old(bufs)[b].(holder := NOBODY)] else old(bufs)
    {
      if bufs[b].holder != pid {
        return false;
      }
      assert BufOk(bufs[b], users[b], flat);
      Refresh(b, bufs[b].(holder := NOBODY), users[b], disk, flat);
      bufs := bufs[b := bufs[b].(holder := NOBODY)];
      return true;
    }

    /** The rest of brelse (bio.c:128-140): the last user moves the buffer to the
        front of the list. */
    method Drop(pid: nat, b: nat)
      requires Valid() && b < NBUF && pid in users[b] && bufs[b].holder != pid
      modifies `bufs, `users, `order, `stamp, `clock
      ensures Valid()
      ensures users == old(users)[b := old(users)[b] - {pid}]
      ensures forall i :: 0 <= i < NBUF ==> SameButLinks(bufs[i], if i == b then old(bufs)[b].(refcnt := old(bufs)[b].refcnt - 1) else old(bufs)[i])
      ensures |users[b]| > 0 ==> order == old(order) && stamp == old(stamp)
      ensures |users[b]| == 0 ==> order == [b] + Without(old(order), Position(old(order), b))
      ensures |users[b]| == 0 ==> stamp == old(stamp)[b := old(clock)] && clock > old(clock)
    {
      hide Linked;
      hide Recency;
      hide Without;
      assert BufOk(bufs[b], users[b], flat);
      Refresh(b, bufs[b].(refcnt := bufs[b].refcnt - 1), users[b] - {pid}, disk, flat);
      bufs := bufs[b := bufs[b].(refcnt := bufs[b].refcnt - 1)];
      users := users[b := users[b] - {pid}];
      if bufs[b].refcnt == 0 {
        MoveToFront(b);
      }
    }

    /** brelse (bio.c:121-141) without interference between its two halves. */
    method Brelse(pid: nat, b: nat) returns (ok: bool)
      requires Valid() && pid != NOBODY && b < NBUF && pid in users[b]
      requires Holds(pid, b) ==> bufs[b].data == flat[bufs[b].blockno]
      modifies `bufs, `users, `order, `stamp, `clock
      ensures Valid() && (ok <==> old(bufs)[b].holder == pid)
      ensures ok ==> users == old(users)[b := old(users)[b] - {pid}]
      ensures ok ==> forall i :: 0 <= i < NBUF ==>
                SameButLinks(bufs[i], if i == b then old(bufs)[b].(holder := NOBODY, refcnt := old(bufs)[b].refcnt - 1) else old(bufs)[i])
    {
      hide Linked;
      hide Recency;
      ok := ReleaseBuf(pid, b);
      if ok {
        Drop(pid, b);
      }
    }

    method MoveToFront(b: nat)
      requires Valid() && b < NBUF
      modifies `bufs, `order, `stamp, `clock
      ensures Valid()
      ensures forall i :: 0 <= i < NBUF ==> SameButLinks(bufs[i], old(bufs)[i])
      ensures order == [b] + Without(old(order), Position(old(order), b))
      ensures stamp == old(stamp)[b := old(clock)] && clock > old(clock)
    {
      hide Linked;
      hide Recency;
      hide Coherent;
      hide Without;
      OnList(bufs, order, stamp, clock, b);
      ghost var k := Position(order, b);
      RecencyMoved(order, k, stamp, clock);
      Unlink(b, k);
      PushFront(b);
      CoherentLinks(old(bufs), bufs, users, disk, flat);
      stamp, clock := stamp[b := clock], clock + 1;
    }

    /** Replacing one buffer's contents, but not its links, keeps the cache valid. */
    lemma Refresh(b: nat, x: Buf<D>, u: set<nat>, disk': seq<D>, flat': seq<D>)
      requires Valid() && b < NBUF && x.prev == bufs[b].prev && x.next == bufs[b].next
      requires Caches(x, bufs[b].dev, bufs[b].blockno) || (forall i :: 0 <= i < NBUF ==> !Caches(bufs[i], x.dev, x.blockno))
      requires BufOk(bufs[b], users[b], flat) ==> BufOk(x, u, flat')
      requires |disk'| == |flat'| == |disk|
      requires forall n :: 0 <= n < |disk| && !(bufs[b].valid && n == bufs[b].blockno) ==> disk'[n] == disk[n] && flat'[n] == flat[n]
      requires bufs[b].valid && bufs[b].blockno < |disk| ==>
                 || (x.dirty && x.blockno == bufs[b].blockno)
                 || disk'[bufs[b].blockno] == flat'[bufs[b].blockno]
                 || (!bufs[b].dirty && disk' == disk && flat' == flat)
      ensures Linked(bufs[b := x], order) && Coherent(bufs[b := x], users[b := u], disk', flat')
    {
      assert BufOk(bufs[b], users[b], flat);
      if bufs[b].valid && !bufs[b].dirty {
        NotPinned(b);
      }
      CoherentUpdate(bufs, users, disk, flat, b, x, u, disk', flat');
    }

    /** The block of a clean buffer is not pinned anywhere, so the disk has its content. */
    lemma NotPinned(b: nat)
      requires Valid() && b < NBUF && bufs[b].dev == 1 && bufs[b].blockno < |disk| && !bufs[b].dirty
      ensures disk[bufs[b].blockno] == flat[bufs[b].blockno]
    {
    }
  }
}

/** The user-level storage allocator of umalloc.c (Kernighan and Ritchie, The C
    Programming Language, 2nd ed., section 8.7).

    Addresses count Header units of 8 bytes, so that C's pointer arithmetic on
    Header* is addition.  `mem` holds the headers; everything between them is the
    user's. */
module Heap {
  import opened Sequences
  import opened Options

  const UNIT := 8                 // sizeof(Header)
  const MIN_CORE := 4096
  const UINT := 0x1_0000_0000

  datatype Header = Header(ptr: int, size: int)

  type Memory = map<int, Header>

  /** The header at an address. */
  function At(mem: Memory, a: int): Header {
    if a in mem then mem[a] else Header(0, 0)
  }

  /** malloc's size computation in 32-bit arithmetic (umalloc.c:69). */
  function Units(nbytes: nat): nat {
    (nbytes + UNIT - 1) % UINT / UNIT + 1
  }

  /** The block holds the request exactly when the computation does not wrap, and then with less
      than a unit to spare. */
  lemma PayloadHoldsRequest(nbytes: nat)
    requires nbytes < UINT
    ensures (Units(nbytes) - 1) * UNIT >= nbytes <==> nbytes + UNIT - 1 < UINT
    ensures (Units(nbytes) - 1) * UNIT < nbytes + UNIT
  {
  }

  // ---------- the free list and the tiling ----------

  function Next(ring: seq<int>, i: nat): int
    requires i < |ring|
  {
    ring[if i + 1 == |ring| then 0 else i + 1]
  }

  /** `ring` is the circular free list from `base` on: addresses ascend, so the
      list wraps once, and no two free blocks touch. */
  ghost predicate FreeList(mem: Memory, ring: seq<int>, base: int) {
    && |ring| > 0 && ring[0] == base && At(mem, base).size == 0
    && Ascending(ring) && Links(mem, ring) && Gaps(mem, ring)
  }

  ghost predicate Ascending(ring: seq<int>) {
    forall i, j :: 0 <= i < j < |ring| ==> ring[i] < ring[j]
  }

  ghost predicate Links(mem: Memory, ring: seq<int>) {
    forall i {:trigger At(mem, ring[i]).ptr} :: 0 <= i < |ring| ==> At(mem, ring[i]).ptr == Next(ring, i)
  }

  ghost predicate Gaps(mem: Memory, ring: seq<int>) {
    && (forall i :: 0 < i < |ring| ==> At(mem, ring[i]).size >= 1)
    && (forall i, j :: 0 <= i < j < |ring| ==> ring[i] + At(mem, ring[i]).size < ring[j])
  }

  predicate IsBlock(ring: seq<int>, alloc: map<int, int>, base: int, b: int) {
    b in alloc || (b in ring && b != base)
  }

  /** `cover` maps each unit obtained from sbrk to the block it is in: free and
      allocated blocks tile that memory, without gap or overlap. */
  ghost predicate Tiled(mem: Memory, ring: seq<int>, alloc: map<int, int>, cover: map<int, int>, base: int) {
    && (forall a :: a in alloc ==> At(mem, a).size == alloc[a] >= 1 && a !in ring && a > base)
    && (forall b, u :: IsBlock(ring, alloc, base, b) && b <= u < b + At(mem, b).size ==> u in cover && cover[u] == b)
    && (forall u :: u in cover ==> IsBlock(ring, alloc, base, cover[u]) && cover[u] <= u < cover[u] + At(mem, cover[u]).size)
  }

  ghost predicate HeapOk(mem: Memory, ring: seq<int>, alloc: map<int, int>, cover: map<int, int>, base: int) {
    FreeList(mem, ring, base) && Tiled(mem, ring, alloc, cover, base)
  }

  /** Blocks do not overlap. */
  lemma Apart(mem: Memory, ring: seq<int>, alloc: map<int, int>, cover: map<int, int>, base: int, b: int, c: int)
    requires HeapOk(mem, ring, alloc, cover, base)
    requires IsBlock(ring, alloc, base, b) && IsBlock(ring, alloc, base, c) && b < c
    ensures b + At(mem, b).size <= c
  {
    OwnUnit(mem, ring, alloc, cover, base, c);
    hide FreeList;
    hide At;
  }

  lemma AllocFacts(mem: Memory, ring: seq<int>, alloc: map<int, int>, cover: map<int, int>, base: int, a: int)
    requires Tiled(mem, ring, alloc, cover, base) && a in alloc
    ensures At(mem, a).size == alloc[a] >= 1 && a !in ring && a > base
  {
  }

  lemma FreeFacts(mem: Memory, ring: seq<int>, base: int, k: nat)
    requires FreeList(mem, ring, base) && k < |ring|
    ensures At(mem, ring[k]).ptr == Next(ring, k) >= base && ring[k] >= base
    ensures k > 0 ==> ring[k] > base && At(mem, ring[k]).size >= 1
    ensures k == 0 ==> ring[k] == base && At(mem, base).size == 0
    ensures k + 1 < |ring| ==> ring[k] + At(mem, ring[k]).size < ring[k + 1]
  {
  }

  /** `t` is the free block after which address `bp` belongs. */
  ghost predicate Before(ring: seq<int>, t: nat, bp: int) {
    t < |ring| && ring[t] < bp && (t + 1 < |ring| ==> bp < ring[t + 1])
  }

  // ---------- list surgery ----------

  function With(ring: seq<int>, t: nat, bp: int): (r: seq<int>)
    requires t < |ring|
    ensures |r| == |ring| + 1
  {
    ring[..t + 1] + [bp] + ring[t + 1..]
  }

  lemma WithoutAt(ring: seq<int>, k: nat, i: nat)
    requires 0 < k < |ring| && i < |ring| - 1
    ensures Without(ring, k)[i] == ring[if i < k then i else i + 1]
    ensures Next(Without(ring, k), i) == if i == k - 1 then Next(ring, k) else Next(ring, if i < k then i else i + 1)
  {
  }

  lemma WithAt(ring: seq<int>, t: nat, bp: int, i: nat)
    requires t < |ring| && i <= |ring|
    ensures With(ring, t, bp)[i] == if i == t + 1 then bp else ring[if i <= t then i else i - 1]
    ensures Next(With(ring, t, bp), i) == if i == t then bp else if i == t + 1 then Next(ring, t) else Next(ring, if i < t then i else i - 1)
  {
  }

  lemma AscendingWithout(ring: seq<int>, k: nat)
    requires Ascending(ring) && 0 < k < |ring|
    ensures Ascending(Without(ring, k))
  {
  }

  lemma AscendingWith(ring: seq<int>, t: nat, bp: int)
    requires Ascending(ring) && Before(ring, t, bp)
    ensures Ascending(With(ring, t, bp))
  {
  }

  lemma LinksWithout(mem: Memory, mem': Memory, ring: seq<int>, k: nat)
    requires Links(mem, ring) && 0 < k < |ring| && At(mem', ring[k - 1]).ptr == Next(ring, k)
    requires forall i :: 0 <= i < |ring| && i != k && i != k - 1 ==> At(mem', ring[i]).ptr == At(mem, ring[i]).ptr
    ensures Links(mem', Without(ring, k))
  {
    hide Next;
    hide At;
    hide Without;
    forall i {:trigger At(mem', Without(ring, k)[i]).ptr} | 0 <= i < |Without(ring, k)|
      ensures At(mem', Without(ring, k)[i]).ptr == Next(Without(ring, k), i)
    {
      WithoutAt(ring, k, i);
      assert At(mem, ring[if i < k then i else i + 1]).ptr == Next(ring, if i < k then i else i + 1);
    }
  }

  lemma LinksWith(mem: Memory, mem': Memory, ring: seq<int>, t: nat, bp: int)
    requires Links(mem, ring) && t < |ring| && At(mem', ring[t]).ptr == bp && At(mem', bp).ptr == Next(ring, t)
    requires forall i :: 0 <= i < |ring| && i != t ==> At(mem', ring[i]).ptr == At(mem, ring[i]).ptr
    ensures Links(mem', With(ring, t, bp))
  {
    hide Next;
    hide At;
    hide With;
    forall i {:trigger At(mem', With(ring, t, bp)[i]).ptr} | 0 <= i < |With(ring, t, bp)|
      ensures At(mem', With(ring, t, bp)[i]).ptr == Next(With(ring, t, bp), i)
    {
      WithAt(ring, t, bp, i);
      if i != t + 1 {
        assert At(mem, ring[if i <= t then i else i - 1]).ptr == Next(ring, if i <= t then i else i - 1);
      }
    }
  }

  lemma GapsWithout(mem: Memory, mem': Memory, ring: seq<int>, k: nat)
    requires Gaps(mem, ring) && 0 < k < |ring|
    requires forall i :: 0 <= i < |ring| && i != k ==> At(mem', ring[i]).size == At(mem, ring[i]).size
    ensures Gaps(mem', Without(ring, k))
  {
    hide At;
  }

  lemma GapsWith(mem: Memory, mem': Memory, ring: seq<int>, t: nat, bp: int)
    requires Gaps(mem, ring) && Ascending(ring) && Before(ring, t, bp) && At(mem', bp).size >= 1
    requires forall i :: 0 <= i < |ring| ==> At(mem', ring[i]).size == At(mem, ring[i]).size
    requires ring[t] + At(mem, ring[t]).size < bp && (t + 1 < |ring| ==> bp + At(mem', bp).size < ring[t + 1])
    ensures Gaps(mem', With(ring, t, bp))
  {
    hide At;
    hide With;
    var ring' := With(ring, t, bp);
    forall i | 0 <= i < |ring'|
      ensures i > 0 ==> At(mem', ring'[i]).size >= 1
      ensures forall j :: i < j < |ring'| ==> ring'[i] + At(mem', ring'[i]).size < ring'[j]
    {
      WithAt(ring, t, bp, i);
      forall j | i < j < |ring'|
        ensures ring'[i] + At(mem', ring'[i]).size < ring'[j]
      {
        WithAt(ring, t, bp, j);
      }
    }
  }

  /** Taking free block `k` off the list by linking past it. */
  lemma RemoveFree(mem: Memory, mem': Memory, ring: seq<int>, base: int, k: nat)
    requires FreeList(mem, ring, base) && 0 < k < |ring|
    requires forall i :: 0 <= i < |ring| && i != k ==> At(mem', ring[i]).size == At(mem, ring[i]).size
    requires forall i :: 0 <= i < |ring| && i != k && i != k - 1 ==> At(mem', ring[i]).ptr == At(mem, ring[i]).ptr
    requires At(mem', ring[k - 1]).ptr == Next(ring, k)
    ensures FreeList(mem', Without(ring, k), base)
  {
    hide Ascending;
    hide Links;
    hide Gaps;
    hide Next;
    AscendingWithout(ring, k);
    LinksWithout(mem, mem', ring, k);
    GapsWithout(mem, mem', ring, k);
  }

  /** Putting `bp` on the list behind free block `t`, touching neither neighbour. */
  lemma InsertFree(mem: Memory, mem': Memory, ring: seq<int>, base: int, t: nat, bp: int)
    requires FreeList(mem, ring, base) && Before(ring, t, bp)
    requires forall i :: 0 <= i < |ring| ==> At(mem', ring[i]).size == At(mem, ring[i]).size
    requires forall i :: 0 <= i < |ring| && i != t ==> At(mem', ring[i]).ptr == At(mem, ring[i]).ptr
    requires At(mem', ring[t]).ptr == bp && At(mem', bp).ptr == Next(ring, t) && At(mem', bp).size >= 1
    requires ring[t] + At(mem, ring[t]).size < bp && (t + 1 < |ring| ==> bp + At(mem', bp).size < ring[t + 1])
    ensures FreeList(mem', With(ring, t, bp), base)
  {
    hide Ascending;
    hide Links;
    hide Gaps;
    hide Next;
    AscendingWith(ring, t, bp);
    LinksWith(mem, mem', ring, t, bp);
    GapsWith(mem, mem', ring, t, bp);
  }

  /** Growing or shrinking free block `t`, short of its neighbours. */
  lemma ResizeFree(mem: Memory, mem': Memory, ring: seq<int>, base: int, t: nat)
    requires FreeList(mem, ring, base) && 0 < t < |ring|
    requires forall i :: 0 <= i < |ring| ==> At(mem', ring[i]).ptr == At(mem, ring[i]).ptr
    requires forall i :: 0 <= i < |ring| && i != t ==> At(mem', ring[i]).size == At(mem, ring[i]).size
    requires 1 <= At(mem', ring[t]).size && (t + 1 < |ring| ==> ring[t] + At(mem', ring[t]).size < ring[t + 1])
    ensures FreeList(mem', ring, base)
  {
    hide Next;
    hide At;
  }

  // ---------- tiling ----------

  lemma UnitOf(mem: Memory, ring: seq<int>, alloc: map<int, int>, cover: map<int, int>, base: int, b: int, u: int)
    requires Tiled(mem, ring, alloc, cover, base) && IsBlock(ring, alloc, base, b) && b <= u < b + At(mem, b).size
    ensures u in cover && cover[u] == b
  {
  }

  lemma BlockOf(mem: Memory, ring: seq<int>, alloc: map<int, int>, cover: map<int, int>, base: int, u: int)
    requires Tiled(mem, ring, alloc, cover, base) && u in cover
    ensures IsBlock(ring, alloc, base, cover[u]) && cover[u] <= u < cover[u] + At(mem, cover[u]).size
  {
  }

  lemma AllocOf(mem: Memory, ring: seq<int>, alloc: map<int, int>, cover: map<int, int>, base: int, x: int)
    requires Tiled(mem, ring, alloc, cover, base) && x in alloc
    ensures At(mem, x).size == alloc[x] >= 1 && x !in ring && x > base
  {
  }

  lemma AreTiled(mem: Memory, ring: seq<int>, alloc: map<int, int>, cover: map<int, int>, base: int)
    requires forall x :: x in alloc ==> At(mem, x).size == alloc[x] >= 1 && x !in ring && x > base
    requires forall b, u :: IsBlock(ring, alloc, base, b) && b <= u < b + At(mem, b).size ==> u in cover && cover[u] == b
    requires forall u :: u in cover ==> IsBlock(ring, alloc, base, cover[u]) && cover[u] <= u < cover[u] + At(mem, cover[u]).size
    ensures Tiled(mem, ring, alloc, cover, base)
  {
  }

  /** Units of block `c` now belong to block `b`, which ends where `c` starts. */
  function Joined(cover: map<int, int>, b: int, c: int): map<int, int> {
    map u | u in cover :: if cover[u] == c then b else cover[u]
  }

  lemma TiledJoin(mem: Memory, mem': Memory, ring: seq<int>, ring': seq<int>, alloc: map<int, int>, alloc': map<int, int>,
                  cover: map<int, int>, base: int, b: int, c: int)
    requires Tiled(mem, ring, alloc, cover, base)
    requires IsBlock(ring, alloc, base, b) && IsBlock(ring, alloc, base, c) && b + At(mem, b).size == c
    requires At(mem', b).size == At(mem, b).size + At(mem, c).size && At(mem, c).size >= 1 && At(mem, b).size >= 1
    requires forall x :: IsBlock(ring, alloc, base, x) && x != b && x != c ==> At(mem', x).size == At(mem, x).size
    requires forall x :: IsBlock(ring', alloc', base, x) <==> IsBlock(ring, alloc, base, x) && x != c
    requires forall a :: a in alloc' ==> At(mem', a).size == alloc'[a] >= 1 && a !in ring' && a > base
    ensures Tiled(mem', ring', alloc', Joined(cover, b, c), base)
  {
    hide IsBlock;
    hide At;
  }

  /** Block `b` is cut: it keeps its lower part, and `c` is the rest. */
  function Cut(cover: map<int, int>, b: int, c: int): map<int, int> {
    map u | u in cover :: if cover[u] == b && u >= c then c else cover[u]
  }

  lemma TiledCut(mem: Memory, mem': Memory, ring: seq<int>, alloc: map<int, int>, alloc': map<int, int>,
                 cover: map<int, int>, base: int, b: int, c: int)
    requires Tiled(mem, ring, alloc, cover, base)
    requires IsBlock(ring, alloc, base, b) && b < c < b + At(mem, b).size
    requires At(mem', b).size == c - b && At(mem', c).size == b + At(mem, b).size - c
    requires forall x :: IsBlock(ring, alloc, base, x) && x != b ==> At(mem', x).size == At(mem, x).size
    requires forall x :: IsBlock(ring, alloc', base, x) <==> IsBlock(ring, alloc, base, x) || x == c
    requires forall a :: a in alloc' ==> At(mem', a).size == alloc'[a] >= 1 && a !in ring && a > base
    ensures Tiled(mem', ring, alloc', Cut(cover, b, c), base)
  {
    hide IsBlock;
    hide At;
    hide Cut;
    CutUnits(mem, mem', ring, alloc, alloc', cover, base, b, c);
    CutBlocks(mem, mem', ring, alloc, alloc', cover, base, b, c);
  }

  lemma CutUnits(mem: Memory, mem': Memory, ring: seq<int>, alloc: map<int, int>, alloc': map<int, int>,
                 cover: map<int, int>, base: int, b: int, c: int)
    requires Tiled(mem, ring, alloc, cover, base)
    requires IsBlock(ring, alloc, base, b) && b < c < b + At(mem, b).size
    requires At(mem', b).size == c - b && At(mem', c).size == b + At(mem, b).size - c
    requires forall x :: IsBlock(ring, alloc, base, x) && x != b ==> At(mem', x).size == At(mem, x).size
    requires forall x :: IsBlock(ring, alloc', base, x) <==> IsBlock(ring, alloc, base, x) || x == c
    ensures forall x, u :: IsBlock(ring, alloc', base, x) && x <= u < x + At(mem', x).size ==> u in Cut(cover, b, c) && Cut(cover, b, c)[u] == x
  {
    hide IsBlock;
    hide At;
    hide Tiled;
    UnitOf(mem, ring, alloc, cover, base, b, c);
    forall x, u | IsBlock(ring, alloc', base, x) && x <= u < x + At(mem', x).size
      ensures u in Cut(cover, b, c) && Cut(cover, b, c)[u] == x
    {
      if x == c {
        UnitOf(mem, ring, alloc, cover, base, b, u);
      } else {
        UnitOf(mem, ring, alloc, cover, base, x, u);
      }
    }
  }

  lemma CutBlocks(mem: Memory, mem': Memory, ring: seq<int>, alloc: map<int, int>, alloc': map<int, int>,
                  cover: map<int, int>, base: int, b: int, c: int)
    requires Tiled(mem, ring, alloc, cover, base)
    requires IsBlock(ring, alloc, base, b) && b < c < b + At(mem, b).size
    requires At(mem', b).size == c - b && At(mem', c).size == b + At(mem, b).size - c
    requires forall x :: IsBlock(ring, alloc, base, x) && x != b ==> At(mem', x).size == At(mem, x).size
    requires forall x :: IsBlock(ring, alloc', base, x) <==> IsBlock(ring, alloc, base, x) || x == c
    ensures forall u :: u in Cut(cover, b, c) ==>
              var x := Cut(cover, b, c)[u]; IsBlock(ring, alloc', base, x) && x <= u < x + At(mem', x).size
  {
    hide IsBlock;
    hide At;
    hide Tiled;
    forall u | u in Cut(cover, b, c)
      ensures var x := Cut(cover, b, c)[u]; IsBlock(ring, alloc', base, x) && x <= u < x + At(mem', x).size
    {
      BlockOf(mem, ring, alloc, cover, base, u);
    }
  }

  /** A block changes hands between the list and the user; nothing moves. */
  lemma TiledRetag(mem: Memory, mem': Memory, ring: seq<int>, ring': seq<int>, alloc: map<int, int>, alloc': map<int, int>,
                   cover: map<int, int>, base: int)
    requires Tiled(mem, ring, alloc, cover, base)
    requires forall x :: IsBlock(ring, alloc, base, x) ==> At(mem', x).size == At(mem, x).size
    requires forall x :: IsBlock(ring', alloc', base, x) <==> IsBlock(ring, alloc, base, x)
    requires forall a :: a in alloc' ==> At(mem', a).size == alloc'[a] >= 1 && a !in ring' && a > base
    ensures Tiled(mem', ring', alloc', cover, base)
  {
    hide IsBlock;
    hide At;
  }

  // ---------- the steps of free (umalloc.c:33-42) ----------

  lemma WithoutMembers(ring: seq<int>, k: nat, x: int)
    requires Ascending(ring) && 0 < k < |ring|
    ensures x in Without(ring, k) <==> x in ring && x != ring[k]
  {
  }

  lemma WithMembers(ring: seq<int>, t: nat, bp: int, x: int)
    requires t < |ring|
    ensures x in With(ring, t, bp) <==> x in ring || x == bp
  {
  }

  /** Memory once block `bp` has taken in free block `t + 1`, which is unlinked. */
  function AbsorbMem(mem: Memory, ring: seq<int>, bp: int, t: nat): Memory
    requires t + 1 < |ring|
  {
    mem[bp := Header(Next(ring, t + 1), At(mem, bp).size + At(mem, ring[t + 1]).size)]
       [ring[t] := Header(Next(ring, t + 1), At(mem, ring[t]).size)]
  }

  lemma AbsorbList(mem: Memory, ring: seq<int>, base: int, bp: int, t: nat)
    requires FreeList(mem, ring, base) && Before(ring, t, bp) && t + 1 < |ring| && bp + At(mem, bp).size == ring[t + 1]
    ensures FreeList(AbsorbMem(mem, ring, bp, t), Without(ring, t + 1), base)
    ensures Before(Without(ring, t + 1), t, bp)
    ensures Next(Without(ring, t + 1), t) == Next(ring, t + 1) && Without(ring, t + 1)[t] == ring[t]
    ensures t + 2 < |ring| ==> bp + At(mem, bp).size + At(mem, ring[t + 1]).size < Without(ring, t + 1)[t + 1]
  {
    hide Next;
    hide Links;
    hide Without;
    WithoutAt(ring, t + 1, t);
    if t + 2 < |ring| {
      WithoutAt(ring, t + 1, t + 1);
    }
    RemoveFree(mem, AbsorbMem(mem, ring, bp, t), ring, base, t + 1);
  }

  lemma AbsorbTile(mem: Memory, mem': Memory, ring: seq<int>, ring': seq<int>, alloc: map<int, int>, cover: map<int, int>, base: int, bp: int, q: int)
    requires Tiled(mem, ring, alloc, cover, base) && bp in alloc && q in ring && q > base
    requires bp + At(mem, bp).size == q && At(mem, q).size >= 1 && At(mem', bp).size == At(mem, bp).size + At(mem, q).size
    requires forall x :: x != bp ==> At(mem', x).size == At(mem, x).size
    requires forall x :: x in ring' <==> x in ring && x != q
    ensures Tiled(mem', ring', alloc[bp := At(mem', bp).size], Joined(cover, bp, q), base)
  {
    hide At;
    hide Joined;
    var alloc' := alloc[bp := At(mem', bp).size];
    assert IsBlock(ring, alloc, base, bp) && IsBlock(ring, alloc, base, q);
    assert forall x :: IsBlock(ring', alloc', base, x) <==> IsBlock(ring, alloc, base, x) && x != q;
    TiledJoin(mem, mem', ring, ring', alloc, alloc', cover, base, bp, q);
  }

  /** The allocated block `bp` takes in the free block right above it, which
      leaves the list. */
  lemma AbsorbNext(mem: Memory, ring: seq<int>, alloc: map<int, int>, cover: map<int, int>, base: int, bp: int, t: nat)
    requires HeapOk(mem, ring, alloc, cover, base) && bp in alloc && Before(ring, t, bp)
    requires t + 1 < |ring| && bp + At(mem, bp).size == ring[t + 1]
    ensures HeapOk(AbsorbMem(mem, ring, bp, t), Without(ring, t + 1), alloc[bp := At(mem, bp).size + At(mem, ring[t + 1]).size],
                   Joined(cover, bp, ring[t + 1]), base)
  {
    hide Tiled;
    hide Next;
    var q := ring[t + 1];
    forall x
      ensures x in Without(ring, t + 1) <==> x in ring && x != q
    {
      WithoutMembers(ring, t + 1, x);
    }
    assert q > base && At(mem, q).size >= 1;
    AbsorbList(mem, ring, base, bp, t);
    hide FreeList;
    hide Without;
    AbsorbTile(mem, AbsorbMem(mem, ring, bp, t), ring, Without(ring, t + 1), alloc, cover, base, bp, q);
  }

  /** Block `bp`, touching neither neighbour, goes on the list. */
  lemma LinkIn(mem: Memory, ring: seq<int>, alloc: map<int, int>, cover: map<int, int>, base: int, bp: int, t: nat)
    requires HeapOk(mem, ring, alloc, cover, base) && bp in alloc && Before(ring, t, bp)
    requires ring[t] + At(mem, ring[t]).size < bp && (t + 1 < |ring| ==> bp + At(mem, bp).size < ring[t + 1])
    ensures HeapOk(mem[bp := Header(Next(ring, t), At(mem, bp).size)][ring[t] := Header(bp, At(mem, ring[t]).size)],
                   With(ring, t, bp), alloc - {bp}, cover, base)
  {
    hide Next;
    hide With;
    var mem' := mem[bp := Header(Next(ring, t), At(mem, bp).size)][ring[t] := Header(bp, At(mem, ring[t]).size)];
    InsertFree(mem, mem', ring, base, t, bp);
    WithAt(ring, t, bp, 0);
    forall x
      ensures x in With(ring, t, bp) <==> x in ring || x == bp
    {
      WithMembers(ring, t, bp, x);
    }
    TiledRetag(mem, mem', ring, With(ring, t, bp), alloc, alloc - {bp}, cover, base);
  }

  /** Block `bp` joins the free block right below it. */
  lemma MergeDown(mem: Memory, ring: seq<int>, alloc: map<int, int>, cover: map<int, int>, base: int, bp: int, t: nat)
    requires HeapOk(mem, ring, alloc, cover, base) && bp in alloc && Before(ring, t, bp)
    requires ring[t] + At(mem, ring[t]).size == bp && (t + 1 < |ring| ==> bp + At(mem, bp).size < ring[t + 1])
    ensures HeapOk(mem[ring[t] := Header(Next(ring, t), At(mem, ring[t]).size + At(mem, bp).size)], ring, alloc - {bp}, Joined(cover, ring[t], bp), base)
  {
    hide Tiled;
    hide FreeList;
    hide Next;
    AllocFacts(mem, ring, alloc, cover, base, bp);
    FreeFacts(mem, ring, base, t);
    var p := ring[t];
    var mem' := mem[p := Header(Next(ring, t), At(mem, p).size + At(mem, bp).size)];
    MergeList(mem, mem', ring, base, t);
    MergeTile(mem, mem', ring, alloc, cover, base, p, bp);
  }

  lemma MergeTile(mem: Memory, mem': Memory, ring: seq<int>, alloc: map<int, int>, cover: map<int, int>, base: int, p: int, bp: int)
    requires Tiled(mem, ring, alloc, cover, base) && bp in alloc && p in ring && p > base
    requires p + At(mem, p).size == bp && At(mem, p).size >= 1 && At(mem', p).size == At(mem, p).size + At(mem, bp).size
    requires forall x :: x != p ==> At(mem', x).size == At(mem, x).size
    ensures Tiled(mem', ring, alloc - {bp}, Joined(cover, p, bp), base)
  {
    hide At;
    TiledJoin(mem, mem', ring, ring, alloc, alloc - {bp}, cover, base, p, bp);
  }

  lemma MergeList(mem: Memory, mem': Memory, ring: seq<int>, base: int, t: nat)
    requires FreeList(mem, ring, base) && 0 < t < |ring| && At(mem', ring[t]).size >= 1
    requires mem' == mem[ring[t] := Header(Next(ring, t), At(mem', ring[t]).size)]
    requires t + 1 < |ring| ==> ring[t] + At(mem', ring[t]).size < ring[t + 1]
    ensures FreeList(mem', ring, base)
  {
    hide Next;
    assert At(mem, ring[t]).ptr == Next(ring, t);
    hide Links;
    ResizeFree(mem, mem', ring, base, t);
  }

  /** An allocated block's link field means nothing. */
  lemma SetPtr(mem: Memory, ring: seq<int>, alloc: map<int, int>, cover: map<int, int>, base: int, bp: int, ptr: int)
    requires HeapOk(mem, ring, alloc, cover, base) && bp in alloc
    ensures HeapOk(mem[bp := Header(ptr, At(mem, bp).size)], ring, alloc, cover, base)
  {
    hide FreeList;
    hide Tiled;
    AllocFacts(mem, ring, alloc, cover, base, bp);
    var mem' := mem[bp := Header(ptr, At(mem, bp).size)];
    SameHeaders(mem, mem', ring, base);
    SameSizes(mem, mem', ring, alloc, cover, base);
  }

  lemma SameSizes(mem: Memory, mem': Memory, ring: seq<int>, alloc: map<int, int>, cover: map<int, int>, base: int)
    requires Tiled(mem, ring, alloc, cover, base) && forall x :: At(mem', x).size == At(mem, x).size
    ensures Tiled(mem', ring, alloc, cover, base)
  {
    hide At;
    hide IsBlock;
  }

  /** The free neighbours of an allocated block `bp` that belongs after `t`. */
  lemma Neighbours(mem: Memory, ring: seq<int>, alloc: map<int, int>, cover: map<int, int>, base: int, bp: int, t: nat)
    requires HeapOk(mem, ring, alloc, cover, base) && bp in alloc && Before(ring, t, bp)
    ensures ring[t] + At(mem, ring[t]).size <= bp
    ensures t + 1 < |ring| ==> bp + At(mem, bp).size <= ring[t + 1] && Next(ring, t) == ring[t + 1]
    ensures bp + At(mem, bp).size == Next(ring, t) ==> t + 1 < |ring| && ring[t + 1] == Next(ring, t)
  {
    hide FreeList;
    hide Tiled;
    AllocFacts(mem, ring, alloc, cover, base, bp);
    FreeFacts(mem, ring, base, t);
    FreeFacts(mem, ring, base, 0);
    if t > 0 {
      Apart(mem, ring, alloc, cover, base, ring[t], bp);
    }
    if t + 1 < |ring| {
      FreeFacts(mem, ring, base, t + 1);
      Apart(mem, ring, alloc, cover, base, bp, ring[t + 1]);
    }
  }

  // ---------- the steps of malloc (umalloc.c:75-83) ----------

  /** Free block `k` is handed out whole. */
  lemma TakeWhole(mem: Memory, ring: seq<int>, alloc: map<int, int>, cover: map<int, int>, base: int, k: nat)
    requires HeapOk(mem, ring, alloc, cover, base) && 0 < k < |ring|
    ensures HeapOk(mem[ring[k - 1] := Header(Next(ring, k), At(mem, ring[k - 1]).size)], Without(ring, k), alloc[ring[k] := At(mem, ring[k]).size], cover, base)
  {
    hide Tiled;
    hide Next;
    var mem' := mem[ring[k - 1] := Header(Next(ring, k), At(mem, ring[k - 1]).size)];
    forall x
      ensures x in Without(ring, k) <==> x in ring && x != ring[k]
    {
      WithoutMembers(ring, k, x);
    }
    assert ring[k] > base && At(mem, ring[k]).size >= 1;
    TakeList(mem, mem', ring, base, k);
    hide FreeList;
    hide Without;
    TakeTile(mem, mem', ring, Without(ring, k), alloc, cover, base, ring[k]);
  }

  lemma TakeList(mem: Memory, mem': Memory, ring: seq<int>, base: int, k: nat)
    requires FreeList(mem, ring, base) && 0 < k < |ring|
    requires mem' == mem[ring[k - 1] := Header(Next(ring, k), At(mem, ring[k - 1]).size)]
    ensures FreeList(mem', Without(ring, k), base)
  {
    hide Next;
    hide Links;
    RemoveFree(mem, mem', ring, base, k);
  }

  lemma TakeTile(mem: Memory, mem': Memory, ring: seq<int>, ring': seq<int>, alloc: map<int, int>, cover: map<int, int>, base: int, q: int)
    requires Tiled(mem, ring, alloc, cover, base) && q in ring && q > base && At(mem, q).size >= 1
    requires forall x :: At(mem', x).size == At(mem, x).size
    requires forall x :: x in ring' <==> x in ring && x != q
    ensures Tiled(mem', ring', alloc[q := At(mem, q).size], cover, base)
  {
  }

  /** Memory after the upper `n` units of free block `p` have been cut off. */
  function CutMem(mem: Memory, p: int, n: int): Memory {
    var c := p + At(mem, p).size - n;
    mem[p := Header(At(mem, p).ptr, At(mem, p).size - n)][c := Header(At(mem, c).ptr, n)]
  }

  /** The tail of free block `k` is handed out. */
  lemma TakeTail(mem: Memory, ring: seq<int>, alloc: map<int, int>, cover: map<int, int>, base: int, k: nat, n: int)
    requires HeapOk(mem, ring, alloc, cover, base) && 0 < k < |ring| && 1 <= n < At(mem, ring[k]).size
    ensures
      var c := ring[k] + At(mem, ring[k]).size - n;
      HeapOk(CutMem(mem, ring[k], n), ring, alloc[c := n], Cut(cover, ring[k], c), base)
  {
    hide Tiled;
    hide FreeList;
    hide Next;
    var p := ring[k];
    var c := p + At(mem, p).size - n;
    TailIsInside(mem, ring, alloc, cover, base, k, c);
    FreeFacts(mem, ring, base, k);
    CutList(mem, CutMem(mem, p, n), ring, base, k, n);
    CutTile(mem, CutMem(mem, p, n), ring, alloc, cover, base, p, c, n);
  }

  lemma TailIsInside(mem: Memory, ring: seq<int>, alloc: map<int, int>, cover: map<int, int>, base: int, k: nat, c: int)
    requires HeapOk(mem, ring, alloc, cover, base) && 0 < k < |ring| && ring[k] < c < ring[k] + At(mem, ring[k]).size
    ensures !IsBlock(ring, alloc, base, c) && c > base
  {
    hide Tiled;
    hide FreeList;
    FreeFacts(mem, ring, base, k);
    if IsBlock(ring, alloc, base, c) {
      Apart(mem, ring, alloc, cover, base, ring[k], c);
    }
  }

  lemma CutList(mem: Memory, mem': Memory, ring: seq<int>, base: int, k: nat, n: int)
    requires FreeList(mem, ring, base) && 0 < k < |ring| && 1 <= n < At(mem, ring[k]).size && mem' == CutMem(mem, ring[k], n)
    requires ring[k] + At(mem, ring[k]).size - n !in ring
    ensures FreeList(mem', ring, base)
  {
    hide Next;
    hide Links;
    ResizeFree(mem, mem', ring, base, k);
  }

  lemma CutTile(mem: Memory, mem': Memory, ring: seq<int>, alloc: map<int, int>, cover: map<int, int>, base: int, p: int, c: int, n: int)
    requires Tiled(mem, ring, alloc, cover, base) && p in ring && p > base && 1 <= n < At(mem, p).size && c == p + At(mem, p).size - n
    requires !IsBlock(ring, alloc, base, c) && mem' == CutMem(mem, p, n)
    ensures Tiled(mem', ring, alloc[c := n], Cut(cover, p, c), base)
  {
    TiledCut(mem, mem', ring, alloc, alloc[c := n], cover, base, p, c);
  }

  /** The units of a region, each covered by the block that starts it. */
  function Region(g: int, nu: int): map<int, int> {
    map u | g <= u < g + nu && InRange(u, g, nu) :: g
  }

  predicate InRange(u: int, g: int, nu: int) {
    g <= u < g + nu
  }

  /** morecore's new region, as an allocated block about to be freed (umalloc.c:57-58). */
  lemma AddRegion(mem: Memory, ring: seq<int>, alloc: map<int, int>, cover: map<int, int>, base: int, g: int, nu: int)
    requires HeapOk(mem, ring, alloc, cover, base) && g > base && nu >= 1
    requires forall u :: g <= u < g + nu ==> u !in cover
    ensures HeapOk(mem[g := Header(At(mem, g).ptr, nu)], ring, alloc[g := nu], cover + Region(g, nu), base)
  {
    hide Tiled;
    hide FreeList;
    var mem' := mem[g := Header(At(mem, g).ptr, nu)];
    forall x | IsBlock(ring, alloc, base, x) || x in ring
      ensures x != g
    {
      OwnUnit(mem, ring, alloc, cover, base, x);
    }
    SameHeaders(mem, mem', ring, base);
    RegionTile(mem, mem', ring, alloc, cover, base, g, nu);
  }

  lemma RegionTile(mem: Memory, mem': Memory, ring: seq<int>, alloc: map<int, int>, cover: map<int, int>, base: int, g: int, nu: int)
    requires Tiled(mem, ring, alloc, cover, base) && g > base && nu >= 1 && !IsBlock(ring, alloc, base, g)
    requires forall u :: g <= u < g + nu ==> u !in cover
    requires At(mem', g).size == nu && forall x :: x != g ==> At(mem', x) == At(mem, x)
    ensures Tiled(mem', ring, alloc[g := nu], cover + Region(g, nu), base)
  {
    hide At;
    hide Region;
    hide Tiled;
    hide IsBlock;
    NotOnList(ring, alloc, base, g);
    RegionUnits(mem, mem', ring, alloc, cover, base, g, nu);
    forall x | x in alloc[g := nu]
      ensures At(mem', x).size == alloc[g := nu][x] >= 1 && x !in ring && x > base
    {
      if x != g { AllocOf(mem, ring, alloc, cover, base, x); }
    }
    AreTiled(mem', ring, alloc[g := nu], cover + Region(g, nu), base);
  }

  lemma NotOnList(ring: seq<int>, alloc: map<int, int>, base: int, g: int)
    requires !IsBlock(ring, alloc, base, g) && g > base
    ensures g !in ring
  {
  }

  lemma RegionUnits(mem: Memory, mem': Memory, ring: seq<int>, alloc: map<int, int>, cover: map<int, int>, base: int, g: int, nu: int)
    requires Tiled(mem, ring, alloc, cover, base) && g > base && nu >= 1 && !IsBlock(ring, alloc, base, g)
    requires forall u :: g <= u < g + nu ==> u !in cover
    requires At(mem', g).size == nu && forall x :: x != g ==> At(mem', x) == At(mem, x)
    ensures forall b, u :: IsBlock(ring, alloc[g := nu], base, b) && b <= u < b + At(mem', b).size ==>
              u in cover + Region(g, nu) && (cover + Region(g, nu))[u] == b
    ensures forall u :: u in cover + Region(g, nu) ==>
              var b := (cover + Region(g, nu))[u]; IsBlock(ring, alloc[g := nu], base, b) && b <= u < b + At(mem', b).size
  {
    hide At;
    hide Tiled;
    hide Region;
    hide IsBlock;
    forall b, u | IsBlock(ring, alloc[g := nu], base, b) && b <= u < b + At(mem', b).size
      ensures u in cover + Region(g, nu) && (cover + Region(g, nu))[u] == b
    {
      NewUnit(cover, g, nu, u);
      OneMoreBlock(ring, alloc, base, g, nu, b);
      if b != g { UnitOf(mem, ring, alloc, cover, base, b, u); }
    }
    forall u | u in cover + Region(g, nu)
      ensures var b := (cover + Region(g, nu))[u]; IsBlock(ring, alloc[g := nu], base, b) && b <= u < b + At(mem', b).size
    {
      NewUnit(cover, g, nu, u);
      OneMoreBlock(ring, alloc, base, g, nu, (cover + Region(g, nu))[u]);
      if u in cover { BlockOf(mem, ring, alloc, cover, base, u); }
    }
  }

  lemma OneMoreBlock(ring: seq<int>, alloc: map<int, int>, base: int, g: int, nu: int, b: int)
    ensures IsBlock(ring, alloc[g := nu], base, b) <==> IsBlock(ring, alloc, base, b) || b == g
  {
  }

  lemma NewUnit(cover: map<int, int>, g: int, nu: int, u: int)
    requires g <= u < g + nu ==> u !in cover
    ensures u in cover + Region(g, nu) <==> u in cover || g <= u < g + nu
    ensures u in cover + Region(g, nu) ==> (cover + Region(g, nu))[u] == if u in cover then cover[u] else g
  {
  }

  lemma OwnUnit(mem: Memory, ring: seq<int>, alloc: map<int, int>, cover: map<int, int>, base: int, x: int)
    requires HeapOk(mem, ring, alloc, cover, base)
    ensures IsBlock(ring, alloc, base, x) ==> x in cover && cover[x] == x
  {
  }

  lemma SameHeaders(mem: Memory, mem': Memory, ring: seq<int>, base: int)
    requires FreeList(mem, ring, base)
    requires forall x :: x in ring ==> At(mem', x) == At(mem, x)
    ensures FreeList(mem', ring, base)
  {
    hide At;
    hide Next;
  }

  /** Whatever the user stores between the headers does not disturb the allocator. */
  lemma UserStores(mem: Memory, mem': Memory, ring: seq<int>, alloc: map<int, int>, cover: map<int, int>, base: int)
    requires HeapOk(mem, ring, alloc, cover, base)
    requires forall x :: x == base || IsBlock(ring, alloc, base, x) ==> At(mem', x) == At(mem, x)
    ensures HeapOk(mem', ring, alloc, cover, base)
  {
    hide At;
    hide FreeList;
    hide Tiled;
    SameHeaders(mem, mem', ring, base);
    SameTiles(mem, mem', ring, alloc, cover, base);
  }

  lemma SameTiles(mem: Memory, mem': Memory, ring: seq<int>, alloc: map<int, int>, cover: map<int, int>, base: int)
    requires Tiled(mem, ring, alloc, cover, base)
    requires forall x :: x == base || IsBlock(ring, alloc, base, x) ==> At(mem', x) == At(mem, x)
    ensures Tiled(mem', ring, alloc, cover, base)
  {
    hide At;
  }

  // ---------- what the allocator stores to ----------

  predicate Same(mem: Memory, mem': Memory, u: int) {
    (u in mem' <==> u in mem) && At(mem', u) == At(mem, u)
  }

  /** No unit but these has changed. */
  ghost predicate Only(mem: Memory, mem': Memory, us: set<int>) {
    forall u :: u !in us ==> Same(mem, mem', u)
  }

  /** Unit `u` is payload of the allocated block `a`. */
  predicate Inside(alloc: map<int, int>, a: int, u: int) {
    a in alloc && a < u < a + alloc[a]
  }

  /** What a block that stays allocated holds behind its header is still there. */
  ghost predicate PayloadsKept(mem: Memory, alloc: map<int, int>, mem': Memory, alloc': map<int, int>) {
    forall a, u {:trigger Inside(alloc, a, u)} :: Inside(alloc, a, u) && Inside(alloc', a, u) ==> Same(mem, mem', u)
  }

  lemma OnlyThen(mem: Memory, mem1: Memory, mem2: Memory, us: set<int>, vs: set<int>)
    requires Only(mem, mem1, us) && Only(mem1, mem2, vs)
    ensures Only(mem, mem2, us + vs)
  {
    hide At;
    forall u | u !in us + vs
      ensures Same(mem, mem2, u)
    {
      assert Same(mem, mem1, u) && Same(mem1, mem2, u);
    }
  }

  lemma OnlyMore(mem: Memory, mem': Memory, us: set<int>, vs: set<int>)
    requires Only(mem, mem', us) && us <= vs
    ensures Only(mem, mem', vs)
  {
    hide Same;
  }

  /** A header is no payload. */
  lemma HeaderOutside(mem: Memory, ring: seq<int>, alloc: map<int, int>, cover: map<int, int>, base: int, a: int, u: int)
    requires HeapOk(mem, ring, alloc, cover, base) && Inside(alloc, a, u)
    ensures u in cover && u != base && u !in alloc && u !in ring
  {
    hide FreeList;
    hide Tiled;
    AllocOf(mem, ring, alloc, cover, base, a);
    UnitOf(mem, ring, alloc, cover, base, a, u);
    OwnUnit(mem, ring, alloc, cover, base, u);
  }

  /** Stores to headers, old or new, and to fresh memory leave payloads alone. */
  lemma HeadersOnly(mem: Memory, ring: seq<int>, alloc: map<int, int>, cover: map<int, int>,
                    mem': Memory, ring': seq<int>, alloc': map<int, int>, cover': map<int, int>, base: int, us: set<int>)
    requires HeapOk(mem, ring, alloc, cover, base) && HeapOk(mem', ring', alloc', cover', base) && Only(mem, mem', us)
    requires forall u :: u in us ==> u == base || u in ring || u in alloc || u in alloc' || u in ring' || u !in cover
    ensures PayloadsKept(mem, alloc, mem', alloc')
  {
    hide HeapOk;
    hide Same;
    forall a, u | Inside(alloc, a, u) && Inside(alloc', a, u)
      ensures Same(mem, mem', u)
    {
      HeaderOutside(mem, ring, alloc, cover, base, a, u);
      HeaderOutside(mem', ring', alloc', cover', base, a, u);
    }
  }

  // ---------- the allocator ----------

  /** Steps from position `k` forward to `t` on a ring of `n`. */
  function Dist(k: nat, t: nat, n: nat): (d: int)
    ensures k <= n ==> d >= 0
  {
    if k <= t then t - k else t + n - k
  }

  /** The free block after which `bp` belongs. */
  ghost function Place(ring: seq<int>, bp: int): (t: nat)
    requires |ring| > 0 && Ascending(ring) && ring[0] < bp && bp !in ring
    ensures Before(ring, t, bp)
  {
    if ring[|ring| - 1] < bp then |ring| - 1
    else
      assert |ring| > 1;
      var t := Place(ring[..|ring| - 1], bp);
      t
  }

  lemma ListFacts(mem: Memory, ring: seq<int>, base: int)
    requires FreeList(mem, ring, base)
    ensures |ring| > 0 && ring[0] == base && Ascending(ring)
  {
  }

  lemma BeforeIn(ring: seq<int>, t: nat, bp: int)
    requires Before(ring, t, bp)
    ensures t < |ring|
  {
  }

  /** The tests of free's search, at position `k` of the ring. */
  lemma SearchStep(ring: seq<int>, base: int, k: nat, t: nat, bp: int)
    requires |ring| > 0 && ring[0] == base < bp && Ascending(ring) && Before(ring, t, bp) && k < |ring|
    ensures bp > ring[k] && bp < Next(ring, k) ==> k == t
    ensures ring[k] >= Next(ring, k) && (bp > ring[k] || bp < Next(ring, k)) ==> k == t
    ensures k == t ==> (bp > ring[k] && bp < Next(ring, k)) || (ring[k] >= Next(ring, k) && (bp > ring[k] || bp < Next(ring, k)))
    ensures Next(ring, k) == ring[if k + 1 == |ring| then 0 else k + 1]
  {
  }

  /** Nothing between freep, at position `s`, and block `i`, in list order, is big
      enough. */
  ghost predicate TooSmallSoFar(mem: Memory, ring: seq<int>, s: nat, i: nat, nunits: int) {
    forall j {:trigger ring[j]} :: 0 <= j < |ring| && Dist(j, s, |ring|) > Dist(i, s, |ring|) ==> At(mem, ring[j]).size < nunits
  }

  /** Something from block `i` on, up to freep, is big enough. */
  ghost predicate FitAhead(mem: Memory, ring: seq<int>, s: nat, i: nat, nunits: int) {
    exists j {:trigger ring[j]} :: 0 <= j < |ring| && Dist(j, s, |ring|) <= Dist(i, s, |ring|) && At(mem, ring[j]).size >= nunits
  }

  ghost predicate AllSmaller(mem: Memory, ring: seq<int>, nunits: int) {
    forall b :: b in ring ==> At(mem, b).size < nunits
  }

  function Succ(i: nat, n: nat): nat {
    if i + 1 == n then 0 else i + 1
  }

  /** malloc's search moving on from a block that is too small. */
  lemma MoveOn(mem: Memory, ring: seq<int>, base: int, s: nat, i: nat, nunits: int)
    requires FreeList(mem, ring, base) && s < |ring| && i < |ring| && At(mem, ring[i]).size < nunits
    ensures ring[i] == ring[s] ==> i == s
    ensures i != s && TooSmallSoFar(mem, ring, s, i, nunits) ==> TooSmallSoFar(mem, ring, s, Succ(i, |ring|), nunits)
    ensures FitAhead(mem, ring, s, i, nunits) ==> i != s && FitAhead(mem, ring, s, Succ(i, |ring|), nunits)
    ensures i != s ==> Dist(Succ(i, |ring|), s, |ring|) == Dist(i, s, |ring|) - 1
    ensures i == s && TooSmallSoFar(mem, ring, s, i, nunits) ==> AllSmaller(mem, ring, nunits)
  {
    hide At;
    hide Next;
    hide FitAhead;
    FitMovesOn(mem, ring, s, i, nunits);
  }

  lemma FitMovesOn(mem: Memory, ring: seq<int>, s: nat, i: nat, nunits: int)
    requires s < |ring| && i < |ring| && At(mem, ring[i]).size < nunits
    ensures FitAhead(mem, ring, s, i, nunits) ==> i != s && FitAhead(mem, ring, s, Succ(i, |ring|), nunits)
  {
    hide At;
  }

  lemma SomeFits(mem: Memory, ring: seq<int>, i: nat, nunits: int)
    requires i < |ring| && At(mem, ring[i]).size >= nunits
    ensures !AllSmaller(mem, ring, nunits)
  {
    assert ring[i] in ring;
  }

  /** The whole ring is ahead of the block behind freep. */
  lemma FreshStart(mem: Memory, ring: seq<int>, s: nat, nunits: int)
    requires s < |ring|
    ensures TooSmallSoFar(mem, ring, s, Succ(s, |ring|), nunits)
    ensures (exists b :: b in ring && At(mem, b).size >= nunits) ==> FitAhead(mem, ring, s, Succ(s, |ring|), nunits)
  {
  }

  class Heap {
    const base: int             // &base, below everything sbrk returns
    var mem: Memory
    var freep: int              // 0 before the first call
    ghost var ring: seq<int>
    ghost var alloc: map<int, int>
    ghost var cover: map<int, int>

    constructor (base: int)
      requires base > 0
      ensures this.base == base && Valid() && freep == 0 && alloc == map[] && cover == map[]
    {
      this.base, mem, freep := base, map[], 0;
      ring, alloc, cover := [], map[], map[];
    }

    ghost predicate Ready()
      reads this
    {
      base > 0 && HeapOk(mem, ring, alloc, cover, base) && freep in ring
    }

    ghost predicate Valid()
      reads this
    {
      if freep == 0 then base > 0 && ring == [] && alloc == map[] && cover == map[] else Ready()
    }

    /** Nothing on the free list is large enough. */
    ghost predicate NoneFits(nunits: int)
      reads this
    {
      freep == 0 || AllSmaller(mem, ring, nunits)
    }

    /** The search loop of free (umalloc.c:30-32). */
    method FindPlace(bp: int) returns (p: int, ghost t: nat)
      requires Ready() && bp > base && bp !in ring
      ensures Before(ring, t, bp) && p == ring[t]
    {
      hide Tiled;
      hide Ascending;
      hide Before;
      hide Next;
      hide FreeList;
      ListFacts(mem, ring, base);
      p, t := freep, Place(ring, bp);
      BeforeIn(ring, t, bp);
      ghost var k: nat := Position(ring, freep);
      FreeFacts(mem, ring, base, k);
      while !(bp > p && bp < At(mem, p).ptr)
        invariant k < |ring| && p == ring[k] && At(mem, p).ptr == Next(ring, k)
        decreases Dist(k, t, |ring|)
      {
        SearchStep(ring, base, k, t, bp);
        if p >= At(mem, p).ptr && (bp > p || bp < At(mem, p).ptr) {
          break;
        }
        p := At(mem, p).ptr;
        k := if k + 1 == |ring| then 0 else k + 1;
        FreeFacts(mem, ring, base, k);
      }
      SearchStep(ring, base, k, t, bp);
    }

    /** What holds between the two halves of free: `bp` points to where its
        predecessor `p` will, and does not touch that block. */
    ghost predicate HalfFreed(bp: int, p: int, t: nat)
      reads this
    {
      && bp in alloc && bp in mem && Before(ring, t, bp) && p == ring[t] && At(mem, bp).ptr == Next(ring, t)
      && HeapOk(mem[p := Header(At(mem, bp).ptr, At(mem, p).size)], ring, alloc, cover, base)
      && (t + 1 < |ring| ==> bp + At(mem, bp).size < ring[t + 1])
    }

    /** Joining the block above (umalloc.c:33-37). */
    method JoinUp(bp: int, p: int, ghost t: nat)
      requires Ready() && bp in alloc && Before(ring, t, bp) && p == ring[t]
      modifies `mem, `ring, `alloc, `cover
      ensures HalfFreed(bp, p, t) && alloc == old(alloc)[bp := At(mem, bp).size] && cover.Keys == old(cover).Keys
      ensures At(mem, bp).size >= old(alloc)[bp] && At(mem, p).size == At(old(mem), p).size
      ensures Only(old(mem), mem, {bp}) && forall x :: x in ring ==> x in old(ring)
    {
      hide FreeList;
      hide Tiled;
      hide Ascending;
      hide Next;
      AllocFacts(mem, ring, alloc, cover, base, bp);
      FreeFacts(mem, ring, base, t);
      Neighbours(mem, ring, alloc, cover, base, bp, t);
      var q := At(mem, p).ptr;
      if bp + At(mem, bp).size == q {
        FreeFacts(mem, ring, base, t + 1);
        AbsorbList(mem, ring, base, bp, t);
        AbsorbNext(mem, ring, alloc, cover, base, bp, t);
        mem := mem[bp := Header(At(mem, q).ptr, At(mem, bp).size + At(mem, q).size)];
        ring, alloc, cover := Without(ring, t + 1), alloc[bp := At(mem, bp).size], Joined(cover, bp, q);
      } else {
        SetPtr(mem, ring, alloc, cover, base, bp, q);
        mem := mem[bp := Header(q, At(mem, bp).size)];
        assert mem[p := Header(At(mem, bp).ptr, At(mem, p).size)] == mem;
      }
    }

    /** Joining the block below, or linking to it (umalloc.c:38-42). */
    method JoinDown(bp: int, p: int, ghost t: nat)
      requires HalfFreed(bp, p, t)
      modifies `mem, `ring, `alloc, `cover
      ensures HeapOk(mem, ring, alloc, cover, base) && p in ring
      ensures alloc == old(alloc) - {bp} && cover.Keys == old(cover).Keys
      ensures bp in cover && At(mem, cover[bp]).size >= At(old(mem), bp).size && (cover[bp] == p || cover[bp] == At(mem, p).ptr)
      ensures Only(old(mem), mem, {p}) && forall x :: x in ring ==> x in old(ring) || x == bp
    {
      hide FreeList;
      hide Tiled;
      hide Ascending;
      hide Next;
      ghost var mem1 := mem[p := Header(At(mem, bp).ptr, At(mem, p).size)];
      AllocFacts(mem1, ring, alloc, cover, base, bp);
      OwnUnit(mem1, ring, alloc, cover, base, bp);
      Neighbours(mem1, ring, alloc, cover, base, bp, t);
      if p + At(mem, p).size == bp {
        MergeDown(mem1, ring, alloc, cover, base, bp, t);
        mem := mem[p := Header(At(mem, bp).ptr, At(mem, p).size + At(mem, bp).size)];
        assert mem == mem1[p := Header(Next(ring, t), At(mem1, p).size + At(mem1, bp).size)];
        cover := Joined(cover, p, bp);
      } else {
        LinkIn(mem1, ring, alloc, cover, base, bp, t);
        mem := mem[p := Header(bp, At(mem, p).size)];
        assert mem == mem1[bp := Header(Next(ring, t), At(mem1, bp).size)][p := Header(bp, At(mem1, p).size)];
        WithMembers(ring, t, bp, p);
        ring := With(ring, t, bp);
      }
      alloc := alloc - {bp};
    }

    /** free (umalloc.c:24-44).  The block's units end up in a free block at freep
        or right behind it. */
    method Free(ap: int)
      requires Ready() && ap - 1 in alloc
      modifies this
      ensures Ready() && alloc == old(alloc) - {ap - 1} && cover.Keys == old(cover).Keys
      ensures ap - 1 in cover && At(mem, cover[ap - 1]).size >= old(alloc)[ap - 1]
      ensures cover[ap - 1] == freep || cover[ap - 1] == At(mem, freep).ptr
      ensures Only(old(mem), mem, {ap - 1, freep}) && freep in old(ring) && forall x :: x in ring ==> x in old(ring) || x == ap - 1
      ensures PayloadsKept(old(mem), old(alloc), mem, alloc)
    {
      hide FreeList;
      hide Tiled;
      hide Only;
      var bp := ap - 1;
      AllocFacts(mem, ring, alloc, cover, base, bp);
      ghost var t;
      var p;
      p, t := FindPlace(bp);
      JoinUp(bp, p, t);
      ghost var mem1 := mem;
      JoinDown(bp, p, t);
      freep := p;
      OnlyThen(old(mem), mem1, mem, {bp}, {p});
      assert {bp} + {p} == {bp, p};
      HeadersOnly(old(mem), old(ring), old(alloc), old(cover), mem, ring, alloc, cover, base, {bp, p});
    }

    /** Memory that sbrk may return: above base, and not handed out before. */
    ghost predicate Fresh(g: int, nu: int)
      reads this
    {
      g > base && forall u :: g <= u < g + nu ==> u !in cover
    }

    /** morecore (umalloc.c:46-61), where `grant` is what sbrk returned.  The new
        units are in a free block at freep or right behind it. */
    method Morecore(nunits: int, grant: Option<int>) returns (p: int)
      requires Ready() && (grant.Some? ==> Fresh(grant.value, CoreUnits(nunits)))
      modifies this
      ensures Ready() && alloc == old(alloc)
      ensures grant.None? ==> p == 0 && mem == old(mem) && freep == old(freep) && ring == old(ring) && cover == old(cover)
      ensures grant.Some? ==> p == freep > 0 && cover.Keys == old(cover).Keys + Region(grant.value, CoreUnits(nunits)).Keys
      ensures grant.Some? ==> exists b :: (b == freep || b == At(mem, freep).ptr) && At(mem, b).size >= nunits
      ensures grant.Some? ==> Only(old(mem), mem, {grant.value, freep}) && freep in old(ring) && forall x :: x in ring ==> x in old(ring) || x == grant.value
      ensures PayloadsKept(old(mem), old(alloc), mem, alloc)
    {
      hide FreeList;
      hide Tiled;
      var nu := CoreUnits(nunits);
      if grant.None? {
        return 0;
      }
      var hp := grant.value;
      OwnUnit(mem, ring, alloc, cover, base, hp);
      assert hp !in alloc by {
        assert hp !in cover;
      }
      AddRegion(mem, ring, alloc, cover, base, hp, nu);
      mem := mem[hp := Header(At(mem, hp).ptr, nu)];
      alloc, cover := alloc[hp := nu], cover + Region(hp, nu);
      ghost var mem1 := mem;
      Free(hp + 1);
      assert alloc == old(alloc);
      assert Only(old(mem), mem1, {hp});
      OnlyThen(old(mem), mem1, mem, {hp}, {hp, freep});
      assert {hp} + {hp, freep} == {hp, freep};
      HeadersOnly(old(mem), old(ring), old(alloc), old(cover), mem, ring, alloc, cover, base, {hp, freep});
      FreeFacts(mem, ring, base, Position(ring, freep));
      return freep;
    }

    /** Handing out block `p`, or its tail (umalloc.c:76-84). */
    method Carve(prevp: int, p: int, ghost k: nat, nunits: int) returns (r: int)
      requires Ready() && k < |ring| && prevp == ring[k] && p == Next(ring, k) && 1 <= nunits <= At(mem, p).size
      modifies this
      ensures Ready() && r - 1 !in old(alloc) && r - 1 > base
      ensures alloc == old(alloc)[r - 1 := nunits] && cover.Keys == old(cover).Keys
      ensures Only(old(mem), mem, {prevp, p, r - 1})
    {
      hide FreeList;
      hide Tiled;
      hide Ascending;
      FreeFacts(mem, ring, base, 0);
      FreeFacts(mem, ring, base, k);
      assert k + 1 < |ring|;
      FreeFacts(mem, ring, base, k + 1);
      if p in alloc {
        AllocFacts(mem, ring, alloc, cover, base, p);
      }
      var at := p;
      if At(mem, p).size == nunits {
        TakeWhole(mem, ring, alloc, cover, base, k + 1);
        mem := mem[prevp := Header(At(mem, p).ptr, At(mem, prevp).size)];
        ring, alloc := Without(ring, k + 1), alloc[p := nunits];
        assert ring[k] == prevp;
      } else {
        TakeTail(mem, ring, alloc, cover, base, k + 1, nunits);
        TailIsInside(mem, ring, alloc, cover, base, k + 1, p + At(mem, p).size - nunits);
        at := p + At(mem, p).size - nunits;
        mem := CutMem(mem, p, nunits);
        alloc, cover := alloc[at := nunits], Cut(cover, p, at);
      }
      freep := prevp;
      return at + 1;
    }

    /** The first call sets up a list of just base (umalloc.c:70-73). */
    method Setup()
      requires Valid()
      modifies this
      ensures Ready() && alloc == old(alloc) && cover == old(cover)
      ensures if old(freep) == 0 then ring == [base] && At(mem, base).size == 0 else mem == old(mem) && ring == old(ring)
      ensures Only(old(mem), mem, {base})
    {
      if freep == 0 {
        mem := mem[base := Header(base, 0)];
        freep, ring := base, [base];
      }
    }

    /** The loop of malloc (umalloc.c:74-89), which calls morecore at most once. */
    method Search(nunits: int, grant: Option<int>) returns (r: int)
      requires Ready() && nunits >= 1 && (grant.Some? ==> Fresh(grant.value, CoreUnits(nunits)))
      modifies this
      ensures Ready()
      ensures r == 0 <==> grant.None? && old(AllSmaller(mem, ring, nunits))
      ensures r == 0 ==> alloc == old(alloc) && cover == old(cover) && AllSmaller(mem, ring, nunits)
      ensures r != 0 ==> r - 1 !in old(alloc) && alloc == old(alloc)[r - 1 := nunits]
      ensures grant.Some? && old(AllSmaller(mem, ring, nunits)) ==> cover.Keys == old(cover).Keys + Region(grant.value, CoreUnits(nunits)).Keys
      ensures !old(AllSmaller(mem, ring, nunits)) ==> cover.Keys == old(cover).Keys
      ensures Only(old(mem), mem, Stores(old(ring), r, grant))
    {
      hide Only;
      hide Stores;
      hide AllSmaller;
      hide FreeList;
      hide Tiled;
      hide Region;
      hide TooSmallSoFar;
      hide FitAhead;
      hide Dist;
      var prevp := freep;
      var p := At(mem, prevp).ptr;
      ghost var s: nat := Position(ring, freep);
      ghost var k: nat, i: nat, called := s, Succ(s, |ring|), false;
      FreeFacts(mem, ring, base, s);
      FreshStart(mem, ring, s, nunits);
      while true
        invariant Ready() && alloc == old(alloc) && s < |ring| && freep == ring[s]
        invariant k < |ring| && i == Succ(k, |ring|) && prevp == ring[k] && p == ring[i]
        invariant !called ==> mem == old(mem) && ring == old(ring) && cover == old(cover) && TooSmallSoFar(mem, ring, s, i, nunits)
        invariant called ==> grant.Some? && FitAhead(mem, ring, s, i, nunits) && old(AllSmaller(mem, ring, nunits))
        invariant called ==> cover.Keys == old(cover).Keys + Region(grant.value, CoreUnits(nunits)).Keys
        invariant called ==> Only(old(mem), mem, {grant.value, freep}) && freep in old(ring) && forall x :: x in ring ==> x in old(ring) || x == grant.value
        decreases !called, Dist(i, s, |ring|)
      {
        if At(mem, p).size >= nunits {
          SomeFits(mem, ring, i, nunits);
          ghost var mem1, ring1, f := mem, ring, freep;
          r := Carve(prevp, p, k, nunits);
          StoresThen(old(mem), mem1, mem, old(ring), ring1, r, grant, called, f, prevp, p);
          return;
        }
        MoveOn(mem, ring, base, s, i, nunits);
        if p == freep {
          assert !called;
          p := Morecore(nunits, grant);
          if p == 0 {
            NoStores(mem, old(ring), 0, grant);
            return 0;
          }
          called, s := true, Position(ring, freep);
          FreeFacts(mem, ring, base, s);
          FreshStart(mem, ring, s, nunits);
          i := s;
        }
        FreeFacts(mem, ring, base, i);
        prevp, k := p, i;
        p, i := At(mem, p).ptr, Succ(i, |ring|);
      }
    }

    /** malloc (umalloc.c:63-90), where `grant` is what sbrk returns if it is
        called; 0 is the null pointer. */
    method Malloc(nbytes: nat, grant: Option<int>) returns (r: int)
      requires Valid() && nbytes < UINT
      requires grant.Some? ==> Fresh(grant.value, CoreUnits(Units(nbytes)))
      modifies this
      ensures Ready()
      ensures r == 0 <==> grant.None? && old(NoneFits(Units(nbytes)))
      ensures r == 0 ==> alloc == old(alloc) && cover == old(cover) && NoneFits(Units(nbytes))
      ensures r != 0 ==> r - 1 !in old(alloc) && alloc == old(alloc)[r - 1 := Units(nbytes)]
      ensures cover.Keys == old(cover).Keys + if grant.Some? && old(NoneFits(Units(nbytes))) then Region(grant.value, CoreUnits(Units(nbytes))).Keys else {}
      ensures Only(old(mem), mem, Stores(old(ring), r, grant) + {base})
      ensures PayloadsKept(old(mem), old(alloc), mem, alloc)
    {
      hide FreeList;
      hide Tiled;
      hide Region;
      hide HeapOk;
      hide Only;
      hide Stores;
      Setup();
      ghost var mem1, ring1 := mem, ring;
      r := Search(Units(nbytes), grant);
      SetupStores(old(mem), mem1, mem, old(ring), ring1, base, r, grant);
      if old(freep) != 0 {
        StoresAreHeaders(old(mem), old(ring), old(alloc), old(cover), mem, ring, alloc, cover, base, r, grant);
      }
    }
  }

  /** What malloc may store to: the headers of free blocks, of the block it returns, and of what
      sbrk gave. */
  ghost function Stores(ring: seq<int>, r: int, grant: Option<int>): set<int> {
    (set x | x in ring) + (if r == 0 then {} else {r - 1}) + if grant.Some? then {grant.value} else {}
  }

  lemma SetupStores(mem: Memory, mem1: Memory, mem2: Memory, ring: seq<int>, ring1: seq<int>, base: int, r: int, grant: Option<int>)
    requires Only(mem, mem1, {base}) && (ring1 == [base] || ring1 == ring) && Only(mem1, mem2, Stores(ring1, r, grant))
    ensures Only(mem, mem2, Stores(ring, r, grant) + {base})
  {
    hide Only;
    OnlyThen(mem, mem1, mem2, {base}, Stores(ring1, r, grant));
    OnlyMore(mem, mem2, {base} + Stores(ring1, r, grant), Stores(ring, r, grant) + {base});
  }

  lemma StoresAreHeaders(mem: Memory, ring: seq<int>, alloc: map<int, int>, cover: map<int, int>,
                         mem': Memory, ring': seq<int>, alloc': map<int, int>, cover': map<int, int>, base: int, r: int, grant: Option<int>)
    requires HeapOk(mem, ring, alloc, cover, base) && HeapOk(mem', ring', alloc', cover', base)
    requires Only(mem, mem', Stores(ring, r, grant) + {base}) && (grant.Some? ==> grant.value !in cover) && (r != 0 ==> r - 1 in alloc')
    ensures PayloadsKept(mem, alloc, mem', alloc')
  {
    hide HeapOk;
    hide Only;
    HeadersOnly(mem, ring, alloc, cover, mem', ring', alloc', cover', base, Stores(ring, r, grant) + {base});
  }

  lemma NoStores(mem: Memory, ring: seq<int>, r: int, grant: Option<int>)
    ensures Only(mem, mem, Stores(ring, r, grant))
  {
  }

  lemma StoresThen(mem: Memory, mem1: Memory, mem2: Memory, ring: seq<int>, ring1: seq<int>, r: int, grant: Option<int>, called: bool, f: int, prevp: int, p: int)
    requires if called then grant.Some? && Only(mem, mem1, {grant.value, f}) && f in ring else mem1 == mem && ring1 == ring
    requires forall x :: x in ring1 ==> x in ring || (called && grant.Some? && x == grant.value)
    requires r != 0 && prevp in ring1 && p in ring1 && Only(mem1, mem2, {prevp, p, r - 1})
    ensures Only(mem, mem2, Stores(ring, r, grant))
  {
    hide Same;
    hide Only;
    var all := Stores(ring, r, grant);
    OnlyMore(mem1, mem2, {prevp, p, r - 1}, all);
    if called {
      OnlyMore(mem, mem1, {grant.value, f}, all);
      OnlyThen(mem, mem1, mem2, all, all);
      assert all + all == all;
    }
  }

  /** At least MIN_CORE units are asked of sbrk (umalloc.c:52-53). */
  function CoreUnits(nunits: int): int {
    if nunits < MIN_CORE then MIN_CORE else nunits
  }
}

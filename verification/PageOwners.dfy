/** Who holds each physical page: the free list (kalloc.c), a page directory, a page
    table or a user mapping (vm.c:32-80, 222-298, 316-345). */
module PageOwners {
  import opened Sequences
  import opened Options

  const ENTRIES := 1024          // NPDENTRIES, NPTENTRIES
  const KDIR := 512              // PDX(KERNBASE)
  const KPAGES := KDIR * ENTRIES // pages below KERNBASE

  datatype Flags = Flags(w: bool, u: bool)

  /** A directory or table entry; `page` is a physical page number. */
  datatype Entry = Absent | Present(page: nat, flags: Flags)

  datatype Page<D> = Run(next: Option<nat>) | Table(entries: seq<Entry>) | Data(data: D)

  /** Free, a page directory, the page that one entry of a directory or table refers to,
      or in use for something else. */
  datatype Own = Free | Root | Ref(parent: nat, idx: nat, leaf: bool) | Other

  type Owners = map<nat, Own>

  function EntryAt<D>(pages: map<nat, Page<D>>, q: nat, i: nat): Entry {
    if q in pages && pages[q].Table? && i < |pages[q].entries| then pages[q].entries[i] else Absent
  }

  /** What an entry of a directory makes of one of the table it refers to: the processor allows
      only what both allow. */
  function Through(dir: Flags, e: Entry): Entry {
    if e.Present? then Present(e.page, Flags(dir.w && e.flags.w, dir.u && e.flags.u)) else Absent
  }

  /** The page behind a virtual page, if there is one, and what may be done with it. */
  function Lookup<D>(pages: map<nat, Page<D>>, d: nat, vp: nat): Entry {
    var e := EntryAt(pages, d, vp / ENTRIES);
    if e.Present? then Through(e.flags, EntryAt(pages, e.page, vp % ENTRIES)) else Absent
  }

  /** PTE_W and PTE_U. */
  const OPEN := Flags(true, true)

  // ---------- the invariant ----------

  ghost predicate IsTable(own: Owners, q: nat) {
    q in own && (own[q].Root? || (own[q].Ref? && !own[q].leaf))
  }

  /** Its present entries are the pages it holds: directories and user tables. */
  ghost predicate Holder(own: Owners, q: nat) {
    IsTable(own, q) && (own[q].Ref? ==> own[q].idx < KDIR)
  }

  ghost predicate ShapesOk<D(!new)>(pages: map<nat, Page<D>>, own: Owners) {
    && pages.Keys == own.Keys
    && (forall q :: IsTable(own, q) ==> pages[q].Table? && |pages[q].entries| == ENTRIES)
    && (forall p :: p in own && own[p].Ref? && own[p].leaf ==> pages[p].Data?)
  }

  /** Every present entry of a holder is the one reference to its page. */
  ghost predicate HoldsOk<D(!new)>(pages: map<nat, Page<D>>, own: Owners) {
    forall q, i :: Holder(own, q) && EntryAt(pages, q, i).Present? ==>
      var p := EntryAt(pages, q, i).page; p in own && own[p] == Ref(q, i, own[q].Ref?)
  }

  ghost predicate RefsOk<D(!new)>(pages: map<nat, Page<D>>, own: Owners) {
    forall p :: p in own && own[p].Ref? ==>
      && Holder(own, own[p].parent) && own[p].leaf == own[own[p].parent].Ref?
      && EntryAt(pages, own[p].parent, own[p].idx).Present? && EntryAt(pages, own[p].parent, own[p].idx).page == p
  }

  /** Directories leave it to their tables what may be done with a page. */
  ghost predicate DirsOk<D(!new)>(pages: map<nat, Page<D>>, own: Owners) {
    forall d, i :: d in own && own[d].Root? && EntryAt(pages, d, i).Present? ==> EntryAt(pages, d, i).flags == OPEN
  }

  ghost predicate TreesOk<D(!new)>(pages: map<nat, Page<D>>, own: Owners) {
    ShapesOk(pages, own) && HoldsOk(pages, own) && RefsOk(pages, own) && DirsOk(pages, own)
  }

  function SetEntry<D>(pages: map<nat, Page<D>>, q: nat, i: nat, e: Entry): (r: map<nat, Page<D>>)
    requires q in pages && pages[q].Table? && i < |pages[q].entries|
    ensures r.Keys == pages.Keys && r[q].Table? && |r[q].entries| == |pages[q].entries|
  {
    pages[q := Table(pages[q].entries[i := e])]
  }

  lemma SetEntryAt<D>(pages: map<nat, Page<D>>, q: nat, i: nat, e: Entry, q': nat, i': nat)
    requires q in pages && pages[q].Table? && i < |pages[q].entries|
    ensures EntryAt(SetEntry(pages, q, i, e), q', i') == if q' == q && i' == i then e else EntryAt(pages, q', i')
  {
  }

  const BLANK: seq<Entry> := seq(ENTRIES, i => Absent)

  // ---------- taking a page and linking it ----------

  lemma TakeKeeps<D(!new)>(pages: map<nat, Page<D>>, own: Owners, p: nat)
    requires TreesOk(pages, own) && p in own && own[p].Free?
    ensures TreesOk(pages, own[p := Other])
  {
  }

  /** A cleared page becomes the table of entry `i` of directory `d`. */
  lemma LinkTable<D(!new)>(pages: map<nat, Page<D>>, own: Owners, d: nat, i: nat, p: nat)
    requires TreesOk(pages, own) && d in own && own[d].Root? && i < ENTRIES && EntryAt(pages, d, i) == Absent
    requires p in own && own[p].Other?
    ensures TreesOk(SetEntry(pages[p := Table(BLANK)], d, i, Present(p, OPEN)), own[p := Ref(d, i, false)])
  {
    var pages1 := pages[p := Table(BLANK)];
    var pages', own' := SetEntry(pages1, d, i, Present(p, OPEN)), own[p := Ref(d, i, false)];
    assert forall q, k :: EntryAt(pages1, q, k) == if q == p then Absent else EntryAt(pages, q, k);
    forall q, k
      ensures EntryAt(pages', q, k) == if q == d && k == i then Present(p, OPEN) else EntryAt(pages1, q, k)
    {
      SetEntryAt(pages1, d, i, Present(p, OPEN), q, k);
    }
    assert forall q :: q != p ==> (Holder(own', q) <==> Holder(own, q)) && (IsTable(own', q) <==> IsTable(own, q));
    TableLinked(pages, own, pages', own', d, i, p);
  }

  lemma TableLinked<D(!new)>(pages: map<nat, Page<D>>, own: Owners, pages': map<nat, Page<D>>, own': Owners, d: nat, i: nat, p: nat)
    requires TreesOk(pages, own) && d in own && own[d].Root? && EntryAt(pages, d, i) == Absent && p in own && own[p].Other?
    requires own' == own[p := Ref(d, i, false)] && pages'.Keys == pages.Keys && p in pages' && pages'[p] == Table(BLANK)
    requires forall q, k :: EntryAt(pages', q, k) == if q == d && k == i then Present(p, OPEN) else if q == p then Absent else EntryAt(pages, q, k)
    requires forall q :: q in pages && q != p && q != d ==> pages'[q] == pages[q]
    requires pages'[d].Table? && |pages'[d].entries| == ENTRIES
    requires forall q :: q != p ==> (Holder(own', q) <==> Holder(own, q)) && (IsTable(own', q) <==> IsTable(own, q))
    ensures TreesOk(pages', own')
  {
    hide EntryAt;
    TableShapes(pages, own, pages', own', d, i, p);
    TableHolds(pages, own, pages', own', d, i, p);
    hide ShapesOk;
    hide HoldsOk;
    assert RefsOk(pages', own');
  }

  lemma TableShapes<D(!new)>(pages: map<nat, Page<D>>, own: Owners, pages': map<nat, Page<D>>, own': Owners, d: nat, i: nat, p: nat)
    requires ShapesOk(pages, own) && d in own && own[d].Root? && p in own && own[p].Other?
    requires own' == own[p := Ref(d, i, false)] && pages'.Keys == pages.Keys && p in pages' && pages'[p] == Table(BLANK)
    requires forall q :: q in pages && q != p && q != d ==> pages'[q] == pages[q]
    requires pages'[d].Table? && |pages'[d].entries| == ENTRIES
    requires forall q :: q != p ==> (Holder(own', q) <==> Holder(own, q)) && (IsTable(own', q) <==> IsTable(own, q))
    ensures ShapesOk(pages', own')
  {
    hide Holder;
  }

  lemma TableHolds<D(!new)>(pages: map<nat, Page<D>>, own: Owners, pages': map<nat, Page<D>>, own': Owners, d: nat, i: nat, p: nat)
    requires HoldsOk(pages, own) && d in own && own[d].Root? && p in own && own[p].Other?
    requires own' == own[p := Ref(d, i, false)]
    requires forall q, k :: EntryAt(pages', q, k) == if q == d && k == i then Present(p, OPEN) else if q == p then Absent else EntryAt(pages, q, k)
    requires forall q :: q != p ==> (Holder(own', q) <==> Holder(own, q)) && (IsTable(own', q) <==> IsTable(own, q))
    ensures HoldsOk(pages', own')
  {
    hide EntryAt;
    forall q, k | Holder(own', q) && EntryAt(pages', q, k).Present?
      ensures var x := EntryAt(pages', q, k).page; x in own' && own'[x] == Ref(q, k, own'[q].Ref?)
    {
    }
  }

  /** A data page is mapped by entry `j` of user table `t`. */
  lemma LinkLeaf<D(!new)>(pages: map<nat, Page<D>>, own: Owners, t: nat, j: nat, p: nat, flags: Flags)
    requires TreesOk(pages, own) && Holder(own, t) && own[t].Ref? && j < ENTRIES && EntryAt(pages, t, j) == Absent
    requires p in own && own[p].Other? && pages[p].Data?
    ensures TreesOk(SetEntry(pages, t, j, Present(p, flags)), own[p := Ref(t, j, true)])
  {
    var pages', own' := SetEntry(pages, t, j, Present(p, flags)), own[p := Ref(t, j, true)];
    forall q, k
      ensures EntryAt(pages', q, k) == if q == t && k == j then Present(p, flags) else EntryAt(pages, q, k)
    {
      SetEntryAt(pages, t, j, Present(p, flags), q, k);
    }
    assert forall q :: (Holder(own', q) <==> Holder(own, q)) && (IsTable(own', q) <==> IsTable(own, q));
  }

  /** An entry of a kernel table may refer to anything. */
  lemma KernelEntry<D(!new)>(pages: map<nat, Page<D>>, own: Owners, t: nat, j: nat, e: Entry)
    requires TreesOk(pages, own) && IsTable(own, t) && !Holder(own, t) && j < ENTRIES
    ensures TreesOk(SetEntry(pages, t, j, e), own)
  {
    var pages' := SetEntry(pages, t, j, e);
    forall q, k
      ensures q != t ==> EntryAt(pages', q, k) == EntryAt(pages, q, k)
    {
      SetEntryAt(pages, t, j, e, q, k);
    }
  }

  /** A user mapping goes, and its page is handed back as `x`. */
  lemma UnlinkLeaf<D(!new)>(pages: map<nat, Page<D>>, own: Owners, t: nat, j: nat, p: nat, x: Page<D>)
    requires TreesOk(pages, own) && p in own && own[p] == Ref(t, j, true)
    ensures Holder(own, t) && t != p && j < |pages[t].entries| && TreesOk(SetEntry(pages[p := x], t, j, Absent), own[p := Free])
  {
    assert t != p;
    var pages1 := pages[p := x];
    var pages', own' := SetEntry(pages1, t, j, Absent), own[p := Free];
    forall q, k
      ensures q != p ==> EntryAt(pages', q, k) == if q == t && k == j then Absent else EntryAt(pages, q, k)
    {
      SetEntryAt(pages1, t, j, Absent, q, k);
    }
    assert forall q :: q != p ==> (Holder(own', q) <==> Holder(own, q)) && (IsTable(own', q) <==> IsTable(own, q));
    assert !Holder(own, p) && !Holder(own', p);
  }

  // ---------- an address space ----------

  /** The page belongs to the address space of directory `d`. */
  ghost predicate Under(own: Owners, d: nat, p: nat) {
    p == d || TableOf(own, d, p) || (p in own && own[p].Ref? && TableOf(own, d, own[p].parent))
  }

  ghost predicate TableOf(own: Owners, d: nat, t: nat) {
    t in own && own[t].Ref? && own[t].parent == d
  }

  /** The holdings with all of that address space given back. */
  ghost function Released(own: Owners, d: nat): (r: Owners)
    ensures r.Keys == own.Keys
  {
    map p | p in own :: if Under(own, d, p) then Free else own[p]
  }

  /** Nothing else has changed. */
  ghost predicate Apart<D(!new)>(pages: map<nat, Page<D>>, pages': map<nat, Page<D>>, own: Owners, d: nat) {
    pages'.Keys == pages.Keys && forall p :: p in own && p in pages && !own[p].Free? && !Under(own, d, p) ==> pages'[p] == pages[p]
  }

  /** A page that was free, or taken and not yet placed, goes under `d`. */
  lemma ReleasedLink<D(!new)>(pages: map<nat, Page<D>>, own: Owners, d: nat, p: nat, x: Own)
    requires TreesOk(pages, own) && d in own && own[d].Root? && p in own && (own[p].Free? || own[p].Other?)
    requires x.Ref? && (x.parent == d || (TableOf(own, d, x.parent) && !own[x.parent].leaf))
    ensures Released(own[p := x], d) == Released(own, d)[p := Free] == Released(own[p := Free], d)
  {
    hide TreesOk;
    NoChildren(pages, own, p);
    UnderSame(own, own[p := x], d, p);
    UnderSame(own, own[p := Free], d, p);
    assert Under(own[p := x], d, p);
    hide Under;
  }

  /** Nothing is under a page that is no directory and no table. */
  lemma NoChildren<D(!new)>(pages: map<nat, Page<D>>, own: Owners, p: nat)
    requires TreesOk(pages, own) && p in own && (own[p].Free? || own[p].Other?)
    ensures forall q :: q in own && own[q].Ref? ==> own[q].parent != p
  {
  }

  lemma UnderSame(own: Owners, own': Owners, d: nat, p: nat)
    requires own'.Keys == own.Keys && p in own && p != d && (forall q :: q in own && q != p ==> own'[q] == own[q])
    requires forall q :: q in own && own[q].Ref? ==> own[q].parent != p
    ensures forall q :: q in own && q != p ==> (Under(own', d, q) <==> Under(own, d, q))
  {
  }

  lemma ReleasedUnlink<D(!new)>(pages: map<nat, Page<D>>, own: Owners, d: nat, p: nat)
    requires TreesOk(pages, own) && d in own && own[d].Root? && p in own && own[p].Ref? && own[p].leaf && TableOf(own, d, own[p].parent)
    ensures Released(own[p := Free], d) == Released(own, d)
  {
  }

  // ---------- what the entries mean ----------

  /** A new table is blank, so every lookup stays. */
  lemma LookupTable<D(!new)>(pages: map<nat, Page<D>>, own: Owners, d: nat, i: nat, p: nat, d': nat, vp: nat)
    requires TreesOk(pages, own) && d in own && own[d].Root? && i < ENTRIES && EntryAt(pages, d, i) == Absent
    requires p in own && own[p].Other? && d' in own && own[d'].Root?
    ensures Lookup(SetEntry(pages[p := Table(BLANK)], d, i, Present(p, OPEN)), d', vp) == Lookup(pages, d', vp)
  {
  }

  /** An entry of a table of `d` is one lookup of `d`. */
  lemma LookupEntry<D(!new)>(pages: map<nat, Page<D>>, own: Owners, d: nat, t: nat, j: nat, e: Entry, d': nat, vp: nat)
    requires TreesOk(pages, own) && t in own && own[t].Ref? && own[t].parent == d && !own[t].leaf && j < ENTRIES
    requires d' in own && own[d'].Root?
    ensures Lookup(SetEntry(pages, t, j, e), d', vp) == if d' == d && vp == own[t].idx * ENTRIES + j then e else Lookup(pages, d', vp)
  {
  }

  /** Other address spaces keep their lookups. */
  lemma LookupApart<D(!new)>(pages: map<nat, Page<D>>, pages': map<nat, Page<D>>, own: Owners, d: nat, d': nat, vp: nat)
    requires TreesOk(pages, own) && Apart(pages, pages', own, d) && d in own && own[d].Root? && d' in own && own[d'].Root? && d' != d
    ensures Lookup(pages', d', vp) == Lookup(pages, d', vp)
  {
  }

  // ---------- the free list ----------

  /** The list through the pages' next fields, each page once. */
  ghost predicate Chain<D(!new)>(pages: map<nat, Page<D>>, free: seq<nat>, head: Option<nat>)
    decreases |free|
  {
    if free == [] then head == None
    else
      && head == Some(free[0]) && free[0] !in free[1..] && free[0] in pages && pages[free[0]].Run?
      && Chain(pages, free[1..], pages[free[0]].next)
  }

  ghost predicate FreeList<D(!new)>(pages: map<nat, Page<D>>, own: Owners, free: seq<nat>, head: Option<nat>) {
    && Chain(pages, free, head)
    && (forall p :: p in free ==> p in own && own[p].Free?)
    && (forall p :: p in own && own[p].Free? ==> p in free)
  }

  lemma {:induction false} ChainFrame<D(!new)>(pages: map<nat, Page<D>>, pages': map<nat, Page<D>>, free: seq<nat>, head: Option<nat>)
    requires Chain(pages, free, head)
    requires forall p :: p in free && p in pages ==> p in pages' && pages'[p] == pages[p]
    ensures Chain(pages', free, head)
    decreases |free|
  {
    if free != [] { ChainFrame(pages, pages', free[1..], pages[free[0]].next); }
  }

  lemma PopKeeps<D(!new)>(pages: map<nat, Page<D>>, own: Owners, free: seq<nat>, head: Option<nat>)
    requires FreeList(pages, own, free, head) && head.Some?
    ensures |free| > 0 && head.value in own && own[head.value].Free? && head.value in pages && pages[head.value].Run?
    ensures FreeList(pages, own[head.value := Other], free[1..], pages[head.value].next)
  {
  }

  lemma PushKeeps<D(!new)>(pages: map<nat, Page<D>>, own: Owners, free: seq<nat>, head: Option<nat>, p: nat)
    requires FreeList(pages, own, free, head) && p in own && !own[p].Free?
    ensures FreeList(pages[p := Run(head)], own[p := Free], [p] + free, Some(p))
  {
    ChainFrame(pages, pages[p := Run(head)], free, head);
    assert ([p] + free)[1..] == free;
  }

  /** Pages in use do not matter to the list. */
  lemma FreeFrame<D(!new)>(pages: map<nat, Page<D>>, own: Owners, pages': map<nat, Page<D>>, own': Owners, free: seq<nat>, head: Option<nat>)
    requires FreeList(pages, own, free, head) && own'.Keys == own.Keys
    requires forall p :: p in own ==> (own'[p].Free? <==> own[p].Free?)
    requires forall p :: p in own && own[p].Free? && p in pages ==> p in pages' && pages'[p] == pages[p]
    ensures FreeList(pages', own', free, head)
  {
    ChainFrame(pages, pages', free, head);
  }

  // ---------- steps on one address space ----------

  /** What `d` holds may have changed, and nothing else. */
  ghost predicate StepOn<D(!new)>(pages: map<nat, Page<D>>, own: Owners, pages': map<nat, Page<D>>, own': Owners, d: nat) {
    && d in own && own[d].Root? && d in own' && own'[d].Root?
    && Released(own', d) == Released(own, d) && Apart(pages, pages', own, d)
  }

  lemma StepTrans<D(!new)>(pages: map<nat, Page<D>>, own: Owners, pages1: map<nat, Page<D>>, own1: Owners, pages2: map<nat, Page<D>>, own2: Owners, d: nat)
    requires StepOn(pages, own, pages1, own1, d) && StepOn(pages1, own1, pages2, own2, d)
    ensures StepOn(pages, own, pages2, own2, d)
  {
  }

  /** Pages have only been taken: who had one keeps it, with its contents. */
  ghost predicate Grown<D(!new)>(pages: map<nat, Page<D>>, own: Owners, pages': map<nat, Page<D>>, own': Owners) {
    && own'.Keys == own.Keys == pages.Keys == pages'.Keys
    && (forall p :: p in own && !own[p].Free? ==> own'[p] == own[p])
    && (forall p :: p in own && (own[p].Other? || (own[p].Ref? && own[p].leaf)) ==> pages'[p] == pages[p])
  }

  /** Pages have only been given back. */
  ghost predicate Shrunk<D(!new)>(pages: map<nat, Page<D>>, own: Owners, pages': map<nat, Page<D>>, own': Owners) {
    && own'.Keys == own.Keys == pages.Keys == pages'.Keys
    && (forall p :: p in own ==> own'[p] == own[p] || own'[p].Free?)
    && (forall p :: p in own && own'[p] == own[p] && (own[p].Other? || (own[p].Ref? && own[p].leaf)) ==> pages'[p] == pages[p])
  }

  // ---------- how many pages a change needs ----------

  /** The directory entries that have a page table. */
  ghost function Tables<D(!new)>(pages: map<nat, Page<D>>, d: nat): set<nat> {
    set i | 0 <= i < ENTRIES && EntryAt(pages, d, i).Present?
  }

  lemma InTables<D(!new)>(pages: map<nat, Page<D>>, d: nat, i: nat)
    requires i < ENTRIES
    ensures i in Tables(pages, d) <==> EntryAt(pages, d, i).Present?
  {
  }

  /** The directory entries for virtual pages lo..hi. */
  ghost function Dirs(lo: nat, hi: nat): set<nat> {
    set i | 0 <= i <= hi && Spans(lo, hi, i)
  }

  predicate Spans(lo: nat, hi: nat, i: nat) {
    lo < hi && i * ENTRIES < hi && lo < (i + 1) * ENTRIES
  }

  lemma DirsNone(lo: nat)
    ensures Dirs(lo, lo) == {}
  {
  }

  lemma DirsNext(lo: nat, a: nat)
    requires lo <= a
    ensures Dirs(lo, a + 1) == Dirs(lo, a) + {a / ENTRIES}
  {
    forall i: nat
      ensures i in Dirs(lo, a + 1) <==> i in Dirs(lo, a) || i == a / ENTRIES
    {
      assert a / ENTRIES * ENTRIES <= a < (a / ENTRIES + 1) * ENTRIES;
      if i * ENTRIES < a + 1 && !(i * ENTRIES < a) {
        assert i == a / ENTRIES;
      }
    }
  }

  lemma DirsMore(lo: nat, a: nat, hi: nat)
    requires lo <= a <= hi
    ensures Dirs(lo, a) <= Dirs(lo, hi)
  {
  }

  /** With `n` pages free and tables `ts`: the pages, and tables for the directory entries
      `ds`, can be had. */
  ghost predicate Affords(n: nat, ts: set<nat>, pages: nat, ds: set<nat>) {
    pages + |ds - ts| <= n
  }

  /** They have been taken. */
  ghost predicate Spent(n: nat, ts: set<nat>, pages: nat, ds: set<nat>, n': nat, ts': set<nat>) {
    n == n' + pages + |ds - ts| && ts' == ts + ds
  }

  lemma SpentThen(n: nat, ts: set<nat>, pages: nat, ds: set<nat>, n1: nat, ts1: set<nat>, pages2: nat, ds2: set<nat>)
    requires Spent(n, ts, pages, ds, n1, ts1)
    ensures Affords(n, ts, pages + pages2, ds + ds2) <==> Affords(n1, ts1, pages2, ds2)
    ensures forall n2, ts2 :: Spent(n1, ts1, pages2, ds2, n2, ts2) ==> Spent(n, ts, pages + pages2, ds + ds2, n2, ts2)
  {
    assert ds + ds2 - ts == (ds - ts) + (ds2 - ts1);
  }

  lemma AffordsLess(n: nat, ts: set<nat>, pages: nat, ds: set<nat>, pages2: nat, ds2: set<nat>)
    requires Affords(n, ts, pages2, ds2) && pages <= pages2 && ds <= ds2
    ensures Affords(n, ts, pages, ds)
  {
    Within(ds - ts, ds2 - ts);
  }

  lemma SpentNone(n: nat, ts: set<nat>, lo: nat)
    ensures Spent(n, ts, 0, Dirs(lo, lo), n, ts)
  {
    DirsNone(lo);
    assert ts + {} == ts && {} - ts == {};
  }

  /** Page by page from `lo`, with a new page for each or, in the kernel's part, none: the next
      turn adds up, and cannot be afforded only if the whole could not. */
  lemma SpendTurn(n0: nat, ts0: set<nat>, each: nat, lo: nat, a: nat, hi: nat, n: nat, ts: set<nat>)
    requires lo <= a < hi && each <= 1 && Spent(n0, ts0, each * (a - lo), Dirs(lo, a), n, ts)
    ensures Affords(n0, ts0, each * (hi - lo), Dirs(lo, hi)) ==> Affords(n, ts, each, {a / ENTRIES})
    ensures forall n', ts' :: Spent(n, ts, each, {a / ENTRIES}, n', ts') ==> Spent(n0, ts0, each * (a + 1 - lo), Dirs(lo, a + 1), n', ts')
  {
    hide Affords;
    hide Spent;
    hide Dirs;
    assert each * (a - lo) + each == each * (a + 1 - lo) <= each * (hi - lo);
    DirsNext(lo, a);
    DirsMore(lo, a + 1, hi);
    SpentThen(n0, ts0, each * (a - lo), Dirs(lo, a), n, ts, each, {a / ENTRIES});
    if Affords(n0, ts0, each * (hi - lo), Dirs(lo, hi)) {
      AffordsLess(n0, ts0, each * (a + 1 - lo), Dirs(lo, a + 1), each * (hi - lo), Dirs(lo, hi));
    }
  }

  lemma SpentPage(n: nat, ts: set<nat>, ds: set<nat>)
    requires n > 0
    ensures forall n', ts' :: Spent(n - 1, ts, 0, ds, n', ts') ==> Spent(n, ts, 1, ds, n', ts')
  {
  }

  /** What was spent could be afforded. */
  lemma SpentAfforded(n: nat, ts: set<nat>, pages: nat, ds: set<nat>, n': nat, ts': set<nat>)
    requires Spent(n, ts, pages, ds, n', ts')
    ensures Affords(n, ts, pages, ds)
  {
  }

  /** One table. */
  lemma AffordsOne(n: nat, ts: set<nat>, pages: nat, i: nat)
    ensures Affords(n, ts, pages, {i}) <==> n >= pages + if i in ts then 0 else 1
    ensures i in ts && n >= pages ==> Spent(n, ts, pages, {i}, n - pages, ts)
    ensures i !in ts && n >= pages + 1 ==> Spent(n, ts, pages, {i}, n - pages - 1, ts + {i})
  {
    if i in ts {
      assert {i} - ts == {} && ts + {i} == ts;
    } else {
      assert {i} - ts == {i};
    }
  }
}

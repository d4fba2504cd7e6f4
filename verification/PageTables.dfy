/** Page tables and the page allocator (vm.c:32-80, 119-136, 222-298, 316-345;
    kalloc.c:45-95).  Addresses are page numbers; a page of memory is what it is used as. */
module PageTables {
  import opened Options
  import opened PageOwners

  const PGSIZE := 4096

  /** A page that lies in the stretch. */
  predicate WholePage(p: nat, vstart: nat, vend: nat) {
    vstart <= p * PGSIZE && (p + 1) * PGSIZE <= vend
  }

  datatype MapResult = Mapped | NoMemory | Remap

  class Memory<D(!new)> {
    var pages: map<nat, Page<D>>
    var freelist: Option<nat>
    const zero: D
    ghost var own: Owners
    ghost var free: seq<nat>

    ghost predicate Valid()
      reads this
    {
      0 !in pages && FreeList(pages, own, free, freelist) && TreesOk(pages, own)
    }

    ghost predicate Space(d: nat)
      reads this
    {
      d in own && own[d].Root?
    }

    /** kinit1 and kinit2 (kalloc.c:31-43): the whole pages of a stretch of memory, free. */
    constructor (vstart: nat, vend: nat, zero: D)
      requires vstart > 0
      ensures Valid() && forall p: nat :: p in own <==> WholePage(p, vstart, vend)
      ensures forall p :: p in own ==> own[p].Free?
    {
      this.zero := zero;
      pages := map p | 0 <= p < vend && WholePage(p, vstart, vend) :: Data(zero);
      own := map p | 0 <= p < vend && WholePage(p, vstart, vend) :: Other;
      freelist, free := None, [];
      new;
      FreeRange(vstart, vend);
      AllFree(pages, own, free, freelist);
    }

    /** freerange (kalloc.c:45-52). */
    method FreeRange(vstart: nat, vend: nat)
      requires FreeList(pages, own, free, freelist) && pages.Keys == own.Keys
      requires forall p: nat :: WholePage(p, vstart, vend) ==> p in own && own[p].Other?
      modifies `pages, `freelist, `own, `free
      ensures FreeList(pages, own, free, freelist) && pages.Keys == own.Keys == old(own).Keys
      ensures forall p :: p in own ==> own[p] == if WholePage(p, vstart, vend) then Free else old(own)[p]
    {
      hide FreeList;
      var p := (vstart + PGSIZE - 1) / PGSIZE;
      ghost var p0 := p;
      while (p + 1) * PGSIZE <= vend
        invariant p0 <= p && (p == p0 || p * PGSIZE <= vend) && (p0 - 1) * PGSIZE < vstart <= p0 * PGSIZE
        invariant FreeList(pages, own, free, freelist) && pages.Keys == own.Keys == old(own).Keys
        invariant forall q :: q in own ==> own[q] == if p0 <= q < p then Free else old(own)[q]
        decreases vend - p * PGSIZE
      {
        assert WholePage(p, vstart, vend);
        var ok := Kfree(p);
        p := p + 1;
      }
    }

    /** kalloc (kalloc.c:82-95). */
    method Kalloc() returns (p: Option<nat>)
      requires Valid()
      modifies `freelist, `own, `free
      ensures Valid()
      ensures p == None ==> freelist == old(freelist) && own == old(own) && free == old(free) == []
      ensures p.Some? ==> p.value in old(own) && old(own)[p.value].Free? && own == old(own)[p.value := Other]
      ensures p.Some? <==> old(free) != []
      ensures p.Some? ==> free == old(free)[1..]
    {
      hide TreesOk;
      hide FreeList;
      p := freelist;
      if p.Some? {
        PopKeeps(pages, own, free, freelist);
        TakeKeeps(pages, own, p.value);
        freelist := pages[p.value].next;
        own := own[p.value := Other];
        free := free[1..];
      } else {
        NoneFree(pages, own, free, freelist);
      }
    }

    /** kfree (kalloc.c:60-77) of a page in use; a page it may not take panics. */
    method Kfree(p: nat) returns (ok: bool)
      requires FreeList(pages, own, free, freelist) && pages.Keys == own.Keys && (p in own ==> !own[p].Free?)
      modifies `pages, `freelist, `own, `free
      ensures ok <==> p in old(pages)
      ensures ok ==> FreeList(pages, own, free, freelist) && pages == old(pages)[p := Run(old(freelist))] && own == old(own)[p := Free]
      ensures !ok ==> pages == old(pages) && own == old(own) && free == old(free) && freelist == old(freelist)
    {
      hide FreeList;
      if p !in pages { return false; }
      PushKeeps(pages, own, free, freelist, p);
      pages := pages[p := Run(freelist)];
      freelist := Some(p);
      own := own[p := Free];
      free := [p] + free;
      ok := true;
    }

    /** walkpgdir (vm.c:32-57): the page table for a virtual page. */
    method Walk(d: nat, vp: nat, alloc: bool) returns (t: Option<nat>)
      requires Valid() && Space(d) && vp < ENTRIES * ENTRIES
      modifies `pages, `freelist, `own, `free
      ensures Valid() && StepOn(old(pages), old(own), pages, own, d) && Grown(old(pages), old(own), pages, own)
      ensures forall vp': nat :: Lookup(pages, d, vp') == Lookup(old(pages), d, vp')
      ensures t == None <==> EntryAt(old(pages), d, vp / ENTRIES) == Absent && (!alloc || old(free) == [])
      ensures alloc ==> (t.Some? <==> Affords(|old(free)|, Tables(old(pages), d), 0, {vp / ENTRIES}))
      ensures alloc && t.Some? ==> Spent(|old(free)|, Tables(old(pages), d), 0, {vp / ENTRIES}, |free|, Tables(pages, d))
      ensures t.Some? ==> TableAt(pages, own, d, vp / ENTRIES, t.value)
      ensures t == None || !alloc || Lookup(old(pages), d, vp).Present? ==> pages == old(pages) && own == old(own) && freelist == old(freelist) && free == old(free)
    {
      hide TreesOk;
      hide FreeList;
      hide StepOn;
      hide Grown;
      hide Affords;
      hide Spent;
      hide Tables;
      RootEntries(pages, own, d);
      var i := vp / ENTRIES;
      InTables(pages, d, i);
      AffordsOne(|free|, Tables(pages, d), 0, i);
      var pde := pages[d].entries[i];
      if pde.Present? {
        TableHeld(pages, own, d, i);
        StepNone(pages, own, d);
        t := Some(pde.page);
        return;
      }
      StepNone(pages, own, d);
      if !alloc { return None; }
      t := AddTable(d, i);
    }

    /** A new, blank page table for entry `i` of the directory (vm.c:42-49). */
    method AddTable(d: nat, i: nat) returns (t: Option<nat>)
      requires Valid() && Space(d) && i < ENTRIES && EntryAt(pages, d, i) == Absent
      modifies `pages, `freelist, `own, `free
      ensures Valid() && (t.Some? <==> old(free) != [])
      ensures t == None ==> pages == old(pages) && own == old(own) && freelist == old(freelist) && free == old(free)
      ensures t.Some? ==>
                && StepOn(old(pages), old(own), pages, own, d) && Grown(old(pages), old(own), pages, own)
                && TableAt(pages, own, d, i, t.value) && |free| == |old(free)| - 1 && Tables(pages, d) == Tables(old(pages), d) + {i}
                && forall vp: nat :: Lookup(pages, d, vp) == Lookup(old(pages), d, vp)
    {
      hide TreesOk;
      hide FreeList;
      hide StepOn;
      hide Grown;
      hide Tables;
      hide Lookup;
      KeysSame(pages, own);
      t := Kalloc();
      if t == None { return; }
      ghost var own0 := old(own);
      ghost var p := t.value;
      TableAdded(pages, own0, d, i, p);
      FreeFrame(pages, own, SetEntry(pages[p := Table(BLANK)], d, i, Present(p, OPEN)), own0[p := Ref(d, i, false)], free, freelist);
      pages := pages[t.value := Table(BLANK)];
      pages := SetEntry(pages, d, i, Present(t.value, OPEN));
      own := own[p := Ref(d, i, false)];
      assert own == own0[p := Ref(d, i, false)];
    }

    /** One turn of mappages (vm.c:70-78).  A page below KERNBASE comes to belong to the
        address space. */
    method MapPage(d: nat, vp: nat, p: nat, flags: Flags) returns (r: MapResult)
      requires Valid() && Space(d) && vp < ENTRIES * ENTRIES
      requires vp < KPAGES ==> p in own && own[p].Other? && pages[p].Data?
      modifies `pages, `freelist, `own, `free
      ensures Valid() && Space(d)
      ensures r.Remap? <==> Lookup(old(pages), d, vp).Present?
      ensures !r.Mapped? ==> pages == old(pages) && own == old(own) && freelist == old(freelist) && free == old(free)
      ensures !r.Remap? ==> (r.Mapped? <==> Affords(|old(free)|, Tables(old(pages), d), 0, {vp / ENTRIES}))
      ensures r.Mapped? ==> Spent(|old(free)|, Tables(old(pages), d), 0, {vp / ENTRIES}, |free|, Tables(pages, d))
      ensures r.Mapped? ==>
                && StepOn(old(pages), Given(old(own), vp, p), pages, own, d) && Grown(old(pages), Given(old(own), vp, p), pages, own)
                && (forall vp': nat :: Lookup(pages, d, vp') == if vp' == vp then Present(p, flags) else Lookup(old(pages), d, vp'))
                && (vp < KPAGES ==> p in pages && pages[p] == old(pages)[p] && own[p].Ref?)
    {
      hide TreesOk;
      hide FreeList;
      hide StepOn;
      hide Grown;
      hide Lookup;
      hide Affords;
      hide Spent;
      hide Tables;
      var t := Walk(d, vp, true);
      if t == None {
        LookupNone(pages, d, vp);
        return NoMemory;
      }
      var j := vp % ENTRIES;
      TableEntries(pages, own, d, vp, t.value);
      if pages[t.value].entries[j].Present? { return Remap; }
      ghost var pages1, own1 := pages, own;
      if vp < KPAGES {
        LeafAdded(old(pages), old(own), pages, own, d, vp, t.value, p, flags);
        FreeFrame(pages, own, SetEntry(pages, t.value, j, Present(p, flags)), own[p := Ref(t.value, j, true)], free, freelist);
        own := own[p := Ref(t.value, j, true)];
      } else {
        KernelAdded(old(pages), old(own), pages, own, d, vp, t.value, Present(p, flags));
        FreeFrame(pages, own, SetEntry(pages, t.value, j, Present(p, flags)), own, free, freelist);
      }
      TablesKept(pages, own, d, vp / ENTRIES, t.value, j, Present(p, flags));
      pages := SetEntry(pages, t.value, j, Present(p, flags));
      r := Mapped;
    }

    /** The page of one entry goes back, and the entry (vm.c:270-276); neither panic there
        can happen. */
    method FreeLeaf(ghost d: nat, ghost vp: nat, t: nat, j: nat) returns (ok: bool)
      requires Valid() && Space(d) && vp < KPAGES && TableAt(pages, own, d, vp / ENTRIES, t) && j == vp % ENTRIES && Lookup(pages, d, vp).Present?
      modifies `pages, `freelist, `own, `free
      ensures ok && Valid() && StepOn(old(pages), old(own), pages, own, d) && Shrunk(old(pages), old(own), pages, own)
      ensures forall vp': nat :: Lookup(pages, d, vp') == if vp' == vp then Absent else Lookup(old(pages), d, vp')
    {
      hide TreesOk;
      hide FreeList;
      hide StepOn;
      hide Shrunk;
      hide Lookup;
      TableEntries(pages, own, d, vp, t);
      var p := pages[t].entries[j].page;
      LeafFreed(pages, own, d, vp, t, p, Run(freelist));
      if p == 0 { return false; }
      ok := Kfree(p);
      FreeFrame(pages, own, SetEntry(pages, t, j, Absent), own, free, freelist);
      pages := SetEntry(pages, t, j, Absent);
    }

    /** deallocuvm (vm.c:255-279): the jump over absent tables gives back the same pages as
        a walk of every page from `newsz` to `oldsz`. */
    method Deallocuvm(d: nat, oldsz: nat, newsz: nat) returns (sz: nat)
      requires Valid() && Space(d) && oldsz <= KERNBASE
      modifies `pages, `freelist, `own, `free
      ensures Valid() && StepOn(old(pages), old(own), pages, own, d) && Shrunk(old(pages), old(own), pages, own)
      ensures sz == if newsz >= oldsz then oldsz else newsz
      ensures forall vp: nat :: Lookup(pages, d, vp) == if PagesUp(newsz) <= vp < PagesUp(oldsz) then Absent else Lookup(old(pages), d, vp)
    {
      hide TreesOk;
      hide FreeList;
      hide StepOn;
      hide Shrunk;
      hide Lookup;
      StepNone(pages, own, d);
      if newsz >= oldsz { return oldsz; }
      var a := PagesUp(newsz);
      ghost var lo, pages0, own0 := a, pages, own;
      while a * PGSIZE < oldsz
        invariant lo <= a && Valid() && Space(d) && StepOn(pages0, own0, pages, own, d) && Shrunk(pages0, own0, pages, own)
        invariant forall vp: nat :: Lookup(pages, d, vp) == if lo <= vp < a && vp < PagesUp(oldsz) then Absent else Lookup(pages0, d, vp)
        decreases oldsz - a * PGSIZE
      {
        ghost var pages1, own1 := pages, own;
        assert a < PagesUp(oldsz) <= KPAGES;
        StepNone(pages, own, d);
        var t := Walk(d, a, false);
        if t == None {
          NothingMapped(pages, d, a);
          a := (a / ENTRIES + 1) * ENTRIES;
        } else {
          TableEntries(pages, own, d, a, t.value);
          if pages[t.value].entries[a % ENTRIES].Present? {
            var ok := FreeLeaf(d, a, t.value, a % ENTRIES);
          }
          StepTrans(pages0, own0, pages1, own1, pages, own, d);
          ShrunkTrans(pages0, own0, pages1, own1, pages, own);
          a := a + 1;
        }
      }
      sz := newsz;
    }

    /** kalloc and a fill of the page, which is still nobody's. */
    method NewPage(data: D) returns (p: Option<nat>)
      requires Valid()
      modifies `pages, `freelist, `own, `free
      ensures Valid()
      ensures p == None ==> pages == old(pages) && own == old(own)
      ensures p.Some? <==> old(free) != []
      ensures p.Some? ==> |free| == |old(free)| - 1
      ensures p.Some? ==> p.value in old(own) && old(own)[p.value].Free? && own == old(own)[p.value := Other] && pages == old(pages)[p.value := Data(data)]
      ensures SameLookups(old(pages), pages, own)
    {
      hide TreesOk;
      hide FreeList;
      hide SameLookups;
      p := Kalloc();
      KeysSame(pages, own);
      OtherPage(pages, own, p, Data(data));
      if p.Some? {
        FreeFrame(pages, own, pages[p.value := Data(data)], own, free, freelist);
        pages := pages[p.value := Data(data)];
      }
    }

    /** kfree of a page that is nobody's. */
    method DropPage(p: nat)
      requires Valid() && p in own && own[p].Other?
      modifies `pages, `freelist, `own, `free
      ensures Valid() && own == old(own)[p := Free] && pages == old(pages)[p := Run(old(freelist))] && SameLookups(old(pages), pages, own)
    {
      hide TreesOk;
      hide FreeList;
      hide SameLookups;
      OtherFree(pages, own, p, Run(freelist));
      KeysSame(pages, own);
      var ok := Kfree(p);
    }

    /** A new page with the given contents, mapped at `vp`: the common part of the loops of
        allocuvm and copyuvm. */
    method AddPage(d: nat, vp: nat, data: D, flags: Flags) returns (r: AddResult)
      requires Valid() && Space(d) && vp < KPAGES && Lookup(pages, d, vp) == Absent
      modifies `pages, `freelist, `own, `free
      ensures Valid() && Space(d)
      ensures r.Added? <==> Affords(|old(free)|, Tables(old(pages), d), 1, {vp / ENTRIES})
      ensures r.Added? ==> Spent(|old(free)|, Tables(old(pages), d), 1, {vp / ENTRIES}, |free|, Tables(pages, d))
      ensures r.Added? ==>
                && StepOn(old(pages), old(own), pages, own, d) && Grown(old(pages), old(own), pages, own)
                && View(pages, d, vp) == Some((data, flags))
                && (forall vp': nat :: vp' != vp ==> Lookup(pages, d, vp') == Lookup(old(pages), d, vp'))
      ensures r.NoPage? ==> pages == old(pages) && own == old(own)
      ensures r.NoTable? ==>
                && r.mem in old(own) && old(own)[r.mem].Free? && own == old(own)[r.mem := Other]
                && pages == old(pages)[r.mem := Data(data)] && SameLookups(old(pages), pages, own)
    {
      hide TreesOk;
      hide FreeList;
      hide StepOn;
      hide Grown;
      hide Lookup;
      hide Affords;
      hide Spent;
      ghost var pages0, own0, n0 := pages, own, |free|;
      KeysSame(pages, own);
      StepNone(pages, own, d);
      AffordsOne(n0, Tables(pages, d), 1, vp / ENTRIES);
      var p := NewPage(data);
      if p == None { return NoPage; }
      FilledFree(pages0, own0, d, p.value, Data(data));
      assert Tables(pages, d) == Tables(pages0, d);
      AffordsOne(|free|, Tables(pages, d), 0, vp / ENTRIES);
      SpentPage(n0, Tables(pages, d), {vp / ENTRIES});
      ghost var pages1 := pages;
      assert Given(own, vp, p.value) == own0;
      var m := MapPage(d, vp, p.value, flags);
      if m != Mapped { return NoTable(p.value); }
      StepTrans(pages0, own0, pages1, own0, pages, own, d);
      GrownTrans(pages0, own0, pages1, own0, pages, own);
      r := Added;
    }

    /** allocuvm (vm.c:222-247), for pages not mapped yet (one that is panics in mappages).
        It gives zeroed pages from `oldsz` to `newsz`, or `ok` is false and the user mapping
        is what it was. */
    method Allocuvm(d: nat, oldsz: nat, newsz: nat) returns (sz: nat, ghost ok: bool)
      requires Valid() && Space(d)
      requires forall vp: nat :: PagesUp(oldsz) <= vp < PagesUp(newsz) && vp < KPAGES ==> Lookup(pages, d, vp) == Absent
      modifies `pages, `freelist, `own, `free
      ensures Valid() && StepOn(old(pages), old(own), pages, own, d)
      ensures sz == if !ok then 0 else if newsz < oldsz then oldsz else newsz
      ensures ok <==> newsz < KERNBASE && (newsz < oldsz || CanGrow(old(|free|), old(pages), d, oldsz, newsz))
      ensures newsz >= KERNBASE || newsz < oldsz ==> pages == old(pages) && own == old(own)
      ensures ok && oldsz <= newsz ==> forall vp: nat :: vp < KPAGES ==>
                View(pages, d, vp) == if PagesUp(oldsz) <= vp < PagesUp(newsz) then Some((zero, OPEN)) else View(old(pages), d, vp)
      ensures !ok || newsz < oldsz ==> forall vp: nat :: vp < KPAGES ==> View(pages, d, vp) == View(old(pages), d, vp)
      ensures forall vp: nat :: !ok || !(PagesUp(oldsz) <= vp < PagesUp(newsz)) ==> Lookup(pages, d, vp) == Lookup(old(pages), d, vp)
    {
      hide TreesOk;
      hide FreeList;
      hide StepOn;
      hide Grown;
      hide Shrunk;
      hide Lookup;
      hide View;
      hide Affords;
      hide Spent;
      hide Dirs;
      hide Tables;
      StepNone(pages, own, d);
      if newsz >= KERNBASE { return 0, false; }
      if newsz < oldsz { return oldsz, true; }
      var a := PagesUp(oldsz);
      ghost var lo, pages0, own0, n0, ts0 := a, pages, own, |free|, Tables(pages, d);
      SpentNone(n0, ts0, a);
      while a * PGSIZE < newsz
        invariant lo <= a <= PagesUp(newsz) && Valid() && Space(d) && StepOn(pages0, own0, pages, own, d) && Grown(pages0, own0, pages, own)
        invariant forall vp: nat :: lo <= vp < a ==> View(pages, d, vp) == Some((zero, OPEN))
        invariant forall vp: nat :: !(lo <= vp < a) ==> Lookup(pages, d, vp) == Lookup(pages0, d, vp)
        invariant Spent(n0, ts0, a - lo, Dirs(lo, a), |free|, Tables(pages, d))
        decreases newsz - a * PGSIZE
      {
        assert a < PagesUp(newsz) <= KPAGES;
        SpendTurn(n0, ts0, 1, lo, a, PagesUp(newsz), |free|, Tables(pages, d));
        ghost var pages1, own1 := pages, own;
        var r := AddPage(d, a, zero, OPEN);
        if !r.Added? {
          Giveup(d, newsz, oldsz, r, pages0, own0, pages1, own1);
          return 0, false;
        }
        StepTrans(pages0, own0, pages1, own1, pages, own, d);
        GrownTrans(pages0, own0, pages1, own1, pages, own);
        forall vp: nat | lo <= vp < a
          ensures View(pages, d, vp) == Some((zero, OPEN))
        {
          ViewGrown(pages1, own1, pages, own, d, vp);
        }
        a := a + 1;
      }
      forall vp: nat | vp < KPAGES && !(lo <= vp < PagesUp(newsz))
        ensures View(pages, d, vp) == View(pages0, d, vp)
      {
        ViewGrown(pages0, own0, pages, own, d, vp);
      }
      SpentAfforded(n0, ts0, a - lo, Dirs(lo, a), |free|, Tables(pages, d));
      sz, ok := newsz, true;
    }

    /** allocuvm runs out: what it mapped goes back, and the page it has in hand. */
    method Giveup(d: nat, newsz: nat, oldsz: nat, r: AddResult, ghost pages0: map<nat, Page<D>>, ghost own0: Owners, ghost pages1: map<nat, Page<D>>, ghost own1: Owners)
      requires Valid() && Space(d) && oldsz <= newsz < KERNBASE && !r.Added?
      requires TreesOk(pages0, own0) && TreesOk(pages1, own1) && StepOn(pages0, own0, pages1, own1, d) && Grown(pages0, own0, pages1, own1)
      requires r.NoPage? ==> pages == pages1 && own == own1
      requires r.NoTable? ==> r.mem in own1 && own1[r.mem].Free? && own == own1[r.mem := Other] && pages == pages1[r.mem := Data(zero)]
      requires SameLookups(pages1, pages, own)
      requires forall vp: nat :: PagesUp(oldsz) <= vp < PagesUp(newsz) ==> Lookup(pages0, d, vp) == Absent
      requires forall vp: nat :: !(PagesUp(oldsz) <= vp < PagesUp(newsz)) ==> Lookup(pages1, d, vp) == Lookup(pages0, d, vp)
      modifies `pages, `freelist, `own, `free
      ensures Valid() && StepOn(pages0, own0, pages, own, d)
      ensures forall vp: nat :: Lookup(pages, d, vp) == Lookup(pages0, d, vp)
      ensures forall vp: nat :: vp < KPAGES ==> View(pages, d, vp) == View(pages0, d, vp)
    {
      hide TreesOk;
      hide FreeList;
      hide StepOn;
      hide Grown;
      hide Shrunk;
      hide Lookup;
      hide View;
      ghost var pages2, own2 := pages, own;
      KeysSame(pages1, own1);
      GrownHand(pages0, own0, pages1, own1, pages, own, r);
      var _ := Deallocuvm(d, newsz, oldsz);
      if r.NoTable? {
        ghost var pages3, own3 := pages, own;
        KeysSame(pages, own);
        HandKept(pages2, own2, pages3, own3, d, r.mem);
        DropPage(r.mem);
        ShrunkDrop(pages3, own3, pages, own, r.mem);
        ShrunkTrans(pages2, own2, pages3, own3, pages, own);
        StepHand(pages0, own0, pages1, own1, pages2, own2, pages3, own3, pages, own, d, r.mem);
      } else {
        StepTrans(pages0, own0, pages1, own1, pages, own, d);
      }
      StepRoots(pages0, own0, pages, own, d);
      forall vp: nat | vp < KPAGES
        ensures View(pages, d, vp) == View(pages0, d, vp)
      {
        if PagesUp(oldsz) <= vp < PagesUp(newsz) {
          ViewAbsent(pages, d, vp);
          ViewAbsent(pages0, d, vp);
        } else {
          ViewGrown(pages0, own0, pages2, own2, d, vp);
          ViewShrunk(pages2, own2, pages, own, d, vp);
        }
      }
    }

    /** freevm (vm.c:283-299): everything of the address space goes back, and nothing else. */
    method Freevm(d: nat)
      requires Valid() && Space(d)
      modifies `pages, `freelist, `own, `free
      ensures Valid() && own == Released(old(own), d) && Apart(old(pages), pages, old(own), d)
    {
      hide TreesOk;
      hide FreeList;
      hide Lookup;
      hide SameLookups;
      ghost var pages0, own0 := pages, own;
      var _ := Deallocuvm(d, KERNBASE, 0);
      ghost var own1 := own;
      RootEntries(pages, own, d);
      Detach(pages, own, d);
      FreeFrame(pages, own, pages, Detached(own, d, 0), free, freelist);
      own := Detached(own, d, 0);
      FreeTables(d, pages[d].entries, pages0, own0, own1);
      DropPage(d);
      DetachedAll(own0, own1, d);
    }

    /** The loop over the directory (vm.c:291-296). */
    method FreeTables(d: nat, entries: seq<Entry>, ghost pages0: map<nat, Page<D>>, ghost own0: Owners, ghost own1: Owners)
      requires Valid() && d in own1 && own1[d].Root? && own == Detached(own1, d, 0) && |entries| == ENTRIES
      requires TreesOk(pages, own1) && d in pages && pages[d] == Table(entries)
      requires Apart(pages0, pages, own0, d) && Released(own1, d) == Released(own0, d)
      modifies `pages, `freelist, `own, `free
      ensures Valid() && own == Detached(own1, d, ENTRIES) && Apart(pages0, pages, own0, d)
    {
      hide TreesOk;
      hide FreeList;
      hide SameLookups;
      hide Detached;
      hide Released;
      hide Under;
      ghost var pages1 := pages;
      var i := 0;
      while i < ENTRIES
        invariant i <= ENTRIES && Valid() && own == Detached(own1, d, i) && d in pages && pages[d] == Table(entries)
        invariant Apart(pages0, pages, own0, d)
      {
        DetachedNext(pages1, own1, d, i);
        if entries[i].Present? {
          ApartUnder(own0, own1, d, entries[i].page);
          KeysSame(pages, own);
          DropPage(entries[i].page);
        }
        i := i + 1;
      }
    }
  }

  /** A directory being taken down: its tables below entry `i` are free, it and the others
      are nobody's. */
  ghost function Detached(own: Owners, d: nat, i: nat): (r: Owners)
    ensures r.Keys == own.Keys
  {
    map p | p in own :: if p == d then Other else if TableOf(own, d, p) then (if own[p].idx < i then Free else Other) else own[p]
  }

  /** A user page of `d` is found by some lookup. */
  lemma LeafLookup<D(!new)>(pages: map<nat, Page<D>>, own: Owners, d: nat, p: nat)
    requires TreesOk(pages, own) && d in own && own[d].Root? && p in own && own[p].Ref? && TableOf(own, d, own[p].parent)
    ensures exists vp: nat :: vp < KPAGES && Lookup(pages, d, vp).Present?
  {
    var t, j := own[p].parent, own[p].idx;
    assert Holder(own, t) && EntryAt(pages, t, j).Present?;
    var vp := own[t].idx * ENTRIES + j;
    assert EntryAt(pages, d, own[t].idx).page == t;
    assert vp / ENTRIES == own[t].idx && vp % ENTRIES == j;
    assert Lookup(pages, d, vp) == EntryAt(pages, t, j);
  }

  lemma Detach<D(!new)>(pages: map<nat, Page<D>>, own: Owners, d: nat)
    requires TreesOk(pages, own) && d in own && own[d].Root?
    requires forall vp: nat :: vp < KPAGES ==> Lookup(pages, d, vp) == Absent
    ensures TreesOk(pages, Detached(own, d, 0))
    ensures forall p :: p in own && own[p].Ref? ==> !TableOf(own, d, own[p].parent)
    ensures forall p :: TableOf(own, d, p) ==> own[p].idx < ENTRIES
    ensures forall p :: p in own ==> (Detached(own, d, 0)[p].Free? <==> own[p].Free?)
  {
    forall p | p in own && own[p].Ref?
      ensures !TableOf(own, d, own[p].parent)
    {
      if TableOf(own, d, own[p].parent) {
        LeafLookup(pages, own, d, p);
        assert false;
      }
    }
    var own' := Detached(own, d, 0);
    assert forall q :: Holder(own', q) ==> Holder(own, q) && own'[q] == own[q];
  }

  lemma DetachedNext<D(!new)>(pages: map<nat, Page<D>>, own: Owners, d: nat, i: nat)
    requires TreesOk(pages, own) && d in own && own[d].Root? && i < ENTRIES && d in pages && pages[d].Table?
    ensures |pages[d].entries| == ENTRIES
    ensures pages[d].entries[i].Present? ==>
              var t := pages[d].entries[i].page;
              t in own && t != d && Detached(own, d, i)[t].Other? && Under(own, d, t) && Detached(own, d, i + 1) == Detached(own, d, i)[t := Free]
    ensures pages[d].entries[i] == Absent ==> Detached(own, d, i + 1) == Detached(own, d, i)
  {
    assert Holder(own, d);
    assert EntryAt(pages, d, i) == pages[d].entries[i];
    if pages[d].entries[i].Present? {
      var t := pages[d].entries[i].page;
      assert own[t] == Ref(d, i, false);
      assert Detached(own, d, i + 1) == Detached(own, d, i)[t := Free];
    } else {
      assert Detached(own, d, i + 1) == Detached(own, d, i);
    }
  }

  lemma ApartUnder(own0: Owners, own1: Owners, d: nat, t: nat)
    requires Released(own1, d) == Released(own0, d) && t in own1 && Under(own1, d, t)
    ensures t in own0 && (own0[t].Free? || Under(own0, d, t))
  {
  }

  lemma DetachedAll(own0: Owners, own1: Owners, d: nat)
    requires Released(own1, d) == Released(own0, d) && d in own1
    requires forall p :: p in own1 && own1[p].Ref? ==> !TableOf(own1, d, own1[p].parent)
    requires forall p :: TableOf(own1, d, p) ==> own1[p].idx < ENTRIES
    ensures Detached(own1, d, ENTRIES)[d := Free] == Released(own0, d)
  {
  }

  lemma StepRoots<D(!new)>(pages: map<nat, Page<D>>, own: Owners, pages': map<nat, Page<D>>, own': Owners, d: nat)
    requires StepOn(pages, own, pages', own', d)
    ensures d in own && own[d].Root? && d in own' && own'[d].Root?
  {
  }

  lemma ViewAbsent<D>(pages: map<nat, Page<D>>, d: nat, vp: nat)
    requires Lookup(pages, d, vp) == Absent
    ensures View(pages, d, vp) == None
  {
  }

  lemma GrownHand<D(!new)>(pages0: map<nat, Page<D>>, own0: Owners, pages1: map<nat, Page<D>>, own1: Owners, pages: map<nat, Page<D>>, own: Owners, r: AddResult)
    requires Grown(pages0, own0, pages1, own1) && !r.Added?
    requires r.NoPage? ==> pages == pages1 && own == own1
    requires r.NoTable? ==> r.mem in own1 && own1[r.mem].Free? && own == own1[r.mem := Other] && pages.Keys == pages1.Keys && pages == pages1[r.mem := pages[r.mem]]
    ensures Grown(pages0, own0, pages, own)
  {
  }

  /** The page in hand is under no directory, so a step on `d` leaves it. */
  lemma HandKept<D(!new)>(pages: map<nat, Page<D>>, own: Owners, pages': map<nat, Page<D>>, own': Owners, d: nat, mem: nat)
    requires StepOn(pages, own, pages', own', d) && mem in own && own[mem].Other?
    ensures mem in own' && own'[mem].Other?
  {
  }

  lemma ShrunkDrop<D(!new)>(pages: map<nat, Page<D>>, own: Owners, pages': map<nat, Page<D>>, own': Owners, p: nat)
    requires pages.Keys == own.Keys && p in own && own[p].Other? && own' == own[p := Free] && pages'.Keys == pages.Keys
    requires forall q :: q in pages && q != p ==> pages'[q] == pages[q]
    ensures Shrunk(pages, own, pages', own')
  {
  }

  /** Taking a page, a step on `d`, and giving the page back: a step on `d`. */
  lemma StepHand<D(!new)>(pages0: map<nat, Page<D>>, own0: Owners, pages1: map<nat, Page<D>>, own1: Owners,
                          pages2: map<nat, Page<D>>, own2: Owners, pages3: map<nat, Page<D>>, own3: Owners,
                          pages: map<nat, Page<D>>, own: Owners, d: nat, mem: nat)
    requires StepOn(pages0, own0, pages1, own1, d) && TreesOk(pages1, own1) && mem in own1 && own1[mem].Free?
    requires own2 == own1[mem := Other] && pages2.Keys == pages1.Keys && (forall q :: q in pages1 && q != mem ==> pages2[q] == pages1[q])
    requires TreesOk(pages2, own2) && TreesOk(pages3, own3) && StepOn(pages2, own2, pages3, own3, d) && mem in own3 && own3[mem].Other?
    requires own == own3[mem := Free] && pages.Keys == pages3.Keys && (forall q :: q in pages3 && q != mem ==> pages[q] == pages3[q])
    ensures StepOn(pages0, own0, pages, own, d)
  {
    hide TreesOk;
    hide Released;
    hide Under;
    ReleasedDrop(pages2, own2, d, mem);
    ReleasedDrop(pages3, own3, d, mem);
    assert own2[mem := Free] == own1;
    ApartHand(pages1, own1, pages2, own2, d, mem);
    assert StepOn(pages1, own1, pages, own, d);
    StepTrans(pages0, own0, pages1, own1, pages, own, d);
  }

  lemma ApartHand<D(!new)>(pages1: map<nat, Page<D>>, own1: Owners, pages2: map<nat, Page<D>>, own2: Owners, d: nat, mem: nat)
    requires d in own1 && d != mem && mem in own1 && own1[mem].Free? && own2 == own1[mem := Other]
    ensures forall q :: q in own1 && !own1[q].Free? && !Under(own1, d, q) ==> !Under(own2, d, q)
  {
  }

  datatype AddResult = Added | NoPage | NoTable(mem: nat)

  /** What a user page shows: its contents and flags. */
  function View<D>(pages: map<nat, Page<D>>, d: nat, vp: nat): Option<(D, Flags)> {
    var e := Lookup(pages, d, vp);
    if e.Present? && e.page in pages && pages[e.page].Data? then Some((pages[e.page].data, e.flags)) else None
  }

  /** Filling a free page concerns nobody. */
  lemma FilledFree<D(!new)>(pages: map<nat, Page<D>>, own: Owners, d: nat, p: nat, x: Page<D>)
    requires pages.Keys == own.Keys && d in own && own[d].Root? && p in own && own[p].Free?
    ensures StepOn(pages, own, pages[p := x], own, d) && Grown(pages, own, pages[p := x], own)
  {
  }

  lemma GrownTrans<D(!new)>(pages: map<nat, Page<D>>, own: Owners, pages1: map<nat, Page<D>>, own1: Owners, pages2: map<nat, Page<D>>, own2: Owners)
    requires Grown(pages, own, pages1, own1) && Grown(pages1, own1, pages2, own2)
    ensures Grown(pages, own, pages2, own2)
  {
  }

  lemma ViewGrown<D(!new)>(pages: map<nat, Page<D>>, own: Owners, pages': map<nat, Page<D>>, own': Owners, d: nat, vp: nat)
    requires TreesOk(pages, own) && Grown(pages, own, pages', own') && d in own && own[d].Root? && vp < KPAGES
    requires Lookup(pages', d, vp) == Lookup(pages, d, vp)
    ensures View(pages', d, vp) == View(pages, d, vp)
  {
  }

  lemma ViewShrunk<D(!new)>(pages: map<nat, Page<D>>, own: Owners, pages': map<nat, Page<D>>, own': Owners, d: nat, vp: nat)
    requires TreesOk(pages', own') && Shrunk(pages, own, pages', own') && d in own' && own'[d].Root? && vp < KPAGES
    requires Lookup(pages', d, vp) == Lookup(pages, d, vp)
    ensures View(pages', d, vp) == View(pages, d, vp)
  {
  }

  /** No address space has changed. */
  ghost predicate SameLookups<D(!new)>(pages: map<nat, Page<D>>, pages': map<nat, Page<D>>, own: Owners) {
    forall d: nat, vp: nat :: d in own && own[d].Root? ==> Lookup(pages', d, vp) == Lookup(pages, d, vp)
  }

  lemma KeysSame<D(!new)>(pages: map<nat, Page<D>>, own: Owners)
    requires TreesOk(pages, own)
    ensures pages.Keys == own.Keys
  {
  }

  lemma LookupOther<D(!new)>(pages: map<nat, Page<D>>, own: Owners, p: nat, x: Page<D>, d: nat, vp: nat)
    requires TreesOk(pages, own) && p in own && own[p].Other? && d in own && own[d].Root?
    ensures Lookup(pages[p := x], d, vp) == Lookup(pages, d, vp)
  {
  }

  lemma OtherPage<D(!new)>(pages: map<nat, Page<D>>, own: Owners, p: Option<nat>, x: Page<D>)
    requires TreesOk(pages, own) && (p.Some? ==> p.value in own && own[p.value].Other?)
    ensures p.Some? ==> TreesOk(pages[p.value := x], own) && SameLookups(pages, pages[p.value := x], own)
    ensures SameLookups(pages, pages, own)
  {
    if p.Some? {
      var pages' := pages[p.value := x];
      forall q, i
        ensures Holder(own, q) ==> EntryAt(pages', q, i) == EntryAt(pages, q, i)
      {
      }
      forall d, vp | d in own && own[d].Root?
        ensures Lookup(pages[p.value := x], d, vp) == Lookup(pages, d, vp)
      {
        LookupOther(pages, own, p.value, x, d, vp);
      }
    }
  }

  lemma OtherFree<D(!new)>(pages: map<nat, Page<D>>, own: Owners, p: nat, x: Page<D>)
    requires TreesOk(pages, own) && p in own && own[p].Other?
    ensures TreesOk(pages[p := x], own[p := Free]) && SameLookups(pages, pages[p := x], own[p := Free])
  {
    OtherPage(pages, own, Some(p), x);
    var own' := own[p := Free];
    assert forall q :: (Holder(own', q) <==> Holder(own, q)) && (IsTable(own', q) <==> IsTable(own, q));
  }

  const KERNBASE := 0x8000_0000

  /** There are pages, and pages for the tables that are missing, to grow from `oldsz` to `newsz`. */
  ghost predicate CanGrow<D(!new)>(n: nat, pages: map<nat, Page<D>>, d: nat, oldsz: nat, newsz: nat) {
    oldsz <= newsz && Affords(n, Tables(pages, d), PagesUp(newsz) - PagesUp(oldsz), Dirs(PagesUp(oldsz), PagesUp(newsz)))
  }

  /** PGROUNDUP, in pages. */
  function PagesUp(sz: nat): nat {
    (sz + PGSIZE - 1) / PGSIZE
  }

  lemma NothingMapped<D>(pages: map<nat, Page<D>>, d: nat, vp: nat)
    requires EntryAt(pages, d, vp / ENTRIES) == Absent
    ensures forall vp': nat :: vp <= vp' < (vp / ENTRIES + 1) * ENTRIES ==> Lookup(pages, d, vp') == Absent
  {
  }

  lemma ShrunkTrans<D(!new)>(pages: map<nat, Page<D>>, own: Owners, pages1: map<nat, Page<D>>, own1: Owners, pages2: map<nat, Page<D>>, own2: Owners)
    requires Shrunk(pages, own, pages1, own1) && Shrunk(pages1, own1, pages2, own2)
    ensures Shrunk(pages, own, pages2, own2)
  {
  }

  lemma LeafFreed<D(!new)>(pages: map<nat, Page<D>>, own: Owners, d: nat, vp: nat, t: nat, p: nat, x: Page<D>)
    requires TreesOk(pages, own) && d in own && own[d].Root? && vp < KPAGES && TableAt(pages, own, d, vp / ENTRIES, t)
    requires Lookup(pages, d, vp).Present? && Lookup(pages, d, vp).page == p
    ensures p in own && own[p] == Ref(t, vp % ENTRIES, true) && t != p && t in pages && pages[t].Table? && vp % ENTRIES < |pages[t].entries|
    ensures var pages', own' := SetEntry(pages[p := x], t, vp % ENTRIES, Absent), own[p := Free];
            && TreesOk(pages', own') && StepOn(pages, own, pages', own', d) && Shrunk(pages, own, pages', own')
            && (forall vp': nat :: Lookup(pages', d, vp') == if vp' == vp then Absent else Lookup(pages, d, vp'))
  {
    var j := vp % ENTRIES;
    TableEntries(pages, own, d, vp, t);
    assert Holder(own, t);
    UnlinkLeaf(pages, own, t, j, p, x);
    var pages1, own1 := pages[p := x], own[p := Free];
    var pages' := SetEntry(pages1, t, j, Absent);
    ReleasedUnlink(pages, own, d, p);
    var pages2 := SetEntry(pages, t, j, Absent);
    forall vp'
      ensures Lookup(pages', d, vp') == if vp' == vp then Absent else Lookup(pages, d, vp')
    {
      LookupEntry(pages, own, d, t, j, Absent, d, vp');
      DataIrrelevant(pages, own, t, j, p, x, d, vp');
    }
    assert Under(own, d, t) && Under(own, d, p);
  }

  /** A data page is no part of a lookup. */
  lemma DataIrrelevant<D(!new)>(pages: map<nat, Page<D>>, own: Owners, t: nat, j: nat, p: nat, x: Page<D>, d: nat, vp: nat)
    requires TreesOk(pages, own) && d in own && own[d].Root? && p in own && own[p].Ref? && own[p].leaf
    requires t != p && t in pages && pages[t].Table? && j < |pages[t].entries|
    requires IsTable(own, t) && own[t].Ref?
    ensures Lookup(SetEntry(pages[p := x], t, j, Absent), d, vp) == Lookup(SetEntry(pages, t, j, Absent), d, vp)
  {
    var k := vp / ENTRIES;
    SetEntryAt(pages[p := x], t, j, Absent, d, k);
    SetEntryAt(pages, t, j, Absent, d, k);
    assert d != p && d != t;
    var e := EntryAt(pages, d, k);
    if e.Present? {
      assert Holder(own, d) && own[e.page] == Ref(d, k, false);
      SetEntryAt(pages[p := x], t, j, Absent, e.page, vp % ENTRIES);
      SetEntryAt(pages, t, j, Absent, e.page, vp % ENTRIES);
    }
  }

  /** The holdings as if the page to be mapped were free. */
  ghost function Given(own: Owners, vp: nat, p: nat): Owners {
    if vp < KPAGES then own[p := Free] else own
  }

  lemma LookupNone<D>(pages: map<nat, Page<D>>, d: nat, vp: nat)
    requires EntryAt(pages, d, vp / ENTRIES) == Absent
    ensures Lookup(pages, d, vp) == Absent
  {
  }

  lemma TableEntries<D(!new)>(pages: map<nat, Page<D>>, own: Owners, d: nat, vp: nat, t: nat)
    requires TreesOk(pages, own) && TableAt(pages, own, d, vp / ENTRIES, t)
    ensures t in pages && pages[t].Table? && |pages[t].entries| == ENTRIES && pages[t].entries[vp % ENTRIES] == Lookup(pages, d, vp)
    ensures d in own && own[d].Root? && t != d && !own[t].Free?
  {
  }

  /** Leaving a page that is under nothing out of account. */
  lemma ReleasedDrop<D(!new)>(pages: map<nat, Page<D>>, own: Owners, d: nat, p: nat)
    requires TreesOk(pages, own) && d in own && own[d].Root? && p in own && own[p].Other?
    ensures Released(own[p := Free], d) == Released(own, d)[p := Free]
  {
  }

  lemma StepDrop<D(!new)>(pages: map<nat, Page<D>>, own: Owners, pages': map<nat, Page<D>>, own': Owners, d: nat, p: nat)
    requires TreesOk(pages, own) && TreesOk(pages', own') && p in own && own[p].Other?
    requires StepOn(pages, own, pages', own', d) && Grown(pages, own, pages', own')
    ensures StepOn(pages, own[p := Free], pages', own'[p := Free], d) && Grown(pages, own[p := Free], pages', own'[p := Free])
  {
    hide TreesOk;
    hide Released;
    hide Apart;
    hide Grown;
    GrownDrop(pages, own, pages', own', p);
    ReleasedDrop(pages, own, d, p);
    ReleasedDrop(pages', own', d, p);
    ApartDrop(pages, own, pages', d, p);
  }

  lemma GrownDrop<D(!new)>(pages: map<nat, Page<D>>, own: Owners, pages': map<nat, Page<D>>, own': Owners, p: nat)
    requires Grown(pages, own, pages', own') && p in own && own[p].Other?
    ensures p in own' && own'[p].Other? && Grown(pages, own[p := Free], pages', own'[p := Free])
  {
  }

  lemma ApartDrop<D(!new)>(pages: map<nat, Page<D>>, own: Owners, pages': map<nat, Page<D>>, d: nat, p: nat)
    requires Apart(pages, pages', own, d) && p in own && own[p].Other? && Released(own[p := Free], d) == Released(own, d)[p := Free]
    ensures Apart(pages, pages', own[p := Free], d)
  {
    hide Under;
    forall q | q in own && q in pages && !own[p := Free][q].Free? && !Under(own[p := Free], d, q)
      ensures pages'[q] == pages[q]
    {
      assert Released(own[p := Free], d)[q] == own[q];
      assert Released(own, d)[q] == own[q];
    }
  }

  lemma LeafAdded<D(!new)>(pages0: map<nat, Page<D>>, own0: Owners, pages: map<nat, Page<D>>, own: Owners, d: nat, vp: nat, t: nat, p: nat, flags: Flags)
    requires TreesOk(pages0, own0) && TreesOk(pages, own) && StepOn(pages0, own0, pages, own, d) && Grown(pages0, own0, pages, own)
    requires vp < KPAGES && TableAt(pages, own, d, vp / ENTRIES, t) && Lookup(pages, d, vp) == Absent
    requires p in own0 && own0[p].Other? && pages0[p].Data?
    ensures t in pages && pages[t].Table? && vp % ENTRIES < |pages[t].entries| && p in own && own[p].Other? && t != p
    ensures var pages', own' := SetEntry(pages, t, vp % ENTRIES, Present(p, flags)), own[p := Ref(t, vp % ENTRIES, true)];
            && TreesOk(pages', own') && StepOn(pages0, own0[p := Free], pages', own', d) && Grown(pages0, own0[p := Free], pages', own')
            && p in pages' && pages'[p] == pages0[p]
            && (forall vp': nat :: Lookup(pages', d, vp') == if vp' == vp then Present(p, flags) else Lookup(pages, d, vp'))
  {
    hide TreesOk;
    hide Released;
    hide Lookup;
    var j := vp % ENTRIES;
    TableEntries(pages, own, d, vp, t);
    var pages', own' := SetEntry(pages, t, j, Present(p, flags)), own[p := Ref(t, j, true)];
    LinkLeaf(pages, own, t, j, p, flags);
    StepDrop(pages0, own0, pages, own, d, p);
    ReleasedLink(pages, own, d, p, Ref(t, j, true));
    forall vp'
      ensures Lookup(pages', d, vp') == if vp' == vp then Present(p, flags) else Lookup(pages, d, vp')
    {
      LookupEntry(pages, own, d, t, j, Present(p, flags), d, vp');
    }
    assert StepOn(pages, own[p := Free], pages', own', d) by {
      assert Under(own[p := Free], d, t);
    }
    StepTrans(pages0, own0[p := Free], pages, own[p := Free], pages', own', d);
  }

  lemma KernelAdded<D(!new)>(pages0: map<nat, Page<D>>, own0: Owners, pages: map<nat, Page<D>>, own: Owners, d: nat, vp: nat, t: nat, e: Entry)
    requires TreesOk(pages0, own0) && TreesOk(pages, own) && StepOn(pages0, own0, pages, own, d) && Grown(pages0, own0, pages, own)
    requires KPAGES <= vp < ENTRIES * ENTRIES && TableAt(pages, own, d, vp / ENTRIES, t)
    ensures t in pages && pages[t].Table? && vp % ENTRIES < |pages[t].entries|
    ensures var pages' := SetEntry(pages, t, vp % ENTRIES, e);
            && TreesOk(pages', own) && StepOn(pages0, own0, pages', own, d) && Grown(pages0, own0, pages', own)
            && (forall vp': nat :: Lookup(pages', d, vp') == if vp' == vp then e else Lookup(pages, d, vp'))
  {
    hide TreesOk;
    hide Released;
    hide Lookup;
    var j := vp % ENTRIES;
    TableEntries(pages, own, d, vp, t);
    var pages' := SetEntry(pages, t, j, e);
    KernelEntry(pages, own, t, j, e);
    forall vp'
      ensures Lookup(pages', d, vp') == if vp' == vp then e else Lookup(pages, d, vp')
    {
      LookupEntry(pages, own, d, t, j, e, d, vp');
    }
    assert StepOn(pages, own, pages', own, d) by {
      assert Under(own, d, t);
    }
    StepTrans(pages0, own0, pages, own, pages', own, d);
  }

  /** Page `t` is the table of directory entry `i`. */
  ghost predicate TableAt<D(!new)>(pages: map<nat, Page<D>>, own: Owners, d: nat, i: nat, t: nat) {
    t in own && own[t] == Ref(d, i, false) && EntryAt(pages, d, i).Present? && EntryAt(pages, d, i).page == t
  }

  /** An entry of a table is no entry of the directory. */
  lemma TablesKept<D(!new)>(pages: map<nat, Page<D>>, own: Owners, d: nat, i: nat, t: nat, j: nat, e: Entry)
    requires d in own && own[d].Root? && TableAt(pages, own, d, i, t) && t in pages && pages[t].Table? && j < |pages[t].entries|
    ensures Tables(SetEntry(pages, t, j, e), d) == Tables(pages, d)
  {
    forall k: nat
      ensures EntryAt(SetEntry(pages, t, j, e), d, k) == EntryAt(pages, d, k)
    {
      SetEntryAt(pages, t, j, e, d, k);
    }
  }

  lemma NoneFree<D(!new)>(pages: map<nat, Page<D>>, own: Owners, free: seq<nat>, head: Option<nat>)
    requires FreeList(pages, own, free, head) && head == None
    ensures free == []
  {
  }

  lemma RootEntries<D(!new)>(pages: map<nat, Page<D>>, own: Owners, d: nat)
    requires TreesOk(pages, own) && d in own && own[d].Root?
    ensures d in pages && pages[d].Table? && |pages[d].entries| == ENTRIES
  {
  }

  lemma TableHeld<D(!new)>(pages: map<nat, Page<D>>, own: Owners, d: nat, i: nat)
    requires TreesOk(pages, own) && d in own && own[d].Root? && EntryAt(pages, d, i).Present?
    ensures TableAt(pages, own, d, i, EntryAt(pages, d, i).page)
  {
  }

  lemma StepNone<D(!new)>(pages: map<nat, Page<D>>, own: Owners, d: nat)
    requires TreesOk(pages, own) && d in own && own[d].Root?
    ensures StepOn(pages, own, pages, own, d) && Grown(pages, own, pages, own) && Shrunk(pages, own, pages, own)
  {
  }

  lemma AllFree<D(!new)>(pages: map<nat, Page<D>>, own: Owners, free: seq<nat>, head: Option<nat>)
    requires FreeList(pages, own, free, head) && pages.Keys == own.Keys && forall p :: p in own ==> own[p].Free?
    ensures TreesOk(pages, own)
  {
  }

  /** A free page becomes a blank table of `d`: no lookup changes. */
  lemma TableAdded<D(!new)>(pages: map<nat, Page<D>>, own: Owners, d: nat, i: nat, p: nat)
    requires TreesOk(pages, own) && d in own && own[d].Root? && i < ENTRIES && EntryAt(pages, d, i) == Absent && p in own && own[p].Free?
    ensures d != p && pages[d].Table? && i < |pages[d].entries|
    ensures var pages', own' := SetEntry(pages[p := Table(BLANK)], d, i, Present(p, OPEN)), own[p := Ref(d, i, false)];
            && TreesOk(pages', own') && StepOn(pages, own, pages', own', d) && Grown(pages, own, pages', own') && TableAt(pages', own', d, i, p)
            && Tables(pages', d) == Tables(pages, d) + {i}
            && forall vp: nat :: Lookup(pages', d, vp) == Lookup(pages, d, vp)
  {
    hide TreesOk;
    hide Released;
    hide Lookup;
    RootEntries(pages, own, d);
    KeysSame(pages, own);
    var pages', own' := SetEntry(pages[p := Table(BLANK)], d, i, Present(p, OPEN)), own[p := Ref(d, i, false)];
    var own1 := own[p := Other];
    TakeKeeps(pages, own, p);
    LinkTable(pages, own1, d, i, p);
    assert own1[p := Ref(d, i, false)] == own';
    ReleasedLink(pages, own, d, p, Ref(d, i, false));
    assert own[p := Free] == own;
    forall vp
      ensures Lookup(pages', d, vp) == Lookup(pages, d, vp)
    {
      LookupTable(pages, own1, d, i, p, d, vp);
    }
    forall k: nat
      ensures EntryAt(pages', d, k) == if k == i then Present(p, OPEN) else EntryAt(pages, d, k)
    {
      SetEntryAt(pages[p := Table(BLANK)], d, i, Present(p, OPEN), d, k);
    }
  }
}

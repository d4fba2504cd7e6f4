/** Whole address spaces (vm.c:104-136, 316-345, proc.c:158-177): making one with the
    kernel's mappings, copying one, resizing one, and getting every page back. */
module AddressSpaces {
  import opened Options
  import opened PageOwners
  import opened PageTables

  // ---------- the kernel's mappings ----------

  /** `n` pages from `vp` on are the physical pages from `frame` on. */
  datatype KMap = KMap(vp: nat, n: nat, frame: nat, flags: Flags)

  const KERNLINK := 0x80100    // pages
  const PHYSTOP := 0xE000
  const DEVSPACE := 0xFE000

  /** The table kmap, with the kernel's data at virtual page `data`. */
  function Kmap(data: nat): seq<KMap>
    requires KERNLINK < data < KPAGES + PHYSTOP
  {
    [KMap(KPAGES, 0x100, 0, Flags(true, false)),
     KMap(KERNLINK, data - KERNLINK, 0x100, Flags(false, false)),
     KMap(data, PHYSTOP - (data - KPAGES), data - KPAGES, Flags(true, false)),
     KMap(DEVSPACE, 0x2000, DEVSPACE, Flags(true, false))]
  }

  predicate InKMap(k: KMap, vp: nat) {
    k.vp <= vp < k.vp + k.n
  }

  /** What the kernel's mappings say of a virtual page. */
  function KernelEntry(kmap: seq<KMap>, vp: nat): Entry {
    if kmap == [] then Absent
    else
      var k := kmap[|kmap| - 1];
      if InKMap(k, vp) then Present(k.frame + (vp - k.vp), k.flags) else KernelEntry(kmap[..|kmap| - 1], vp)
  }

  /** Kernel addresses, each in one mapping at most. */
  ghost predicate KmapOk(kmap: seq<KMap>) {
    && (forall i :: 0 <= i < |kmap| ==> KPAGES <= kmap[i].vp && kmap[i].n > 0 && kmap[i].vp + kmap[i].n <= ENTRIES * ENTRIES)
    && (forall i, j, vp :: 0 <= i < j < |kmap| && InKMap(kmap[i], vp) ==> !InKMap(kmap[j], vp))
  }

  lemma {:induction false} KernelEntryIn(kmap: seq<KMap>, vp: nat)
    requires KernelEntry(kmap, vp).Present?
    ensures exists i :: 0 <= i < |kmap| && InKMap(kmap[i], vp)
    decreases |kmap|
  {
    if !InKMap(kmap[|kmap| - 1], vp) {
      KernelEntryIn(kmap[..|kmap| - 1], vp);
    }
  }

  lemma NoMapping()
    ensures forall vp: nat :: KernelEntry([], vp) == Absent
  {
  }

  /** Mapping `i` is apart from those before it. */
  lemma NextMapping(kmap: seq<KMap>, i: nat)
    requires KmapOk(kmap) && i < |kmap|
    ensures var k := kmap[i]; KPAGES <= k.vp && k.n > 0 && k.vp + k.n <= ENTRIES * ENTRIES
    ensures forall vp: nat :: InKMap(kmap[i], vp) ==> KernelEntry(kmap[..i], vp) == Absent
    ensures forall vp: nat :: KernelEntry(kmap[..i + 1], vp) ==
              if InKMap(kmap[i], vp) then Present(kmap[i].frame + (vp - kmap[i].vp), kmap[i].flags) else KernelEntry(kmap[..i], vp)
  {
    assert kmap[..i + 1][..i] == kmap[..i];
    forall vp: nat | InKMap(kmap[i], vp)
      ensures KernelEntry(kmap[..i], vp) == Absent
    {
      if KernelEntry(kmap[..i], vp).Present? {
        KernelEntryIn(kmap[..i], vp);
        assert false;
      }
    }
  }

  /** mappages on a range of kernel addresses (vm.c:62-80). */
  method MapRange<D(!new)>(m: Memory<D>, d: nat, k: KMap) returns (ok: bool)
    requires m.Valid() && m.Space(d) && KPAGES <= k.vp && k.n > 0 && k.vp + k.n <= ENTRIES * ENTRIES
    requires forall vp: nat :: InKMap(k, vp) ==> Lookup(m.pages, d, vp) == Absent
    modifies m
    ensures m.Valid() && StepOn(old(m.pages), old(m.own), m.pages, m.own, d) && Grown(old(m.pages), old(m.own), m.pages, m.own)
    ensures ok ==> forall vp: nat :: Lookup(m.pages, d, vp) == if InKMap(k, vp) then Present(k.frame + (vp - k.vp), k.flags) else Lookup(old(m.pages), d, vp)
    ensures ok <==> Affords(old(|m.free|), Tables(old(m.pages), d), 0, Dirs(k.vp, k.vp + k.n))
    ensures ok ==> Spent(old(|m.free|), Tables(old(m.pages), d), 0, Dirs(k.vp, k.vp + k.n), |m.free|, Tables(m.pages, d))
  {
    hide TreesOk;
    hide FreeList;
    hide StepOn;
    hide Grown;
    hide Lookup;
    hide Affords;
    hide Spent;
    hide Dirs;
    hide Tables;
    ghost var pages0, own0, n0, ts0 := m.pages, m.own, |m.free|, Tables(m.pages, d);
    SpentNone(n0, ts0, k.vp);
    StepNone(m.pages, m.own, d);
    var a, pa, last := k.vp, k.frame, k.vp + k.n - 1;
    while true
      invariant k.vp <= a <= last && pa == k.frame + (a - k.vp) && m.Valid() && m.Space(d)
      invariant StepOn(pages0, own0, m.pages, m.own, d) && Grown(pages0, own0, m.pages, m.own)
      invariant forall vp: nat :: Lookup(m.pages, d, vp) == if k.vp <= vp < a then Present(k.frame + (vp - k.vp), k.flags) else Lookup(pages0, d, vp)
      invariant Spent(n0, ts0, 0, Dirs(k.vp, a), |m.free|, Tables(m.pages, d))
      decreases last - a
    {
      SpendTurn(n0, ts0, 0, k.vp, a, k.vp + k.n, |m.free|, Tables(m.pages, d));
      ghost var pages1, own1 := m.pages, m.own;
      assert InKMap(k, a);
      var r := m.MapPage(d, a, pa, k.flags);
      if r != Mapped { return false; }
      StepTrans(pages0, own0, pages1, own1, m.pages, m.own, d);
      GrownTrans(pages0, own0, pages1, own1, m.pages, m.own);
      if a == last {
        SpentAfforded(n0, ts0, 0, Dirs(k.vp, a + 1), |m.free|, Tables(m.pages, d));
        return true;
      }
      a := a + 1;
      pa := pa + 1;
    }
  }

  /** setupkvm (vm.c:119-136): a directory with exactly the kernel's mappings, or nothing taken. */
  method Setupkvm<D(!new)>(m: Memory<D>, kmap: seq<KMap>) returns (r: Option<nat>)
    requires m.Valid() && KmapOk(kmap)
    modifies m
    ensures m.Valid() && Elsewhere(old(m.pages), old(m.own), m.pages)
    ensures r == None ==> m.own == old(m.own)
    ensures r.Some? ==> m.Space(r.value) && Released(m.own, r.value) == old(m.own)
    ensures r.Some? ==> forall vp: nat :: Lookup(m.pages, r.value, vp) == KernelEntry(kmap, vp)
    ensures r.Some? <==> Affords(old(|m.free|), {}, 1, KernelDirs(kmap))
    ensures r.Some? ==> Spent(old(|m.free|), {}, 1, KernelDirs(kmap), |m.free|, Tables(m.pages, r.value))
  {
    hide TreesOk;
    hide FreeList;
    hide StepOn;
    hide Lookup;
    hide Affords;
    hide Spent;
    hide Dirs;
    hide Tables;
    hide Released;
    hide Elsewhere;
    hide KernelEntry;
    hide KernelDirs;
    hide KmapOk;
    ghost var pages0, own0, n0 := m.pages, m.own, |m.free|;
    OneDirectory(n0);
    NoMapping();
    assert kmap[..0] == [];
    KeysSame(m.pages, m.own);
    r := NewDirectory(m);
    if r == None {
      NoDirectory(kmap);
      return;
    }
    var d := r.value;
    ghost var pages1, own1 := m.pages, m.own;
    StepNone(m.pages, m.own, d);
    var i := 0;
    while i < |kmap|
      invariant i <= |kmap| && m.Valid() && m.Space(d) && StepOn(pages1, own1, m.pages, m.own, d)
      invariant forall vp: nat :: Lookup(m.pages, d, vp) == KernelEntry(kmap[..i], vp)
      invariant Spent(n0, {}, 1, KernelDirs(kmap[..i]), |m.free|, Tables(m.pages, d))
    {
      ghost var pages2, own2 := m.pages, m.own;
      NextMapping(kmap, i);
      MappingCost(n0, kmap, i, |m.free|, Tables(m.pages, d));
      var ok := MapRange(m, d, kmap[i]);
      StepTrans(pages1, own1, pages2, own2, m.pages, m.own, d);
      if !ok {
        ghost var pages3, own3 := m.pages, m.own;
        m.Freevm(d);
        FreedAll(pages0, own0, pages1, own1, pages3, own3, m.pages, m.own, d);
        return None;
      }
      i := i + 1;
    }
    assert kmap[..i] == kmap;
    SpentAfforded(n0, {}, 1, KernelDirs(kmap), |m.free|, Tables(m.pages, d));
    StepElsewhere(pages0, own0, pages1, own1, m.pages, m.own, d);
  }

  /** The directory entries that the kernel's mappings need. */
  ghost function KernelDirs(kmap: seq<KMap>): set<nat> {
    if kmap == [] then {}
    else var k := kmap[|kmap| - 1]; KernelDirs(kmap[..|kmap| - 1]) + Dirs(k.vp, k.vp + k.n)
  }

  lemma {:induction false} KernelDirsMore(kmap: seq<KMap>, i: nat)
    requires i <= |kmap|
    ensures KernelDirs(kmap[..i]) <= KernelDirs(kmap)
    decreases |kmap|
  {
    if i < |kmap| {
      KernelDirsMore(kmap[..|kmap| - 1], i);
      assert kmap[..|kmap| - 1][..i] == kmap[..i];
    } else {
      assert kmap[..i] == kmap;
    }
  }

  /** What the next mapping adds, which cannot be afforded only if all of them cannot. */
  lemma MappingCost(n0: nat, kmap: seq<KMap>, i: nat, n: nat, ts: set<nat>)
    requires i < |kmap| && Spent(n0, {}, 1, KernelDirs(kmap[..i]), n, ts)
    ensures var ds := Dirs(kmap[i].vp, kmap[i].vp + kmap[i].n);
            && (Affords(n0, {}, 1, KernelDirs(kmap)) ==> Affords(n, ts, 0, ds))
            && forall n', ts' :: Spent(n, ts, 0, ds, n', ts') ==> Spent(n0, {}, 1, KernelDirs(kmap[..i + 1]), n', ts')
  {
    hide Affords;
    hide Spent;
    hide Dirs;
    var ds := Dirs(kmap[i].vp, kmap[i].vp + kmap[i].n);
    assert kmap[..i + 1][..i] == kmap[..i];
    KernelDirsMore(kmap, i + 1);
    SpentThen(n0, {}, 1, KernelDirs(kmap[..i]), n, ts, 0, ds);
    if Affords(n0, {}, 1, KernelDirs(kmap)) {
      AffordsLess(n0, {}, 1, KernelDirs(kmap[..i + 1]), 1, KernelDirs(kmap));
    }
  }

  lemma OneDirectory(n: nat)
    ensures n > 0 ==> Spent(n, {}, 1, KernelDirs([]), n - 1, {})
  {
  }

  lemma NoDirectory(kmap: seq<KMap>)
    ensures !Affords(0, {}, 1, KernelDirs(kmap))
  {
  }

  /** Whatever was in use is as it was. */
  ghost predicate Elsewhere<D(!new)>(pages: map<nat, Page<D>>, own: Owners, pages': map<nat, Page<D>>) {
    pages'.Keys == pages.Keys && forall p :: p in own && p in pages && !own[p].Free? ==> pages'[p] == pages[p]
  }

  /** kalloc and memset of a directory (vm.c:124-126). */
  method NewDirectory<D(!new)>(m: Memory<D>) returns (r: Option<nat>)
    requires m.Valid()
    modifies m
    ensures m.Valid() && Elsewhere(old(m.pages), old(m.own), m.pages)
    ensures r == None ==> m.own == old(m.own)
    ensures r.Some? <==> old(m.free) != []
    ensures r.Some? ==> |m.free| == old(|m.free|) - 1 && Tables(m.pages, r.value) == {}
    ensures r.Some? ==>
              && r.value in old(m.own) && old(m.own)[r.value].Free? && m.own == old(m.own)[r.value := Root] && Released(m.own, r.value) == old(m.own)
              && forall vp: nat :: Lookup(m.pages, r.value, vp) == Absent
  {
    hide TreesOk;
    hide FreeList;
    ghost var own0 := m.own;
    KeysSame(m.pages, m.own);
    r := m.Kalloc();
    if r.Some? {
      var d := r.value;
      NewRoot(m.pages, own0, d, m.pages[d := Table(BLANK)]);
      FreeFrame(m.pages, m.own, m.pages[d := Table(BLANK)], own0[d := Root], m.free, m.freelist);
      m.pages := m.pages[d := Table(BLANK)];
      m.own := own0[d := Root];
    }
  }

  lemma NewRoot<D(!new)>(pages: map<nat, Page<D>>, own: Owners, d: nat, pages': map<nat, Page<D>>)
    requires TreesOk(pages, own) && d in own && own[d].Free? && pages' == pages[d := Table(BLANK)]
    ensures TreesOk(pages', own[d := Root]) && Released(own[d := Root], d) == own
    ensures forall vp: nat :: Lookup(pages', d, vp) == Absent
  {
    NoChildren(pages, own, d);
    RootTrees(pages, own, d, pages');
    hide TreesOk;
    assert forall q :: q in own && q != d ==> !Under(own[d := Root], d, q);
  }

  lemma RootTrees<D(!new)>(pages: map<nat, Page<D>>, own: Owners, d: nat, pages': map<nat, Page<D>>)
    requires TreesOk(pages, own) && d in own && own[d].Free? && pages' == pages[d := Table(BLANK)]
    ensures TreesOk(pages', own[d := Root])
  {
    var own' := own[d := Root];
    forall q, i
      ensures EntryAt(pages', q, i) == if q == d then Absent else EntryAt(pages, q, i)
    {
    }
    assert forall q :: q != d ==> (Holder(own', q) <==> Holder(own, q)) && (IsTable(own', q) <==> IsTable(own, q));
  }

  lemma StepElsewhere<D(!new)>(pages0: map<nat, Page<D>>, own0: Owners, pages1: map<nat, Page<D>>, own1: Owners, pages: map<nat, Page<D>>, own: Owners, d: nat)
    requires Elsewhere(pages0, own0, pages1) && Released(own1, d) == own0 && StepOn(pages1, own1, pages, own, d)
    ensures Elsewhere(pages0, own0, pages) && Released(own, d) == own0
  {
  }

  lemma FreedAll<D(!new)>(pages0: map<nat, Page<D>>, own0: Owners, pages1: map<nat, Page<D>>, own1: Owners, pages3: map<nat, Page<D>>, own3: Owners, pages: map<nat, Page<D>>, own: Owners, d: nat)
    requires Elsewhere(pages0, own0, pages1) && Released(own1, d) == own0 && StepOn(pages1, own1, pages3, own3, d)
    requires own == Released(own3, d) && Apart(pages3, pages, own3, d)
    ensures own == own0 && Elsewhere(pages0, own0, pages)
  {
  }

  /** The kernel's own table is such a table. */
  lemma KmapIsOk(data: nat)
    requires KERNLINK < data < KPAGES + PHYSTOP
    ensures KmapOk(Kmap(data))
  {
  }

  /** What the kernel's own table maps: physical memory up to PHYSTOP from KERNBASE on and the
      devices at their own addresses, for the kernel only, and all writable but its text. */
  lemma KmapEntries(data: nat, vp: nat)
    requires KERNLINK < data < KPAGES + PHYSTOP
    ensures var e := KernelEntry(Kmap(data), vp);
            && (e.Present? <==> KPAGES <= vp < KPAGES + PHYSTOP || DEVSPACE <= vp < ENTRIES * ENTRIES)
            && (e.Present? ==>
                  && e.page == (if vp < KPAGES + PHYSTOP then vp - KPAGES else vp)
                  && !e.flags.u && (e.flags.w <==> !(KERNLINK <= vp < data)))
  {
    var three := Kmap(data)[..3];
    var two := three[..2];
    var one := two[..1];
    NoMapping();
    assert one[..0] == [];
    assert KernelEntry(one, vp) == if KPAGES <= vp < KERNLINK then Present(vp - KPAGES, Flags(true, false)) else Absent;
    assert KernelEntry(two, vp) == if KERNLINK <= vp < data then Present(vp - KPAGES, Flags(false, false)) else KernelEntry(one, vp);
  }

  // ---------- fork's copy ----------

  /** Another address space shows what it did. */
  lemma ViewApart<D(!new)>(pages: map<nat, Page<D>>, own: Owners, pages': map<nat, Page<D>>, d: nat, vp: nat)
    requires TreesOk(pages, own) && Elsewhere(pages, own, pages') && d in own && own[d].Root?
    ensures Lookup(pages', d, vp) == Lookup(pages, d, vp)
    ensures vp < KPAGES ==> View(pages', d, vp) == View(pages, d, vp)
  {
  }

  /** copyuvm (vm.c:316-345) of a process whose pages below `sz` are there (one that is not
      panics): a new address space with the same contents and flags on pages of its own, or
      everything given back, exactly if the pages for it are not there; the old one stays. */
  method Copyuvm<D(!new)>(m: Memory<D>, kmap: seq<KMap>, d0: nat, sz: nat) returns (r: Option<nat>)
    requires m.Valid() && KmapOk(kmap) && m.Space(d0) && sz <= KERNBASE
    requires forall vp: nat :: vp < PagesUp(sz) ==> View(m.pages, d0, vp).Some?
    modifies m
    ensures m.Valid() && Elsewhere(old(m.pages), old(m.own), m.pages)
    ensures r == None ==> m.own == old(m.own)
    ensures r.Some? ==> m.Space(r.value) && r.value != d0 && Released(m.own, r.value) == old(m.own)
    ensures r.Some? ==> forall vp: nat :: vp < PagesUp(sz) ==> View(m.pages, r.value, vp) == View(old(m.pages), d0, vp)
    ensures r.Some? ==> forall vp: nat :: PagesUp(sz) <= vp ==> Lookup(m.pages, r.value, vp) == KernelEntry(kmap, vp)
    ensures r.Some? <==> Affords(old(|m.free|), {}, 1 + PagesUp(sz), KernelDirs(kmap) + Dirs(0, PagesUp(sz)))
  {
    hide TreesOk;
    hide FreeList;
    hide StepOn;
    hide Lookup;
    hide View;
    hide Released;
    hide Elsewhere;
    hide Affords;
    hide Spent;
    hide Dirs;
    hide Tables;
    hide KernelDirs;
    hide KernelEntry;
    hide KmapOk;
    ghost var pages0, own0, n0 := m.pages, m.own, |m.free|;
    r := Setupkvm(m, kmap);
    if r == None {
      NoKernelNoCopy(n0, kmap, PagesUp(sz));
      return;
    }
    var d := r.value;
    ghost var pages1, own1, n1, ts1 := m.pages, m.own, |m.free|, Tables(m.pages, d);
    SpentThen(n0, {}, 1, KernelDirs(kmap), n1, ts1, PagesUp(sz), Dirs(0, PagesUp(sz)));
    SpentNone(n1, ts1, 0);
    SpaceNew(own0, own1, d, d0);
    StepNone(m.pages, m.own, d);
    NoUserKernelEntries(kmap);
    var i := 0;
    while i * PGSIZE < sz
      invariant i <= PagesUp(sz) && m.Valid() && m.Space(d) && StepOn(pages1, own1, m.pages, m.own, d)
      invariant forall vp: nat :: vp < i ==> View(m.pages, d, vp) == View(pages0, d0, vp)
      invariant forall vp: nat :: i <= vp ==> Lookup(m.pages, d, vp) == KernelEntry(kmap, vp)
      invariant Spent(n1, ts1, i, Dirs(0, i), |m.free|, Tables(m.pages, d))
      decreases sz - i * PGSIZE
    {
      assert i < PagesUp(sz) <= KPAGES;
      ghost var pages2, own2 := m.pages, m.own;
      StepElsewhere(pages0, own0, pages1, own1, m.pages, m.own, d);
      SpaceNew(own0, m.own, d, d0);
      ViewApart(pages0, own0, m.pages, d0, i);
      SpendTurn(n1, ts1, 1, 0, i, PagesUp(sz), |m.free|, Tables(m.pages, d));
      var ok := CopyPage(m, d0, d, i);
      StepTrans(pages1, own1, pages2, own2, m.pages, m.own, d);
      if !ok {
        ghost var pages3, own3 := m.pages, m.own;
        m.Freevm(d);
        FreedAll(pages0, own0, pages1, own1, pages3, own3, m.pages, m.own, d);
        return None;
      }
      i := i + 1;
    }
    SpentAfforded(n1, ts1, i, Dirs(0, i), |m.free|, Tables(m.pages, d));
    StepElsewhere(pages0, own0, pages1, own1, m.pages, m.own, d);
  }

  lemma NoKernelNoCopy(n: nat, kmap: seq<KMap>, k: nat)
    requires !Affords(n, {}, 1, KernelDirs(kmap))
    ensures !Affords(n, {}, 1 + k, KernelDirs(kmap) + Dirs(0, k))
  {
    if Affords(n, {}, 1 + k, KernelDirs(kmap) + Dirs(0, k)) {
      AffordsLess(n, {}, 1, KernelDirs(kmap), 1 + k, KernelDirs(kmap) + Dirs(0, k));
    }
  }

  /** One turn of its loop (vm.c:326-339). */
  method CopyPage<D(!new)>(m: Memory<D>, d0: nat, d: nat, vp: nat) returns (ok: bool)
    requires m.Valid() && m.Space(d0) && m.Space(d) && vp < KPAGES && View(m.pages, d0, vp).Some? && Lookup(m.pages, d, vp) == Absent
    modifies m
    ensures m.Valid() && m.Space(d) && StepOn(old(m.pages), old(m.own), m.pages, m.own, d)
    ensures ok <==> Affords(old(|m.free|), Tables(old(m.pages), d), 1, {vp / ENTRIES})
    ensures ok ==> Spent(old(|m.free|), Tables(old(m.pages), d), 1, {vp / ENTRIES}, |m.free|, Tables(m.pages, d))
    ensures ok ==> View(m.pages, d, vp) == View(old(m.pages), d0, vp)
    ensures ok ==> forall vp': nat :: vp' != vp ==> Lookup(m.pages, d, vp') == Lookup(old(m.pages), d, vp')
    ensures ok ==> forall vp': nat :: vp' != vp && vp' < KPAGES ==> View(m.pages, d, vp') == View(old(m.pages), d, vp')
  {
    hide TreesOk;
    hide FreeList;
    hide StepOn;
    hide Grown;
    hide Lookup;
    hide View;
    hide Affords;
    hide Spent;
    hide Tables;
    ghost var pages2, own2 := m.pages, m.own;
    KeysSame(m.pages, m.own);
    var page, flags := Source(m, d0, vp);
    var add := m.AddPage(d, vp, page, flags);
    ok := add.Added?;
    if ok {
      forall vp': nat | vp' != vp && vp' < KPAGES
        ensures View(m.pages, d, vp') == View(pages2, d, vp')
      {
        ViewGrown(pages2, own2, m.pages, m.own, d, vp');
      }
    } else if add.NoTable? {
      m.DropPage(add.mem);
      HandBack(pages2, own2, m.pages, m.own, d, add.mem);
    } else {
      StepNone(m.pages, m.own, d);
    }
  }

  /** The page to copy, found as the loop finds it (vm.c:327-333). */
  method Source<D(!new)>(m: Memory<D>, d0: nat, vp: nat) returns (data: D, flags: Flags)
    requires m.Valid() && m.Space(d0) && vp < KPAGES && View(m.pages, d0, vp).Some?
    modifies m
    ensures m.Valid() && m.pages == old(m.pages) && m.own == old(m.own) && m.free == old(m.free) && m.freelist == old(m.freelist)
    ensures View(m.pages, d0, vp) == Some((data, flags))
  {
    hide TreesOk;
    hide FreeList;
    var t := m.Walk(d0, vp, false);
    TableEntries(m.pages, m.own, d0, vp, t.value);
    var pte := m.pages[t.value].entries[vp % ENTRIES];
    data, flags := m.pages[pte.page].data, pte.flags;
  }

  lemma SpaceNew(own0: Owners, own: Owners, d: nat, d0: nat)
    requires Released(own, d) == own0 && d in own && d0 in own0 && own0[d0].Root?
    ensures d != d0 && d0 in own && own[d0].Root?
  {
  }

  lemma NoUserKernelEntries(kmap: seq<KMap>)
    requires KmapOk(kmap)
    ensures forall vp: nat :: vp < KPAGES ==> KernelEntry(kmap, vp) == Absent
  {
    forall vp: nat | vp < KPAGES
      ensures KernelEntry(kmap, vp) == Absent
    {
      if KernelEntry(kmap, vp).Present? {
        KernelEntryIn(kmap, vp);
        assert false;
      }
    }
  }

  /** Taking a page and giving it back at once. */
  lemma HandBack<D(!new)>(pages: map<nat, Page<D>>, own: Owners, pages': map<nat, Page<D>>, own': Owners, d: nat, mem: nat)
    requires d in own && own[d].Root? && mem in own && own[mem].Free? && own' == own && pages.Keys == own.Keys == pages'.Keys
    requires forall q :: q in pages && q != mem ==> pages'[q] == pages[q]
    ensures StepOn(pages, own, pages', own', d)
  {
  }

  // ---------- the size of a process ----------

  /** A process of size `sz` has its pages up to `sz` and no others. */
  ghost predicate Sized<D(!new)>(m: Memory<D>, d: nat, sz: nat)
    reads m
  {
    && m.Space(d) && sz <= KERNBASE
    && (forall vp: nat :: vp < KPAGES ==> (vp < PagesUp(sz) <==> View(m.pages, d, vp).Some?))
    && (forall vp: nat :: PagesUp(sz) <= vp < KPAGES ==> Lookup(m.pages, d, vp) == Absent)
  }

  /** growproc (proc.c:158-177) of a 32-bit size.  The process has the size it is said to
      have, unless it shrank to nothing: then its pages are gone and its size is not changed. */
  method Growproc<D(!new)>(m: Memory<D>, d: nat, sz: nat, n: int) returns (ok: bool, sz': nat)
    requires m.Valid() && Sized(m, d, sz) && sz < KERNBASE && -0x8000_0000 <= n < 0x8000_0000
    modifies m
    ensures m.Valid() && StepOn(old(m.pages), old(m.own), m.pages, m.own, d)
    ensures Sized(m, d, sz') <==> !(n < 0 && sz + n == 0)
    ensures sz' == if ok && 0 <= sz + n then sz + n else sz
    ensures ok <==> if n > 0 then sz + n < KERNBASE && CanGrow(old(|m.free|), old(m.pages), d, sz, sz + n)
                    else if n == 0 then true else sz > 0 && sz + n != 0
    ensures !ok && n >= 0 ==> forall vp: nat :: vp < KPAGES ==> View(m.pages, d, vp) == View(old(m.pages), d, vp)
    ensures forall vp: nat :: vp < PagesUp(sz) && vp < PagesUp(sz') && !(n < 0 && sz + n == 0) ==> View(m.pages, d, vp) == View(old(m.pages), d, vp)
  {
    hide TreesOk;
    hide FreeList;
    hide StepOn;
    hide Shrunk;
    hide Lookup;
    hide View;
    hide CanGrow;
    ghost var pages0, own0 := m.pages, m.own;
    StepNone(m.pages, m.own, d);
    var newsz := sz;
    if n > 0 {
      ghost var done;
      newsz, done := m.Allocuvm(d, sz, sz + n);
      StepRoots(pages0, own0, m.pages, m.own, d);
      if newsz == 0 { return false, sz; }
    } else if n < 0 {
      newsz := m.Deallocuvm(d, sz, Wrapped(sz + n));
      ShrunkViews(pages0, own0, m.pages, m.own, d);
      if newsz == 0 {
        assert sz > 0 ==> sz + n == 0 && 0 < PagesUp(sz) && View(m.pages, d, 0) == None;
        return false, sz;
      }
    }
    ok, sz' := true, newsz;
  }

  /** Arithmetic on uint. */
  function Wrapped(x: int): nat {
    x % 0x1_0000_0000
  }

  lemma ShrunkViews<D(!new)>(pages: map<nat, Page<D>>, own: Owners, pages': map<nat, Page<D>>, own': Owners, d: nat)
    requires TreesOk(pages', own') && Shrunk(pages, own, pages', own') && StepOn(pages, own, pages', own', d)
    ensures d in own' && own'[d].Root?
    ensures forall vp: nat :: vp < KPAGES && Lookup(pages', d, vp) == Lookup(pages, d, vp) ==> View(pages', d, vp) == View(pages, d, vp)
    ensures forall vp: nat :: Lookup(pages', d, vp) == Absent ==> View(pages', d, vp) == None
  {
  }

  // ---------- every page comes back ----------

  /** One change of size, as exec and growproc make them: up with allocuvm, which fails
      without the pages for it, or down with deallocuvm. */
  method Resize<D(!new)>(m: Memory<D>, d: nat, sz: nat, target: nat) returns (sz': nat)
    requires m.Valid() && Sized(m, d, sz)
    modifies m
    ensures m.Valid() && StepOn(old(m.pages), old(m.own), m.pages, m.own, d) && Sized(m, d, sz')
    ensures sz' == if target <= sz || (target < KERNBASE && CanGrow(old(|m.free|), old(m.pages), d, sz, target)) then target else sz
  {
    hide CanGrow;
    hide TreesOk;
    hide FreeList;
    hide StepOn;
    hide Shrunk;
    hide Lookup;
    hide View;
    ghost var pages0, own0 := m.pages, m.own;
    if target >= sz {
      ghost var done;
      sz', done := m.Allocuvm(d, sz, target);
      StepRoots(pages0, own0, m.pages, m.own, d);
      if sz' == 0 { sz' := sz; }
    } else {
      sz' := m.Deallocuvm(d, sz, target);
      ShrunkViews(pages0, own0, m.pages, m.own, d);
    }
  }

  /** An address space is set up, goes through any sizes, and is freed: every page is held by
      whom it was before, each free one on the list once. */
  method Lifetime<D(!new)>(m: Memory<D>, kmap: seq<KMap>, sizes: seq<nat>)
    requires m.Valid() && KmapOk(kmap)
    modifies m
    ensures m.Valid() && m.own == old(m.own) && Elsewhere(old(m.pages), old(m.own), m.pages)
  {
    hide TreesOk;
    hide FreeList;
    hide StepOn;
    hide Lookup;
    ghost var pages0, own0 := m.pages, m.own;
    var r := Setupkvm(m, kmap);
    if r == None { return; }
    var d := r.value;
    NoUserKernelEntries(kmap);
    ghost var pages1, own1 := m.pages, m.own;
    StepNone(m.pages, m.own, d);
    var sz := 0;
    var i := 0;
    while i < |sizes|
      invariant i <= |sizes| && m.Valid() && Sized(m, d, sz) && StepOn(pages1, own1, m.pages, m.own, d)
    {
      ghost var pages2, own2 := m.pages, m.own;
      sz := Resize(m, d, sz, sizes[i]);
      StepTrans(pages1, own1, pages2, own2, m.pages, m.own, d);
      i := i + 1;
    }
    ghost var pages3, own3 := m.pages, m.own;
    m.Freevm(d);
    FreedAll(pages0, own0, pages1, own1, pages3, own3, m.pages, m.own, d);
  }
}

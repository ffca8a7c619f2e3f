/** The kernel's own address split: regions and windows as runs of addresses, and what a window costs. */
module SpaceAddresses {
  import opened Bytes
  import opened Wrappers
  import opened PageTables
  import opened FrameBooks
  import opened FramePlan
  import opened TableMap
  import opened SpaceView
  import opened AddressSpace
  import opened SpaceForecast
  import opened SpaceLife

  /** Pages of the 39-bit space. */
  const VA_PAGES: nat := 0x800_0000

  // ---- Consecutive pages ----

  /** Pages one after the other have walks of their own, until the space is once round. */
  lemma PagesDistinct(va: nat, i: nat, j: nat)
    requires i < j < i + VA_PAGES
    ensures PageOfVa(PageAddr(va, i)) != PageOfVa(PageAddr(va, j))
  {
    hide PageOfVa;
    PageNumber(va, i);
    PageNumber(va, j);
    SameWalkIffSamePage(PageAddr(va, i), PageAddr(va, j));
    Apart(va / PAGE_SIZE, i, j);
  }

  lemma Apart(v: nat, i: nat, j: nat)
    requires i < j < i + VA_PAGES
    ensures (v + i) % VA_PAGES != (v + j) % VA_PAGES
  {
    var x, y := v + i, v + j;
    assert x == x / VA_PAGES * VA_PAGES + x % VA_PAGES;
    assert y == y / VA_PAGES * VA_PAGES + y % VA_PAGES;
  }

  lemma PageNumber(va: nat, i: nat)
    ensures PageAddr(va, i) / PAGE_SIZE == va / PAGE_SIZE + i
  {
    PageAddrIs(va, i);
  }

  // ---- Regions, address by address ----

  /** The page of a region that holds address `x`, or `None` outside. */
  function PageIn(va: nat, n: nat, x: nat): Option<nat>
  {
    if va <= x < va + n * PAGE_SIZE then Some((x - va) / PAGE_SIZE) else None
  }

  /** Address `x` walks as page `j` of an aligned region exactly if it lies in that page. */
  lemma SameWalkIffInside(va: nat, n: nat, j: nat, x: nat)
    requires va % PAGE_SIZE == 0 && va + n * PAGE_SIZE <= VA_PAGES * PAGE_SIZE && x < VA_PAGES * PAGE_SIZE && j < n
    ensures PageOfVa(x) == PageOfVa(PageAddr(va, j)) <==> PageIn(va, n, x) == Some(j)
  {
    hide PageOfVa;
    SameWalkIffSamePage(x, PageAddr(va, j));
    PageNumber(va, j);
    InsidePage(va, n, j, x);
  }

  lemma InsidePage(va: nat, n: nat, j: nat, x: nat)
    requires va % PAGE_SIZE == 0 && va + n * PAGE_SIZE <= VA_PAGES * PAGE_SIZE && x < VA_PAGES * PAGE_SIZE && j < n
    ensures x / PAGE_SIZE % VA_PAGES == (va / PAGE_SIZE + j) % VA_PAGES <==> PageIn(va, n, x) == Some(j)
  {
    var v := va / PAGE_SIZE;
    assert va == v * PAGE_SIZE;
    assert v + j < VA_PAGES && x / PAGE_SIZE < VA_PAGES;
    if PageIn(va, n, x).Some? {
      assert x / PAGE_SIZE == v + (x - va) / PAGE_SIZE;
    }
  }

  /** A region maps exactly its own addresses, each to its offset into the physical run. */
  lemma {:induction false} RegionAddresses(mapped: map<Page, Desc>, va: nat, pa: nat, kind: MemKind, perms: Perms,
                                           n: nat, k: nat, x: nat)
    requires va % PAGE_SIZE == 0 && va + n * PAGE_SIZE <= VA_PAGES * PAGE_SIZE && x < VA_PAGES * PAGE_SIZE && k <= n
    ensures var m := RegionMap(PageOfVa, mapped, va, pa, kind, perms, k);
            match PageIn(va, n, x)
            case Some(j) =>
              if j < k then PageOfVa(x) in m && m[PageOfVa(x)] == Leaf(PageAddr(pa, j), kind, perms)
              else PageOfVa(x) in m <==> PageOfVa(x) in mapped
            case None =>
              PageOfVa(x) in mapped <==> PageOfVa(x) in m
    ensures var m := RegionMap(PageOfVa, mapped, va, pa, kind, perms, k);
            PageIn(va, n, x).None? && PageOfVa(x) in mapped ==> m[PageOfVa(x)] == mapped[PageOfVa(x)]
    decreases k
  {
    hide PageOfVa, PageIn, PageAddr;
    if k > 0 {
      RegionAddresses(mapped, va, pa, kind, perms, n, k - 1, x);
      SameWalkIffInside(va, n, k - 1, x);
    }
  }

  /** Bytes one leaf covers at each level. */
  function Span(level: nat): nat
  {
    if level == 1 then 0x4000_0000 else if level == 2 then 0x20_0000 else PAGE_SIZE
  }

  /** The physical address the hardware makes of `x`. */
  function Translate(m: Mem, root: nat, x: nat): Option<nat>
  {
    match Seen(Lookup(m, root, 1, PageOfVa(x)))
    case Some(Hit(Leaf(pa, _, _), level)) => Some(pa + x % Span(level))
    case _ => None
  }

  /** A leaf found at a level covers that level's whole block of addresses: one gigabyte, two megabytes, one page. */
  lemma BlockCovers(m: Mem, root: nat, x: nat, y: nat)
    requires var w := Lookup(m, root, 1, PageOfVa(x)); w.Found? && x / Span(w.level) == y / Span(w.level)
    ensures Lookup(m, root, 1, PageOfVa(y)) == Lookup(m, root, 1, PageOfVa(x))
  {
    hide Lookup, PageOfVa;
    var w := Lookup(m, root, 1, PageOfVa(x));
    LookupPrefix(m, root, 1, PageOfVa(x), PageOfVa(y));
    SamePrefix(x, y, w.level);
  }

  lemma {:induction false} LookupPrefix(m: Mem, f: nat, level: nat, p: Page, q: Page)
    requires 1 <= level <= LAST && Lookup(m, f, level, p).Found?
    ensures var l := Lookup(m, f, level, p).level;
            level <= l <= LAST && (p[..l] == q[..l] ==> Lookup(m, f, level, q) == Lookup(m, f, level, p))
    decreases LAST - level
  {
    var d := m[f].entries[p[level - 1]];
    var l := Lookup(m, f, level, p).level;
    if d.Table? && level < LAST { LookupPrefix(m, d.frame, level + 1, p, q); }
    if p[..l] == q[..l] { assert p[..l][level - 1] == q[..l][level - 1]; }
  }

  lemma SamePrefix(x: nat, y: nat, level: nat)
    requires 1 <= level <= LAST && x / Span(level) == y / Span(level)
    ensures PageOfVa(x)[..level] == PageOfVa(y)[..level]
  {
    ThirdDigit(x);
    ThirdDigit(y);
    SecondDigit(x / 0x20_0000, x);
    SecondDigit(y / 0x20_0000, y);
  }

  /** The byte a load from `x` brings. */
  function ReadByte(m: Mem, root: nat, x: nat): Option<byte>
  {
    match Translate(m, root, x)
    case None => None
    case Some(pa) =>
      var f := pa - pa % 4096;
      if f in m && m[f].PageOf? && pa % 4096 < |m[f].data| then Some(m[f].data[pa % 4096]) else None
  }

  /**
   * Before, a space meant `mapped`; after, it means `mapped` with a region. Then every address of the
   * region translates to its offset into the physical run, and every other address as before.
   */
  lemma RegionTranslates(before: Mem, after: Mem, root: nat, base: Mem, kroot: nat, mapped: map<Page, Desc>,
                         va: nat, pa: nat, kind: MemKind, perms: Perms, n: nat, x: nat)
    requires View(before, root, base, kroot, mapped)
    requires View(after, root, base, kroot, RegionMap(PageOfVa, mapped, va, pa, kind, perms, n))
    requires va % PAGE_SIZE == 0 && va + n * PAGE_SIZE <= VA_PAGES * PAGE_SIZE && x < VA_PAGES * PAGE_SIZE
    ensures Translate(after, root, x) == if va <= x < va + n * PAGE_SIZE then Some(pa + (x - va)) else Translate(before, root, x)
  {
    hide PageOfVa, PageAddr, RegionMap, Lookup;
    RegionAddresses(mapped, va, pa, kind, perms, n, n, x);
    if va <= x < va + n * PAGE_SIZE {
      var j := (x - va) / PAGE_SIZE;
      PageAddrIs(pa, j);
      Offset(va, x);
    }
  }

  lemma Offset(va: nat, x: nat)
    requires va % PAGE_SIZE == 0 && va <= x
    ensures (x - va) / PAGE_SIZE * PAGE_SIZE + x % PAGE_SIZE == x - va
  {
    var v := va / PAGE_SIZE;
    assert va == v * PAGE_SIZE && x == x / PAGE_SIZE * PAGE_SIZE + x % PAGE_SIZE;
    assert x - va == (x / PAGE_SIZE - v) * PAGE_SIZE + x % PAGE_SIZE;
    assert (x - va) / PAGE_SIZE == x / PAGE_SIZE - v;
  }

  /** The leaf the hardware finds for `x`. */
  function LeafAt(m: Mem, root: nat, x: nat): Option<Desc>
  {
    match Seen(Lookup(m, root, 1, PageOfVa(x)))
    case Some(Hit(leaf, _)) => Some(leaf)
    case None => None
  }

  /**
   * A space that means its window and whatever was mapped later: every address of the window leads into
   * the frame of its page, the text can be run and not written, the stack up to the top of the window can
   * be written and not run.
   */
  lemma WindowStands(m: Mem, root: nat, base: Mem, kroot: nat, mapped: map<Page, Desc>,
                     vaBase: nat, text: nat, window: seq<nat>, x: nat)
    requires View(m, root, base, kroot, mapped) && Keeps(WindowMap(PageOfVa, vaBase, text, window), mapped)
    requires vaBase % 4096 == 0 && vaBase + |window| * 4096 <= 0x80_0000_0000 && vaBase <= x < vaBase + |window| * 4096
    ensures Translate(m, root, x) == Some(window[(x - vaBase) / 4096] + x % 4096)
    ensures var leaf := LeafAt(m, root, x);
            && leaf.Some? && leaf.value.Leaf? && leaf.value.kind == NormalWb && leaf.value.perms.user
            && (leaf.value.perms.execute <==> x < vaBase + text * 4096)
            && (leaf.value.perms.write <==> x >= vaBase + text * 4096)
  {
    hide PageOfVa, PageAddr, WindowMap, Lookup;
    var i := (x - vaBase) / 4096;
    forall j: nat, k: nat | j < k < |window|
      ensures PageOfVa(PageAddr(vaBase, j)) != PageOfVa(PageAddr(vaBase, k))
    {
      PagesDistinct(vaBase, j, k);
    }
    WindowPages(PageOfVa, vaBase, text, window, i);
    SameWalkIffInside(vaBase, |window|, i, x);
    PageAddrIs(vaBase, i);
  }

  /** A load from the window brings the byte of its page's frame: zero after preparing, then what was poked. */
  lemma WindowReads(b: Books, pool: set<nat>, root: nat, base: Mem, kroot: nat, mapped: map<Page, Desc>,
                    window: seq<nat>, textPhys: seq<nat>, vaBase: nat, text: nat, x: nat)
    requires Sound(b, pool, root) && Prepared(b, root, base, kroot, mapped, window, textPhys, text, |window|)
    requires Keeps(WindowMap(PageOfVa, vaBase, text, window), mapped)
    requires vaBase % 4096 == 0 && vaBase + |window| * 4096 <= 0x80_0000_0000 && vaBase <= x < vaBase + |window| * 4096
    ensures var f := window[(x - vaBase) / 4096];
            && f in b.mem && b.mem[f].PageOf? && |b.mem[f].data| == 4096
            && ReadByte(b.mem, root, x) == Some(b.mem[f].data[x % 4096])
  {
    hide View, WindowMap, Keeps, Translate, Consistent;
    var f := window[(x - vaBase) / 4096];
    WindowStands(b.mem, root, base, kroot, mapped, vaBase, text, window, x);
    assert f in SetOf(b.owned) && f in pool && FrameAddress(f);
    FrameOf(f, x % 4096);
  }

  lemma FrameOf(f: nat, r: nat)
    requires f % 4096 == 0 && r < 4096
    ensures (f + r) % 4096 == r
  {
  }

  /** Addresses outside the window and everything mapped later translate as the kernel's root did. */
  lemma ElsewhereIsKernel(m: Mem, root: nat, base: Mem, kroot: nat, mapped: map<Page, Desc>, x: nat)
    requires View(m, root, base, kroot, mapped) && PageOfVa(x) !in mapped
    ensures Translate(m, root, x) == Translate(base, kroot, x) && LeafAt(m, root, x) == LeafAt(base, kroot, x)
  {
    hide PageOfVa, Lookup;
  }

  /** Creation, any requests: once prepared, the window stands as the program expects it. */
  lemma ServedWindowStands(s: Space, a: Books, base: Mem, kroot: nat, ops: seq<Op>, k: map<nat, nat>,
                           rs: seq<Answer>, ns: seq<nat>, x: nat)
    requires Serving(s, a, None, base, kroot, ops, k, rs, ns) && s.prepared && s.machine.index == PageOfVa
    requires View(s.machine.mem, s.root, base, kroot, s.mapped)
    requires s.vaBase % 4096 == 0 && s.userSp <= 0x80_0000_0000 && s.vaBase <= x < s.userSp
    ensures var leaf := LeafAt(s.machine.mem, s.root, x);
            && leaf.Some? && leaf.value.Leaf? && leaf.value.perms.user
            && (leaf.value.perms.execute <==> x < s.vaBase + s.textPages * 4096)
            && (leaf.value.perms.write <==> x >= s.vaBase + s.textPages * 4096)
  {
    hide View, Served, Meaning, SameKernel, Keeps, WindowMap, PageOfVa, LeafAt, Sound, Windowed;
    WindowStands(s.machine.mem, s.root, base, kroot, s.mapped, s.vaBase, s.textPages, s.window, x);
  }

  // ---- One page ----

  /**
   * The loader's one-page call: it succeeds exactly when nothing is mapped there and in the way, the tables
   * that are missing fit pool and ledger, and the address fits a leaf; then exactly that page is there.
   */
  method MapOnePage(s: Space, va: nat, pa: nat, perms: Perms) returns (r: Answer)
    requires s.Valid() && s.prepared && s.machine.index == PageOfVa
    requires va % 4096 == 0 && pa % 4096 == 0 && va < 0xFFFF_FFFF_FFFF_F000 && pa < 0xFFFF_FFFF_FFFF_F000
    modifies s`owned, s`home, s`leaked, s`mapped, s.machine`free, s.machine`inUse, s.machine`mem
    ensures s.Valid()
    ensures var w := Lookup(old(s.machine.mem), s.root, 1, PageOfVa(va));
            r.Ok? <==> w.Hole? && w.missing <= |old(s.machine.free)| && |old(s.owned)| + w.missing <= 256
                       && pa < 0x1_0000_0000_0000
    ensures r.Ok? && va < 0x80_0000_0000 ==>
      forall x: nat :: x < 0x80_0000_0000 ==>
        Translate(s.machine.mem, s.root, x) ==
        if va <= x < va + 4096 then Some(pa + (x - va)) else Translate(old(s.machine.mem), s.root, x)
  {
    hide Settled, Sound, Prepared, AsPlanned, StopsAt, Keeps, RegionMap, PageOfVa, Lookup, Translate, View;
    hide ItemsPlan, RegionItems;
    ghost var a, before := s.Now(), s.mapped;
    SoundLedger(a, s.machine.pool, s.root);
    SpaceMeans(a, s.root, s.base, s.kroot, s.mapped, s.window, s.textPhys, s.textPages, s.pages);
    ghost var n;
    r, n := s.MapNormalRegion(va, pa, 4096, perms);
    OnePageEnds(a, s.Now(), s.root, va, pa, ErrorOf(r));
    SpaceMeans(s.Now(), s.root, s.base, s.kroot, s.mapped, s.window, s.textPhys, s.textPages, s.pages);
    if r.Ok? && va < 0x80_0000_0000 {
      PageAddrIs(0, n);
      forall x: nat | x < 0x80_0000_0000
        ensures Translate(s.machine.mem, s.root, x) ==
                if va <= x < va + 4096 then Some(pa + (x - va)) else Translate(a.mem, s.root, x)
      {
        RegionTranslates(a.mem, s.machine.mem, s.root, s.base, s.kroot, before, va, pa, NormalWb, perms, 1, x);
      }
    }
  }

  lemma SpaceMeans(b: Books, root: nat, base: Mem, kroot: nat, mapped: map<Page, Desc>,
                   window: seq<nat>, textPhys: seq<nat>, text: nat, pages: nat)
    requires Prepared(b, root, base, kroot, mapped, window, textPhys, text, pages)
    ensures View(b.mem, root, base, kroot, mapped)
  {
  }

  /** What one page will take is what its walk will take... */
  lemma OnePagePlan(a: Books, root: nat, va: nat, pa: nat)
    ensures ItemsPlan(a.mem, root, [], RegionItems(PageOfVa, va, pa, 1)) == WalkPlan(a, root, PageOfVa(va), Encodes(pa))
  {
    hide PageOfVa, Lookup, ItemPlan, Encodes, ItemsPlan;
    var items := RegionItems(PageOfVa, va, pa, 1);
    assert items[..0] == [] && items[..1] == items;
    ItemsNext(a.mem, root, [], items, 0);
    EmptyPlan(a.mem, root);
    assert [] + NOTHING.marks == [];
    assert PageAddr(va, 0) == va && PageAddr(pa, 0) == pa;
    assert items[0] == PageItem(PageOfVa(va), Encodes(pa));
    ThenAlone(WalkPlan(a, root, PageOfVa(va), Encodes(pa)));
  }

  lemma ThenAlone(p: Plan)
    ensures Then(NOTHING, p) == p
  {
    assert [] + p.marks == p.marks;
  }

  /** ...and how it will end. */
  lemma OnePageEnds(a: Books, b: Books, root: nat, va: nat, pa: nat, r: Option<AsError>)
    requires AsPlanned(a, b, root, ItemsPlan(a.mem, root, [], RegionItems(PageOfVa, va, pa, 1)), r) && pa % 4096 == 0
    ensures var w := Lookup(a.mem, root, 1, PageOfVa(va));
            r == None <==> w.Hole? && w.missing <= |a.free| && |a.owned| + w.missing <= 256 && pa < 0x1_0000_0000_0000
  {
    hide Follows, PageOfVa, Lookup, ItemsPlan, RegionItems;
    OnePagePlan(a, root, va, pa);
  }

  // ---- What preparing costs ----

  /** Preparing alone takes a frame for each table of the clone, each page of the window and each table it lacks. */
  lemma PrepareNeeds(c: Config, m: Mem)
    ensures Foresee(c, m, [Prepare]).need == PreparePlan(c, m).need
  {
    hide PreparePlan;
    assert [Prepare][..0] == [];
    assert Foresee(c, m, []) == Forecast(State(None, false), 0);
  }

  /** A gap stays a gap while nobody takes the page. */
  lemma {:induction false} GapStays(g: Option<nat>, marks: seq<Mark>, q: Page)
    requires g.Some? && forall i :: 0 <= i < |marks| ==> marks[i].page != q
    ensures GapSince(g, marks, q).Some?
    decreases |marks|
  {
    if marks != [] { GapStays(g, marks[..|marks| - 1], q); }
  }

  /** Every page of the window is unmapped in the kernel. */
  ghost predicate Vacant(m: Mem, f: nat, vaBase: nat, pages: nat)
  {
    forall j: nat :: j < pages ==> Lookup(m, f, 1, PageOfVa(PageAddr(vaBase, j))).Hole?
  }

  /** Over a vacant window nothing is in the way, and each page costs at least its own frame. */
  lemma {:induction false} VacantWindow(m: Mem, f: nat, vaBase: nat, pages: nat, n: nat)
    requires n <= pages <= VA_PAGES && Vacant(m, f, vaBase, pages)
    ensures |WindowItems(PageOfVa, vaBase, pages)| == pages
    ensures var p := ItemsPlan(m, f, [], WindowItems(PageOfVa, vaBase, pages)[..n]);
            && p.end.None? && p.need >= n && |p.marks| == n
            && forall j: nat :: j < n ==> p.marks[j].page == PageOfVa(PageAddr(vaBase, j))
    decreases n
  {
    hide PageOfVa, PageAddr, GapSince, Lookup, ItemsPlan;
    var items := WindowItems(PageOfVa, vaBase, pages);
    if n == 0 {
      assert items[..0] == [];
      EmptyPlan(m, f);
    } else {
      var k := n - 1;
      VacantWindow(m, f, vaBase, pages, k);
      ItemsNext(m, f, [], items, k);
      var p, q := ItemsPlan(m, f, [], items[..k]), PageOfVa(PageAddr(vaBase, k));
      assert items[k] == WindowItem(q);
      forall j: nat | j < k
        ensures p.marks[j].page != q
      {
        PagesDistinct(vaBase, j, k);
      }
      assert [] + p.marks == p.marks;
      GapStays(Gap(Lookup(m, f, 1, q)), p.marks, q);
    }
  }

  lemma EmptyPlan(m: Mem, f: nat)
    ensures ItemsPlan(m, f, [], []) == NOTHING
  {
  }

  /** Preparing with a window as large as the ledger loses a frame, whenever the pool could give that many. */
  lemma LargeWindowLoses(c: Config, m: Mem, frames: nat)
    requires c.index == PageOfVa && c.kernelRoot.Some? && c.pages <= VA_PAGES
    requires TablePlan(m, Kroot(c), 1).end.None? && Vacant(m, Kroot(c), c.vaBase, c.pages)
    requires c.pages >= MAX_AS_FRAMES && frames > MAX_AS_FRAMES
    ensures Loses(frames, Foresee(c, m, [Prepare]).need)
  {
    hide TablePlan, ItemsPlan, Vacant;
    PrepareNeeds(c, m);
    VacantWindow(m, Kroot(c), c.vaBase, c.pages, c.pages);
    var items := WindowItems(PageOfVa, c.vaBase, c.pages);
    assert items[..c.pages] == items;
  }

  /** Creation lets such a window through: one text page, 256 stack pages, a kernel that maps nothing, at any base. */
  lemma LosingWindow(vaBase: nat, frames: nat)
    requires frames > MAX_AS_FRAMES
    ensures !Refused(1, 256)
    ensures var c := Config(PageOfVa, vaBase, 1, 257, false, Some(PAGE_SIZE));
            Loses(frames, Foresee(c, map[PAGE_SIZE := EmptyTable()], [Prepare]).need)
  {
    hide ItemsPlan, Foresee, PageOfVa, PageAddr;
    var m: Mem := map[PAGE_SIZE := EmptyTable()];
    var c := Config(PageOfVa, vaBase, 1, 257, false, Some(PAGE_SIZE));
    forall j: nat | j < 257
      ensures Lookup(m, PAGE_SIZE, 1, PageOfVa(PageAddr(vaBase, j))).Hole?
    {
      EmptyFindsNothing(m, PAGE_SIZE, 1, PageOfVa(PageAddr(vaBase, j)));
    }
    EmptyCosts(m, m[PAGE_SIZE].entries, 1, ENTRIES);
    assert m[PAGE_SIZE].entries[..ENTRIES] == m[PAGE_SIZE].entries;
    LargeWindowLoses(c, m, frames);
  }

  lemma {:induction false} EmptyCosts(m: Mem, es: seq<Desc>, level: nat, n: nat)
    requires 1 <= level <= LAST && n <= |es| && forall i :: 0 <= i < |es| ==> es[i] == Invalid
    ensures EntriesPlan(m, es[..n], level) == NOTHING
    decreases n
  {
    hide EntryPlan, EntriesPlan;
    EmptyEntry(m, level);
    if n == 0 {
      assert es[..0] == [];
    } else {
      EmptyCosts(m, es, level, n - 1);
      EntriesNext(m, es, level, n - 1);
    }
  }

  lemma EmptyEntry(m: Mem, level: nat)
    requires 1 <= level <= LAST
    ensures EntryPlan(m, Invalid, level) == NOTHING && EntriesPlan(m, [], level) == NOTHING
  {
    hide TablePlan;
  }

  /** A window page takes its frame and at most the two tables of its walk. */
  lemma {:induction false} WindowBound(m: Mem, f: nat, items: seq<Item>)
    requires forall i :: 0 <= i < |items| ==> items[i].before <= 1
    ensures ItemsPlan(m, f, [], items).need <= 3 * |items|
    decreases |items|
  {
    hide Lookup;
    if items != [] {
      var n := |items| - 1;
      WindowBound(m, f, items[..n]);
      var p, q := ItemsPlan(m, f, [], items[..n]), items[n].page;
      LookupMisses(m, f, 1, q);
      GapShrinks(Gap(Lookup(m, f, 1, q)), [] + p.marks, q);
    }
  }

  lemma {:induction false} GapShrinks(g: Option<nat>, marks: seq<Mark>, q: Page)
    ensures GapSince(g, marks, q).Some? ==> g.Some? && GapSince(g, marks, q).value <= g.value
    decreases |marks|
  {
    if marks != [] { GapShrinks(g, marks[..|marks| - 1], q); }
  }

  /** A clone and a window that together fit the ledger lose nothing, however many frames there are. */
  lemma SmallWindowKeeps(c: Config, m: Mem, frames: nat)
    requires c.kernelRoot.Some? && TablePlan(m, Kroot(c), 1).need + 3 * c.pages < MAX_AS_FRAMES
    ensures !Loses(frames, Foresee(c, m, [Prepare]).need)
  {
    hide TablePlan, ItemsPlan;
    PrepareNeeds(c, m);
    WindowBound(m, Kroot(c), WindowItems(c.index, c.vaBase, c.pages));
  }
}

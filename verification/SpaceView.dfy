/** What a prepared space translates, and its text as one flat run of bytes over scattered frames. */
module SpaceView {
  import opened Bytes
  import opened Wrappers
  import opened PageTables
  import opened FrameBooks
  import opened FramePlan
  import opened TableMap

  // ---- The meaning of a space ----

  /** Pages in `mapped` translate to their leaf; every other page as the kernel's root did. */
  ghost predicate View(m: Mem, root: nat, base: Mem, kroot: nat, mapped: map<Page, Desc>)
  {
    forall p: Page :: Seen(Lookup(m, root, 1, p)) ==
                      if p in mapped then Some(Hit(mapped[p], LAST)) else Seen(Lookup(base, kroot, 1, p))
  }

  lemma ViewOfClone(base: Mem, kroot: nat, m: Mem, root: nat)
    requires SameWalks(base, kroot, m, root, 1)
    ensures View(m, root, base, kroot, map[])
  {
  }

  lemma ViewKept(m: Mem, n: Mem, root: nat, base: Mem, kroot: nat, mapped: map<Page, Desc>)
    requires View(m, root, base, kroot, mapped) && SameSeen(m, n, root)
    ensures View(n, root, base, kroot, mapped)
  {
  }

  /** One page mapped: it was not mapped before, and nothing else moved. */
  lemma ViewMapped(a: Books, b: Books, pool: set<nat>, root: nat, base: Mem, kroot: nat,
                   mapped: map<Page, Desc>, p: Page, leaf: Desc)
    requires View(a.mem, root, base, kroot, mapped) && MapDone(a, b, pool, root, p, leaf)
    ensures View(b.mem, root, base, kroot, mapped[p := leaf]) && p !in mapped
  {
    assert Seen(Lookup(a.mem, root, 1, p)) == None;
  }

  /** EL0 reaches a page only if it was mapped for it, when the kernel's own leaves deny EL0. */
  lemma UserPagesAreMapped(m: Mem, root: nat, base: Mem, kroot: nat, mapped: map<Page, Desc>, p: Page)
    requires View(m, root, base, kroot, mapped)
    requires var kernel := Seen(Lookup(base, kroot, 1, p)); kernel.Some? && kernel.value.leaf.Leaf? ==> !kernel.value.leaf.perms.user
    requires var here := Seen(Lookup(m, root, 1, p)); here.Some? && here.value.leaf.Leaf? && here.value.leaf.perms.user
    ensures p in mapped && Seen(Lookup(m, root, 1, p)) == Some(Hit(mapped[p], LAST))
  {
  }

  // ---- The user window ----

  /** The address of the `i`th page from `va` on: the loops step one page at a time. */
  function PageAddr(va: nat, i: nat): nat
  {
    if i == 0 then va else PageAddr(va, i - 1) + PAGE_SIZE
  }

  function WindowLeaf(text: nat, i: nat, frame: nat): Desc
  {
    Leaf(frame, NormalWb, if i < text then USER_RX else USER_RW)
  }

  /** The window's pages: text executable and read only, the rest writable and never executable. */
  function WindowMap(index: nat -> Page, vaBase: nat, text: nat, frames: seq<nat>): map<Page, Desc>
  {
    if frames == [] then map[]
    else var i := |frames| - 1;
         WindowMap(index, vaBase, text, frames[..i])[index(PageAddr(vaBase, i)) := WindowLeaf(text, i, frames[i])]
  }

  /** The window, page by page. */
  function WindowItems(index: nat -> Page, vaBase: nat, pages: nat): seq<Item>
  {
    seq(pages, i requires 0 <= i < pages => Item(index(PageAddr(vaBase, i)), 1, None, true))
  }

  /** No page of the window is both writable and executable, and each leads to one of its frames. */
  lemma {:induction false} WindowIsWX(index: nat -> Page, vaBase: nat, text: nat, frames: seq<nat>, p: Page)
    requires p in WindowMap(index, vaBase, text, frames)
    ensures var d := WindowMap(index, vaBase, text, frames)[p];
            d.Leaf? && d.pa in frames && d.perms.user && d.kind == NormalWb && d.perms.write != d.perms.execute
    decreases |frames|
  {
    var i := |frames| - 1;
    if p != index(PageAddr(vaBase, i)) {
      WindowIsWX(index, vaBase, text, frames[..i], p);
    }
  }

  /**
   * The window page by page: over its own frame, for EL0, in normal memory; the leading `text` pages can be
   * run and not written, the rest written and not run.
   */
  lemma {:induction false} WindowPages(index: nat -> Page, vaBase: nat, text: nat, frames: seq<nat>, i: nat)
    requires i < |frames|
    requires forall j: nat, k: nat :: j < k < |frames| ==> index(PageAddr(vaBase, j)) != index(PageAddr(vaBase, k))
    ensures var p := index(vaBase + i * 4096);
            var m := WindowMap(index, vaBase, text, frames);
            && p in m && m[p].Leaf? && m[p].pa == frames[i] && m[p].kind == NormalWb && m[p].perms.user
            && (m[p].perms.execute <==> i < text) && (m[p].perms.write <==> i >= text)
    decreases |frames|
  {
    hide PageAddr;
    PageAddrIs(vaBase, i);
    var n := |frames| - 1;
    if i < n {
      WindowPages(index, vaBase, text, frames[..n], i);
      assert index(PageAddr(vaBase, i)) != index(PageAddr(vaBase, n));
    }
  }

  lemma WindowNext(index: nat -> Page, vaBase: nat, text: nat, frames: seq<nat>, f: nat)
    ensures WindowMap(index, vaBase, text, frames + [f]) ==
            WindowMap(index, vaBase, text, frames)[index(PageAddr(vaBase, |frames|)) := WindowLeaf(text, |frames|, f)]
  {
    assert (frames + [f])[..|frames|] == frames;
  }

  /** The leading pages of a region, mapped one by one over `mapped`. */
  function RegionMap(index: nat -> Page, mapped: map<Page, Desc>, va: nat, pa: nat, kind: MemKind, perms: Perms, n: nat): map<Page, Desc>
  {
    if n == 0 then mapped
    else RegionMap(index, mapped, va, pa, kind, perms, n - 1)
           [index(PageAddr(va, n - 1)) := Leaf(PageAddr(pa, n - 1), kind, perms)]
  }

  /** An output address a page leaf can hold. */
  predicate Encodes(pa: nat)
  {
    pa % PAGE_SIZE == 0 && pa < PA_END
  }

  /** The pages of a region, one by one. */
  function RegionItems(index: nat -> Page, va: nat, pa: nat, n: nat): seq<Item>
  {
    seq(n, i requires 0 <= i < n => Item(index(PageAddr(va, i)), 0, None, Encodes(PageAddr(pa, i))))
  }

  lemma RegionNone(index: nat -> Page, mapped: map<Page, Desc>, va: nat, pa: nat, kind: MemKind, perms: Perms)
    ensures RegionMap(index, mapped, va, pa, kind, perms, 0) == mapped
  {
  }

  lemma RegionNext(index: nat -> Page, mapped: map<Page, Desc>, va: nat, pa: nat, kind: MemKind, perms: Perms, n: nat)
    ensures RegionMap(index, mapped, va, pa, kind, perms, n + 1) ==
            RegionMap(index, mapped, va, pa, kind, perms, n)[index(PageAddr(va, n)) := Leaf(PageAddr(pa, n), kind, perms)]
  {
  }

  /** Nothing already mapped is mapped otherwise. */
  predicate Keeps(m: map<Page, Desc>, n: map<Page, Desc>)
  {
    forall p :: p in m ==> p in n && n[p] == m[p]
  }

  lemma KeepsSelf(m: map<Page, Desc>)
    ensures Keeps(m, m)
  {
  }

  lemma KeepsThen(l: map<Page, Desc>, m: map<Page, Desc>, n: map<Page, Desc>)
    requires Keeps(l, m) && Keeps(m, n)
    ensures Keeps(l, n)
  {
  }

  /** Leaf `d` is what a region of `n` pages puts at page `p`. */
  predicate RegionLeaf(index: nat -> Page, va: nat, pa: nat, kind: MemKind, perms: Perms, n: nat, p: Page, d: Desc)
  {
    exists j: nat :: j < n && index(PageAddr(va, j)) == p && d == Leaf(PageAddr(pa, j), kind, perms)
  }

  /** A region's pages, and only those, join what was mapped. */
  lemma {:induction false} RegionPages(index: nat -> Page, mapped: map<Page, Desc>, va: nat, pa: nat, kind: MemKind, perms: Perms,
                                       n: nat, p: Page)
    ensures var m := RegionMap(index, mapped, va, pa, kind, perms, n);
            && (p in m ==> (p in mapped && m[p] == mapped[p]) || RegionLeaf(index, va, pa, kind, perms, n, p, m[p]))
            && (p in mapped ==> p in m)
            && (forall j: nat :: j < n ==> index(PageAddr(va, j)) in m)
    decreases n
  {
    hide PageAddr;
    if n > 0 {
      RegionPages(index, mapped, va, pa, kind, perms, n - 1, p);
      var k: nat := n - 1;
      var before, m := RegionMap(index, mapped, va, pa, kind, perms, k), RegionMap(index, mapped, va, pa, kind, perms, n);
      if p == index(PageAddr(va, k)) {
        assert m[p] == Leaf(PageAddr(pa, k), kind, perms);
        assert RegionLeaf(index, va, pa, kind, perms, n, p, m[p]);
      } else if p in m && RegionLeaf(index, va, pa, kind, perms, k, p, before[p]) {
        assert RegionLeaf(index, va, pa, kind, perms, n, p, m[p]);
      }
    }
  }

  /** Scattered pages mapped at consecutive addresses. */
  function PoolMap(index: nat -> Page, mapped: map<Page, Desc>, va: nat, pages: seq<nat>): map<Page, Desc>
  {
    if pages == [] then mapped
    else var i := |pages| - 1;
         PoolMap(index, mapped, va, pages[..i])[index(PageAddr(va, i)) := Leaf(pages[i], NormalWb, USER_RW)]
  }

  /** The pages of a pool; a frame that is null or unaligned is refused when its turn comes. */
  function PoolItems(index: nat -> Page, va: nat, frames: seq<nat>): seq<Item>
  {
    seq(|frames|, i requires 0 <= i < |frames| =>
      Item(index(PageAddr(va, i)), 0, if Crooked(frames[i]) then Some(Unaligned) else None, Encodes(frames[i])))
  }

  predicate Crooked(frame: nat)
  {
    frame == 0 || frame % PAGE_SIZE != 0
  }

  /** A pool page by page: the service's page at its place, for EL0 to read and write and not to run. */
  lemma {:induction false} PoolPages(index: nat -> Page, mapped: map<Page, Desc>, va: nat, pages: seq<nat>, i: nat)
    requires i < |pages|
    requires forall j: nat, k: nat :: j < k < |pages| ==> index(PageAddr(va, j)) != index(PageAddr(va, k))
    ensures var p := index(va + i * 4096);
            var m := PoolMap(index, mapped, va, pages);
            && p in m && m[p].Leaf? && m[p].pa == pages[i] && m[p].kind == NormalWb
            && m[p].perms.user && m[p].perms.write && !m[p].perms.execute
    decreases |pages|
  {
    hide PageAddr;
    PageAddrIs(va, i);
    var n := |pages| - 1;
    if i < n {
      PoolPages(index, mapped, va, pages[..n], i);
      assert index(PageAddr(va, i)) != index(PageAddr(va, n));
    }
  }

  // ---- The frames behind the window ----

  /** The window's frames are the space's own, distinct, none of them a table, each one page of bytes. */
  predicate Backed(b: Books, frames: seq<nat>)
  {
    && NoRepeat(frames)
    && forall i :: 0 <= i < |frames| ==>
         && frames[i] in SetOf(b.owned) && frames[i] !in b.home
         && frames[i] in b.mem && b.mem[frames[i]].PageOf? && |b.mem[frames[i]].data| == PAGE_SIZE
  }

  /** Every byte of the frames is zero. */
  predicate Blanked(b: Books, frames: seq<nat>)
  {
    forall i :: 0 <= i < |frames| ==> frames[i] in b.mem && b.mem[frames[i]] == PageOf(Zeros(4096))
  }

  /** Growing the tables leaves the window's frames as they are. */
  lemma BackedKept(a: Books, b: Books, frames: seq<nat>)
    requires Backed(a, frames) && Grows(a, b) && OnlyTables(a, b)
    ensures Backed(b, frames)
    ensures forall i :: 0 <= i < |frames| ==> b.mem[frames[i]] == a.mem[frames[i]]
  {
    PrefixSubset(a.owned, b.owned);
    forall i | 0 <= i < |frames|
      ensures frames[i] !in b.home
    {
      assert frames[i] in SetOf(a.owned);
    }
  }

  /** A frame `f` was taken and zeroed as a page. */
  predicate TookPage(a: Books, b: Books, pool: set<nat>, root: nat, f: nat)
  {
    && Settled(a, b, pool, root, None) && Spent(a, b, 1)
    && b.owned == a.owned + [f] && b.home == a.home && f !in a.inUse && f in a.mem
    && b.mem == a.mem[f := PageOf(Zeros(PAGE_SIZE))]
  }

  lemma PageSound(a: Books, b: Books, pool: set<nat>, root: nat, f: nat)
    requires Sound(a, pool, root) && Settled(a, b, pool, root, None) && Spent(a, b, 1)
    requires b.owned == a.owned + [f] && b.home == a.home && b.mem == a.mem && f !in a.inUse && f in a.mem
    ensures TookPage(a, b.(mem := b.mem[f := PageOf(Zeros(PAGE_SIZE))]), pool, root, f)
  {
    assert f in SetOf(b.owned) && f !in a.home;
    ConsistentFrame(b.mem, b.mem[f := PageOf(Zeros(PAGE_SIZE))], b.home);
    RewriteSound(b, pool, root, b.home, b.mem[f := PageOf(Zeros(PAGE_SIZE))]);
  }

  lemma PageUnwalked(a: Books, b: Books, pool: set<nat>, root: nat, f: nat)
    requires Sound(a, pool, root) && TookPage(a, b, pool, root, f)
    ensures SameWalks(a.mem, root, b.mem, root, 1)
  {
    hide PoolSound;
    assert f !in a.home;
    forall p: Page
      ensures Lookup(b.mem, root, 1, p) == Lookup(a.mem, root, 1, p)
    {
      LookupFrame(a.mem, b.mem, a.home, root, p);
    }
  }

  /** A page for the window: its frame first, then the walk. */
  function WindowItem(p: Page): Item
  {
    Item(p, 1, None, true)
  }

  /** No frame for the page: the plan said so. */
  lemma PageUntaken(a: Books, b: Books, root: nat, p: Page, e: AsError)
    requires |a.owned| <= MAX_AS_FRAMES && Verdict(a, 1) == Some(e)
    ensures AsPlanned(a, b, root, ItemPlan(Gap(Lookup(a.mem, root, 1, p)), WindowItem(p)), Some(e))
  {
    VerdictMore(a, 1, ItemPlan(Gap(Lookup(a.mem, root, 1, p)), WindowItem(p)).need);
  }

  /** The frame taken, the rest is the walk's plan. */
  lemma PagePlanned(a: Books, b: Books, c: Books, pool: set<nat>, root: nat, f: nat, p: Page, r: Option<AsError>)
    requires Sound(a, pool, root) && TookPage(a, b, pool, root, f)
    requires AsPlanned(b, c, root, WalkPlan(b, root, p, true), r)
    ensures AsPlanned(a, c, root, ItemPlan(Gap(Lookup(a.mem, root, 1, p)), WindowItem(p)), r)
  {
    hide Settled, AsPlanned, Consistent, PoolSound;
    PageUnwalked(a, b, pool, root, f);
    var first := Plan(1, None, []);
    assert Follows(a, b, root, first);
    PlannedThen(a, b, c, root, first, WalkPlan(b, root, p, true), r);
    assert Lookup(b.mem, root, 1, p) == Lookup(a.mem, root, 1, p);
    OneMore(Gap(Lookup(a.mem, root, 1, p)), p);
  }

  lemma OneMore(g: Option<nat>, p: Page)
    ensures ItemPlan(g, WindowItem(p)) == Then(Plan(1, None, []), ItemPlan(g, PageItem(p, true)))
  {
  }

  /** A new zeroed page changes no translation and joins the window's frames. */
  lemma ZeroedPage(a: Books, b: Books, pool: set<nat>, root: nat, base: Mem, kroot: nat,
                   mapped: map<Page, Desc>, window: seq<nat>, f: nat)
    requires Sound(a, pool, root) && TookPage(a, b, pool, root, f)
    requires View(a.mem, root, base, kroot, mapped) && Backed(a, window)
    ensures View(b.mem, root, base, kroot, mapped) && Backed(b, window + [f])
    ensures Blanked(a, window) ==> Blanked(b, window + [f])
  {
    PageUnwalked(a, b, pool, root, f);
    assert f in SetOf(b.owned) && f !in SetOf(a.owned) && f !in a.home;
    ViewKept(a.mem, b.mem, root, base, kroot, mapped);
    PrefixSubset(a.owned, b.owned);
    assert forall i :: 0 <= i < |window| ==> window[i] in SetOf(a.owned);
  }

  /** Pages translate as `mapped` says, and the window's frames stand behind it. */
  ghost predicate Windowed(b: Books, root: nat, base: Mem, kroot: nat, mapped: map<Page, Desc>, frames: seq<nat>)
  {
    View(b.mem, root, base, kroot, mapped) && Backed(b, frames)
  }

  /** One more page of the window: a zeroed frame behind its leaf. */
  lemma WindowGrows(a: Books, b: Books, c: Books, pool: set<nat>, root: nat, base: Mem, kroot: nat,
                    mapped: map<Page, Desc>, frames: seq<nat>, p: Page, leaf: Desc, f: nat)
    requires Sound(a, pool, root) && Windowed(a, root, base, kroot, mapped, frames)
    requires TookPage(a, b, pool, root, f) && MapDone(b, c, pool, root, p, leaf)
    ensures Settled(a, c, pool, root, None) && Windowed(c, root, base, kroot, mapped[p := leaf], frames + [f])
    ensures Blanked(a, frames) ==> Blanked(c, frames + [f])
  {
    ZeroedPage(a, b, pool, root, base, kroot, mapped, frames, f);
    SettledThen(a, b, c, pool, root, None);
    ViewMapped(b, c, pool, root, base, kroot, mapped, p, leaf);
    BackedKept(b, c, frames + [f]);
  }

  /** A prepared space: what it translates, and what stands behind its window and its text. */
  ghost predicate Prepared(b: Books, root: nat, base: Mem, kroot: nat, mapped: map<Page, Desc>,
                           window: seq<nat>, textPhys: seq<nat>, text: nat, pages: nat)
  {
    && Windowed(b, root, base, kroot, mapped, window)
    && |window| == pages && text <= pages && text <= |textPhys| && textPhys[..text] == window[..text]
  }

  /** The first `i` pages of the window are in place, begun at books `a`. */
  ghost predicate InWindow(a: Books, b: Books, pool: set<nat>, root: nat, base: Mem, kroot: nat,
                           mapped: map<Page, Desc>, window: seq<nat>, textPhys: seq<nat>,
                           index: nat -> Page, vaBase: nat, text: nat, i: nat, va: nat)
  {
    && |window| == i && va == PageAddr(vaBase, i)
    && Settled(a, b, pool, root, None)
    && Windowed(b, root, base, kroot, mapped, window) && mapped == WindowMap(index, vaBase, text, window)
    && text <= |textPhys| && Blanked(b, window)
    && forall j :: 0 <= j < i && j < text ==> textPhys[j] == window[j]
  }

  lemma WindowStart(a: Books, pool: set<nat>, root: nat, base: Mem, kroot: nat, textPhys: seq<nat>,
                    index: nat -> Page, vaBase: nat, text: nat)
    requires Sound(a, pool, root) && View(a.mem, root, base, kroot, map[]) && text <= |textPhys|
    ensures InWindow(a, a, pool, root, base, kroot, map[], [], textPhys, index, vaBase, text, 0, vaBase)
  {
    SettledStill(a, pool, root, None);
  }

  lemma InWindowSound(a: Books, b: Books, pool: set<nat>, root: nat, base: Mem, kroot: nat,
                      mapped: map<Page, Desc>, window: seq<nat>, textPhys: seq<nat>,
                      index: nat -> Page, vaBase: nat, text: nat, i: nat, va: nat)
    requires InWindow(a, b, pool, root, base, kroot, mapped, window, textPhys, index, vaBase, text, i, va)
    ensures Settled(a, b, pool, root, None) && Sound(b, pool, root)
    ensures Windowed(b, root, base, kroot, mapped, window) && text <= |textPhys| && va == PageAddr(vaBase, i)
    ensures Blanked(b, window)
  {
  }

  lemma WindowReady(a: Books, b: Books, pool: set<nat>, root: nat, base: Mem, kroot: nat,
                    mapped: map<Page, Desc>, window: seq<nat>, textPhys: seq<nat>,
                    index: nat -> Page, vaBase: nat, text: nat, pages: nat, va: nat)
    requires InWindow(a, b, pool, root, base, kroot, mapped, window, textPhys, index, vaBase, text, pages, va) && text <= pages
    ensures Prepared(b, root, base, kroot, mapped, window, textPhys, text, pages)
    ensures Settled(a, b, pool, root, None) && mapped == WindowMap(index, vaBase, text, window) && Blanked(b, window)
  {
  }

  /** The step of the window's loop. */
  lemma WindowAdvances(a: Books, b: Books, c: Books, pool: set<nat>, root: nat, base: Mem, kroot: nat,
                       mapped: map<Page, Desc>, window: seq<nat>, textPhys: seq<nat>, textPhys': seq<nat>,
                       index: nat -> Page, vaBase: nat, text: nat, i: nat, va: nat, f: nat)
    requires InWindow(a, b, pool, root, base, kroot, mapped, window, textPhys, index, vaBase, text, i, va)
    requires Settled(b, c, pool, root, None)
    requires Windowed(c, root, base, kroot, mapped[index(va) := WindowLeaf(text, i, f)], window + [f])
    requires Blanked(c, window + [f])
    requires textPhys' == if i < text then textPhys[i := f] else textPhys
    ensures InWindow(a, c, pool, root, base, kroot, mapped[index(va) := WindowLeaf(text, i, f)], window + [f],
                     textPhys', index, vaBase, text, i + 1, va + PAGE_SIZE)
  {
    hide Settled, Windowed, WindowLeaf, WindowMap, Blanked;
    SettledThen(a, b, c, pool, root, None);
    WindowNext(index, vaBase, text, window, f);
  }

  lemma {:induction false} PageAddrIs(va: nat, n: nat)
    ensures PageAddr(va, n) == va + n * PAGE_SIZE
    decreases n
  {
    if n > 0 { PageAddrIs(va, n - 1); }
  }

  /** Prepared is kept by mapping one more page... */
  lemma PreparedMaps(a: Books, b: Books, pool: set<nat>, root: nat, base: Mem, kroot: nat, mapped: map<Page, Desc>,
                     window: seq<nat>, textPhys: seq<nat>, text: nat, pages: nat, p: Page, leaf: Desc)
    requires Prepared(a, root, base, kroot, mapped, window, textPhys, text, pages)
    requires MapDone(a, b, pool, root, p, leaf)
    ensures Prepared(b, root, base, kroot, mapped[p := leaf], window, textPhys, text, pages) && p !in mapped
  {
    BackedKept(a, b, window);
    ViewMapped(a, b, pool, root, base, kroot, mapped, p, leaf);
  }

  /** ...and by failing to. */
  lemma PreparedKept(a: Books, b: Books, pool: set<nat>, root: nat, base: Mem, kroot: nat, mapped: map<Page, Desc>,
                     window: seq<nat>, textPhys: seq<nat>, text: nat, pages: nat, error: AsError)
    requires Prepared(a, root, base, kroot, mapped, window, textPhys, text, pages)
    requires MapFailed(a, b, pool, root, error)
    ensures Prepared(b, root, base, kroot, mapped, window, textPhys, text, pages)
  {
    BackedKept(a, b, window);
    ViewKept(a.mem, b.mem, root, base, kroot, mapped);
  }

  // ---- Flat text ----

  function TextBytes(m: Mem, frames: seq<nat>): (s: seq<byte>)
    requires forall i :: 0 <= i < |frames| ==>
      frames[i] in m && m[frames[i]].PageOf? && |m[frames[i]].data| == PAGE_SIZE
    ensures |s| == |frames| * PAGE_SIZE
  {
    seq(|frames| * PAGE_SIZE, i requires 0 <= i < |frames| * PAGE_SIZE =>
      m[frames[i / PAGE_SIZE]].data[i % PAGE_SIZE])
  }

  /** Physical memory with `chunk` written into one page at `at`. */
  function PagePoked(m: Mem, f: nat, at: nat, chunk: seq<byte>): Mem
    requires f in m && m[f].PageOf? && at + |chunk| <= |m[f].data|
  {
    m[f := PageOf(Splice(m[f].data, at, chunk))]
  }

  /** A write inside one page is the same write in the flat text, wherever the frames lie. */
  lemma PokeIsFlat(m: Mem, frames: seq<nat>, at: nat, chunk: seq<byte>)
    requires NoRepeat(frames)
    requires forall i :: 0 <= i < |frames| ==>
      frames[i] in m && m[frames[i]].PageOf? && |m[frames[i]].data| == PAGE_SIZE
    requires at / PAGE_SIZE < |frames| && at % PAGE_SIZE + |chunk| <= PAGE_SIZE
    ensures var n := PagePoked(m, frames[at / PAGE_SIZE], at % PAGE_SIZE, chunk);
            && (forall i :: 0 <= i < |frames| ==>
                  frames[i] in n && n[frames[i]].PageOf? && |n[frames[i]].data| == PAGE_SIZE)
            && at + |chunk| <= |frames| * PAGE_SIZE
            && TextBytes(n, frames) == Splice(TextBytes(m, frames), at, chunk)
  {
    var page, off := at / PAGE_SIZE, at % PAGE_SIZE;
    var f := frames[page];
    var n := PagePoked(m, f, off, chunk);
    var l, r := TextBytes(n, frames), Splice(TextBytes(m, frames), at, chunk);
    forall i | 0 <= i < |frames| * PAGE_SIZE
      ensures l[i] == r[i]
    {
      PokedByte(m, frames, at, chunk, i);
    }
  }

  lemma PokedByte(m: Mem, frames: seq<nat>, at: nat, chunk: seq<byte>, i: nat)
    requires NoRepeat(frames)
    requires forall i :: 0 <= i < |frames| ==>
      frames[i] in m && m[frames[i]].PageOf? && |m[frames[i]].data| == PAGE_SIZE
    requires at / PAGE_SIZE < |frames| && at % PAGE_SIZE + |chunk| <= PAGE_SIZE && i < |frames| * PAGE_SIZE
    ensures at + |chunk| <= |frames| * PAGE_SIZE
    ensures PagePoked(m, frames[at / PAGE_SIZE], at % PAGE_SIZE, chunk)[frames[i / PAGE_SIZE]].data[i % PAGE_SIZE]
         == Splice(TextBytes(m, frames), at, chunk)[i]
  {
    if i / PAGE_SIZE != at / PAGE_SIZE {
      assert !(at <= i < at + |chunk|);
      assert frames[i / PAGE_SIZE] != frames[at / PAGE_SIZE];
    }
  }

  // ---- Writing the text ----

  /** The first `written` of `bytes` are in the text at `offset`, and only the text's frames changed. */
  ghost predicate Poking(a: Books, b: Books, text: seq<nat>, offset: nat, bytes: seq<byte>, written: nat)
    requires Backed(a, text)
  {
    && b == a.(mem := b.mem) && b.mem.Keys == a.mem.Keys && Backed(b, text)
    && written <= |bytes| && offset + |bytes| <= |text| * PAGE_SIZE
    && TextBytes(b.mem, text) == Splice(TextBytes(a.mem, text), offset, bytes[..written])
    && forall f :: f in a.mem && f !in text ==> b.mem[f] == a.mem[f]
  }

  lemma PokeStart(a: Books, text: seq<nat>, offset: nat, bytes: seq<byte>)
    requires Backed(a, text) && offset + |bytes| <= |text| * PAGE_SIZE
    ensures Poking(a, a, text, offset, bytes, 0)
  {
    var t := TextBytes(a.mem, text);
    assert t[..offset] + [] + t[offset..] == t;
  }

  /** One page's share of the write. */
  lemma PokeStep(a: Books, b: Books, text: seq<nat>, offset: nat, bytes: seq<byte>, written: nat, take: nat)
    requires Backed(a, text) && Poking(a, b, text, offset, bytes, written) && written + take <= |bytes| && 0 < take
    requires (offset + written) % PAGE_SIZE + take <= PAGE_SIZE
    ensures var page := (offset + written) / PAGE_SIZE;
            && page < |text| && text[page] in b.mem && b.mem[text[page]].PageOf? && |b.mem[text[page]].data| == PAGE_SIZE
            && Poking(a, b.(mem := PagePoked(b.mem, text[page], (offset + written) % PAGE_SIZE, bytes[written..written + take])),
                      text, offset, bytes, written + take)
  {
    hide TextBytes, Splice;
    var at, chunk := offset + written, bytes[written..written + take];
    assert at / PAGE_SIZE < |text|;
    PokeIsFlat(b.mem, text, at, chunk);
    SpliceNext(TextBytes(a.mem, text), offset, bytes[..written], chunk);
    assert bytes[..written] + chunk == bytes[..written + take];
  }

  /** Frames `text` as one run: the bytes written stand where they were written, every other byte as it was. */
  predicate PokedBytes(m: Mem, n: Mem, text: seq<nat>, offset: nat, bytes: seq<byte>)
  {
    forall i: nat :: i < |text| * 4096 ==>
      var f := text[i / 4096];
      && f in m && m[f].PageOf? && |m[f].data| == 4096 && f in n && n[f].PageOf? && |n[f].data| == 4096
      && n[f].data[i % 4096] == if offset <= i < offset + |bytes| then bytes[i - offset] else m[f].data[i % 4096]
  }

  lemma PokeLands(a: Books, b: Books, text: seq<nat>, offset: nat, bytes: seq<byte>)
    requires Backed(a, text) && Poking(a, b, text, offset, bytes, |bytes|)
    ensures PokedBytes(a.mem, b.mem, text, offset, bytes)
  {
    hide Splice;
    assert bytes[..|bytes|] == bytes;
    forall i: nat | i < |text| * 4096
      ensures b.mem[text[i / 4096]].data[i % 4096] ==
              if offset <= i < offset + |bytes| then bytes[i - offset] else a.mem[text[i / 4096]].data[i % 4096]
    {
      SpliceAt(TextBytes(a.mem, text), offset, bytes, i);
      assert TextBytes(b.mem, text)[i] == b.mem[text[i / 4096]].data[i % 4096];
    }
  }

  /** A write into the text keeps the books, every translation, and the rest of the window. */
  lemma PokeKeeps(a: Books, b: Books, pool: set<nat>, root: nat, base: Mem, kroot: nat, mapped: map<Page, Desc>,
                  window: seq<nat>, textPhys: seq<nat>, text: nat, pages: nat, offset: nat, bytes: seq<byte>)
    requires Sound(a, pool, root) && Prepared(a, root, base, kroot, mapped, window, textPhys, text, pages)
    requires Backed(a, window[..text]) && Poking(a, b, window[..text], offset, bytes, |bytes|)
    ensures Settled(a, b, pool, root, None) && Prepared(b, root, base, kroot, mapped, window, textPhys, text, pages)
    ensures SameWalks(a.mem, root, b.mem, root, 1)
  {
    assert forall f :: f in window[..text] ==> f in SetOf(a.owned) && f !in a.home;
    ConsistentFrame(a.mem, b.mem, a.home);
    RewriteSound(a, pool, root, a.home, b.mem);
    forall p: Page
      ensures Lookup(b.mem, root, 1, p) == Lookup(a.mem, root, 1, p)
    {
      LookupFrame(a.mem, b.mem, a.home, root, p);
    }
    ViewKept(a.mem, b.mem, root, base, kroot, mapped);
    BackedAfterPoke(a, b, window, text);
  }

  lemma BackedAfterPoke(a: Books, b: Books, window: seq<nat>, text: nat)
    requires Backed(a, window) && text <= |window| && Backed(b, window[..text]) && b == a.(mem := b.mem)
    requires b.mem.Keys == a.mem.Keys
    requires forall f :: f in a.mem && f !in window[..text] ==> b.mem[f] == a.mem[f]
    ensures Backed(b, window)
  {
    forall i | 0 <= i < |window|
      ensures b.mem[window[i]].PageOf? && |b.mem[window[i]].data| == PAGE_SIZE
    {
      if i < text { assert window[..text][i] == window[i]; } else { assert window[i] !in window[..text]; }
    }
  }
}

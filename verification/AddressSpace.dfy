/** A user address space: clone of the kernel's translations, private window, mapped regions, teardown. */
module AddressSpace {
  import opened Bytes
  import opened Wrappers
  import opened PageTables
  import opened FrameBooks
  import opened FramePlan
  import opened TableClone
  import opened TableMap
  import opened SpaceView
  import Asid

  const MAX_TEXT_PAGES: nat := 16
  const PACKET_POOL_PAGES: nat := 8
  const VA_END: nat := 0x1_0000_0000_0000_0000

  /** Whether a region's addresses and length are whole pages that do not wrap. */
  predicate Aligned(va: nat, pa: nat, len: nat)
  {
    && len != 0 && va % PAGE_SIZE == 0 && pa % PAGE_SIZE == 0 && len % PAGE_SIZE == 0
    && pa + len < VA_END && va + len < VA_END
  }

  class Space {
    const machine: Machine
    const root: nat
    const asid: nat
    /** Lowest address of the user window. */
    const vaBase: nat
    /** The window: `textPages` executable pages, then stack up to `pages`. */
    const textPages: nat
    const pages: nat
    const packetPool: bool

    var owned: seq<nat>
    var userSp: nat
    /** Physical address of each text page; the frames are adjacent only by luck. */
    var textPhys: seq<nat>
    var packetPoolMapped: bool
    var prepared: bool

    /** Where each table hangs. */
    ghost var home: Homes
    /** Frames the ledger refused. */
    ghost var leaked: set<nat>
    /** The kernel's memory and root as they were cloned. */
    ghost var base: Mem
    ghost var kroot: nat
    /** Pages mapped since the clone. */
    ghost var mapped: map<Page, Desc>
    /** Frames behind the window, in order. */
    ghost var window: seq<nat>

    ghost function Now(): Books
      reads this, machine
    {
      Books(owned, home, leaked, machine.free, machine.inUse, machine.mem)
    }

    ghost predicate TablesSound()
      reads this, machine
    {
      Sound(Now(), machine.pool, root)
    }

    ghost predicate Valid()
      reads this, machine
    {
      && TablesSound()
      && 0 < textPages <= MAX_TEXT_PAGES && textPages < pages
      && |textPhys| == MAX_TEXT_PAGES
      && (prepared ==> Ready())
    }

    ghost predicate Ready()
      reads this, machine
    {
      Prepared(Now(), root, base, kroot, mapped, window, textPhys, textPages, pages)
    }

    constructor (machine: Machine, root: nat, asid: nat, vaBase: nat, textPages: nat, pages: nat, packetPool: bool)
      requires PoolSound(machine.pool, machine.free, machine.inUse, machine.mem)
      requires root in machine.inUse && root in machine.mem && machine.mem[root] == EmptyTable()
      requires 0 < textPages <= MAX_TEXT_PAGES && textPages < pages
      ensures this.machine == machine && this.root == root && this.asid == asid && this.vaBase == vaBase
      ensures this.textPages == textPages && this.pages == pages && this.packetPool == packetPool
      ensures owned == [root] && leaked == {} && !prepared && !packetPoolMapped
      ensures Valid()
    {
      this.machine, this.root, this.asid, this.owned := machine, root, asid, [root];
      this.vaBase, this.textPages, this.pages, this.packetPool := vaBase, textPages, pages, packetPool;
      userSp, packetPoolMapped, prepared := 0, false, false;
      textPhys := seq(MAX_TEXT_PAGES, i => 0);
      home, leaked, base, kroot, mapped, window := map[root := []], {}, map[], 0, map[], [];
    }

    /** `frames::alloc` then `track`: a frame the ledger refuses is lost. */
    method TakeFrame() returns (r: Result<nat, AsError>)
      requires TablesSound()
      modifies this`owned, this`leaked, machine`free, machine`inUse
      ensures TablesSound() && Grows(old(Now()), Now())
      ensures home == old(home) && machine.mem == old(machine.mem)
      ensures r == Err(OutOfFrames) <==> old(machine.free) == []
      ensures r == Err(LedgerFull) <==> old(machine.free) != [] && |old(owned)| >= MAX_AS_FRAMES
      ensures ErrorOf(r) == Verdict(old(Now()), 1) && (r.Ok? ==> Spent(old(Now()), Now(), 1))
      ensures LeakRule(old(Now()), Now(), ErrorOf(r))
      ensures r.Err? ==> owned == old(owned)
      ensures r.Ok? ==> owned == old(owned) + [r.value] && r.value !in old(machine.inUse) && r.value in machine.pool
    {
      hide Grows, Consistent, SetOf, PoolSound;
      ghost var b := Now();
      var f := machine.Alloc();
      if f.None? {
        GrowsReflexive(b);
        return Err(OutOfFrames);
      }
      if |owned| >= MAX_AS_FRAMES {
        LostSound(b, machine.pool, root);
        leaked := leaked + {f.value};
        assert Now() == Lost(b);
        return Err(LedgerFull);
      }
      TookSound(b, machine.pool, root);
      owned := owned + [f.value];
      assert Now() == Took(b);
      r := Ok(f.value);
    }

    /**
     * `clone_table_into`: on success every page translates through `dst` as it does through `src`.
     * Leaves are shared, every table is new, and no frame in use changes but `dst`.
     */
    method CloneTableInto(src: nat, dst: nat, level: nat, ghost k: map<nat, nat>) returns (r: Result<(), AsError>)
      requires TablesSound() && Kernel(machine.mem, k, machine.pool) && src in k && k[src] == level
      requires dst in home && LevelOf(home, dst) == level
      modifies this`owned, this`home, this`leaked, machine`free, machine`inUse, machine`mem
      ensures Costs(old(Now()), Now(), TablePlan(old(machine.mem), src, level), ErrorOf(r))
      ensures r.Err? ==> Abandoned(old(Now()), Now(), machine.pool, root, dst, r.error)
      ensures r.Ok? ==> Filled(old(Now()), Now(), machine.pool, root, src, dst, level)
      decreases LAST - level
    {
      hide Costs, TablePlan, Paid;
      ghost var a := Now();
      CloneStart(a, machine.pool, root, src, dst);
      PaidStart(a, src, level);
      var i := 0;
      while i < ENTRIES
        invariant 0 <= i <= ENTRIES
        invariant Cloning(a, Now(), machine.pool, root, src, dst, level, i) && Paid(a, Now(), src, level, i)
      {
        ghost var b := Now();
        KernelKept(a, b, machine.pool, root, k);
        var e := machine.mem[src].entries[i];
        match e {
          case Invalid =>
            CloneEntry(a, b, machine.pool, root, src, dst, level, i, e);
            WriteEntry(dst, i, Invalid);
          case Leaf(_, _, _) =>
            CloneEntry(a, b, machine.pool, root, src, dst, level, i, e);
            WriteEntry(dst, i, e);
          case Reserved =>
            Refuses(b, a.mem, e, level);
            PaidStops(a, b, b, src, level, i, BadTable);
            return Err(BadTable);
          case Table(child) =>
            if level == LAST {
              Refuses(b, a.mem, e, level);
              PaidStops(a, b, b, src, level, i, BadTable);
              return Err(BadTable);
            }
            r := CloneChild(src, dst, level, i, child, k, a);
            if r.Err? {
              PaidStops(a, b, Now(), src, level, i, r.error);
              return;
            }
            CostsEnd(b, Now(), EntryPlan(a.mem, e, level));
        }
        PaidNext(a, b, Now(), src, level, i);
        i := i + 1;
      }
      CloneDone(a, Now(), machine.pool, root, src, dst, level);
      PaidDone(a, Now(), src, level);
      r := Ok(());
    }

    /** One table entry of the clone: a new table, filled, then linked. */
    method CloneChild(src: nat, dst: nat, level: nat, i: nat, child: nat, ghost k: map<nat, nat>, ghost a: Books)
      returns (r: Result<(), AsError>)
      requires TablesSound() && Kernel(a.mem, k, machine.pool) && src in k && k[src] == level < LAST
      requires i < ENTRIES && Cloning(a, Now(), machine.pool, root, src, dst, level, i)
      requires a.mem[src].entries[i] == Table(child)
      modifies this`owned, this`home, this`leaked, machine`free, machine`inUse, machine`mem
      ensures Costs(old(Now()), Now(), EntryPlan(a.mem, Table(child), level), ErrorOf(r))
      ensures r.Err? ==> Abandoned(a, Now(), machine.pool, root, dst, r.error)
      ensures r.Ok? ==> Cloning(a, Now(), machine.pool, root, src, dst, level, i + 1)
      decreases LAST - level, 1
    {
      hide Costs, EntryPlan, Verdict, ClonedTo, Grows, KeepsUsed;
      ghost var b := Now();
      var t := HangTable(dst, i);
      if t.Err? {
        ChildUnhung(b, Now(), a.mem, child, level, t.error);
        AbandonedNow(a, b, Now(), machine.pool, root, dst, t.error);
        return Err(t.error);
      }
      assert Hanging(a, b, Now(), machine.pool, root, src, dst, level, i, child, k, t.value);
      r := FillTable(src, dst, level, i, child, k, a, b, t.value);
    }

    /** Fill the hung table `z` from `child`, then link it at entry `i` of `dst`. */
    method FillTable(src: nat, dst: nat, level: nat, i: nat, child: nat, ghost k: map<nat, nat>,
                     ghost a: Books, ghost b: Books, z: nat)
      returns (r: Result<(), AsError>)
      requires Hanging(a, b, Now(), machine.pool, root, src, dst, level, i, child, k, z) && Spent(b, Now(), 1)
      modifies this`owned, this`home, this`leaked, machine`free, machine`inUse, machine`mem
      ensures Costs(b, Now(), EntryPlan(a.mem, Table(child), level), ErrorOf(r))
      ensures r.Err? ==> Abandoned(a, Now(), machine.pool, root, dst, r.error)
      ensures r.Ok? ==> Cloning(a, Now(), machine.pool, root, src, dst, level, i + 1)
      decreases LAST - level, 0
    {
      hide Costs, EntryPlan, TablePlan, Cloning, Grows;
      ghost var d := Now();
      HangingReady(a, b, d, machine.pool, root, src, dst, level, i, child, k, z);
      r := CloneTableInto(child, z, level + 1, k);
      ghost var e := Now();
      ChildCosts(a, b, d, e, k, child, level, ErrorOf(r));
      if r.Err? {
        AbandonedBelow(a, b, d, e, machine.pool, root, src, dst, level, i, child, k, z, r.error);
        return;
      }
      CloneLink(a, b, d, e, machine.pool, root, src, dst, level, i, child, k, z);
      WriteEntry(dst, i, Table(z));
      CostsSame(b, e, Now(), EntryPlan(a.mem, Table(child), level), None);
    }

    /** `write_volatile` of one descriptor. */
    method WriteEntry(t: nat, i: nat, d: Desc)
      requires IsTable(machine.mem, t) && i < ENTRIES
      modifies machine`mem
      ensures Now() == old(Now()).(mem := Write(old(machine.mem), t, i, d))
    {
      machine.mem := Write(machine.mem, t, i, d);
    }

    /**
     * `map_l3_page`: on success `va`'s page goes from unmapped to the leaf and nothing else moves; on
     * failure no page translates differently, though empty tables may have been linked.
     */
    method MapL3Page(va: nat, pa: nat, kind: MemKind, perms: Perms) returns (r: Result<(), AsError>)
      requires TablesSound()
      modifies this`owned, this`home, this`leaked, machine`free, machine`inUse, machine`mem
      ensures AsPlanned(old(Now()), Now(), root, WalkPlan(old(Now()), root, machine.index(va), Encodes(pa)), ErrorOf(r))
      ensures r.Err? ==> MapFailed(old(Now()), Now(), machine.pool, root, r.error)
      ensures r.Ok? ==> MapDone(old(Now()), Now(), machine.pool, root, machine.index(va), Leaf(pa, kind, perms)) && Encodes(pa)
    {
      hide Walking, MapFailed, MapDone, NodeAt, Sound, AsPlanned, WalkPlan;
      var p := machine.index(va);
      ghost var a := Now();
      WalkStart(a, machine.pool, root, p);
      var table, level := root, 1;
      while level != LAST
        invariant 1 <= level <= LAST
        invariant Walking(a, Now(), machine.pool, root, p, level - 1)
        invariant NodeAt(machine.mem, root, p, level - 1) == Some(table)
      {
        r, table := Descend(p, level, table, Encodes(pa), a);
        if r.Err? {
          return;
        }
        level := level + 1;
      }
      WalkNode(a, Now(), machine.pool, root, p, 2);
      if machine.mem[table].entries[p[2]] != Invalid {
        WalkBlocked(a, Now(), machine.pool, root, p, 2, Encodes(pa));
        return Err(BadTable);
      }
      if !Encodes(pa) {
        WalkUnencodable(a, Now(), machine.pool, root, p);
        return Err(BadTable);
      }
      WalkLeaf(a, Now(), machine.pool, root, p, table, Leaf(pa, kind, perms));
      WriteEntry(table, p[2], Leaf(pa, kind, perms));
      r := Ok(());
    }

    /** One level of the walk: follow the table that is there, or link an empty one. */
    method Descend(p: Page, level: nat, table: nat, ghost encodes: bool, ghost a: Books) returns (r: Result<(), AsError>, next: nat)
      requires 1 <= level < LAST && Walking(a, Now(), machine.pool, root, p, level - 1) && Sound(a, machine.pool, root)
      requires NodeAt(machine.mem, root, p, level - 1) == Some(table)
      modifies this`owned, this`home, this`leaked, machine`free, machine`inUse, machine`mem
      ensures r.Err? ==> MapFailed(a, Now(), machine.pool, root, r.error)
                         && AsPlanned(a, Now(), root, WalkPlan(a, root, p, encodes), Some(r.error))
      ensures r.Ok? ==> Walking(a, Now(), machine.pool, root, p, level)
                        && NodeAt(machine.mem, root, p, level) == Some(next)
    {
      hide Grows, PoolSound, SetOf, AsPlanned, WalkPlan, DugTo, Dig, Verdict;
      ghost var b := Now();
      WalkNode(a, b, machine.pool, root, p, level - 1);
      var entry := machine.mem[table].entries[p[level - 1]];
      match entry {
        case Invalid =>
          var t := HangTable(table, p[level - 1]);
          if t.Err? {
            WalkShort(a, b, Now(), machine.pool, root, p, level - 1, encodes, t.error);
            WalkFails(a, b, Now(), machine.pool, root, p, level - 1, t.error);
            return Err(t.error), 0;
          }
          WalkLink(a, b, Now(), machine.pool, root, p, level - 1, table, t.value);
          WriteEntry(table, p[level - 1], Table(t.value));
          return Ok(()), t.value;
        case Table(c) =>
          WalkFollow(a, b, machine.pool, root, p, level - 1);
          return Ok(()), c;
        case _ =>
          WalkBlocked(a, b, machine.pool, root, p, level - 1, encodes);
          return Err(BadTable), 0;
      }
    }

    /** Take a frame, zero it, and give it its place under `dst`; the link is the caller's. */
    method HangTable(dst: nat, i: nat) returns (r: Result<nat, AsError>)
      requires TablesSound() && dst in home && |home[dst]| < LAST - 1 && i < ENTRIES
      modifies this`owned, this`home, this`leaked, machine`free, machine`inUse, machine`mem
      ensures TablesSound() && Grows(old(Now()), Now()) && LeakRule(old(Now()), Now(), ErrorOf(r))
      ensures ErrorOf(r) == Verdict(old(Now()), 1) && (r.Ok? ==> Spent(old(Now()), Now(), 1))
      ensures r.Err? ==> home == old(home) && machine.mem == old(machine.mem)
      ensures r.Ok? ==>
        && r.value !in old(machine.inUse) && r.value in old(machine.mem) && r.value !in old(home)
        && home == old(home)[r.value := home[dst] + [i]]
        && machine.mem == old(machine.mem)[r.value := EmptyTable()]
    {
      ghost var b := Now();
      r := TakeFrame();
      if r.Ok? {
        ghost var c := Now();
        TakenIsNew(b, c, machine.pool, root, r.value);
        HungSound(c, machine.pool, root, dst, i, r.value);
        HungGrows(b, c, machine.pool, root, dst, i, r.value);
        machine.mem := machine.mem[r.value := EmptyTable()];
        home := home[r.value := home[dst] + [i]];
      }
    }

    // ---- Preparing ----

    ghost function Window(): seq<Item>
    {
      WindowItems(machine.index, vaBase, pages)
    }

    /**
     * `prepare_for_el0`: deep-clone the kernel's coverage, then map the window. Afterwards every
     * page translates as the kernel's root did, the window's pages aside.
     */
    method PrepareForEl0(kernelRoot: Option<nat>, ghost k: map<nat, nat>) returns (r: Result<(), AsError>)
      requires Valid() && Kernel(machine.mem, k, machine.pool)
      requires kernelRoot.Some? ==> kernelRoot.value in k && k[kernelRoot.value] == 1
      modifies this, machine`free, machine`inUse, machine`mem
      ensures Valid() && Settled(old(Now()), Now(), machine.pool, root, ErrorOf(r))
      ensures old(prepared) ==> r == Err(AlreadyPrepared) && unchanged(this) && unchanged(machine)
      ensures !old(prepared) && kernelRoot.None? ==> r == Err(NoKernelRoot) && unchanged(this) && unchanged(machine)
      ensures !old(prepared) && kernelRoot.Some? ==>
        Costs(old(Now()), Now(), PopulatePlan(old(machine.mem), kernelRoot.value, Window()), ErrorOf(r))
      ensures prepared <==> old(prepared) || r.Ok?
      ensures packetPoolMapped == old(packetPoolMapped)
      ensures r.Ok? ==> base == old(machine.mem) && kroot == kernelRoot.value
                        && Since(base, kroot, machine.mem, root, PopulatePlan(base, kroot, Window()).marks)
                        && mapped == WindowMap(machine.index, vaBase, textPages, window)
                        && Blanked(Now(), window) && userSp == vaBase + pages * 4096
    {
      hide Blanked, Sound, Settled, Costs, Since, Prepared, PopulatePlan, Kernel, WindowMap;
      if prepared {
        SettledStill(Now(), machine.pool, root, Some(AlreadyPrepared));
        return Err(AlreadyPrepared);
      }
      if kernelRoot.None? {
        SettledStill(Now(), machine.pool, root, Some(NoKernelRoot));
        return Err(NoKernelRoot);
      }
      r := Populate(kernelRoot.value, k);
      SettledSound(old(Now()), Now(), machine.pool, root, ErrorOf(r));
      prepared := r.Ok?;
    }

    /** The two halves of preparing: clone, then window. */
    method Populate(kernelRoot: nat, ghost k: map<nat, nat>) returns (r: Result<(), AsError>)
      requires TablesSound() && Kernel(machine.mem, k, machine.pool) && kernelRoot in k && k[kernelRoot] == 1
      requires 0 < textPages < pages && textPages <= MAX_TEXT_PAGES == |textPhys|
      modifies this`owned, this`home, this`leaked, this`textPhys, this`userSp
      modifies this`mapped, this`window, this`base, this`kroot, machine`free, machine`inUse, machine`mem
      ensures |textPhys| == MAX_TEXT_PAGES && Settled(old(Now()), Now(), machine.pool, root, ErrorOf(r))
      ensures Costs(old(Now()), Now(), PopulatePlan(old(machine.mem), kernelRoot, Window()), ErrorOf(r))
      ensures r.Ok? ==> Ready() && base == old(machine.mem) && kroot == kernelRoot
                        && Since(base, kroot, machine.mem, root, PopulatePlan(base, kroot, Window()).marks)
                        && mapped == WindowMap(machine.index, vaBase, textPages, window)
                        && Blanked(Now(), window) && userSp == vaBase + pages * PAGE_SIZE
    {
      hide Blanked, Prepared, Kernel, Costs, AsPlanned, Since, View, SameWalks, Settled, Filled, Abandoned, WindowMap;
      ghost var a := Now();
      RootHome(a, machine.pool, root);
      hide Sound;
      r := CloneTableInto(kernelRoot, root, 1, k);
      if r.Err? {
        AbandonedSettled(a, Now(), machine.pool, root, root, r.error);
        CostsStops(a, Now(), TablePlan(a.mem, kernelRoot, 1), ItemsPlan(a.mem, kernelRoot, [], Window()), r.error);
        return;
      }
      ghost var b := Now();
      FilledSettled(a, b, machine.pool, root, kernelRoot, root, 1);
      base, kroot := a.mem, kernelRoot;
      ViewOfClone(base, kroot, machine.mem, root);
      r := MapUserWindow();
      SettledThen(a, b, Now(), machine.pool, root, ErrorOf(r));
      WindowAfterClone(a, b, Now(), root, kernelRoot, Window(), ErrorOf(r));
    }

    /** `map_user_window`: one frame a page, text first. */
    method MapUserWindow() returns (r: Result<(), AsError>)
      requires TablesSound() && View(machine.mem, root, base, kroot, map[])
      requires 0 < textPages < pages && textPages <= MAX_TEXT_PAGES == |textPhys|
      modifies this`owned, this`home, this`leaked, this`textPhys, this`userSp, this`mapped, this`window
      modifies machine`free, machine`inUse, machine`mem
      ensures |textPhys| == MAX_TEXT_PAGES && Settled(old(Now()), Now(), machine.pool, root, ErrorOf(r))
      ensures AsPlanned(old(Now()), Now(), root, ItemsPlan(old(machine.mem), root, [], Window()), ErrorOf(r))
      ensures r.Ok? ==> Ready() && mapped == WindowMap(machine.index, vaBase, textPages, window)
                        && Blanked(Now(), window) && userSp == vaBase + pages * PAGE_SIZE
    {
      hide InWindow, Windowed, Settled, Sound, View, Underway, AsPlanned, WindowItems, Prepared, Blanked;
      ghost var a := Now();
      SoundLedger(a, machine.pool, root);
      UnderwayStart(a, root, Window());
      WindowLength(machine.index, vaBase, pages);
      WindowStart(a, machine.pool, root, base, kroot, textPhys, machine.index, vaBase, textPages);
      mapped, window := map[], [];
      var i: nat, va: nat := 0, vaBase;
      while i < pages
        invariant i <= pages && |textPhys| == MAX_TEXT_PAGES && Underway(a, Now(), root, Window(), i)
        invariant InWindow(a, Now(), machine.pool, root, base, kroot, mapped, window, textPhys, machine.index, vaBase, textPages, i, va)
      {
        r := MapWindowPage(i, va, a);
        if r.Err? {
          return;
        }
        va := va + PAGE_SIZE;
        i := i + 1;
      }
      UnderwayDone(a, Now(), root, Window());
      WindowReady(a, Now(), machine.pool, root, base, kroot, mapped, window, textPhys, machine.index, vaBase, textPages, pages, va);
      userSp := vaBase + pages * PAGE_SIZE;
      r := Ok(());
    }

    /** Page `i` of the window: a zeroed frame of its own behind a W^X leaf. */
    method MapWindowPage(i: nat, va: nat, ghost a: Books) returns (r: Result<(), AsError>)
      requires i < pages && |textPhys| == MAX_TEXT_PAGES && Underway(a, Now(), root, Window(), i)
      requires InWindow(a, Now(), machine.pool, root, base, kroot, mapped, window, textPhys, machine.index, vaBase, textPages, i, va)
      modifies this`owned, this`home, this`leaked, this`textPhys, this`window, this`mapped
      modifies machine`free, machine`inUse, machine`mem
      ensures |textPhys| == MAX_TEXT_PAGES
      ensures r.Err? ==> Settled(a, Now(), machine.pool, root, Some(r.error))
                         && AsPlanned(a, Now(), root, ItemsPlan(a.mem, root, [], Window()), Some(r.error))
      ensures r.Ok? ==> Underway(a, Now(), root, Window(), i + 1)
      ensures r.Ok? ==> InWindow(a, Now(), machine.pool, root, base, kroot, mapped, window, textPhys,
                                 machine.index, vaBase, textPages, i + 1, va + PAGE_SIZE)
    {
      hide Windowed, Settled, Sound, WindowLeaf, InWindow, Underway, AsPlanned, ItemPlan, WindowItem, Verdict, Blanked;
      ghost var b := Now();
      InWindowSound(a, b, machine.pool, root, base, kroot, mapped, window, textPhys, machine.index, vaBase, textPages, i, va);
      WindowPlan(b, root, machine.index, vaBase, pages, i);
      var f := TakePage();
      if f.Err? {
        PageUntaken(b, Now(), root, machine.index(va), f.error);
        UnderwayEnds(a, b, Now(), root, Window(), i, f.error);
        SettledThen(a, b, Now(), machine.pool, root, Some(f.error));
        return Err(f.error);
      }
      ghost var before := textPhys;
      textPhys := if i < textPages then textPhys[i := f.value] else textPhys;
      r := MapFrame(i, va, f.value, b);
      if r.Err? {
        UnderwayEnds(a, b, Now(), root, Window(), i, r.error);
        SettledThen(a, b, Now(), machine.pool, root, Some(r.error));
        return;
      }
      ghost var c := Now();
      UnderwayStep(a, b, c, root, Window(), i);
      WindowAdvances(a, b, c, machine.pool, root, base, kroot, mapped, window, before, textPhys,
                     machine.index, vaBase, textPages, i, va, f.value);
      mapped, window := mapped[machine.index(va) := WindowLeaf(textPages, i, f.value)], window + [f.value];
      assert Now() == c;
    }

    /** The leaf of window page `i`, over the frame just taken for it. */
    method MapFrame(i: nat, va: nat, f: nat, ghost a: Books) returns (r: Result<(), AsError>)
      requires Sound(a, machine.pool, root) && TookPage(a, Now(), machine.pool, root, f)
      requires Windowed(a, root, base, kroot, mapped, window)
      modifies this`owned, this`home, this`leaked, machine`free, machine`inUse, machine`mem
      ensures Settled(a, Now(), machine.pool, root, ErrorOf(r)) && |owned| <= MAX_AS_FRAMES
      ensures var p := machine.index(va);
              AsPlanned(a, Now(), root, ItemPlan(Gap(Lookup(a.mem, root, 1, p)), WindowItem(p)), ErrorOf(r))
      ensures r.Ok? ==> Windowed(Now(), root, base, kroot,
                                 mapped[machine.index(va) := WindowLeaf(textPages, i, f)], window + [f])
      ensures r.Ok? && Blanked(a, window) ==> Blanked(Now(), window + [f])
    {
      hide Blanked, AsPlanned, Windowed, Sound, Settled, TookPage, MapFailed, MapDone, ItemPlan, WalkPlan, Encodes;
      ghost var b := Now();
      TookSettled(a, b, machine.pool, root, f);
      FrameEncodes(a, b, machine.pool, root, f);
      r := MapL3Page(va, f, NormalWb, if i < textPages then USER_RX else USER_RW);
      PagePlanned(a, b, Now(), machine.pool, root, f, machine.index(va), ErrorOf(r));
      if r.Err? {
        FailedSettled(b, Now(), machine.pool, root, r.error);
        SettledThen(a, b, Now(), machine.pool, root, Some(r.error));
      } else {
        DoneSettled(b, Now(), machine.pool, root, machine.index(va), WindowLeaf(textPages, i, f));
        WindowGrows(a, b, Now(), machine.pool, root, base, kroot, mapped, window,
                    machine.index(va), WindowLeaf(textPages, i, f), f);
      }
    }

    /** A frame of the space's own, zeroed. */
    method TakePage() returns (r: Result<nat, AsError>)
      requires TablesSound()
      modifies this`owned, this`leaked, machine`free, machine`inUse, machine`mem
      ensures Settled(old(Now()), Now(), machine.pool, root, ErrorOf(r)) && ErrorOf(r) == Verdict(old(Now()), 1)
      ensures r.Ok? ==> TookPage(old(Now()), Now(), machine.pool, root, r.value)
    {
      ghost var a := Now();
      r := TakeFrame();
      if r.Ok? {
        PageSound(a, Now(), machine.pool, root, r.value);
        ghost var b := Now();
        machine.mem := machine.mem[r.value := PageOf(Zeros(PAGE_SIZE))];
        assert Now() == b.(mem := b.mem[r.value := PageOf(Zeros(PAGE_SIZE))]);
      }
    }

    // ---- Mapping into a prepared space ----

    /** One page into a prepared space: exactly that page joins the map, or nothing does. */
    method MapOne(va: nat, pa: nat, kind: MemKind, perms: Perms) returns (r: Result<(), AsError>)
      requires Valid() && prepared
      modifies this`owned, this`home, this`leaked, this`mapped, machine`free, machine`inUse, machine`mem
      ensures Valid() && Settled(old(Now()), Now(), machine.pool, root, ErrorOf(r))
      ensures mapped == if r.Ok? then old(mapped)[machine.index(va) := Leaf(pa, kind, perms)] else old(mapped)
      ensures Keeps(old(mapped), mapped) && (r.Ok? ==> machine.index(va) !in old(mapped))
      ensures AsPlanned(old(Now()), Now(), root, WalkPlan(old(Now()), root, machine.index(va), Encodes(pa)), ErrorOf(r))
      ensures r != Err(Unaligned)
    {
      hide Prepared, Sound, Settled, AsPlanned, MapFailed, MapDone, WalkPlan;
      ghost var a := Now();
      SoundLedger(a, machine.pool, root);
      WalkNeverUnaligned(a, root, machine.index(va), Encodes(pa));
      r := MapL3Page(va, pa, kind, perms);
      if r.Ok? {
        DoneSettled(a, Now(), machine.pool, root, machine.index(va), Leaf(pa, kind, perms));
        SettledSound(a, Now(), machine.pool, root, None);
        PreparedMaps(a, Now(), machine.pool, root, base, kroot, mapped, window, textPhys, textPages, pages,
                     machine.index(va), Leaf(pa, kind, perms));
        mapped := mapped[machine.index(va) := Leaf(pa, kind, perms)];
      } else {
        FailedSettled(a, Now(), machine.pool, root, r.error);
        SettledSound(a, Now(), machine.pool, root, Some(r.error));
        PreparedKept(a, Now(), machine.pool, root, base, kroot, mapped, window, textPhys, textPages, pages, r.error);
      }
    }

    /**
     * The loop of `map_device_region` and `map_normal_region`: the pages mapped are the longest leading
     * run of the region that the tables and the frames allow.
     */
    method MapRegion(va: nat, pa: nat, len: nat, kind: MemKind, perms: Perms)
      returns (r: Result<(), AsError>, ghost n: nat)
      requires Valid() && prepared && len % PAGE_SIZE == 0
      modifies this`owned, this`home, this`leaked, this`mapped, machine`free, machine`inUse, machine`mem
      ensures Valid() && Settled(old(Now()), Now(), machine.pool, root, ErrorOf(r))
      ensures mapped == RegionMap(machine.index, old(mapped), va, pa, kind, perms, n) && Keeps(old(mapped), mapped)
      ensures PageAddr(0, n) <= len && (r.Ok? <==> PageAddr(0, n) == len) && r != Err(Unaligned)
      ensures AsPlanned(old(Now()), Now(), root, ItemsPlan(old(machine.mem), root, [], Region(va, pa, len)), ErrorOf(r))
      ensures StopsAt(old(Now()), root, Region(va, pa, len), n)
    {
      hide Settled, Sound, Prepared, Keeps, RegionMap, Underway, AsPlanned, StopsAt, RegionItems, ItemsPlan;
      ghost var a, m := Now(), mapped;
      SoundLedger(a, machine.pool, root);
      RegionBlocked(a, root, machine.index, va, pa, len);
      UnderwayStart(a, root, Region(va, pa, len));
      SettledStill(a, machine.pool, root, None);
      KeepsSelf(m);
      RegionNone(machine.index, m, va, pa, kind, perms);
      n := 0;
      var offset: nat := 0;
      while offset < len
        invariant InRegion(a, m, va, pa, len, kind, perms, n) && offset == PageAddr(0, n) <= len && offset % PAGE_SIZE == 0
      {
        r := MapRegionPage(va, pa, len, offset, kind, perms, a, m, n);
        if r.Err? {
          return;
        }
        WholePage(offset, len);
        offset := offset + PAGE_SIZE;
        n := n + 1;
      }
      RegionLength(machine.index, va, pa, len, n);
      UnderwayDone(a, Now(), root, Region(va, pa, len));
      r := Ok(());
    }

    ghost function Region(va: nat, pa: nat, len: nat): seq<Item>
    {
      RegionItems(machine.index, va, pa, len / PAGE_SIZE)
    }

    /** `n` pages of a region mapped so far, begun at books `a` and map `m`. */
    ghost predicate InRegion(a: Books, m: map<Page, Desc>, va: nat, pa: nat, len: nat, kind: MemKind, perms: Perms, n: nat)
      reads this, machine
    {
      && Valid() && prepared && Settled(a, Now(), machine.pool, root, None)
      && mapped == RegionMap(machine.index, m, va, pa, kind, perms, n) && Keeps(m, mapped)
      && Underway(a, Now(), root, Region(va, pa, len), n)
    }

    method MapRegionPage(va: nat, pa: nat, len: nat, offset: nat, kind: MemKind, perms: Perms,
                         ghost a: Books, ghost m: map<Page, Desc>, ghost n: nat)
      returns (r: Result<(), AsError>)
      requires InRegion(a, m, va, pa, len, kind, perms, n) && offset == PageAddr(0, n) < len && len % PAGE_SIZE == 0
      modifies this`owned, this`home, this`leaked, this`mapped, machine`free, machine`inUse, machine`mem
      ensures r.Ok? ==> InRegion(a, m, va, pa, len, kind, perms, n + 1)
      ensures r.Err? ==> Valid() && Settled(a, Now(), machine.pool, root, ErrorOf(r))
      ensures r.Err? ==> mapped == RegionMap(machine.index, m, va, pa, kind, perms, n) && Keeps(m, mapped)
      ensures r.Err? ==> AsPlanned(a, Now(), root, ItemsPlan(a.mem, root, [], Region(va, pa, len)), ErrorOf(r))
                         && StopsAt(a, root, Region(va, pa, len), n)
    {
      hide Settled, Sound, Prepared, Keeps, RegionMap, Underway, AsPlanned, StopsAt, RegionItems, ItemsPlan, Encodes, WalkPlan;
      ghost var b := Now();
      RegionNext(machine.index, m, va, pa, kind, perms, n);
      PageAddrShift(va, n);
      PageAddrShift(pa, n);
      RegionPlan(b, root, machine.index, va, pa, len, n);
      ghost var before := mapped;
      r := MapOne(va + offset, pa + offset, kind, perms);
      KeepsThen(m, before, mapped);
      SettledThen(a, b, Now(), machine.pool, root, ErrorOf(r));
      SoundLedger(Now(), machine.pool, root);
      if r.Err? {
        UnderwayEnds(a, b, Now(), root, Region(va, pa, len), n, r.error);
      } else {
        UnderwayStep(a, b, Now(), root, Region(va, pa, len), n);
      }
    }

    /** `map_device_region`. */
    method MapDeviceRegion(va: nat, pa: nat, len: nat, perms: Perms) returns (r: Result<(), AsError>, ghost n: nat)
      requires Valid()
      modifies this`owned, this`home, this`leaked, this`mapped, machine`free, machine`inUse, machine`mem
      ensures Valid() && Settled(old(Now()), Now(), machine.pool, root, ErrorOf(r))
      ensures !prepared || !Aligned(va, pa, len) ==>
        r == Err(if !prepared then BadTable else Unaligned) && n == 0 && unchanged(this) && unchanged(machine)
      ensures r == Err(Unaligned) <==>
        && prepared
        && (len == 0 || va % 4096 != 0 || pa % 4096 != 0 || len % 4096 != 0
            || pa + len >= 0x1_0000_0000_0000_0000 || va + len >= 0x1_0000_0000_0000_0000)
      ensures mapped == RegionMap(machine.index, old(mapped), va, pa, Device, perms, n) && Keeps(old(mapped), mapped)
      ensures r.Ok? ==> Aligned(va, pa, len) && PageAddr(0, n) == len
      ensures prepared && Aligned(va, pa, len) ==>
        && AsPlanned(old(Now()), Now(), root, ItemsPlan(old(machine.mem), root, [], Region(va, pa, len)), ErrorOf(r))
        && StopsAt(old(Now()), root, Region(va, pa, len), n)
    {
      hide Sound, Settled, Prepared, AsPlanned, StopsAt, RegionItems;
      n := 0;
      if !prepared {
        SettledStill(Now(), machine.pool, root, Some(BadTable));
        return Err(BadTable), 0;
      }
      if !Aligned(va, pa, len) {
        SettledStill(Now(), machine.pool, root, Some(Unaligned));
        return Err(Unaligned), 0;
      }
      r, n := MapRegion(va, pa, len, Device, perms);
    }

    /** `map_normal_region`: as for a device, but an unprepared space is refused as unaligned. */
    method MapNormalRegion(va: nat, pa: nat, len: nat, perms: Perms) returns (r: Result<(), AsError>, ghost n: nat)
      requires Valid()
      modifies this`owned, this`home, this`leaked, this`mapped, machine`free, machine`inUse, machine`mem
      ensures Valid() && Settled(old(Now()), Now(), machine.pool, root, ErrorOf(r))
      ensures !prepared || !Aligned(va, pa, len) ==> r == Err(Unaligned) && n == 0 && unchanged(this) && unchanged(machine)
      ensures r == Err(Unaligned) <==>
        || !prepared
        || len == 0 || va % 4096 != 0 || pa % 4096 != 0 || len % 4096 != 0
        || pa + len >= 0x1_0000_0000_0000_0000 || va + len >= 0x1_0000_0000_0000_0000
      ensures mapped == RegionMap(machine.index, old(mapped), va, pa, NormalWb, perms, n) && Keeps(old(mapped), mapped)
      ensures r.Ok? ==> PageAddr(0, n) == len
      ensures prepared && Aligned(va, pa, len) ==>
        && AsPlanned(old(Now()), Now(), root, ItemsPlan(old(machine.mem), root, [], Region(va, pa, len)), ErrorOf(r))
        && StopsAt(old(Now()), root, Region(va, pa, len), n)
    {
      hide Sound, Settled, Prepared, AsPlanned, StopsAt, RegionItems;
      n := 0;
      if !prepared || !Aligned(va, pa, len) {
        SettledStill(Now(), machine.pool, root, Some(Unaligned));
        return Err(Unaligned), 0;
      }
      r, n := MapRegion(va, pa, len, NormalWb, perms);
    }

    /** `map_packet_pool`: the service's pages, never this space's; once, and only if granted. */
    method MapPacketPool(poolVa: nat, frames: seq<nat>) returns (r: Result<(), AsError>, ghost n: nat)
      requires Valid() && |frames| == PACKET_POOL_PAGES
      modifies this`owned, this`home, this`leaked, this`mapped, this`packetPoolMapped
      modifies machine`free, machine`inUse, machine`mem
      ensures Valid() && Settled(old(Now()), Now(), machine.pool, root, ErrorOf(r))
      ensures n <= |frames| && mapped == PoolMap(machine.index, old(mapped), poolVa, frames[..n]) && Keeps(old(mapped), mapped)
      ensures !packetPool || !prepared || old(packetPoolMapped) ==>
        && r == Err(if !packetPool then PacketPoolNotGranted else if !prepared then BadTable else PacketPoolAlreadyMapped)
        && n == 0 && unchanged(this) && unchanged(machine)
      ensures r == Err(Unaligned) <==>
        && packetPool && prepared && !old(packetPoolMapped)
        && n < |frames| && (frames[n] == 0 || frames[n] % 4096 != 0)
      ensures packetPool && prepared && !old(packetPoolMapped) ==>
        && AsPlanned(old(Now()), Now(), root, ItemsPlan(old(machine.mem), root, [], Packets(poolVa, frames)), ErrorOf(r))
        && StopsAt(old(Now()), root, Packets(poolVa, frames), n)
      ensures r.Ok? ==> n == 8 && packetPoolMapped
      ensures r.Err? ==> packetPoolMapped == old(packetPoolMapped)
    {
      hide Settled, Sound, Prepared, AsPlanned, StopsAt, PoolItems;
      n := 0;
      ghost var a := Now();
      if !packetPool || !prepared || packetPoolMapped {
        var e := if !packetPool then PacketPoolNotGranted else if !prepared then BadTable else PacketPoolAlreadyMapped;
        SettledStill(a, machine.pool, root, Some(e));
        return Err(e), 0;
      }
      r, n := MapFrames(poolVa, frames);
      if r.Ok? {
        packetPoolMapped := true;
      }
    }

    ghost function Packets(va: nat, frames: seq<nat>): seq<Item>
    {
      PoolItems(machine.index, va, frames)
    }

    /** The loop of `map_packet_pool`, each address checked as it is reached. */
    method MapFrames(va: nat, frames: seq<nat>) returns (r: Result<(), AsError>, ghost n: nat)
      requires Valid() && prepared
      modifies this`owned, this`home, this`leaked, this`mapped, machine`free, machine`inUse, machine`mem
      ensures Valid() && Settled(old(Now()), Now(), machine.pool, root, ErrorOf(r))
      ensures n <= |frames| && mapped == PoolMap(machine.index, old(mapped), va, frames[..n]) && Keeps(old(mapped), mapped)
      ensures r.Ok? <==> n == |frames|
      ensures r == Err(Unaligned) <==> n < |frames| && (frames[n] == 0 || frames[n] % 4096 != 0)
      ensures AsPlanned(old(Now()), Now(), root, ItemsPlan(old(machine.mem), root, [], Packets(va, frames)), ErrorOf(r))
      ensures StopsAt(old(Now()), root, Packets(va, frames), n)
    {
      hide Settled, Sound, Prepared, Keeps, Underway, AsPlanned, StopsAt, PoolItems, ItemsPlan, PoolMap;
      ghost var a, m := Now(), mapped;
      SoundLedger(a, machine.pool, root);
      UnderwayStart(a, root, Packets(va, frames));
      SettledStill(a, machine.pool, root, None);
      KeepsSelf(m);
      PoolNone(machine.index, m, va, frames);
      var i, at := 0, va;
      n := 0;
      while i < |frames|
        invariant 0 <= i <= |frames| && n == i && at == PageAddr(va, i) && InPool(a, m, va, frames, i)
      {
        r := MapPoolPage(va, frames, i, at, a, m);
        if r.Err? {
          return;
        }
        at := at + PAGE_SIZE;
        i := i + 1;
        n := n + 1;
      }
      PoolLength(machine.index, va, frames);
      UnderwayDone(a, Now(), root, Packets(va, frames));
      r := Ok(());
    }

    /** `i` frames of a pool mapped so far, begun at books `a` and map `m`. */
    ghost predicate InPool(a: Books, m: map<Page, Desc>, va: nat, frames: seq<nat>, i: nat)
      reads this, machine
    {
      && Valid() && prepared && Settled(a, Now(), machine.pool, root, None)
      && i <= |frames| && mapped == PoolMap(machine.index, m, va, frames[..i]) && Keeps(m, mapped)
      && Underway(a, Now(), root, Packets(va, frames), i)
    }

    method MapPoolPage(va: nat, frames: seq<nat>, i: nat, at: nat, ghost a: Books, ghost m: map<Page, Desc>)
      returns (r: Result<(), AsError>)
      requires i < |frames| && at == PageAddr(va, i) && InPool(a, m, va, frames, i)
      modifies this`owned, this`home, this`leaked, this`mapped, machine`free, machine`inUse, machine`mem
      ensures r.Ok? ==> InPool(a, m, va, frames, i + 1)
      ensures r.Err? ==> Valid() && Settled(a, Now(), machine.pool, root, ErrorOf(r))
      ensures r.Err? ==> mapped == PoolMap(machine.index, m, va, frames[..i]) && Keeps(m, mapped)
      ensures r == Err(Unaligned) <==> frames[i] == 0 || frames[i] % 4096 != 0
      ensures r.Err? ==> AsPlanned(a, Now(), root, ItemsPlan(a.mem, root, [], Packets(va, frames)), ErrorOf(r))
                         && StopsAt(a, root, Packets(va, frames), i)
    {
      hide Settled, Sound, Prepared, Keeps, Underway, AsPlanned, StopsAt, PoolItems, ItemsPlan, PoolMap, Encodes, WalkPlan;
      ghost var b, before := Now(), mapped;
      var pa := frames[i];
      PoolPlan(b, root, machine.index, va, frames, i);
      if Crooked(pa) {
        SettledStill(b, machine.pool, root, Some(Unaligned));
        SettledThen(a, b, b, machine.pool, root, Some(Unaligned));
        CrookedPlanned(b, machine.pool, root);
        UnderwayEnds(a, b, b, root, Packets(va, frames), i, Unaligned);
        return Err(Unaligned);
      }
      PoolNext(machine.index, m, va, frames, i);
      r := MapOne(at, pa, NormalWb, USER_RW);
      KeepsThen(m, before, mapped);
      SettledThen(a, b, Now(), machine.pool, root, ErrorOf(r));
      SoundLedger(Now(), machine.pool, root);
      if r.Err? {
        UnderwayEnds(a, b, Now(), root, Packets(va, frames), i, r.error);
      } else {
        UnderwayStep(a, b, Now(), root, Packets(va, frames), i);
      }
    }

    /** A CPU installs the space: from here on the TLB may fill under its tag. */
    method Enter() returns (ttbr0: nat)
      modifies machine`cached
      ensures machine.cached == old(machine.cached) + {asid}
      ensures Asid.UnpackRoot(ttbr0) == root % Asid.ROOT_END && Asid.UnpackAsid(ttbr0) == asid % Asid.ASID_COUNT
      ensures ttbr0 / 0x1_0000_0000_0000 == asid % 256 && ttbr0 % 0x1_0000_0000_0000 == root % 0x1_0000_0000_0000
    {
      machine.cached := machine.cached + {asid};
      Asid.Ttbr0Bits(root, asid);
      Asid.Ttbr0RoundTrip(root, asid);
      ttbr0 := Asid.PackTtbr0(root, asid);
    }

    // ---- Writing the text ----

    /** `poke_user`: the text is one flat run of bytes, however its frames lie, and only the text changes. */
    method PokeUser(offset: nat, bytes: seq<byte>) returns (r: Result<(), AsError>)
      requires Valid()
      modifies machine`mem
      ensures Valid() && Settled(old(Now()), Now(), machine.pool, root, ErrorOf(r))
      ensures SameWalks(old(machine.mem), root, machine.mem, root, 1)
      ensures !prepared ==> r == Err(BadTable)
      ensures prepared && offset + |bytes| > textPages * PAGE_SIZE ==> r == Err(OutOfRange)
      ensures r.Err? ==> machine.mem == old(machine.mem)
      ensures prepared && offset + |bytes| <= textPages * PAGE_SIZE ==>
        r.Ok? && Backed(old(Now()), window[..textPages])
        && Poking(old(Now()), Now(), window[..textPages], offset, bytes, |bytes|)
        && PokedBytes(old(machine.mem), machine.mem, window[..textPages], offset, bytes)
    {
      hide Sound, Grows, Windowed, PokedBytes;
      ghost var a := Now();
      if !prepared {
        SettledStill(a, machine.pool, root, Some(BadTable));
        return Err(BadTable);
      }
      if offset + |bytes| > textPages * PAGE_SIZE {
        SettledStill(a, machine.pool, root, Some(OutOfRange));
        return Err(OutOfRange);
      }
      TextBacked(a, machine.pool, root, base, kroot, mapped, window, textPhys, textPages, pages);
      PokeStart(a, window[..textPages], offset, bytes);
      WriteText(offset, bytes, a);
      PokeKeeps(a, Now(), machine.pool, root, base, kroot, mapped, window, textPhys, textPages, pages, offset, bytes);
      PokeLands(a, Now(), window[..textPages], offset, bytes);
      r := Ok(());
    }

    /** The copy loop, split at page boundaries. */
    method WriteText(offset: nat, bytes: seq<byte>, ghost a: Books)
      requires textPages <= |textPhys| && textPages <= |window| && textPhys[..textPages] == window[..textPages]
      requires forall i :: 0 <= i < textPages ==> textPhys[i] != 0
      requires Backed(a, window[..textPages]) && Poking(a, Now(), window[..textPages], offset, bytes, 0)
      modifies machine`mem
      ensures Poking(a, Now(), window[..textPages], offset, bytes, |bytes|)
    {
      hide Poking, Backed, TextBytes;
      var written: nat := 0;
      while written < |bytes|
        invariant written <= |bytes| && Poking(a, Now(), window[..textPages], offset, bytes, written)
      {
        var at := offset + written;
        var page, inPage := at / PAGE_SIZE, at % PAGE_SIZE;
        var take := if PAGE_SIZE - inPage <= |bytes| - written then PAGE_SIZE - inPage else |bytes| - written;
        PokeStep(a, Now(), window[..textPages], offset, bytes, written, take);
        var f := textPhys[page];
        assert f == window[..textPages][page];
        // The code's guard against an unrecorded page: every text page has its frame.
        assert f != 0;
        machine.mem := PagePoked(machine.mem, f, inPage, bytes[written..written + take]);
        written := written + take;
      }
    }

    // ---- Teardown ----

    /**
     * `destroy`, and `drop` likewise: every owned frame goes back exactly once and the tag is free again.
     * Only frames the ledger refused stay out of the pool, and no TLB entry outlives its tag.
     */
    method Destroy(tags: Asid.Pool)
      requires Valid() && tags.Valid() && 0 < asid < Asid.ASID_COUNT && asid !in tags.Free()
      modifies this`owned, machine`free, machine`inUse, machine`cached, tags, tags.words
      ensures PoolSound(machine.pool, machine.free, machine.inUse, machine.mem) && tags.Valid()
      ensures machine.cached == old(machine.cached) - {asid}
      ensures owned == [] && machine.free == old(machine.free) + old(owned)
      ensures machine.inUse == old(machine.inUse) - SetOf(old(owned))
      ensures machine.inUse == Others(old(Now())) + leaked
      ensures tags.Free() == old(tags.Free()) + {asid}
    {
      hide Sound;
      OthersRemain(Now(), machine.pool, root);
      FreeOwned();
      machine.Invalidate(asid);
      var live := ReturnTag(machine, tags, asid);
      assert live;
    }

    /** The frames back to the pool: each one is still in use when its turn comes. */
    method FreeOwned()
      requires TablesSound()
      modifies this`owned, machine`free, machine`inUse
      ensures PoolSound(machine.pool, machine.free, machine.inUse, machine.mem)
      ensures owned == [] && machine.free == old(machine.free) + old(owned)
      ensures machine.inUse == old(machine.inUse) - SetOf(old(owned))
    {
      hide SetOf, Consistent;
      ghost var a := Now();
      var i := 0;
      FreeNone(a);
      while i < |owned|
        invariant 0 <= i <= |owned| && owned == a.owned
        invariant PoolSound(machine.pool, machine.free, machine.inUse, machine.mem)
        invariant machine.free == a.free + owned[..i] && machine.inUse == a.inUse - SetOf(owned[..i])
      {
        FreeOne(a, machine.pool, root, i);
        var freed := machine.Free(owned[i]);
        assert freed;
        i := i + 1;
      }
      assert owned[..i] == owned;
      owned := [];
    }
  }

  /** `asid::free`, legal only once no TLB entry is left under the tag. */
  method ReturnTag(machine: Machine, tags: Asid.Pool, asid: nat) returns (live: bool)
    requires tags.Valid() && asid !in machine.cached
    modifies tags, tags.words
    ensures tags.Valid() && (live <==> 0 < asid < Asid.ASID_COUNT && asid !in old(tags.Free()))
    ensures tags.Free() == if live then old(tags.Free()) + {asid} else old(tags.Free())
  {
    live := tags.Release(asid);
  }

  lemma SettledSound(a: Books, b: Books, pool: set<nat>, root: nat, r: Option<AsError>)
    requires Settled(a, b, pool, root, r)
    ensures Sound(b, pool, root)
  {
  }

  lemma RootHome(b: Books, pool: set<nat>, root: nat)
    requires Sound(b, pool, root)
    ensures root in b.home && LevelOf(b.home, root) == 1
  {
  }

  lemma FailedSettled(a: Books, b: Books, pool: set<nat>, root: nat, e: AsError)
    requires MapFailed(a, b, pool, root, e)
    ensures Settled(a, b, pool, root, Some(e)) && |b.owned| <= MAX_AS_FRAMES
  {
  }

  lemma DoneSettled(a: Books, b: Books, pool: set<nat>, root: nat, p: Page, leaf: Desc)
    requires MapDone(a, b, pool, root, p, leaf)
    ensures Settled(a, b, pool, root, None) && |b.owned| <= MAX_AS_FRAMES
  {
  }

  lemma TookSettled(a: Books, b: Books, pool: set<nat>, root: nat, f: nat)
    requires TookPage(a, b, pool, root, f)
    ensures Settled(a, b, pool, root, None) && Sound(b, pool, root)
  {
  }

  lemma SoundLedger(b: Books, pool: set<nat>, root: nat)
    requires Sound(b, pool, root)
    ensures |b.owned| <= MAX_AS_FRAMES
  {
  }

  lemma WindowLength(index: nat -> Page, vaBase: nat, pages: nat)
    ensures |WindowItems(index, vaBase, pages)| == pages
  {
  }

  /** What page `i` of the window will take. */
  lemma WindowPlan(b: Books, root: nat, index: nat -> Page, vaBase: nat, pages: nat, i: nat)
    requires i < pages
    ensures var p := index(PageAddr(vaBase, i));
            |WindowItems(index, vaBase, pages)| == pages
            && NextPlan(b, root, WindowItems(index, vaBase, pages), i) == ItemPlan(Gap(Lookup(b.mem, root, 1, p)), WindowItem(p))
  {
    hide ItemPlan, PageAddr;
  }

  /** The window is planned over the kernel's gaps: the clone has the same. */
  lemma WindowAfterClone(a: Books, b: Books, c: Books, root: nat, kroot: nat, items: seq<Item>, r: Option<AsError>)
    requires Costs(a, b, TablePlan(a.mem, kroot, 1), None) && SameWalks(a.mem, kroot, b.mem, root, 1)
    requires AsPlanned(b, c, root, ItemsPlan(b.mem, root, [], items), r)
    ensures Costs(a, c, PopulatePlan(a.mem, kroot, items), r)
    ensures r.None? ==> Since(a.mem, kroot, c.mem, root, PopulatePlan(a.mem, kroot, items).marks)
  {
    hide TablePlan, Verdict, ItemsPlan;
    assert Since(a.mem, kroot, b.mem, root, []);
    ItemsSince(a.mem, kroot, [], b.mem, root, items);
    CostsEnd(a, b, TablePlan(a.mem, kroot, 1));
    CostsThen(a, b, c, TablePlan(a.mem, kroot, 1), ItemsPlan(a.mem, kroot, [], items), r);
    CloneMarks(a.mem, kroot);
    if r.None? {
      SinceThen(a.mem, kroot, b.mem, c.mem, root, [], ItemsPlan(a.mem, kroot, [], items).marks);
    }
  }

  lemma RegionLength(index: nat -> Page, va: nat, pa: nat, len: nat, n: nat)
    requires PageAddr(0, n) == len
    ensures |RegionItems(index, va, pa, len / PAGE_SIZE)| == n
  {
    PageAddrIs(0, n);
  }

  /** What page `n` of a region will take. */
  lemma RegionPlan(b: Books, root: nat, index: nat -> Page, va: nat, pa: nat, len: nat, n: nat)
    requires PageAddr(0, n) < len && len % PAGE_SIZE == 0
    ensures n < |RegionItems(index, va, pa, len / PAGE_SIZE)|
    ensures NextPlan(b, root, RegionItems(index, va, pa, len / PAGE_SIZE), n) ==
            WalkPlan(b, root, index(PageAddr(va, n)), Encodes(PageAddr(pa, n)))
  {
    hide ItemPlan, PageAddr, Encodes;
    PageAddrIs(0, n);
  }

  lemma WalkNeverUnaligned(a: Books, root: nat, p: Page, encodes: bool)
    requires |a.owned| <= MAX_AS_FRAMES
    ensures forall b: Books, r: Option<AsError> :: AsPlanned(a, b, root, WalkPlan(a, root, p, encodes), r) ==> r != Some(Unaligned)
  {
    hide Follows;
  }

  /** A region fails for want of frames or for something in the way, never for its addresses. */
  lemma RegionBlocked(a: Books, root: nat, index: nat -> Page, va: nat, pa: nat, len: nat)
    requires |a.owned| <= MAX_AS_FRAMES
    ensures forall b: Books, r: Option<AsError> ::
              AsPlanned(a, b, root, ItemsPlan(a.mem, root, [], RegionItems(index, va, pa, len / PAGE_SIZE)), r) ==>
              r != Some(Unaligned)
  {
    hide ItemsPlan, Follows;
    ItemsBlocked(a.mem, root, [], RegionItems(index, va, pa, len / PAGE_SIZE));
  }

  lemma PoolNone(index: nat -> Page, m: map<Page, Desc>, va: nat, frames: seq<nat>)
    ensures PoolMap(index, m, va, frames[..0]) == m
  {
  }

  lemma PoolNext(index: nat -> Page, m: map<Page, Desc>, va: nat, frames: seq<nat>, i: nat)
    requires i < |frames|
    ensures PoolMap(index, m, va, frames[..i + 1]) ==
            PoolMap(index, m, va, frames[..i])[index(PageAddr(va, i)) := Leaf(frames[i], NormalWb, USER_RW)]
  {
    assert frames[..i + 1][..i] == frames[..i];
  }

  lemma PoolLength(index: nat -> Page, va: nat, frames: seq<nat>)
    ensures |PoolItems(index, va, frames)| == |frames| && frames[..|frames|] == frames
  {
  }

  /** What page `i` of a pool will take. */
  lemma PoolPlan(b: Books, root: nat, index: nat -> Page, va: nat, frames: seq<nat>, i: nat)
    requires i < |frames|
    ensures |PoolItems(index, va, frames)| == |frames|
    ensures NextPlan(b, root, PoolItems(index, va, frames), i) ==
            if Crooked(frames[i]) then Plan(0, Some(Unaligned), [])
            else WalkPlan(b, root, index(PageAddr(va, i)), Encodes(frames[i]))
  {
    hide PageAddr, Encodes, Crooked;
  }

  lemma CrookedPlanned(b: Books, pool: set<nat>, root: nat)
    requires Sound(b, pool, root)
    ensures AsPlanned(b, b, root, Plan(0, Some(Unaligned), []), Some(Unaligned))
  {
  }

  lemma CloneMarks(m: Mem, f: nat)
    ensures TablePlan(m, f, 1).marks == [] && !Shortage(TablePlan(m, f, 1).end)
  {
    hide EntriesPlan;
    if IsTable(m, f) { EntriesMarks(m, m[f].entries, 1); }
  }

  lemma FrameEncodes(a: Books, b: Books, pool: set<nat>, root: nat, f: nat)
    requires TookPage(a, b, pool, root, f)
    ensures Encodes(f)
  {
    assert f in SetOf(b.owned) && f in pool && FrameAddress(f);
  }

  function ErrorOf<T>(r: Result<T, AsError>): Option<AsError>
  {
    if r.Err? then Some(r.error) else None
  }

  lemma FreeNone(a: Books)
    ensures a.inUse == a.inUse - SetOf(a.owned[..0]) && a.free == a.free + a.owned[..0]
  {
  }

  /** The `i`th owned frame is still in use when teardown reaches it. */
  lemma FreeOne(a: Books, pool: set<nat>, root: nat, i: nat)
    requires Sound(a, pool, root) && i < |a.owned|
    ensures a.owned[i] in a.inUse - SetOf(a.owned[..i])
    ensures SetOf(a.owned[..i + 1]) == SetOf(a.owned[..i]) + {a.owned[i]}
    ensures a.owned[..i + 1] == a.owned[..i] + [a.owned[i]]
  {
    assert a.owned[i] in SetOf(a.owned);
  }

  lemma OthersRemain(a: Books, pool: set<nat>, root: nat)
    requires Sound(a, pool, root)
    ensures a.inUse - SetOf(a.owned) == Others(a) + a.leaked
  {
  }

  lemma TextBacked(a: Books, pool: set<nat>, root: nat, base: Mem, kroot: nat, mapped: map<Page, Desc>,
                   window: seq<nat>, textPhys: seq<nat>, text: nat, pages: nat)
    requires Sound(a, pool, root) && Prepared(a, root, base, kroot, mapped, window, textPhys, text, pages)
    ensures Backed(a, window[..text]) && |window[..text]| == text
    ensures forall i :: 0 <= i < text ==> textPhys[i] != 0
  {
    forall i | 0 <= i < text
      ensures textPhys[i] != 0
    {
      assert textPhys[..text][i] == window[..text][i];
      assert window[i] in SetOf(a.owned) && window[i] in pool && FrameAddress(window[i]);
    }
  }

  lemma {:induction false} PageAddrShift(va: nat, n: nat)
    ensures va + PageAddr(0, n) == PageAddr(va, n)
    decreases n
  {
    if n > 0 { PageAddrShift(va, n - 1); }
  }

  lemma WholePage(offset: nat, len: nat)
    requires offset % PAGE_SIZE == 0 && len % PAGE_SIZE == 0 && offset < len
    ensures offset + PAGE_SIZE <= len && (offset + PAGE_SIZE) % PAGE_SIZE == 0
  {
  }
}

/** A space from creation to teardown, whatever is asked of it in between. */
module SpaceLife {
  import opened Bytes
  import opened Wrappers
  import opened PageTables
  import opened FrameBooks
  import opened FramePlan
  import opened TableClone
  import opened SpaceView
  import opened AddressSpace
  import opened SpaceForecast
  import Asid

  /** `UserWindow::validate` and the text bound. */
  predicate Refused(textPages: nat, stackPages: nat)
  {
    textPages > MAX_TEXT_PAGES || textPages == 0 || (textPages + stackPages) % VA_END <= textPages
  }

  /** Which windows pass: one to sixteen text pages, at least one of stack, and a sum that does not wrap. */
  lemma RefusedExactly(textPages: nat, stackPages: nat)
    requires stackPages < 0x1_0000_0000_0000_0000
    ensures !Refused(textPages, stackPages) <==>
            1 <= textPages <= 16 && 1 <= stackPages && textPages + stackPages < 0x1_0000_0000_0000_0000
  {
    var sum := textPages + stackPages;
    if textPages <= 16 && sum >= 0x1_0000_0000_0000_0000 {
      assert sum % 0x1_0000_0000_0000_0000 == sum - 0x1_0000_0000_0000_0000;
    }
  }

  /** `create_with_packet_pool`: a tag, then a root; a failure leaves frames and tags as they were. */
  method Create(machine: Machine, tags: Asid.Pool, vaBase: nat, textPages: nat, stackPages: nat, packetPool: bool)
    returns (r: Result<Space, AsError>)
    requires PoolSound(machine.pool, machine.free, machine.inUse, machine.mem) && tags.Valid()
    requires tags.Free() !! machine.cached
    modifies machine`free, machine`inUse, machine`mem, tags, tags.words
    ensures PoolSound(machine.pool, machine.free, machine.inUse, machine.mem) && tags.Valid()
    ensures r.Err? <==> Refused(textPages, stackPages) || old(tags.Free()) == {} || old(machine.free) == []
    ensures r.Err? ==> r.error == (if Refused(textPages, stackPages) then OutOfRange
                                   else if old(tags.Free()) == {} then OutOfAsid else OutOfFrames)
    ensures stackPages < 0x1_0000_0000_0000_0000 ==>
      (r.Err? && r.error == OutOfRange <==>
         !(1 <= textPages <= 16 && 1 <= stackPages && textPages + stackPages < 0x1_0000_0000_0000_0000))
    ensures r.Err? ==> tags.Free() == old(tags.Free()) && machine.free == old(machine.free)
                       && machine.inUse == old(machine.inUse) && machine.mem == old(machine.mem)
    ensures r.Ok? ==> fresh(r.value) && Born(r.value, machine, old(machine.inUse), old(machine.mem), vaBase, packetPool)
                      && r.value.textPages == textPages && r.value.pages == (textPages + stackPages) % VA_END
    ensures r.Ok? ==> |old(machine.free)| == |machine.free| + 1
    ensures r.Ok? ==> 0 < r.value.asid < Asid.ASID_COUNT && r.value.asid in old(tags.Free())
                      && tags.Free() == old(tags.Free()) - {r.value.asid}
  {
    hide Space.Valid, EmptyTable, Asid.Nearest, Asid.Tags, Asid.Pool.Free, Asid.Pool.BitSet, PoolSound;
    if stackPages < 0x1_0000_0000_0000_0000 { RefusedExactly(textPages, stackPages); }
    if Refused(textPages, stackPages) {
      return Err(OutOfRange);
    }
    var asid := tags.Alloc();
    if asid.None? {
      return Err(OutOfAsid);
    }
    var root := TakeRoot(machine);
    if root.None? {
      var live := ReturnTag(machine, tags, asid.value);
      assert live && tags.Free() == old(tags.Free());
      return Err(OutOfFrames);
    }
    var s := new Space(machine, root.value, asid.value, vaBase, textPages, (textPages + stackPages) % VA_END, packetPool);
    r := Ok(s);
  }

  /** A frame for the root, blanked. */
  method TakeRoot(machine: Machine) returns (r: Option<nat>)
    requires PoolSound(machine.pool, machine.free, machine.inUse, machine.mem)
    modifies machine`free, machine`inUse, machine`mem
    ensures PoolSound(machine.pool, machine.free, machine.inUse, machine.mem)
    ensures r.None? <==> old(machine.free) == []
    ensures r.None? ==> machine.free == old(machine.free) && machine.inUse == old(machine.inUse) && machine.mem == old(machine.mem)
    ensures r.Some? ==> r.value !in old(machine.inUse) && r.value in old(machine.mem)
                        && |old(machine.free)| == |machine.free| + 1
                        && machine.inUse == old(machine.inUse) + {r.value}
                        && machine.mem == old(machine.mem)[r.value := EmptyTable()]
  {
    r := machine.Alloc();
    if r.Some? {
      machine.mem := machine.mem[r.value := EmptyTable()];
    }
  }

  /** A space just created: one frame, an empty root, nothing else touched. */
  ghost predicate Born(s: Space, machine: Machine, inUse: set<nat>, mem: Mem, vaBase: nat, packetPool: bool)
    reads s, machine
  {
    && s.machine == machine && s.vaBase == vaBase && s.packetPool == packetPool
    && s.Valid() && !s.prepared && !s.packetPoolMapped && s.leaked == {}
    && s.root !in inUse && s.owned == [s.root] && machine.inUse == inUse + {s.root}
    && s.root in mem && machine.mem == mem[s.root := EmptyTable()]
  }

  lemma BornOthers(b: Books, root: nat, inUse: set<nat>)
    requires b.owned == [root] && b.leaked == {} && b.inUse == inUse + {root} && root !in inUse
    ensures Others(b) == inUse
  {
  }

  type Answer = Result<(), AsError>

  /** The pages a request has added to `m` once `n` of them are in. */
  function Extended(index: nat -> Page, m: map<Page, Desc>, op: Op, n: nat): map<Page, Desc>
  {
    match op
    case MapDevice(va, pa, _, perms) => RegionMap(index, m, va, pa, Device, perms, n)
    case MapNormal(va, pa, _, perms) => RegionMap(index, m, va, pa, NormalWb, perms, n)
    case MapPool(va, frames) => PoolMap(index, m, va, if n <= |frames| then frames[..n] else frames)
    case _ => m
  }

  /** All the pages asked for. */
  predicate Whole(op: Op, n: nat)
  {
    match op
    case MapDevice(_, _, len, _) => PageAddr(0, n) == len
    case MapNormal(_, _, len, _) => PageAddr(0, n) == len
    case MapPool(_, frames) => n == |frames|
    case _ => true
  }

  ghost function ConfigOf(s: Space, kernelRoot: Option<nat>): Config
  {
    Config(s.machine.index, s.vaBase, s.textPages, s.pages, s.packetPool, kernelRoot)
  }

  ghost function StateOf(s: Space): State
    reads s
  {
    State(if s.prepared then Some([]) else None, s.packetPoolMapped)
  }

  /** What a request will take, from where the space stands. */
  ghost function AskedOf(s: Space, op: Op, kernelRoot: Option<nat>): Plan
    reads s, s.machine
  {
    var c := ConfigOf(s, kernelRoot);
    Asked(c, PreparePlan(c, s.machine.mem), s.machine.mem, s.root, StateOf(s), op)
  }

  /**
   * One request. It ends as its plan says; a prepared space gains a leading run of the pages asked for,
   * all of them on success; an unprepared one translates nothing until it is prepared.
   */
  method Perform(s: Space, op: Op, kernelRoot: Option<nat>, ghost k: map<nat, nat>) returns (r: Answer, ghost n: nat)
    requires s.Valid() && Kernel(s.machine.mem, k, s.machine.pool)
    requires kernelRoot.Some? ==> kernelRoot.value in k && k[kernelRoot.value] == 1
    requires op.MapPool? ==> |op.frames| == PACKET_POOL_PAGES
    modifies s, s.machine`free, s.machine`inUse, s.machine`mem, s.machine`cached
    ensures s.machine.cached <= old(s.machine.cached) + {s.asid}
    ensures s.Valid() && Settled(old(s.Now()), s.Now(), s.machine.pool, s.root, ErrorOf(r))
    ensures Performed(ConfigOf(s, kernelRoot), old(s.machine.mem), old(s.Now()), s.Now(), s.root,
                      old(StateOf(s)), StateOf(s), op, old(AskedOf(s, op, kernelRoot)), ErrorOf(r))
    ensures r.Ok? ==> Whole(op, n)
    ensures old(s.prepared) ==>
      && s.base == old(s.base) && s.kroot == old(s.kroot) && s.window == old(s.window) && s.userSp == old(s.userSp)
      && s.mapped == Extended(s.machine.index, old(s.mapped), op, n) && Keeps(old(s.mapped), s.mapped)
    ensures !old(s.prepared) && s.prepared ==>
      && s.base == old(s.machine.mem) && kernelRoot == Some(s.kroot)
      && s.mapped == WindowMap(s.machine.index, s.vaBase, s.textPages, s.window)
      && s.userSp == s.vaBase + s.pages * PAGE_SIZE
  {
    hide Settled, Kernel, Prepared, Costs, AsPlanned, StopsAt, Since, ItemsPlan, PopulatePlan, SameWalks;
    hide RegionItems, PoolItems, WindowItems, RegionMap, PoolMap, WindowMap, Keeps, Sound, Aligned;
    ghost var b, p := s.Now(), AskedOf(s, op, kernelRoot);
    SoundLedger(b, s.machine.pool, s.root);
    KeepsSelf(s.mapped);
    n := 0;
    match op {
      case Prepare =>
        if s.prepared || kernelRoot.None? {
          Still(b, s.root, p.end);
        }
        r := s.PrepareForEl0(kernelRoot, k);
      case Enter =>
        Still(b, s.root, None);
        SettledStill(s.Now(), s.machine.pool, s.root, None);
        var ttbr0 := s.Enter();
        r := Ok(());
      case Poke(offset, bytes) =>
        r := s.PokeUser(offset, bytes);
        Idle(b, s.Now(), s.root, ErrorOf(r));
      case _ => r, n := PerformMap(s, op, kernelRoot);
    }
  }

  /** One of the three mapping requests: it ends as its plan says and adds the leading run it reached. */
  method PerformMap(s: Space, op: Op, ghost kernelRoot: Option<nat>) returns (r: Answer, ghost n: nat)
    requires s.Valid() && (op.MapDevice? || op.MapNormal? || op.MapPool?)
    requires op.MapPool? ==> |op.frames| == PACKET_POOL_PAGES
    modifies s`owned, s`home, s`leaked, s`mapped, s`packetPoolMapped, s.machine`free, s.machine`inUse, s.machine`mem
    ensures s.Valid() && Settled(old(s.Now()), s.Now(), s.machine.pool, s.root, ErrorOf(r))
    ensures Performed(ConfigOf(s, kernelRoot), old(s.machine.mem), old(s.Now()), s.Now(), s.root,
                      old(StateOf(s)), StateOf(s), op, old(AskedOf(s, op, kernelRoot)), ErrorOf(r))
    ensures r.Ok? ==> Whole(op, n)
    ensures s.mapped == Extended(s.machine.index, old(s.mapped), op, n) && Keeps(old(s.mapped), s.mapped)
  {
    hide Settled, Prepared, Costs, AsPlanned, StopsAt, Since, ItemsPlan, PopulatePlan, PreparePlan;
    hide RegionItems, PoolItems, RegionMap, PoolMap, Keeps, Sound, Aligned;
    ghost var b, p := s.Now(), AskedOf(s, op, kernelRoot);
    SoundLedger(b, s.machine.pool, s.root);
    match op {
      case MapDevice(va, pa, len, perms) =>
        if !s.prepared || !Aligned(va, pa, len) {
          Still(b, s.root, p.end);
        }
        r, n := s.MapDeviceRegion(va, pa, len, perms);
        if s.prepared && Aligned(va, pa, len) {
          PlannedCosts(b, s.Now(), s.root, p, ErrorOf(r));
        }
      case MapNormal(va, pa, len, perms) =>
        if !s.prepared || !Aligned(va, pa, len) {
          Still(b, s.root, p.end);
        }
        r, n := s.MapNormalRegion(va, pa, len, perms);
        if s.prepared && Aligned(va, pa, len) {
          PlannedCosts(b, s.Now(), s.root, p, ErrorOf(r));
        }
      case MapPool(va, frames) =>
        if !s.packetPool || !s.prepared || s.packetPoolMapped {
          Still(b, s.root, p.end);
        }
        ghost var refused := !s.packetPool || !s.prepared || s.packetPoolMapped;
        r, n := s.MapPacketPool(va, frames);
        if !refused {
          PlannedCosts(b, s.Now(), s.root, p, ErrorOf(r));
        }
    }
  }

  /** How many requests the ledger refused. */
  function Refusals(rs: seq<Answer>): nat
  {
    if rs == [] then 0
    else Refusals(rs[..|rs| - 1]) + if rs[|rs| - 1] == Err(LedgerFull) then 1 else 0
  }

  /** Any number of requests since books `a`: books grown, one frame lost for each ledger refusal. */
  ghost predicate Served(a: Books, b: Books, pool: set<nat>, root: nat, k: map<nat, nat>, rs: seq<Answer>)
  {
    && Sound(b, pool, root) && Grows(a, b) && |b.leaked| == |a.leaked| + Refusals(rs)
    && Kernel(b.mem, k, pool)
  }

  lemma ServedStart(a: Books, pool: set<nat>, root: nat, k: map<nat, nat>)
    requires Sound(a, pool, root) && Kernel(a.mem, k, pool)
    ensures Served(a, a, pool, root, k, [])
  {
    GrowsReflexive(a);
  }

  lemma ServedKernel(a: Books, b: Books, pool: set<nat>, root: nat, k: map<nat, nat>, rs: seq<Answer>)
    requires Served(a, b, pool, root, k, rs)
    ensures Kernel(b.mem, k, pool)
  {
  }

  lemma ServedOne(a: Books, b: Books, c: Books, pool: set<nat>, root: nat, k: map<nat, nat>, rs: seq<Answer>, r: Answer)
    requires Served(a, b, pool, root, k, rs) && Settled(b, c, pool, root, ErrorOf(r))
    ensures Served(a, c, pool, root, k, rs + [r])
  {
    GrowsTransitive(a, b, c);
    KernelKept(b, c, pool, root, k);
    assert (rs + [r])[..|rs|] == rs;
  }

  /** Whatever was asked of a space, the kernel translates as before and shares no table with it. */
  lemma KernelUnmoved(a: Books, b: Books, pool: set<nat>, root: nat, k: map<nat, nat>, rs: seq<Answer>, f: nat)
    requires Kernel(a.mem, k, pool) && Served(a, b, pool, root, k, rs) && f in k && k[f] == 1
    ensures SameWalks(a.mem, f, b.mem, f, 1) && b.home.Keys !! k.Keys
  {
    KernelKept(a, b, pool, root, k);
    forall p: Page
      ensures Lookup(b.mem, f, 1, p) == Lookup(a.mem, f, 1, p)
    {
      SourceFrame(a.mem, b.mem, k, f, p);
    }
    assert forall g :: g in b.home ==> g in SetOf(b.owned) && g in pool;
  }

  /** What a space translates beyond the kernel, if it is prepared. */
  ghost function MapOf(s: Space): Option<map<Page, Desc>>
    reads s
  {
    if s.prepared then Some(s.mapped) else None
  }

  /**
   * What a run of requests leaves mapped, `ns[i]` pages of the `i`th: nothing until preparing succeeds,
   * then the window, then what each request added.
   */
  function Meaning(index: nat -> Page, vaBase: nat, text: nat, window: seq<nat>, start: Option<map<Page, Desc>>,
                   ops: seq<Op>, rs: seq<Answer>, ns: seq<nat>): Option<map<Page, Desc>>
    requires |ns| == |rs| == |ops|
    decreases |ops|
  {
    if ops == [] then start
    else var j := |ops| - 1;
         match Meaning(index, vaBase, text, window, start, ops[..j], rs[..j], ns[..j])
         case Some(m) => Some(Extended(index, m, ops[j], ns[j]))
         case None => if ops[j].Prepare? && rs[j].Ok? then Some(WindowMap(index, vaBase, text, window)) else None
  }

  lemma MeaningNext(index: nat -> Page, vaBase: nat, text: nat, window: seq<nat>, start: Option<map<Page, Desc>>,
                    ops: seq<Op>, rs: seq<Answer>, ns: seq<nat>, r: Answer, n: nat)
    requires |ns| == |rs| < |ops|
    ensures var j := |rs|;
            Meaning(index, vaBase, text, window, start, ops[..j + 1], rs + [r], ns + [n]) ==
            match Meaning(index, vaBase, text, window, start, ops[..j], rs, ns)
            case Some(m) => Some(Extended(index, m, ops[j], n))
            case None => if ops[j].Prepare? && r.Ok? then Some(WindowMap(index, vaBase, text, window)) else None
  {
    var j := |rs|;
    assert ops[..j + 1][..j] == ops[..j] && (ns + [n])[..j] == ns && (rs + [r])[..j] == rs;
  }

  /** Until preparing succeeds, the window does not matter. */
  lemma {:induction false} MeaningUnprepared(index: nat -> Page, vaBase: nat, text: nat, v: seq<nat>, w: seq<nat>,
                                             start: Option<map<Page, Desc>>, ops: seq<Op>, rs: seq<Answer>, ns: seq<nat>)
    requires |ns| == |rs| == |ops| && Meaning(index, vaBase, text, v, start, ops, rs, ns) == None
    ensures Meaning(index, vaBase, text, w, start, ops, rs, ns) == None
    decreases |ops|
  {
    if ops != [] {
      var j := |ops| - 1;
      MeaningUnprepared(index, vaBase, text, v, w, start, ops[..j], rs[..j], ns[..j]);
    }
  }

  /** Requests answered as foreseen, up to and with the first that runs short. */
  ghost predicate AsForetold(c: Config, m: Mem, free: nat, room: nat, ops: seq<Op>, rs: seq<Answer>)
  {
    && |rs| <= |ops|
    && forall i :: 0 <= i < |rs| && Short(free, room, Foresee(c, m, ops[..i]).need) == None ==>
         ErrorOf(rs[i]) == Foretold(c, m, free, room, ops, i)
  }

  /** A space prepared in this run still has its window, and its stack still starts at the top of it. */
  ghost predicate WindowKept(s: Space)
    reads s
  {
    && Keeps(WindowMap(s.machine.index, s.vaBase, s.textPages, s.window), s.mapped)
    && s.userSp == s.vaBase + s.pages * PAGE_SIZE
  }

  /** The run so far, begun at books `a` with `start` mapped over root `kroot` of `base`. */
  ghost predicate Serving(s: Space, a: Books, start: Option<map<Page, Desc>>, base: Mem, kroot: nat, ops: seq<Op>,
                          k: map<nat, nat>, rs: seq<Answer>, ns: seq<nat>)
    reads s, s.machine
  {
    && s.Valid() && |ns| == |rs| <= |ops|
    && Served(a, s.Now(), s.machine.pool, s.root, k, rs)
    && MapOf(s) == Meaning(s.machine.index, s.vaBase, s.textPages, s.window, start, ops[..|rs|], rs, ns)
    && (start.Some? ==> s.prepared) && (s.prepared ==> s.kroot == kroot)
    && (s.prepared ==> if start.Some? then s.base == base else SameKernel(k, base, s.base) && kroot in k && k[kroot] == 1)
    && (s.prepared && start.None? ==> WindowKept(s))
    && forall i :: 0 <= i < |rs| && rs[i].Ok? ==> Whole(ops[i], ns[i])
  }

  /** ...and where the forecast has it. */
  ghost predicate Foreseen(s: Space, a: Books, m: Mem, kernelRoot: Option<nat>, ops: seq<Op>, rs: seq<Answer>)
    reads s, s.machine
  {
    && |rs| <= |ops| && |a.owned| <= MAX_AS_FRAMES
    && OnCourse(ConfigOf(s, kernelRoot), m, a, s.Now(), s.root, StateOf(s), Refusals(rs),
                Foresee(ConfigOf(s, kernelRoot), m, ops[..|rs|]))
    && AsForetold(ConfigOf(s, kernelRoot), m, |a.free|, Room(a), ops, rs)
  }

  /**
   * Requests one after the other, refused ones included. The space then translates as the cloned kernel,
   * its window, and exactly what each request added; and a space just created ends each request as
   * foreseen, losing a frame to the ledger exactly when that was foreseen.
   */
  method Serve(s: Space, ops: seq<Op>, kernelRoot: Option<nat>, ghost k: map<nat, nat>, ghost m: Mem)
    returns (rs: seq<Answer>, ghost ns: seq<nat>)
    requires s.Valid() && Kernel(s.machine.mem, k, s.machine.pool) && Source(m, k) && SameKernel(k, m, s.machine.mem)
    requires kernelRoot.Some? ==> kernelRoot.value in k && k[kernelRoot.value] == 1
    requires forall i :: 0 <= i < |ops| && ops[i].MapPool? ==> |ops[i].frames| == PACKET_POOL_PAGES
    modifies s, s.machine`free, s.machine`inUse, s.machine`mem, s.machine`cached
    ensures |rs| == |ops| && s.machine.cached <= old(s.machine.cached) + {s.asid}
    ensures var base := if old(s.prepared) then old(s.base) else m;
            var kroot := if old(s.prepared) then old(s.kroot) else Kroot(ConfigOf(s, kernelRoot));
            && Serving(s, old(s.Now()), old(MapOf(s)), base, kroot, ops, k, rs, ns)
            && (s.prepared ==> View(s.machine.mem, s.root, base, kroot, s.mapped))
    ensures !old(s.prepared) && !old(s.packetPoolMapped) ==> Foreseen(s, old(s.Now()), m, kernelRoot, ops, rs)
  {
    hide Serving, Foreseen, Kernel, Served, View, SameKernel, ConfigOf, OnCourse, AsForetold, Foresee, Space.Valid, Source;
    ghost var a, start := s.Now(), MapOf(s);
    ghost var base, kroot := if s.prepared then s.base else m, if s.prepared then s.kroot else Kroot(ConfigOf(s, kernelRoot));
    ghost var young := !s.prepared && !s.packetPoolMapped;
    ServingStart(s, base, kroot, ops, k);
    if young { ForeseenStart(s, m, kernelRoot, ops); }
    rs, ns := [], [];
    while |rs| < |ops|
      invariant |rs| <= |ops| && s.machine.cached <= old(s.machine.cached) + {s.asid}
      invariant SameKernel(k, m, s.machine.mem)
      invariant Serving(s, a, start, base, kroot, ops, k, rs, ns)
      invariant young ==> Foreseen(s, a, m, kernelRoot, ops, rs)
    {
      var r;
      ghost var n;
      r, n := ServeOne(s, ops, kernelRoot, k, m, a, start, base, kroot, young, rs, ns);
      rs, ns := rs + [r], ns + [n];
    }
    ServingView(s, a, start, base, kroot, ops, k, rs, ns);
  }

  /** One request of the run. */
  method ServeOne(s: Space, ops: seq<Op>, kernelRoot: Option<nat>, ghost k: map<nat, nat>, ghost m: Mem, ghost a: Books,
                  ghost start: Option<map<Page, Desc>>, ghost base: Mem, ghost kroot: nat, ghost young: bool,
                  rs: seq<Answer>, ghost ns: seq<nat>)
    returns (r: Answer, ghost n: nat)
    requires |rs| < |ops| && Serving(s, a, start, base, kroot, ops, k, rs, ns) && (young ==> Foreseen(s, a, m, kernelRoot, ops, rs))
    requires Source(m, k) && SameKernel(k, m, s.machine.mem)
    requires kernelRoot.Some? ==> kernelRoot.value in k && k[kernelRoot.value] == 1
    requires start.None? ==> base == m && kroot == Kroot(ConfigOf(s, kernelRoot))
    requires ops[|rs|].MapPool? ==> |ops[|rs|].frames| == PACKET_POOL_PAGES
    modifies s, s.machine`free, s.machine`inUse, s.machine`mem, s.machine`cached
    ensures s.machine.cached <= old(s.machine.cached) + {s.asid} && SameKernel(k, m, s.machine.mem)
    ensures Serving(s, a, start, base, kroot, ops, k, rs + [r], ns + [n])
    ensures young ==> Foreseen(s, a, m, kernelRoot, ops, rs + [r])
  {
    hide Kernel, Served, OnCourse, AsForetold, Foresee, Source, Settled, Performed, Asked, PreparePlan, Extended, WindowMap, Whole;
    hide Prepared, Sound, Meaning, Keeps;
    ghost var b, before, w, t, m0 := s.Now(), MapOf(s), s.window, StateOf(s), s.mapped;
    ServedKernel(a, b, s.machine.pool, s.root, k, rs);
    ghost var p := AskedOf(s, ops[|rs|], kernelRoot);
    r, n := Perform(s, ops[|rs|], kernelRoot, k);
    ghost var d := s.Now();
    PerformedState(ConfigOf(s, kernelRoot), b.mem, b, d, s.root, t, StateOf(s), ops[|rs|], p, ErrorOf(r));
    KeepsSelf(s.mapped);
    if before.Some? && start.None? {
      KeepsThen(WindowMap(s.machine.index, s.vaBase, s.textPages, w), m0, s.mapped);
    }
    ServedOne(a, b, d, s.machine.pool, s.root, k, rs, r);
    ServedSame(a, b, d, s.machine.pool, s.root, k, m, rs, r);
    MeaningStep(s.machine.index, s.vaBase, s.textPages, w, s.window, start, ops, rs, ns, r, n, before, MapOf(s));
    if young {
      ForeseenNext(ConfigOf(s, kernelRoot), k, m, a, b, d, s.machine.pool, s.root, t, StateOf(s), ops, rs, r);
    }
  }

  lemma ServingStart(s: Space, base: Mem, kroot: nat, ops: seq<Op>, k: map<nat, nat>)
    requires s.Valid() && Kernel(s.machine.mem, k, s.machine.pool) && (s.prepared ==> s.base == base && s.kroot == kroot)
    ensures Serving(s, s.Now(), MapOf(s), base, kroot, ops, k, [], [])
  {
    ServedStart(s.Now(), s.machine.pool, s.root, k);
  }

  lemma ForeseenStart(s: Space, m: Mem, kernelRoot: Option<nat>, ops: seq<Op>)
    requires s.Valid() && !s.prepared && !s.packetPoolMapped
    ensures Foreseen(s, s.Now(), m, kernelRoot, ops, [])
  {
    hide OnCourse;
    CourseStart(ConfigOf(s, kernelRoot), m, s.Now(), s.root);
    assert ops[..0] == [];
  }

  lemma ServedSame(a: Books, b: Books, d: Books, pool: set<nat>, root: nat, k: map<nat, nat>, m: Mem, rs: seq<Answer>, r: Answer)
    requires Served(a, b, pool, root, k, rs) && Settled(b, d, pool, root, ErrorOf(r)) && SameKernel(k, m, b.mem)
    ensures SameKernel(k, m, d.mem)
  {
    hide Consistent;
    KernelKept(b, d, pool, root, k);
  }

  lemma MeaningStep(index: nat -> Page, vaBase: nat, text: nat, v: seq<nat>, w: seq<nat>, start: Option<map<Page, Desc>>,
                    ops: seq<Op>, rs: seq<Answer>, ns: seq<nat>, r: Answer, n: nat,
                    before: Option<map<Page, Desc>>, after: Option<map<Page, Desc>>)
    requires |ns| == |rs| < |ops| && before == Meaning(index, vaBase, text, v, start, ops[..|rs|], rs, ns)
    requires before.Some? ==> w == v && after == Some(Extended(index, before.value, ops[|rs|], n))
    requires before.None? ==>
      after == if ops[|rs|].Prepare? && r.Ok? then Some(WindowMap(index, vaBase, text, w)) else None
    ensures after == Meaning(index, vaBase, text, w, start, ops[..|rs| + 1], rs + [r], ns + [n])
  {
    hide Extended, WindowMap, Meaning;
    MeaningNext(index, vaBase, text, w, start, ops, rs, ns, r, n);
    if before.None? {
      MeaningUnprepared(index, vaBase, text, v, w, start, ops[..|rs|], rs, ns);
    }
  }

  lemma ForeseenNext(c: Config, k: map<nat, nat>, m: Mem, a: Books, b: Books, d: Books, pool: set<nat>, root: nat,
                     s: State, t: State, ops: seq<Op>, rs: seq<Answer>, r: Answer)
    requires |rs| < |ops| && Source(m, k) && SameKernel(k, m, b.mem)
    requires c.kernelRoot.Some? ==> Kroot(c) in k && k[Kroot(c)] == 1
    requires c.kernelRoot.None? && s.marks.None? ==> t.marks.None?
    requires Sound(b, pool, root) && Settled(b, d, pool, root, ErrorOf(r))
    requires Performed(c, b.mem, b, d, root, s, t, ops[|rs|], Asked(c, PreparePlan(c, b.mem), b.mem, root, s, ops[|rs|]), ErrorOf(r))
    requires |a.owned| <= MAX_AS_FRAMES && OnCourse(c, m, a, b, root, s, Refusals(rs), Foresee(c, m, ops[..|rs|]))
    requires AsForetold(c, m, |a.free|, Room(a), ops, rs)
    ensures OnCourse(c, m, a, d, root, t, Refusals(rs + [r]), Foresee(c, m, ops[..|rs| + 1]))
    ensures AsForetold(c, m, |a.free|, Room(a), ops, rs + [r])
  {
    hide OnCourse, Performed, Asked, PreparePlan, Foresee, Grows, Sound, Source, SameKernel, Foretold, Short;
    PerformedFrom(c, k, m, b, d, root, s, t, ops[|rs|], ErrorOf(r));
    if b.free == [] { DryStays(b, d, pool, root); }
    SoundLedger(d, pool, root);
    CourseKept(c, m, a, b, d, root, s, t, Refusals(rs), ops, |rs|, ErrorOf(r));
    assert (rs + [r])[..|rs|] == rs;
  }

  /** A prepared space means what the run left mapped, over the kernel as it was. */
  lemma ServingView(s: Space, a: Books, start: Option<map<Page, Desc>>, base: Mem, kroot: nat, ops: seq<Op>,
                    k: map<nat, nat>, rs: seq<Answer>, ns: seq<nat>)
    requires Serving(s, a, start, base, kroot, ops, k, rs, ns) && (start.None? ==> Source(base, k))
    ensures s.prepared ==> View(s.machine.mem, s.root, base, kroot, s.mapped)
  {
    hide Served, Meaning, Source, SameKernel, View, SameWalks;
    if s.prepared {
      PreparedView(s.Now(), s.root, s.base, s.kroot, s.mapped, s.window, s.textPhys, s.textPages, s.pages);
      if start.None? {
        SameKernelSince(k, base, s.base, kroot);
        ViewOver(s.machine.mem, s.root, base, s.base, kroot, s.mapped);
      }
    }
  }

  lemma ViewOver(m: Mem, root: nat, base: Mem, base': Mem, kroot: nat, mapped: map<Page, Desc>)
    requires View(m, root, base', kroot, mapped) && SameWalks(base, kroot, base', kroot, 1)
    ensures View(m, root, base, kroot, mapped)
  {
  }

  lemma PreparedView(b: Books, root: nat, base: Mem, kroot: nat, mapped: map<Page, Desc>,
                     window: seq<nat>, textPhys: seq<nat>, text: nat, pages: nat)
    requires Prepared(b, root, base, kroot, mapped, window, textPhys, text, pages)
    ensures View(b.mem, root, base, kroot, mapped)
  {
  }

  /** A frame is lost exactly when the run needs the whole ledger beside the root, and the pool could give more. */
  predicate Loses(frames: nat, need: nat)
  {
    frames > MAX_AS_FRAMES && need >= MAX_AS_FRAMES
  }

  /**
   * Create, any requests, destroy. Every tag comes back with no TLB entry under it, every frame comes
   * back except one for each request the ledger refused, and nothing outside the pool or in use by
   * anyone else was written. Whether any frame is lost can be told beforehand, and so can every answer
   * up to the first that runs short.
   */
  method Lifetime(machine: Machine, tags: Asid.Pool, vaBase: nat, textPages: nat, stackPages: nat, packetPool: bool,
                  ops: seq<Op>, kernelRoot: Option<nat>, ghost k: map<nat, nat>)
    returns (r: Result<seq<Answer>, AsError>)
    requires PoolSound(machine.pool, machine.free, machine.inUse, machine.mem) && tags.Valid()
    requires Kernel(machine.mem, k, machine.pool) && tags.Free() !! machine.cached
    requires kernelRoot.Some? ==> kernelRoot.value in k && k[kernelRoot.value] == 1
    requires forall i :: 0 <= i < |ops| && ops[i].MapPool? ==> |ops[i].frames| == PACKET_POOL_PAGES
    modifies machine`free, machine`inUse, machine`mem, machine`cached, tags, tags.words
    ensures PoolSound(machine.pool, machine.free, machine.inUse, machine.mem) && tags.Valid()
    ensures tags.Free() == old(tags.Free()) && tags.Free() !! machine.cached
    ensures r.Ok? <==> !Refused(textPages, stackPages) && old(tags.Free()) != {} && old(machine.free) != []
    ensures old(machine.inUse) <= machine.inUse
    ensures r.Err? ==> machine.inUse == old(machine.inUse)
    ensures r.Ok? ==> |r.value| == |ops| && |machine.inUse - old(machine.inUse)| == Refusals(r.value)
    ensures r.Ok? ==>
      var c := Config(machine.index, vaBase, textPages, (textPages + stackPages) % VA_END, packetPool, kernelRoot);
      && AsForetold(c, old(machine.mem), |old(machine.free)| - 1, MAX_AS_FRAMES - 1, ops, r.value)
      && (machine.inUse != old(machine.inUse) <==> Loses(|old(machine.free)|, Foresee(c, old(machine.mem), ops).need))
    ensures Untouched(old(machine.mem), machine.mem, machine.pool, old(machine.inUse))
  {
    hide Kernel, Untouched, Born, Newborn, PoolSound, Space.Valid, Asid.Pool.Free, Asid.Tags, Asid.Pool.BitSet;
    hide AsForetold, Foresee, Loses, SameKernel, Source;
    UntouchedNow(machine.mem, machine.pool, machine.inUse);
    ghost var inUse, mem, frames := machine.inUse, machine.mem, |machine.free|;
    var c := Create(machine, tags, vaBase, textPages, stackPages, packetPool);
    if c.Err? {
      return Err(c.error);
    }
    BornKernel(c.value, machine, inUse, mem, vaBase, packetPool, k);
    var rs := Spend(c.value, tags, ops, kernelRoot, k, inUse, mem);
    assert tags.Free() == old(tags.Free());
    LostIffRefused(inUse, machine.inUse, rs);
    r := Ok(rs);
  }

  lemma LostIffRefused(u: set<nat>, v: set<nat>, rs: seq<Answer>)
    requires u <= v && |v - u| == Refusals(rs)
    ensures v != u <==> Refusals(rs) > 0
  {
    assert v == u ==> v - u == {};
    if v != u { var f :| f in v - u; }
  }

  /** Requests, then teardown, of a space just born. */
  method Spend(s: Space, tags: Asid.Pool, ops: seq<Op>, kernelRoot: Option<nat>, ghost k: map<nat, nat>,
               ghost inUse: set<nat>, ghost mem: Mem)
    returns (rs: seq<Answer>)
    requires s.Valid() && tags.Valid() && 0 < s.asid < Asid.ASID_COUNT && s.asid !in tags.Free()
    requires !s.prepared && !s.packetPoolMapped && |s.owned| == 1
    requires Kernel(s.machine.mem, k, s.machine.pool) && Newborn(s.Now(), s.machine.pool, s.root, inUse, mem)
    requires Source(mem, k) && SameKernel(k, mem, s.machine.mem)
    requires kernelRoot.Some? ==> kernelRoot.value in k && k[kernelRoot.value] == 1
    requires forall i :: 0 <= i < |ops| && ops[i].MapPool? ==> |ops[i].frames| == PACKET_POOL_PAGES
    modifies s, s.machine`free, s.machine`inUse, s.machine`mem, s.machine`cached, tags, tags.words
    ensures s.machine.cached <= old(s.machine.cached) && s.asid !in s.machine.cached
    ensures PoolSound(s.machine.pool, s.machine.free, s.machine.inUse, s.machine.mem) && tags.Valid()
    ensures tags.Free() == old(tags.Free()) + {s.asid} && |rs| == |ops|
    ensures inUse <= s.machine.inUse && |s.machine.inUse - inUse| == Refusals(rs)
    ensures AsForetold(ConfigOf(s, kernelRoot), mem, |old(s.machine.free)|, MAX_AS_FRAMES - 1, ops, rs)
    ensures Refusals(rs) > 0 <==> Loses(|old(s.machine.free)| + 1, Foresee(ConfigOf(s, kernelRoot), mem, ops).need)
    ensures Untouched(mem, s.machine.mem, s.machine.pool, inUse)
  {
    hide Served, Newborn, Prepared, Kernel, Asid.Pool.Valid, Asid.Pool.Free, PoolSound, Consistent, OnCourse, AsForetold, Foresee;
    hide Source, SameKernel, View, Meaning, Loses, Refusals;
    ghost var a := s.Now();
    ghost var ns;
    rs, ns := Serve(s, ops, kernelRoot, k, mem);
    assert ops[..|rs|] == ops;
    LossForeseen(ConfigOf(s, kernelRoot), mem, a, s.Now(), s.root, StateOf(s), rs, Foresee(ConfigOf(s, kernelRoot), mem, ops));
    LifeEnds(a, s.Now(), s.machine.pool, s.root, k, rs, inUse, mem);
    s.Destroy(tags);
  }

  /** A run that kept to its forecast lost a frame exactly if that was foreseen. */
  lemma LossForeseen(c: Config, m: Mem, a: Books, b: Books, root: nat, s: State, rs: seq<Answer>, f: Forecast)
    requires OnCourse(c, m, a, b, root, s, Refusals(rs), f) && |a.owned| == 1
    ensures Refusals(rs) > 0 <==> Loses(|a.free| + 1, f.need)
  {
  }

  /** The books of a space with nothing but an empty root, over pool users `inUse` and memory `mem`. */
  predicate Newborn(a: Books, pool: set<nat>, root: nat, inUse: set<nat>, mem: Mem)
  {
    && Sound(a, pool, root) && a.leaked == {} && Others(a) == inUse
    && root in pool && root !in inUse && root in mem && a.mem == mem[root := EmptyTable()]
  }

  lemma BornKernel(s: Space, machine: Machine, inUse: set<nat>, mem: Mem, vaBase: nat, packetPool: bool, k: map<nat, nat>)
    requires Born(s, machine, inUse, mem, vaBase, packetPool) && Kernel(mem, k, machine.pool)
    ensures s.machine == machine && s.Valid() && !s.prepared && !s.packetPoolMapped && |s.owned| == 1
    ensures s.vaBase == vaBase && s.packetPool == packetPool
    ensures Newborn(s.Now(), machine.pool, s.root, inUse, mem) && Kernel(machine.mem, k, machine.pool)
    ensures Source(mem, k) && SameKernel(k, mem, machine.mem)
  {
    BornOthers(s.Now(), s.root, inUse);
    assert s.root in SetOf(s.owned);
    KernelAfterRoot(mem, machine.pool, k, s.root);
  }

  lemma LifeEnds(a: Books, b: Books, pool: set<nat>, root: nat, k: map<nat, nat>, rs: seq<Answer>,
                 inUse: set<nat>, mem: Mem)
    requires Newborn(a, pool, root, inUse, mem) && Served(a, b, pool, root, k, rs)
    ensures inUse <= Others(b) + b.leaked && |Others(b) + b.leaked - inUse| == Refusals(rs)
    ensures Untouched(mem, b.mem, pool, inUse)
  {
    ServedEnds(a, b, pool, root, k, rs, inUse);
    UntouchedByLife(mem, a, b, pool, root, inUse);
  }

  lemma UntouchedNow(m: Mem, pool: set<nat>, inUse: set<nat>)
    ensures Untouched(m, m, pool, inUse)
  {
  }

  /** Memory outside the pool, and frames in use before, are as they were. */
  predicate Untouched(m: Mem, n: Mem, pool: set<nat>, inUse: set<nat>)
  {
    forall f :: f in m && (f !in pool || f in inUse) ==> f in n && n[f] == m[f]
  }

  lemma KernelAfterRoot(m: Mem, pool: set<nat>, k: map<nat, nat>, root: nat)
    requires Kernel(m, k, pool) && root in pool
    ensures Kernel(m[root := EmptyTable()], k, pool)
  {
  }

  lemma ServedEnds(a: Books, b: Books, pool: set<nat>, root: nat, k: map<nat, nat>, rs: seq<Answer>, inUse: set<nat>)
    requires Served(a, b, pool, root, k, rs) && a.leaked == {} && Others(a) == inUse
    ensures Grows(a, b) && Others(b) == inUse && inUse <= Others(b) + b.leaked
    ensures Others(b) + b.leaked - inUse == b.leaked && |b.leaked| == Refusals(rs)
  {
  }

  lemma UntouchedByLife(m: Mem, a: Books, b: Books, pool: set<nat>, root: nat, inUse: set<nat>)
    requires Grows(a, b) && Sound(a, pool, root) && Sound(b, pool, root)
    requires Others(a) == inUse && root in pool && root !in inUse && root in m && a.mem == m[root := EmptyTable()]
    ensures Untouched(m, b.mem, pool, inUse)
  {
    forall f | f in m && (f !in pool || f in inUse)
      ensures f in b.mem && b.mem[f] == m[f]
    {
      GrowsKeepsForeign(a, b, pool, root, f);
    }
  }
}

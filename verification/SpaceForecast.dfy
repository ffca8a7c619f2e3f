/**
 * How a run of requests will go, worked out before it starts: what each will take from the pool, how it
 * will end, and whether the ledger will lose a frame.
 */
module SpaceForecast {
  import opened Bytes
  import opened Wrappers
  import opened PageTables
  import opened FrameBooks
  import opened FramePlan
  import opened TableClone
  import opened SpaceView
  import opened AddressSpace

  datatype Op =
    | Prepare
    | Enter
    | MapDevice(va: nat, pa: nat, len: nat, perms: Perms)
    | MapNormal(va: nat, pa: nat, len: nat, perms: Perms)
    | MapPool(va: nat, frames: seq<nat>)
    | Poke(offset: nat, bytes: seq<byte>)

  /** What is fixed about a space from its creation. */
  datatype Config = Config(index: nat -> Page, vaBase: nat, textPages: nat, pages: nat, packetPool: bool, kernelRoot: Option<nat>)

  /** What requests change about how later ones go: the marks left since preparing, and the pool mapped or not. */
  datatype State = State(marks: Option<seq<Mark>>, pooled: bool)

  function Refusal(e: AsError): Plan
  {
    Plan(0, Some(e), [])
  }

  function Kroot(c: Config): nat
  {
    if c.kernelRoot.Some? then c.kernelRoot.value else 0
  }

  function PreparePlan(c: Config, m: Mem): Plan
  {
    if c.kernelRoot.None? then Refusal(NoKernelRoot)
    else PopulatePlan(m, Kroot(c), WindowItems(c.index, c.vaBase, c.pages))
  }

  /** What a request takes, when preparing would take `prepare` and the marks are since root `f` of `m`. */
  function Asked(c: Config, prepare: Plan, m: Mem, f: nat, s: State, op: Op): Plan
  {
    match op
    case Prepare => if s.marks.Some? then Refusal(AlreadyPrepared) else prepare
    case Enter => NOTHING
    case MapDevice(va, pa, len, _) =>
      if s.marks.None? then Refusal(BadTable)
      else if !Aligned(va, pa, len) then Refusal(Unaligned)
      else ItemsPlan(m, f, s.marks.value, RegionItems(c.index, va, pa, len / PAGE_SIZE))
    case MapNormal(va, pa, len, _) =>
      if s.marks.None? || !Aligned(va, pa, len) then Refusal(Unaligned)
      else ItemsPlan(m, f, s.marks.value, RegionItems(c.index, va, pa, len / PAGE_SIZE))
    case MapPool(va, frames) =>
      if !c.packetPool then Refusal(PacketPoolNotGranted)
      else if s.marks.None? then Refusal(BadTable)
      else if s.pooled then Refusal(PacketPoolAlreadyMapped)
      else ItemsPlan(m, f, s.marks.value, PoolItems(c.index, va, frames))
    case Poke(offset, bytes) =>
      if s.marks.None? then Refusal(BadTable)
      else if offset + |bytes| > c.textPages * PAGE_SIZE then Refusal(OutOfRange)
      else NOTHING
  }

  function After(s: State, op: Op, p: Plan): State
  {
    State(if s.marks.Some? then Some(s.marks.value + p.marks) else if op.Prepare? && p.end.None? then Some(p.marks) else None,
          s.pooled || (op.MapPool? && p.end.None?))
  }

  /** Where a run stands if frames never run short, and how many it has taken. */
  datatype Forecast = Forecast(state: State, need: nat)

  /** The next request's plan, the kernel's tables being those of `m`. */
  function NextAsked(c: Config, m: Mem, f: Forecast, op: Op): Plan
  {
    Asked(c, PreparePlan(c, m), m, Kroot(c), f.state, op)
  }

  function Foresee(c: Config, m: Mem, ops: seq<Op>): Forecast
  {
    if ops == [] then Forecast(State(None, false), 0)
    else var n := |ops| - 1;
         var f := Foresee(c, m, ops[..n]);
         var p := NextAsked(c, m, f, ops[n]);
         Forecast(After(f.state, ops[n], p), f.need + p.need)
  }

  /** How request `i` will end, if the ones before it did not run short: its frames first, then its own end. */
  function Foretold(c: Config, m: Mem, free: nat, room: nat, ops: seq<Op>, i: nat): Option<AsError>
    requires i < |ops|
  {
    var f := Foresee(c, m, ops[..i]);
    var p := NextAsked(c, m, f, ops[i]);
    if Short(free, room, f.need + p.need).Some? then Short(free, room, f.need + p.need) else p.end
  }

  lemma ForeseeNext(c: Config, m: Mem, ops: seq<Op>, i: nat)
    requires i < |ops|
    ensures var f := Foresee(c, m, ops[..i]);
            var p := NextAsked(c, m, f, ops[i]);
            Foresee(c, m, ops[..i + 1]) == Forecast(After(f.state, ops[i], p), f.need + p.need)
  {
    assert ops[..i + 1][..i] == ops[..i];
  }

  // ---- What is asked now is what was foreseen ----

  /** Only being prepared or not, and the pool mapped or not, can be seen of a state from where it stands. */
  function Bare(s: State): State
  {
    State(if s.marks.Some? then Some([]) else None, s.pooled)
  }

  lemma AskedSince(c: Config, prepare: Plan, m: Mem, f: nat, n: Mem, root: nat, s: State, op: Op)
    requires s.marks.Some? ==> Since(m, f, n, root, s.marks.value)
    ensures Asked(c, prepare, n, root, Bare(s), op) == Asked(c, prepare, m, f, s, op)
  {
    hide Since, ItemsPlan, RegionItems, PoolItems, Aligned;
    if s.marks.Some? {
      match op
      case MapDevice(va, pa, len, _) => ItemsSince(m, f, s.marks.value, n, root, RegionItems(c.index, va, pa, len / PAGE_SIZE));
      case MapNormal(va, pa, len, _) => ItemsSince(m, f, s.marks.value, n, root, RegionItems(c.index, va, pa, len / PAGE_SIZE));
      case MapPool(va, frames) => ItemsSince(m, f, s.marks.value, n, root, PoolItems(c.index, va, frames));
      case _ =>
    }
  }

  /** Memory `n` has the kernel's tables as they are in `m`. */
  predicate SameKernel(k: map<nat, nat>, m: Mem, n: Mem)
  {
    forall g :: g in k ==> g in n && g in m && n[g] == m[g]
  }

  lemma SameKernelSince(k: map<nat, nat>, m: Mem, n: Mem, f: nat)
    requires Source(m, k) && SameKernel(k, m, n) && f in k && k[f] == 1
    ensures SameWalks(m, f, n, f, 1) && Since(m, f, n, f, [])
  {
    forall p: Page
      ensures Lookup(n, f, 1, p) == Lookup(m, f, 1, p)
    {
      SourceFrame(m, n, k, f, p);
    }
  }

  lemma PrepareFrame(c: Config, m: Mem, n: Mem, k: map<nat, nat>)
    requires Source(m, k) && SameKernel(k, m, n) && (c.kernelRoot.Some? ==> Kroot(c) in k && k[Kroot(c)] == 1)
    ensures PreparePlan(c, n) == PreparePlan(c, m)
  {
    hide ItemsPlan, TablePlan, WindowItems, Since, SameWalks;
    if c.kernelRoot.Some? {
      PlanFrame(m, n, k, Kroot(c));
      SameKernelSince(k, m, n, Kroot(c));
      ItemsSince(m, Kroot(c), [], n, Kroot(c), WindowItems(c.index, c.vaBase, c.pages));
    }
  }

  /** No request is planned to run short: only the pool and the ledger decide that. */
  lemma AskedEnd(c: Config, k: Mem, m: Mem, f: nat, s: State, op: Op)
    ensures !Shortage(Asked(c, PreparePlan(c, k), m, f, s, op).end)
  {
    hide ItemsPlan, TablePlan;
    PrepareEnd(c, k);
    if s.marks.Some? {
      match op
      case MapDevice(va, pa, len, _) => ItemsEnd(m, f, s.marks.value, RegionItems(c.index, va, pa, len / PAGE_SIZE));
      case MapNormal(va, pa, len, _) => ItemsEnd(m, f, s.marks.value, RegionItems(c.index, va, pa, len / PAGE_SIZE));
      case MapPool(va, frames) => ItemsEnd(m, f, s.marks.value, PoolItems(c.index, va, frames));
      case _ =>
    }
  }

  lemma PrepareEnd(c: Config, m: Mem)
    ensures !Shortage(PreparePlan(c, m).end)
  {
    hide ItemsPlan, TablePlan;
    CloneMarks(m, Kroot(c));
    ItemsEnd(m, Kroot(c), [], WindowItems(c.index, c.vaBase, c.pages));
  }

  // ---- Keeping to the forecast ----

  /**
   * Begun at books `a`, now at `b`, with `lost` frames lost to the ledger: while the forecast fits the
   * pool and the ledger, the run is where it was foreseen to be. Once it does not, either the pool is
   * empty for good or the ledger has refused a frame, whichever was to come first.
   */
  ghost predicate OnCourse(c: Config, m: Mem, a: Books, b: Books, root: nat, s: State, lost: nat, f: Forecast)
  {
    && |a.owned| <= MAX_AS_FRAMES && |b.owned| <= MAX_AS_FRAMES
    && match Verdict(a, f.need)
       case None =>
         && Spent(a, b, f.need) && lost == 0 && s == Bare(f.state)
         && (s.marks.Some? ==> Since(m, Kroot(c), b.mem, root, f.state.marks.value))
       case Some(e) => if e == OutOfFrames then b.free == [] && lost == 0 else lost > 0
  }

  lemma CourseStart(c: Config, m: Mem, a: Books, root: nat)
    requires |a.owned| <= MAX_AS_FRAMES
    ensures OnCourse(c, m, a, a, root, State(None, false), 0, Foresee(c, m, []))
  {
  }

  /** What a request does: it ends as its plan says, and moves the state on. */
  ghost predicate Performed(c: Config, m: Mem, b: Books, d: Books, root: nat, s: State, t: State, op: Op, p: Plan, r: Option<AsError>)
  {
    && Costs(b, d, p, r)
    && (s.marks.Some? ==> AsPlanned(b, d, root, p, r))
    && (s.marks.None? && t.marks.Some? ==> Since(m, Kroot(c), d.mem, root, p.marks))
    && t == State(if s.marks.Some? || (op.Prepare? && r.None?) then Some([]) else None, s.pooled || (op.MapPool? && r.None?))
  }

  lemma PerformedState(c: Config, m: Mem, b: Books, d: Books, root: nat, s: State, t: State, op: Op, p: Plan, r: Option<AsError>)
    requires Performed(c, m, b, d, root, s, t, op, p, r)
    ensures t.marks.Some? <==> s.marks.Some? || (op.Prepare? && r.None?)
  {
  }

  lemma PlannedCosts(b: Books, d: Books, root: nat, p: Plan, r: Option<AsError>)
    requires AsPlanned(b, d, root, p, r)
    ensures Costs(b, d, p, r)
  {
  }

  /** A request that takes no frame and moves no table. */
  lemma Idle(b: Books, d: Books, root: nat, r: Option<AsError>)
    requires |b.owned| <= MAX_AS_FRAMES && d == b.(mem := d.mem) && SameWalks(b.mem, root, d.mem, root, 1)
    ensures AsPlanned(b, d, root, Plan(0, r, []), r) && Costs(b, d, Plan(0, r, []), r)
  {
  }

  lemma Still(b: Books, root: nat, r: Option<AsError>)
    requires |b.owned| <= MAX_AS_FRAMES
    ensures AsPlanned(b, b, root, Plan(0, r, []), r) && Costs(b, b, Plan(0, r, []), r)
  {
  }

  lemma CourseKept(c: Config, m: Mem, a: Books, b: Books, d: Books, root: nat, s: State, t: State, lost: nat,
                   ops: seq<Op>, i: nat, r: Option<AsError>)
    requires i < |ops| && OnCourse(c, m, a, b, root, s, lost, Foresee(c, m, ops[..i])) && |d.owned| <= MAX_AS_FRAMES
    requires Performed(c, m, b, d, root, s, t, ops[i], Asked(c, PreparePlan(c, m), b.mem, root, s, ops[i]), r)
    requires b.free == [] ==> d.free == []
    requires r == Some(OutOfFrames) ==> d.free == []
    ensures OnCourse(c, m, a, d, root, t, lost + (if r == Some(LedgerFull) then 1 else 0), Foresee(c, m, ops[..i + 1]))
    ensures Verdict(a, Foresee(c, m, ops[..i]).need) == None ==> r == Foretold(c, m, |a.free|, Room(a), ops, i)
  {
    hide Since, Asked, PreparePlan, Foresee;
    AskedEnd(c, m, b.mem, root, s, ops[i]);
    var f := Foresee(c, m, ops[..i]);
    var p := NextAsked(c, m, f, ops[i]);
    ForeseeNext(c, m, ops, i);
    if Verdict(a, f.need) == None {
      AskedSince(c, PreparePlan(c, m), m, Kroot(c), b.mem, root, f.state, ops[i]);
      CourseGoesOn(c, m, a, b, d, root, s, t, f, ops[i], p, r);
    } else {
      VerdictMore(a, f.need, f.need + p.need);
    }
  }

  lemma CourseGoesOn(c: Config, m: Mem, a: Books, b: Books, d: Books, root: nat, s: State, t: State,
                     f: Forecast, op: Op, p: Plan, r: Option<AsError>)
    requires OnCourse(c, m, a, b, root, s, 0, f) && Verdict(a, f.need) == None && |d.owned| <= MAX_AS_FRAMES
    requires Performed(c, m, b, d, root, s, t, op, p, r) && !Shortage(p.end)
    requires r == Some(OutOfFrames) ==> d.free == []
    ensures OnCourse(c, m, a, d, root, t, if r == Some(LedgerFull) then 1 else 0,
                     Forecast(After(f.state, op, p), f.need + p.need))
    ensures r == Outcome(a, Plan(f.need + p.need, p.end, []))
  {
    hide Since;
    VerdictAfter(a, b, f.need, p.need);
    if Verdict(b, p.need) == None && s.marks.Some? {
      SinceThen(m, Kroot(c), b.mem, d.mem, root, f.state.marks.value, p.marks);
    }
  }

  /** Seen from the kernel's memory as it was: its tables have not moved since. */
  lemma PerformedFrom(c: Config, k: map<nat, nat>, m: Mem, b: Books, d: Books, root: nat,
                      s: State, t: State, op: Op, r: Option<AsError>)
    requires Source(m, k) && SameKernel(k, m, b.mem) && (c.kernelRoot.Some? ==> Kroot(c) in k && k[Kroot(c)] == 1)
    requires c.kernelRoot.None? && s.marks.None? ==> t.marks.None?
    requires Performed(c, b.mem, b, d, root, s, t, op, Asked(c, PreparePlan(c, b.mem), b.mem, root, s, op), r)
    ensures Performed(c, m, b, d, root, s, t, op, Asked(c, PreparePlan(c, m), b.mem, root, s, op), r)
  {
    hide Costs, AsPlanned, Asked, PreparePlan, SameWalks;
    PrepareFrame(c, m, b.mem, k);
    if s.marks.None? && t.marks.Some? {
      SameKernelSince(k, m, b.mem, Kroot(c));
    }
  }

  lemma NoFrames(s: seq<nat>)
    ensures SetOf(s) == {} ==> s == []
  {
    assert s == [] || s[0] in SetOf(s);
  }

  /** An empty pool stays empty: nothing goes back before teardown. */
  lemma DryStays(b: Books, d: Books, pool: set<nat>, root: nat)
    requires Sound(b, pool, root) && Sound(d, pool, root) && Grows(b, d) && b.free == []
    ensures d.free == []
  {
    assert SetOf(b.free) == {};
    NoFrames(d.free);
    assert SetOf(d.free) == {};
  }
}

/** The steps of the deep clone, as changes to a space's books. */
module TableClone {
  import opened Wrappers
  import opened PageTables
  import opened FrameBooks
  import opened FramePlan

  /** Frames already in use keep their content, the table being written aside. */
  predicate KeepsUsed(a: Books, b: Books, dst: nat)
  {
    forall g :: g in a.inUse && g in a.mem && g != dst ==> g in b.mem && b.mem[g] == a.mem[g]
  }

  /** Half way through cloning `src` into `dst`, begun at books `a`: `i` entries done. */
  ghost predicate Cloning(a: Books, b: Books, pool: set<nat>, root: nat, src: nat, dst: nat, level: nat, i: nat)
  {
    && 1 <= level <= LAST
    && Sound(b, pool, root) && Grows(a, b) && b.leaked == a.leaked
    && KeepsUsed(a, b, dst)
    && dst in a.home && dst in b.home && LevelOf(b.home, dst) == level
    && ClonedTo(a.mem, src, b.mem, dst, level, i)
  }

  /** The source tree lies outside the pool, so nothing a space does reaches it. */
  predicate Kernel(m: Mem, k: map<nat, nat>, pool: set<nat>)
  {
    Source(m, k) && k.Keys !! pool
  }

  lemma KernelKept(a: Books, b: Books, pool: set<nat>, root: nat, k: map<nat, nat>)
    requires Kernel(a.mem, k, pool) && Grows(a, b) && Sound(b, pool, root)
    ensures Kernel(b.mem, k, pool)
    ensures forall g :: g in k ==> b.mem[g] == a.mem[g]
  {
    assert forall g :: g in k ==> g in a.mem && g !in SetOf(b.owned);
  }

  lemma CloneStart(a: Books, pool: set<nat>, root: nat, src: nat, dst: nat)
    requires Sound(a, pool, root) && dst in a.home && IsTable(a.mem, src)
    ensures Cloning(a, a, pool, root, src, dst, LevelOf(a.home, dst), 0)
  {
    GrowsReflexive(a);
  }

  /** One more entry of `dst` written with a descriptor that means what the source's did. */
  lemma CloneEntry(a: Books, b: Books, pool: set<nat>, root: nat, src: nat, dst: nat, level: nat, i: nat, d: Desc)
    requires Cloning(a, b, pool, root, src, dst, level, i) && i < ENTRIES
    requires Cloned(a.mem, a.mem[src].entries[i], b.mem, d, level)
    requires d.Table? && level < LAST ==> d.frame in b.home && b.home[d.frame] == b.home[dst] + [i]
    ensures Cloning(a, b.(mem := Write(b.mem, dst, i, d)), pool, root, src, dst, level, i + 1)
  {
    hide SetOf, PoolSound;
    var after := Write(b.mem, dst, i, d);
    assert Consistent(after, b.home);
    RewriteSound(b, pool, root, b.home, after);
    WriteGrows(a, b, pool, root, dst, i, d);
    ClonedFrame(a.mem, src, b.mem, after, b.home, dst, i);
    var s := a.mem[src].entries[i];
    if s.Table? {
      var below := level + 1;
      forall p: Page
        ensures Lookup(after, d.frame, below, p) == Lookup(a.mem, s.frame, below, p)
      {
        LookupFrame(b.mem, after, b.home, d.frame, p);
      }
    }
  }

  lemma WriteGrows(a: Books, b: Books, pool: set<nat>, root: nat, t: nat, i: nat, d: Desc)
    requires Grows(a, b) && Sound(b, pool, root) && t in b.home && i < ENTRIES
    ensures Grows(a, b.(mem := Write(b.mem, t, i, d)))
  {
    assert t in SetOf(b.owned);
  }

  /** A frame just taken becomes an empty table hung under `dst` at `i`, not linked yet. */
  function Hung(b: Books, dst: nat, i: nat, z: nat): Books
    requires dst in b.home
  {
    b.(mem := b.mem[z := EmptyTable()], home := b.home[z := b.home[dst] + [i]])
  }

  lemma HungSound(b: Books, pool: set<nat>, root: nat, dst: nat, i: nat, z: nat)
    requires Sound(b, pool, root) && dst in b.home && |b.home[dst]| < LAST - 1 && i < ENTRIES
    requires z in SetOf(b.owned) && z !in b.home
    ensures Sound(Hung(b, dst, i, z), pool, root)
  {
    var c := Hung(b, dst, i, z);
    assert z in b.mem;
    assert Consistent(c.mem, c.home);
    RewriteSound(b, pool, root, c.home, c.mem);
  }

  /** Hanging a frame taken since `a` still grows out of `a`. */
  lemma HungGrows(a: Books, b: Books, pool: set<nat>, root: nat, dst: nat, i: nat, z: nat)
    requires Grows(a, b) && Sound(b, pool, root) && dst in b.home
    requires z in SetOf(b.owned) - SetOf(a.owned) && a.home.Keys <= SetOf(a.owned)
    ensures Grows(a, Hung(b, dst, i, z))
  {
    assert z in b.mem && z !in a.home;
  }

  /** Cloning a subtree into the hung frame leaves the entries already done as they were. */
  lemma CloneBelow(a: Books, b: Books, c: Books, pool: set<nat>, root: nat,
                   src: nat, dst: nat, level: nat, i: nat, z: nat)
    requires Cloning(a, b, pool, root, src, dst, level, i)
    requires Sound(c, pool, root) && Grows(b, c) && c.leaked == b.leaked
    requires z !in b.inUse && KeepsUsed(b, c, z)
    ensures Cloning(a, c, pool, root, src, dst, level, i)
  {
    hide PoolSound, SetOf, Grows, ClonedTo;
    GrowsTransitive(a, b, c);
    HomesInUse(b, pool, root);
    GrowsHomes(b, c);
    ClonedFrame(a.mem, src, b.mem, c.mem, b.home, dst, i);
    GrowsUse(a, b);
  }

  lemma HomesInUse(b: Books, pool: set<nat>, root: nat)
    requires Sound(b, pool, root)
    ensures forall g :: g in b.home ==> g in b.inUse && g in b.mem
  {
  }

  lemma GrowsHomes(a: Books, b: Books)
    requires Grows(a, b)
    ensures forall f :: f in a.home ==> f in b.home && b.home[f] == a.home[f]
  {
  }

  lemma GrowsUse(a: Books, b: Books)
    requires Grows(a, b)
    ensures forall g :: g in a.inUse && g in a.mem ==> g in b.inUse && g in b.mem
  {
  }

  /** A frame just taken is new to the space and was in nobody's use. */
  lemma TakenIsNew(b: Books, c: Books, pool: set<nat>, root: nat, z: nat)
    requires Sound(b, pool, root) && Sound(c, pool, root) && c.owned == b.owned + [z] && z !in b.inUse
    requires c.home == b.home
    ensures z in SetOf(c.owned) - SetOf(b.owned) && z !in c.home
  {
  }

  /** Walks of a subtree cloned now are walks of the kernel as it was at the start. */
  lemma SameKernelWalks(a: Books, d: Books, k: map<nat, nat>, child: nat, m: Mem, z: nat)
    requires Source(a.mem, k) && child in k
    requires forall g :: g in k ==> g in d.mem && d.mem[g] == a.mem[g]
    requires SameWalks(d.mem, child, m, z, k[child])
    ensures SameWalks(a.mem, child, m, z, k[child])
  {
    forall p: Page
      ensures Lookup(m, z, k[child], p) == Lookup(a.mem, child, k[child], p)
    {
      SourceFrame(a.mem, d.mem, k, child, p);
    }
  }

  /** Hanging `z` and then filling it keeps everything that was in use before. */
  lemma KeptThrough(a: Books, b: Books, d: Books, e: Books, dst: nat, z: nat)
    requires Grows(a, b) && Grows(b, d) && KeepsUsed(a, b, dst) && KeepsUsed(d, e, z)
    requires z !in b.inUse && d.mem == b.mem[z := EmptyTable()]
    ensures KeepsUsed(b, e, z) && KeepsUsed(a, e, dst)
  {
  }

  /** A clone given up part way: the books are still sound and nothing in use changed but `dst`. */
  predicate Abandoned(a: Books, b: Books, pool: set<nat>, root: nat, dst: nat, error: AsError)
  {
    Sound(b, pool, root) && Grows(a, b) && KeepsUsed(a, b, dst) && LeakRule(a, b, Some(error))
  }

  /** A clone carried through: every page walks through `dst` as it did through `src`. */
  ghost predicate Filled(a: Books, b: Books, pool: set<nat>, root: nat, src: nat, dst: nat, level: nat)
  {
    && 1 <= level <= LAST
    && Sound(b, pool, root) && Grows(a, b) && b.leaked == a.leaked && KeepsUsed(a, b, dst)
    && SameWalks(a.mem, src, b.mem, dst, level)
  }

  lemma CloneDone(a: Books, b: Books, pool: set<nat>, root: nat, src: nat, dst: nat, level: nat)
    requires Cloning(a, b, pool, root, src, dst, level, ENTRIES)
    ensures Filled(a, b, pool, root, src, dst, level)
  {
    ClonedWalks(a.mem, src, b.mem, dst, level);
  }

  lemma AbandonedNow(a: Books, b: Books, d: Books, pool: set<nat>, root: nat, dst: nat, error: AsError)
    requires Grows(a, b) && KeepsUsed(a, b, dst) && b.leaked == a.leaked
    requires Sound(d, pool, root) && Grows(b, d) && LeakRule(b, d, Some(error)) && d.mem == b.mem
    ensures Abandoned(a, d, pool, root, dst, error)
  {
    GrowsTransitive(a, b, d);
  }

  /** Entry `i` of the clone is a source table `child`; `z` hangs in its place, empty and unlinked. */
  ghost predicate Hanging(a: Books, b: Books, d: Books, pool: set<nat>, root: nat,
                          src: nat, dst: nat, level: nat, i: nat, child: nat, k: map<nat, nat>, z: nat)
  {
    && Cloning(a, b, pool, root, src, dst, level, i) && i < ENTRIES && level < LAST
    && Kernel(a.mem, k, pool) && src in k && k[src] == level && a.mem[src].entries[i] == Table(child)
    && Sound(d, pool, root) && Grows(b, d) && d.leaked == b.leaked
    && z !in b.inUse && d.mem == b.mem[z := EmptyTable()] && d.home == b.home[z := b.home[dst] + [i]]
  }

  lemma HangingReady(a: Books, b: Books, d: Books, pool: set<nat>, root: nat,
                     src: nat, dst: nat, level: nat, i: nat, child: nat, k: map<nat, nat>, z: nat)
    requires Hanging(a, b, d, pool, root, src, dst, level, i, child, k, z)
    ensures Kernel(d.mem, k, pool) && child in k && k[child] == level + 1
    ensures forall g :: g in k ==> g in d.mem && d.mem[g] == a.mem[g]
    ensures z in d.home && LevelOf(d.home, z) == level + 1
  {
    KernelKept(a, b, pool, root, k);
    KernelKept(b, d, pool, root, k);
  }

  lemma AbandonedBelow(a: Books, b: Books, d: Books, e: Books, pool: set<nat>, root: nat,
                       src: nat, dst: nat, level: nat, i: nat, child: nat, k: map<nat, nat>, z: nat, error: AsError)
    requires Hanging(a, b, d, pool, root, src, dst, level, i, child, k, z)
    requires Abandoned(d, e, pool, root, z, error)
    ensures Abandoned(a, e, pool, root, dst, error)
  {
    hide PoolSound, SetOf;
    GrowsTransitive(b, d, e);
    GrowsTransitive(a, b, e);
    KeptThrough(a, b, d, e, dst, z);
  }

  /** The filled table is linked: one more entry of the clone is done. */
  lemma CloneLink(a: Books, b: Books, d: Books, e: Books, pool: set<nat>, root: nat,
                  src: nat, dst: nat, level: nat, i: nat, child: nat, k: map<nat, nat>, z: nat)
    requires Hanging(a, b, d, pool, root, src, dst, level, i, child, k, z)
    requires Filled(d, e, pool, root, child, z, level + 1)
    ensures IsTable(e.mem, dst)
    ensures Cloning(a, e.(mem := Write(e.mem, dst, i, Table(z))), pool, root, src, dst, level, i + 1)
  {
    hide PoolSound, SetOf;
    HangingReady(a, b, d, pool, root, src, dst, level, i, child, k, z);
    GrowsTransitive(b, d, e);
    KeptThrough(a, b, d, e, dst, z);
    CloneBelow(a, b, e, pool, root, src, dst, level, i, z);
    SameKernelWalks(a, d, k, child, e.mem, z);
    CloneEntry(a, e, pool, root, src, dst, level, i, Table(z));
  }

  // ---- Frames spent on the way ----

  /** The first `i` entries of `src` have been paid for, and none of them ends the clone. */
  predicate Paid(a: Books, b: Books, src: nat, level: nat, i: nat)
  {
    && 1 <= level <= LAST && IsTable(a.mem, src) && i <= ENTRIES
    && var p := EntriesPlan(a.mem, a.mem[src].entries[..i], level);
       p.end.None? && Spent(a, b, p.need)
  }

  lemma PaidStart(a: Books, src: nat, level: nat)
    requires 1 <= level <= LAST && IsTable(a.mem, src)
    ensures Paid(a, a, src, level, 0)
  {
  }

  lemma PaidNext(a: Books, b: Books, c: Books, src: nat, level: nat, i: nat)
    requires Paid(a, b, src, level, i) && i < ENTRIES
    requires EntryPlan(a.mem, a.mem[src].entries[i], level).end.None?
    requires Spent(b, c, EntryPlan(a.mem, a.mem[src].entries[i], level).need)
    ensures Paid(a, c, src, level, i + 1)
  {
    hide EntryPlan;
    EntriesNext(a.mem, a.mem[src].entries, level, i);
  }

  /** The entry that fails is where the whole clone fails. */
  lemma PaidStops(a: Books, b: Books, c: Books, src: nat, level: nat, i: nat, e: AsError)
    requires Paid(a, b, src, level, i) && i < ENTRIES && |a.owned| <= MAX_AS_FRAMES
    requires Costs(b, c, EntryPlan(a.mem, a.mem[src].entries[i], level), Some(e))
    ensures Costs(a, c, TablePlan(a.mem, src, level), Some(e))
  {
    hide EntryPlan, EntriesPlan, Costs;
    var es := a.mem[src].entries;
    EntriesNext(a.mem, es, level, i);
    CostsThen(a, b, c, EntriesPlan(a.mem, es[..i], level), EntryPlan(a.mem, es[i], level), Some(e));
    EntriesStop(a, c, a.mem, es, level, i + 1, e);
  }

  lemma PaidDone(a: Books, b: Books, src: nat, level: nat)
    requires Paid(a, b, src, level, ENTRIES) && |a.owned| <= MAX_AS_FRAMES && |b.owned| <= MAX_AS_FRAMES
    ensures Costs(a, b, TablePlan(a.mem, src, level), None)
  {
    hide EntriesPlan;
    assert a.mem[src].entries[..ENTRIES] == a.mem[src].entries;
    VerdictAfter(a, b, TablePlan(a.mem, src, level).need, 0);
  }

  /** A descriptor a clone gives up on, before taking any frame. */
  lemma Refuses(b: Books, m: Mem, d: Desc, level: nat)
    requires 1 <= level <= LAST && |b.owned| <= MAX_AS_FRAMES && (d.Reserved? || (d.Table? && level == LAST))
    ensures Costs(b, b, EntryPlan(m, d, level), Some(BadTable))
  {
  }

  /** A child that cannot be hung fails its entry... */
  lemma ChildUnhung(b: Books, c: Books, m: Mem, child: nat, level: nat, e: AsError)
    requires 1 <= level < LAST && |b.owned| <= MAX_AS_FRAMES && Verdict(b, 1) == Some(e)
    ensures Costs(b, c, EntryPlan(m, Table(child), level), Some(e))
  {
    hide TablePlan;
    VerdictMore(b, 1, EntryPlan(m, Table(child), level).need);
  }

  /** ...and one that is hung costs its frame and what lies below. */
  lemma ChildCosts(a: Books, b: Books, d: Books, e: Books, k: map<nat, nat>, child: nat, level: nat, r: Option<AsError>)
    requires 1 <= level < LAST && |b.owned| <= MAX_AS_FRAMES && Spent(b, d, 1)
    requires Source(a.mem, k) && child in k && k[child] == level + 1 && forall g :: g in k ==> g in d.mem && d.mem[g] == a.mem[g]
    requires Costs(d, e, TablePlan(d.mem, child, level + 1), r)
    ensures Costs(b, e, EntryPlan(a.mem, Table(child), level), r)
  {
    hide TablePlan, Costs;
    PlanFrame(a.mem, d.mem, k, child);
    CostsThen(b, d, e, Plan(1, None, []), TablePlan(a.mem, child, level + 1), r);
  }

  /** Writing memory costs nothing. */
  lemma CostsSame(a: Books, b: Books, c: Books, p: Plan, r: Option<AsError>)
    requires Costs(a, b, p, r) && c == b.(mem := c.mem)
    ensures Costs(a, c, p, r)
  {
  }

  lemma FilledSettled(a: Books, b: Books, pool: set<nat>, root: nat, src: nat, dst: nat, level: nat)
    requires Filled(a, b, pool, root, src, dst, level)
    ensures Settled(a, b, pool, root, None) && Sound(b, pool, root) && SameWalks(a.mem, src, b.mem, dst, level)
  {
  }

  lemma AbandonedSettled(a: Books, b: Books, pool: set<nat>, root: nat, dst: nat, e: AsError)
    requires Abandoned(a, b, pool, root, dst, e)
    ensures Settled(a, b, pool, root, Some(e))
  {
  }

  lemma CostsEnd(a: Books, b: Books, p: Plan)
    requires Costs(a, b, p, None)
    ensures p.end.None? && Spent(a, b, p.need)
  {
  }
}

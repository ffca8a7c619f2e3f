/**
 * What an operation will take from the frame pool, worked out before it starts: how many frames in
 * order, how it ends if they suffice, and which walks have their tables afterwards.
 */
module FramePlan {
  import opened Wrappers
  import opened PageTables
  import opened FrameBooks

  // ---- Frames against the pool and the ledger ----

  function Room(b: Books): nat
    requires |b.owned| <= MAX_AS_FRAMES
  {
    MAX_AS_FRAMES - |b.owned|
  }

  /** Taking `n` frames one by one, with `free` in the pool and room for `room`: the pool is asked first. */
  function Short(free: nat, room: nat, n: nat): Option<AsError>
  {
    if n <= free && n <= room then None else if free <= room then Some(OutOfFrames) else Some(LedgerFull)
  }

  function Verdict(b: Books, n: nat): Option<AsError>
    requires |b.owned| <= MAX_AS_FRAMES
  {
    Short(|b.free|, Room(b), n)
  }

  /** `n` frames went from the pool into the ledger. */
  predicate Spent(a: Books, b: Books, n: nat)
  {
    |b.owned| == |a.owned| + n && |a.free| == |b.free| + n && b.leaked == a.leaked
  }

  /** A page whose tables now stand, and whether its own entry is taken. */
  datatype Mark = Mark(page: Page, taken: bool)

  /** Frames needed, how it ends once they are there, and the marks it leaves. */
  datatype Plan = Plan(need: nat, end: Option<AsError>, marks: seq<Mark>)

  /** The ends that are about frames, and so never a plan's own. */
  predicate Shortage(e: Option<AsError>)
  {
    e == Some(OutOfFrames) || e == Some(LedgerFull)
  }

  const NOTHING: Plan := Plan(0, None, [])

  function Then(p: Plan, q: Plan): Plan
  {
    if p.end.Some? then p else Plan(p.need + q.need, q.end, p.marks + q.marks)
  }

  /** How a plan ends from books `b`. */
  function Outcome(b: Books, p: Plan): Option<AsError>
    requires |b.owned| <= MAX_AS_FRAMES
  {
    if Verdict(b, p.need).Some? then Verdict(b, p.need) else p.end
  }

  /** The first part done, the whole ends as the second part does from there. */
  lemma OutcomeThen(a: Books, b: Books, p: Plan, q: Plan)
    requires |a.owned| <= MAX_AS_FRAMES && |b.owned| <= MAX_AS_FRAMES && p.end.None? && Spent(a, b, p.need)
    ensures Outcome(a, Then(p, q)) == Outcome(b, q)
  {
  }

  /** The first part failed, the whole fails with it. */
  lemma OutcomeStops(a: Books, p: Plan, q: Plan)
    requires |a.owned| <= MAX_AS_FRAMES && Outcome(a, p).Some?
    ensures Outcome(a, Then(p, q)) == Outcome(a, p)
  {
  }

  /** A shortage of one frame is a shortage of more. */
  lemma VerdictMore(b: Books, n: nat, k: nat)
    requires |b.owned| <= MAX_AS_FRAMES && Verdict(b, n).Some? && n <= k
    ensures Verdict(b, k) == Verdict(b, n)
  {
  }

  lemma VerdictAfter(a: Books, b: Books, n: nat, k: nat)
    requires |a.owned| <= MAX_AS_FRAMES && |b.owned| <= MAX_AS_FRAMES && Spent(a, b, n)
    ensures Verdict(a, n + k) == Verdict(b, k)
  {
  }

  /** It ended as planned, and if the frames sufficed exactly the planned ones were taken. */
  predicate Costs(a: Books, b: Books, p: Plan, r: Option<AsError>)
  {
    |a.owned| <= MAX_AS_FRAMES && r == Outcome(a, p) && (Verdict(a, p.need) == None ==> Spent(a, b, p.need))
  }

  /** A first part that sufficed, and a second part that cost what it was to. */
  lemma CostsThen(a: Books, b: Books, c: Books, p: Plan, q: Plan, r: Option<AsError>)
    requires |a.owned| <= MAX_AS_FRAMES && p.end.None? && Spent(a, b, p.need) && Costs(b, c, q, r)
    ensures Costs(a, c, Then(p, q), r)
  {
    OutcomeThen(a, b, p, q);
    VerdictAfter(a, b, p.need, q.need);
  }

  /** A first part that failed, and nothing after it. */
  lemma CostsStops(a: Books, b: Books, p: Plan, q: Plan, e: AsError)
    requires Costs(a, b, p, Some(e))
    ensures Costs(a, b, Then(p, q), Some(e))
  {
    OutcomeStops(a, p, q);
    if Verdict(a, p.need).Some? { VerdictMore(a, p.need, Then(p, q).need); }
  }

  // ---- Mapping pages ----

  /** Tables missing on the way to an empty entry; `None` if the entry is not empty or not reachable. */
  function Gap(w: Walk): Option<nat>
  {
    if w.Hole? then Some(w.missing) else None
  }

  /** The gap of `q` once the marked page has its tables. */
  function GapPast(g: Option<nat>, k: Mark, q: Page): Option<nat>
  {
    if k.taken && k.page == q then None
    else if g.Some? && g.value > LAST - 1 - Share(k.page, q) then Some(LAST - 1 - Share(k.page, q)) else g
  }

  function GapSince(g: Option<nat>, marks: seq<Mark>, q: Page): Option<nat>
  {
    if marks == [] then g else GapPast(GapSince(g, marks[..|marks| - 1], q), marks[|marks| - 1], q)
  }

  lemma {:induction false} GapSinceAppend(g: Option<nat>, k: seq<Mark>, l: seq<Mark>, q: Page)
    ensures GapSince(g, k + l, q) == GapSince(GapSince(g, k, q), l, q)
    decreases |l|
  {
    if l == [] {
      assert k + l == k;
    } else {
      var n := |l| - 1;
      GapSinceAppend(g, k, l[..n], q);
      assert (k + l)[..|k + l| - 1] == k + l[..n];
    }
  }

  /** From memory `m` and root `f`, the marks are what happened since: every gap of `n`'s root is accounted for. */
  ghost predicate Since(m: Mem, f: nat, n: Mem, root: nat, marks: seq<Mark>)
  {
    forall q: Page :: Gap(Lookup(n, root, 1, q)) == GapSince(Gap(Lookup(m, f, 1, q)), marks, q)
  }

  lemma SinceThen(m: Mem, f: nat, n: Mem, o: Mem, root: nat, k: seq<Mark>, l: seq<Mark>)
    requires Since(m, f, n, root, k) && Since(n, root, o, root, l)
    ensures Since(m, f, o, root, k + l)
  {
    forall q: Page
      ensures Gap(Lookup(o, root, 1, q)) == GapSince(Gap(Lookup(m, f, 1, q)), k + l, q)
    {
      GapSinceAppend(Gap(Lookup(m, f, 1, q)), k, l, q);
    }
  }

  /** One page asked for: frames taken before the walk, a refusal before anything, whether the leaf can be encoded. */
  datatype Item = Item(page: Page, before: nat, refusal: Option<AsError>, encodes: bool)

  function ItemPlan(g: Option<nat>, i: Item): Plan
  {
    if i.refusal.Some? then Plan(0, i.refusal, [])
    else match g
         case None => Plan(i.before, Some(BadTable), [])
         case Some(k) => Plan(i.before + k, if i.encodes then None else Some(BadTable), [Mark(i.page, i.encodes)])
  }

  /** Pages one after the other, from the gaps of root `f` in `m` and the marks since. */
  function ItemsPlan(m: Mem, f: nat, marks: seq<Mark>, items: seq<Item>): Plan
  {
    if items == [] then NOTHING
    else var n := |items| - 1;
         var p := ItemsPlan(m, f, marks, items[..n]);
         var i := items[n];
         Then(p, ItemPlan(GapSince(Gap(Lookup(m, f, 1, i.page)), marks + p.marks, i.page), i))
  }

  lemma {:induction false} ItemsEnd(m: Mem, f: nat, marks: seq<Mark>, items: seq<Item>)
    requires forall i :: 0 <= i < |items| ==> !Shortage(items[i].refusal)
    ensures !Shortage(ItemsPlan(m, f, marks, items).end)
    decreases |items|
  {
    hide GapSince, Lookup;
    if items != [] { ItemsEnd(m, f, marks, items[..|items| - 1]); }
  }

  /** Pages that none is refused beforehand can only meet something in the way. */
  lemma {:induction false} ItemsBlocked(m: Mem, f: nat, marks: seq<Mark>, items: seq<Item>)
    requires forall i :: 0 <= i < |items| ==> items[i].refusal.None?
    ensures ItemsPlan(m, f, marks, items).end in {None, Some(BadTable)}
    decreases |items|
  {
    hide GapSince, Lookup;
    if items != [] { ItemsBlocked(m, f, marks, items[..|items| - 1]); }
  }

  lemma ItemsNext(m: Mem, f: nat, marks: seq<Mark>, items: seq<Item>, n: nat)
    requires n < |items|
    ensures ItemsPlan(m, f, marks, items[..n + 1]) ==
            var p := ItemsPlan(m, f, marks, items[..n]);
            Then(p, ItemPlan(GapSince(Gap(Lookup(m, f, 1, items[n].page)), marks + p.marks, items[n].page), items[n]))
  {
    assert items[..n + 1][..n] == items[..n];
  }

  /** The plan only depends on the gaps. */
  lemma {:induction false} ItemsSince(m: Mem, f: nat, k: seq<Mark>, n: Mem, root: nat, items: seq<Item>)
    requires Since(m, f, n, root, k)
    ensures ItemsPlan(n, root, [], items) == ItemsPlan(m, f, k, items)
    decreases |items|
  {
    hide ItemPlan, Since;
    if items != [] {
      var j := |items| - 1;
      ItemsSince(m, f, k, n, root, items[..j]);
      var p, q := ItemsPlan(n, root, [], items[..j]), items[j].page;
      SinceAt(m, f, n, root, k, q);
      GapSinceAppend(Gap(Lookup(m, f, 1, q)), k, p.marks, q);
      assert [] + p.marks == p.marks;
    }
  }

  lemma SinceAt(m: Mem, f: nat, n: Mem, root: nat, marks: seq<Mark>, q: Page)
    requires Since(m, f, n, root, marks)
    ensures Gap(Lookup(n, root, 1, q)) == GapSince(Gap(Lookup(m, f, 1, q)), marks, q)
  {
  }

  /** What the plan promised has happened: the frames are spent, and its marks are all that is new. */
  ghost predicate Follows(a: Books, b: Books, root: nat, p: Plan)
  {
    Spent(a, b, p.need) && Since(a.mem, root, b.mem, root, p.marks)
  }

  /** It ended as planned; if the frames sufficed, exactly the planned ones went and the marks are all that is new. */
  ghost predicate AsPlanned(a: Books, b: Books, root: nat, p: Plan, r: Option<AsError>)
  {
    |a.owned| <= MAX_AS_FRAMES && r == Outcome(a, p) && (Verdict(a, p.need) == None ==> Follows(a, b, root, p))
  }

  lemma PlannedThen(a: Books, b: Books, c: Books, root: nat, p: Plan, q: Plan, r: Option<AsError>)
    requires |a.owned| <= MAX_AS_FRAMES && p.end.None? && Follows(a, b, root, p) && AsPlanned(b, c, root, q, r)
    ensures AsPlanned(a, c, root, Then(p, q), r)
  {
    hide Since;
    CostsThen(a, b, c, p, q, r);
    VerdictAfter(a, b, p.need, q.need);
    if Verdict(b, q.need) == None {
      SinceThen(a.mem, root, b.mem, c.mem, root, p.marks, q.marks);
    }
  }

  lemma PlannedStops(a: Books, b: Books, root: nat, p: Plan, q: Plan, e: AsError)
    requires AsPlanned(a, b, root, p, Some(e))
    ensures AsPlanned(a, b, root, Then(p, q), Some(e))
  {
    hide Since;
    CostsStops(a, b, p, q, e);
    if Verdict(a, p.need).Some? { VerdictMore(a, p.need, Then(p, q).need); }
  }

  /** The first `i` items are done, begun at books `a`. */
  ghost predicate Underway(a: Books, b: Books, root: nat, items: seq<Item>, i: nat)
  {
    i <= |items| && |a.owned| <= MAX_AS_FRAMES && |b.owned| <= MAX_AS_FRAMES
    && var p := ItemsPlan(a.mem, root, [], items[..i]);
       p.end.None? && Follows(a, b, root, p)
  }

  lemma UnderwayStart(a: Books, root: nat, items: seq<Item>)
    requires |a.owned| <= MAX_AS_FRAMES
    ensures Underway(a, a, root, items, 0)
  {
  }

  function NextPlan(b: Books, root: nat, items: seq<Item>, i: nat): Plan
    requires i < |items|
  {
    ItemPlan(Gap(Lookup(b.mem, root, 1, items[i].page)), items[i])
  }

  /** The plan of one more item is the plan so far, then the item's own from where things stand. */
  lemma UnderwayNext(a: Books, b: Books, root: nat, items: seq<Item>, i: nat)
    requires Underway(a, b, root, items, i) && i < |items|
    ensures ItemsPlan(a.mem, root, [], items[..i + 1]) ==
            Then(ItemsPlan(a.mem, root, [], items[..i]), NextPlan(b, root, items, i))
  {
    hide Since, ItemPlan;
    var p := ItemsPlan(a.mem, root, [], items[..i]);
    ItemsNext(a.mem, root, [], items, i);
    SinceAt(a.mem, root, b.mem, root, p.marks, items[i].page);
    assert [] + p.marks == p.marks;
  }

  /** One more item done... */
  lemma UnderwayStep(a: Books, b: Books, c: Books, root: nat, items: seq<Item>, i: nat)
    requires Underway(a, b, root, items, i) && i < |items| && |c.owned| <= MAX_AS_FRAMES
    requires AsPlanned(b, c, root, NextPlan(b, root, items, i), None)
    ensures Underway(a, c, root, items, i + 1)
  {
    hide Since, ItemPlan, ItemsPlan;
    UnderwayNext(a, b, root, items, i);
    PlannedThen(a, b, c, root, ItemsPlan(a.mem, root, [], items[..i]), NextPlan(b, root, items, i), None);
    assert Verdict(b, NextPlan(b, root, items, i).need) == None;
    VerdictAfter(a, b, ItemsPlan(a.mem, root, [], items[..i]).need, NextPlan(b, root, items, i).need);
  }

  /** ...or the item that ends the run, at its place and for its reason. */
  lemma UnderwayEnds(a: Books, b: Books, c: Books, root: nat, items: seq<Item>, i: nat, e: AsError)
    requires Underway(a, b, root, items, i) && i < |items|
    requires AsPlanned(b, c, root, NextPlan(b, root, items, i), Some(e))
    ensures AsPlanned(a, c, root, ItemsPlan(a.mem, root, [], items), Some(e)) && StopsAt(a, root, items, i)
  {
    hide Since, ItemPlan, AsPlanned, ItemsPlan, Outcome, Verdict;
    UnderwayNext(a, b, root, items, i);
    UnderwayOutcome(a, b, root, items, i);
    PlannedThen(a, b, c, root, ItemsPlan(a.mem, root, [], items[..i]), NextPlan(b, root, items, i), Some(e));
    StopsPlanned(a, c, root, items, i + 1, e);
  }

  lemma UnderwayOutcome(a: Books, b: Books, root: nat, items: seq<Item>, i: nat)
    requires Underway(a, b, root, items, i)
    ensures Outcome(a, ItemsPlan(a.mem, root, [], items[..i])) == None
  {
    hide Since, ItemsPlan;
    VerdictAfter(a, b, ItemsPlan(a.mem, root, [], items[..i]).need, 0);
  }

  lemma StopsPlanned(a: Books, c: Books, root: nat, items: seq<Item>, n: nat, e: AsError)
    requires n <= |items| && AsPlanned(a, c, root, ItemsPlan(a.mem, root, [], items[..n]), Some(e))
    ensures Outcome(a, ItemsPlan(a.mem, root, [], items[..n])) == Some(e)
    ensures AsPlanned(a, c, root, ItemsPlan(a.mem, root, [], items), Some(e))
    decreases |items|
  {
    hide Since, ItemPlan, Outcome, Verdict;
    if n < |items| {
      var k := |items| - 1;
      assert items[..k][..n] == items[..n];
      StopsPlanned(a, c, root, items[..k], n, e);
      var p := ItemsPlan(a.mem, root, [], items[..k]);
      var g := GapSince(Gap(Lookup(a.mem, root, 1, items[k].page)), [] + p.marks, items[k].page);
      PlannedStops(a, c, root, p, ItemPlan(g, items[k]), e);
    } else {
      assert items[..n] == items;
    }
  }

  /** The first `n` items succeed, and the next, if there is one, does not. */
  ghost predicate StopsAt(a: Books, root: nat, items: seq<Item>, n: nat)
  {
    && n <= |items| && |a.owned| <= MAX_AS_FRAMES
    && Outcome(a, ItemsPlan(a.mem, root, [], items[..n])) == None
    && (n < |items| ==> Outcome(a, ItemsPlan(a.mem, root, [], items[..n + 1])).Some?)
  }

  /** A run that got to its end did all of it. */
  lemma UnderwayDone(a: Books, b: Books, root: nat, items: seq<Item>)
    requires Underway(a, b, root, items, |items|)
    ensures AsPlanned(a, b, root, ItemsPlan(a.mem, root, [], items), None) && StopsAt(a, root, items, |items|)
  {
    hide Since, ItemsPlan;
    assert items[..|items|] == items;
    UnderwayOutcome(a, b, root, items, |items|);
  }

  // ---- Cloning tables ----

  /** One entry of a clone: a table costs a frame and then its own entries. */
  function EntryPlan(m: Mem, d: Desc, level: nat): Plan
    requires 1 <= level <= LAST
    decreases LAST - level, 0, 0
  {
    match d
    case Invalid => NOTHING
    case Leaf(_, _, _) => NOTHING
    case Reserved => Plan(0, Some(BadTable), [])
    case Table(c) =>
      if level == LAST then Plan(0, Some(BadTable), []) else Then(Plan(1, None, []), TablePlan(m, c, level + 1))
  }

  function EntriesPlan(m: Mem, es: seq<Desc>, level: nat): Plan
    requires 1 <= level <= LAST
    decreases LAST - level, 1, |es|
  {
    if es == [] then NOTHING
    else Then(EntriesPlan(m, es[..|es| - 1], level), EntryPlan(m, es[|es| - 1], level))
  }

  function TablePlan(m: Mem, f: nat, level: nat): Plan
    requires 1 <= level <= LAST
    decreases LAST - level, 2, 0
  {
    if IsTable(m, f) then EntriesPlan(m, m[f].entries, level) else NOTHING
  }

  lemma EntriesNext(m: Mem, es: seq<Desc>, level: nat, i: nat)
    requires 1 <= level <= LAST && i < |es|
    ensures EntriesPlan(m, es[..i + 1], level) == Then(EntriesPlan(m, es[..i], level), EntryPlan(m, es[i], level))
  {
    assert es[..i + 1][..i] == es[..i];
  }

  /** An entry that ends the clone ends it for whatever comes after. */
  lemma {:induction false} EntriesStop(a: Books, c: Books, m: Mem, es: seq<Desc>, level: nat, n: nat, e: AsError)
    requires 1 <= level <= LAST && n <= |es| && Costs(a, c, EntriesPlan(m, es[..n], level), Some(e))
    ensures Costs(a, c, EntriesPlan(m, es, level), Some(e))
    decreases |es|
  {
    hide Costs, EntryPlan;
    if n < |es| {
      var k := |es| - 1;
      assert es[..k][..n] == es[..n];
      EntriesStop(a, c, m, es[..k], level, n, e);
      CostsStops(a, c, EntriesPlan(m, es[..k], level), EntryPlan(m, es[k], level), e);
    } else {
      assert es[..n] == es;
    }
  }

  /** A clone leaves no marks: its plan is only frames and an end, and the end is never about frames. */
  lemma {:induction false} EntriesMarks(m: Mem, es: seq<Desc>, level: nat)
    requires 1 <= level <= LAST
    ensures EntriesPlan(m, es, level).marks == [] && !Shortage(EntriesPlan(m, es, level).end)
    decreases LAST - level, |es|
  {
    hide EntryPlan, TablePlan;
    if es != [] {
      var k := |es| - 1;
      EntriesMarks(m, es[..k], level);
      if es[k].Table? && level < LAST && IsTable(m, es[k].frame) {
        EntriesMarks(m, m[es[k].frame].entries, level + 1);
      }
      EntryMarks(m, es[k], level);
      EntriesNext(m, es, level, k);
      assert es[..k + 1] == es;
    }
  }

  lemma EntryMarks(m: Mem, d: Desc, level: nat)
    requires 1 <= level <= LAST
    requires d.Table? && level < LAST && IsTable(m, d.frame) ==>
               var p := EntriesPlan(m, m[d.frame].entries, level + 1); p.marks == [] && !Shortage(p.end)
    ensures EntryPlan(m, d, level).marks == [] && !Shortage(EntryPlan(m, d, level).end)
  {
    hide EntriesPlan;
  }

  /** The plan of a tree depends on nothing but its tables. */
  lemma {:induction false} EntriesFrame(m: Mem, n: Mem, k: map<nat, nat>, es: seq<Desc>, level: nat)
    requires Source(m, k) && 1 <= level <= LAST && forall g :: g in k ==> g in n && n[g] == m[g]
    requires level < LAST ==> forall i :: 0 <= i < |es| && es[i].Table? ==> es[i].frame in k && k[es[i].frame] == level + 1
    ensures EntriesPlan(n, es, level) == EntriesPlan(m, es, level)
    decreases LAST - level, |es|
  {
    if es != [] {
      var i := |es| - 1;
      EntriesFrame(m, n, k, es[..i], level);
      if es[i].Table? && level < LAST {
        EntriesFrame(m, n, k, m[es[i].frame].entries, level + 1);
        assert TablePlan(n, es[i].frame, level + 1) == TablePlan(m, es[i].frame, level + 1);
      }
      assert EntryPlan(n, es[i], level) == EntryPlan(m, es[i], level);
    }
  }

  lemma PlanFrame(m: Mem, n: Mem, k: map<nat, nat>, f: nat)
    requires Source(m, k) && f in k && forall g :: g in k ==> g in n && n[g] == m[g]
    ensures TablePlan(n, f, k[f]) == TablePlan(m, f, k[f])
  {
    EntriesFrame(m, n, k, m[f].entries, k[f]);
  }

  /** No page's walk from table `f` ends at a descriptor that leads nowhere. */
  ghost predicate Unstuck(m: Mem, f: nat, level: nat)
    requires 1 <= level <= LAST
  {
    forall p: Page :: !Lookup(m, f, level, p).Stuck?
  }

  /** ...nor any through its entry `i`. */
  ghost predicate UnstuckAt(m: Mem, f: nat, level: nat, i: nat)
    requires 1 <= level <= LAST
  {
    forall p: Page :: p[level - 1] == i ==> !Lookup(m, f, level, p).Stuck?
  }

  /** Given the frames, a clone is refused exactly when some page's walk of the source gets stuck. */
  lemma {:induction false} CloneRefused(m: Mem, k: map<nat, nat>, f: nat)
    requires Source(m, k) && f in k
    ensures TablePlan(m, f, k[f]).end in {None, Some(BadTable)}
    ensures TablePlan(m, f, k[f]).end == None <==> Unstuck(m, f, k[f])
    decreases LAST - k[f]
  {
    hide EntriesPlan, EntryPlan, Unstuck, UnstuckAt;
    var es, level := m[f].entries, k[f];
    forall i | 0 <= i < ENTRIES
      ensures EntryPlan(m, es[i], level).end in {None, Some(BadTable)}
      ensures EntryPlan(m, es[i], level).end == None <==> UnstuckAt(m, f, level, i)
    {
      if es[i].Table? && level < LAST { CloneRefused(m, k, es[i].frame); }
      EntryRefused(m, k, f, i);
    }
    EntriesEnd(m, es, level, ENTRIES);
    assert es[..ENTRIES] == es;
    UnstuckByEntry(m, f, level);
  }

  lemma UnstuckByEntry(m: Mem, f: nat, level: nat)
    requires 1 <= level <= LAST
    ensures Unstuck(m, f, level) <==> forall i :: 0 <= i < ENTRIES ==> UnstuckAt(m, f, level, i)
  {
    hide Lookup;
    if forall i :: 0 <= i < ENTRIES ==> UnstuckAt(m, f, level, i) {
      forall p: Page
        ensures !Lookup(m, f, level, p).Stuck?
      {
        assert UnstuckAt(m, f, level, p[level - 1]);
      }
    }
  }

  lemma EntryRefused(m: Mem, k: map<nat, nat>, f: nat, i: nat)
    requires Source(m, k) && f in k && i < ENTRIES
    requires var d := m[f].entries[i];
             d.Table? && k[f] < LAST ==>
               && TablePlan(m, d.frame, k[f] + 1).end in {None, Some(BadTable)}
               && (TablePlan(m, d.frame, k[f] + 1).end == None <==> Unstuck(m, d.frame, k[f] + 1))
    ensures EntryPlan(m, m[f].entries[i], k[f]).end in {None, Some(BadTable)}
    ensures EntryPlan(m, m[f].entries[i], k[f]).end == None <==> UnstuckAt(m, f, k[f], i)
  {
    hide TablePlan, Unstuck;
    var d, level := m[f].entries[i], k[f];
    var q: Page := if level == 1 then [i, 0, 0] else if level == 2 then [0, i, 0] else [0, 0, i];
    assert q[level - 1] == i;
    if d.Table? && level < LAST {
      UnstuckChild(m, f, level, i);
    } else if d.Table? || d.Reserved? {
      assert Lookup(m, f, level, q).Stuck?;
    } else {
      assert forall p: Page :: p[level - 1] == i ==> !Lookup(m, f, level, p).Stuck?;
    }
  }

  lemma UnstuckChild(m: Mem, f: nat, level: nat, i: nat)
    requires 1 <= level < LAST && i < ENTRIES && IsTable(m, f) && m[f].entries[i].Table?
    ensures UnstuckAt(m, f, level, i) <==> Unstuck(m, m[f].entries[i].frame, level + 1)
  {
    var child, below := m[f].entries[i].frame, level + 1;
    if UnstuckAt(m, f, level, i) {
      forall p: Page
        ensures !Lookup(m, child, below, p).Stuck?
      {
        var r: Page := p[level - 1 := i];
        assert r[level - 1] == i && Lookup(m, f, level, r) == Lookup(m, child, below, r);
        LookupBelow(m, child, below, p, r);
      }
    }
    if Unstuck(m, child, below) {
      forall p: Page | p[level - 1] == i
        ensures !Lookup(m, f, level, p).Stuck?
      {
        assert Lookup(m, f, level, p) == Lookup(m, child, below, p);
      }
    }
  }

  /** A walk from a table uses only the indices of its own level and below. */
  lemma {:induction false} LookupBelow(m: Mem, f: nat, level: nat, p: Page, q: Page)
    requires 1 <= level <= LAST && p[level - 1..] == q[level - 1..]
    ensures Lookup(m, f, level, p) == Lookup(m, f, level, q)
    decreases LAST - level
  {
    assert p[level - 1] == p[level - 1..][0] == q[level - 1..][0] == q[level - 1];
    assert p[level..] == p[level - 1..][1..] == q[level - 1..][1..] == q[level..];
    if level < LAST && IsTable(m, f) && m[f].entries[p[level - 1]].Table? {
      LookupBelow(m, m[f].entries[p[level - 1]].frame, level + 1, p, q);
    }
  }

  lemma {:induction false} EntriesEnd(m: Mem, es: seq<Desc>, level: nat, n: nat)
    requires 1 <= level <= LAST && n <= |es|
    requires forall i :: 0 <= i < |es| ==> EntryPlan(m, es[i], level).end in {None, Some(BadTable)}
    ensures EntriesPlan(m, es[..n], level).end in {None, Some(BadTable)}
    ensures EntriesPlan(m, es[..n], level).end == None <==> forall i :: 0 <= i < n ==> EntryPlan(m, es[i], level).end == None
    decreases n
  {
    hide EntryPlan, EntriesPlan;
    if n == 0 {
      assert es[..0] == [];
      NoEntries(m, level);
    } else {
      EntriesEnd(m, es, level, n - 1);
      EntriesNext(m, es, level, n - 1);
    }
  }

  lemma NoEntries(m: Mem, level: nat)
    requires 1 <= level <= LAST
    ensures EntriesPlan(m, [], level) == NOTHING
  {
  }

  /** A frame for every table of the tree at `f`, then what the items still lack over it. */
  function PopulatePlan(m: Mem, f: nat, items: seq<Item>): Plan
  {
    Then(TablePlan(m, f, 1), ItemsPlan(m, f, [], items))
  }
}

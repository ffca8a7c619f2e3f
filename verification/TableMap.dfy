/** The steps of mapping one page, as changes to a space's books. */
module TableMap {
  import opened Wrappers
  import opened PageTables
  import opened FrameBooks
  import opened FramePlan

  /** Only tables changed: every frame that is not one of the space's tables kept its content. */
  predicate OnlyTables(a: Books, b: Books)
  {
    forall g :: g in a.mem && g !in b.home ==> g in b.mem && b.mem[g] == a.mem[g]
  }

  /** Tables hung so far by a walk `n` levels down that began as `w`. */
  function Dig(w: Walk, n: nat): nat
    requires n < LAST
  {
    if w.Hole? && w.missing > LAST - 1 - n then w.missing - (LAST - 1 - n) else 0
  }

  /** The walk of `p` has its tables `n` levels down, and that is all that happened since memory `m`. */
  ghost predicate DugTo(m: Mem, n: Mem, root: nat, p: Page, depth: nat)
    requires depth < LAST
  {
    forall q: Page :: Lookup(n, root, 1, q) == Dug(Lookup(m, root, 1, q), p, q, depth)
  }

  /** Mid-walk for page `p`, begun at books `a`: `n` levels down, no translation changed yet. */
  ghost predicate Walking(a: Books, b: Books, pool: set<nat>, root: nat, p: Page, n: nat)
  {
    && n < LAST
    && Sound(b, pool, root) && Grows(a, b) && OnlyTables(a, b)
    && NodeAt(b.mem, root, p, n).Some?
    && DugTo(a.mem, b.mem, root, p, n)
    && var dug := Dig(Lookup(a.mem, root, 1, p), n);
       Spent(a, b, dug) && (dug == 0 ==> b == a)
  }

  /** A mapping refused: empty tables may have been linked, but no page translates differently. */
  ghost predicate MapFailed(a: Books, b: Books, pool: set<nat>, root: nat, error: AsError)
  {
    && Sound(b, pool, root) && Grows(a, b) && LeakRule(a, b, Some(error)) && OnlyTables(a, b)
    && SameSeen(a.mem, b.mem, root)
  }

  /** A mapping made: `p` went from unmapped to `leaf` and every other page translates as it did. */
  ghost predicate MapDone(a: Books, b: Books, pool: set<nat>, root: nat, p: Page, leaf: Desc)
  {
    && Sound(b, pool, root) && Grows(a, b) && b.leaked == a.leaked && OnlyTables(a, b)
    && Seen(Lookup(a.mem, root, 1, p)) == None
    && forall q: Page :: Seen(Lookup(b.mem, root, 1, q)) ==
                         if q == p then Some(Hit(leaf, LAST)) else Seen(Lookup(a.mem, root, 1, q))
  }

  // ---- Digging ----

  lemma DugNone(m: Mem, root: nat, p: Page, q: Page)
    ensures Dug(Lookup(m, root, 1, q), p, q, 0) == Lookup(m, root, 1, q) && Dig(Lookup(m, root, 1, q), 0) == 0
  {
    LookupMisses(m, root, 1, q);
  }

  lemma DugMore(w: Walk, p: Page, q: Page, n: nat)
    requires n + 1 < LAST
    ensures Dug(Dug(w, p, q, n), p, q, n + 1) == Dug(w, p, q, n + 1)
  {
  }

  /** Where the table is there already, one level further down is no digging. */
  lemma DugDeep(w: Walk, p: Page, q: Page, n: nat)
    requires n + 1 < LAST
    requires Share(p, q) > n && Dug(w, p, q, n).Hole? ==> Dug(w, p, q, n).missing <= LAST - 2 - n
    ensures Dug(w, p, q, n) == Dug(w, p, q, n + 1)
  {
  }

  lemma DugSeen(w: Walk, p: Page, q: Page, n: nat)
    requires n < LAST
    ensures Seen(Dug(w, p, q, n)) == Seen(w)
  {
  }

  lemma DugIsSameSeen(m: Mem, n: Mem, root: nat, p: Page, depth: nat)
    requires depth < LAST && DugTo(m, n, root, p, depth)
    ensures SameSeen(m, n, root)
  {
    hide Dug, Seen;
    forall q: Page
      ensures Seen(Lookup(n, root, 1, q)) == Seen(Lookup(m, root, 1, q))
    {
      DugSeen(Lookup(m, root, 1, q), p, q, depth);
    }
  }

  /** Digging all the way is the mark of the page. */
  lemma DugGap(w: Walk, p: Page, q: Page)
    ensures Gap(Dug(w, p, q, LAST - 1)) == GapPast(Gap(w), Mark(p, false), q)
  {
  }

  lemma OneMark(g: Option<nat>, k: Mark, q: Page)
    ensures GapSince(g, [k], q) == GapPast(g, k, q)
  {
    assert [k][..0] == [];
  }

  // ---- The walk ----

  lemma WalkStart(a: Books, pool: set<nat>, root: nat, p: Page)
    requires Sound(a, pool, root)
    ensures Walking(a, a, pool, root, p, 0) && NodeAt(a.mem, root, p, 0) == Some(root)
  {
    hide Dug, Dig, Sound;
    GrowsReflexive(a);
    forall q: Page
      ensures Lookup(a.mem, root, 1, q) == Dug(Lookup(a.mem, root, 1, q), p, q, 0)
    {
      DugNone(a.mem, root, p, q);
    }
    DugNone(a.mem, root, p, p);
  }

  lemma WalkNode(a: Books, b: Books, pool: set<nat>, root: nat, p: Page, n: nat)
    requires Walking(a, b, pool, root, p, n)
    ensures var t := NodeAt(b.mem, root, p, n).value;
            t in b.home && b.home[t] == p[..n] && IsTable(b.mem, t)
            && Lookup(b.mem, root, 1, p) == Behind(b.mem, b.mem[t].entries[p[n]], n + 1, p)
  {
    hide DugTo, Grows, PoolSound;
    NodeHome(b.mem, b.home, root, p, n);
    LookupThrough(b.mem, root, p, n);
  }

  lemma WalkFollow(a: Books, b: Books, pool: set<nat>, root: nat, p: Page, n: nat)
    requires Walking(a, b, pool, root, p, n) && n < LAST - 1
    requires var t := NodeAt(b.mem, root, p, n).value;
             IsTable(b.mem, t) && b.mem[t].entries[p[n]].Table?
    ensures Walking(a, b, pool, root, p, n + 1)
    ensures NodeAt(b.mem, root, p, n + 1) == Some(b.mem[NodeAt(b.mem, root, p, n).value].entries[p[n]].frame)
  {
    hide Grows, Sound, OnlyTables, Share;
    forall q: Page
      ensures Lookup(b.mem, root, 1, q) == Dug(Lookup(a.mem, root, 1, q), p, q, n + 1)
    {
      if Share(p, q) > n {
        ThroughIffShare(p, q, n);
        SharedMisses(b.mem, root, p, q, n + 1);
      }
      DugDeep(Lookup(a.mem, root, 1, q), p, q, n);
    }
    NodeMisses(b.mem, root, p, n + 1);
    ShareSelf(p);
  }

  lemma ShareSelf(p: Page)
    ensures Share(p, p) == LAST - 1
  {
  }

  lemma SharedMisses(m: Mem, root: nat, p: Page, q: Page, n: nat)
    requires n < LAST && NodeAt(m, root, p, n).Some? && Share(p, q) >= n
    ensures Lookup(m, root, 1, q).Hole? ==> Lookup(m, root, 1, q).missing <= LAST - 1 - n
  {
    assert p[..n] == p[..Share(p, q)][..n] == q[..Share(p, q)][..n] == q[..n];
    NodeShared(m, root, p, q, n);
    NodeMisses(m, root, q, n);
  }

  /** A new empty table, hung and linked: one level further down, translations untouched. */
  lemma WalkLink(a: Books, b: Books, c: Books, pool: set<nat>, root: nat, p: Page, n: nat, t: nat, z: nat)
    requires Walking(a, b, pool, root, p, n) && n < LAST - 1
    requires NodeAt(b.mem, root, p, n) == Some(t) && t in b.home && b.mem[t].entries[p[n]] == Invalid
    requires Sound(c, pool, root) && Grows(b, c) && Spent(b, c, 1) && z !in b.home
    requires c.mem == b.mem[z := EmptyTable()] && c.home == b.home[z := b.home[t] + [p[n]]]
    ensures IsTable(c.mem, t)
    ensures var d := c.(mem := Write(c.mem, t, p[n], Table(z)));
            Walking(a, d, pool, root, p, n + 1) && NodeAt(d.mem, root, p, n + 1) == Some(z)
  {
    hide PoolSound, SetOf, Dug, Share, Grows, Dig, Lookup;
    var d := c.(mem := Write(c.mem, t, p[n], Table(z)));
    LinkEmpty(b.mem, b.home, root, p, n, t, z);
    assert d.mem == Linked(b.mem, t, p[n], z);
    RewriteSound(c, pool, root, c.home, d.mem);
    LinkGrows(b, c, pool, root, t, p[n], z);
    GrowsTransitive(a, b, d);
    LinkDug(a.mem, b.mem, d.mem, root, p, n);
    WalkNode(a, b, pool, root, p, n);
    EmptyEntry(b.mem, b.mem[t].entries[p[n]], n, p);
    DigMore(Lookup(a.mem, root, 1, p), p, n);
  }

  lemma EmptyEntry(m: Mem, d: Desc, n: nat, p: Page)
    requires n < LAST && d == Invalid
    ensures Behind(m, d, n + 1, p) == Hole(LAST - 1 - n)
  {
  }

  lemma LinkDug(l: Mem, m: Mem, n: Mem, root: nat, p: Page, k: nat)
    requires k + 1 < LAST && DugTo(l, m, root, p, k) && DugTo(m, n, root, p, k + 1)
    ensures DugTo(l, n, root, p, k + 1)
  {
    hide Dug;
    forall q: Page
      ensures Lookup(n, root, 1, q) == Dug(Lookup(l, root, 1, q), p, q, k + 1)
    {
      DugMore(Lookup(l, root, 1, q), p, q, k);
    }
  }

  lemma DigMore(w: Walk, p: Page, n: nat)
    requires n + 1 < LAST && Dug(w, p, p, n) == Hole(LAST - 1 - n)
    ensures Dig(w, n + 1) == Dig(w, n) + 1
  {
  }

  lemma LinkGrows(b: Books, c: Books, pool: set<nat>, root: nat, t: nat, i: nat, z: nat)
    requires Grows(b, c) && Sound(c, pool, root) && t in c.home && z in c.home && i < ENTRIES
    requires c.mem == b.mem[z := EmptyTable()]
    ensures Grows(b, c.(mem := Write(c.mem, t, i, Table(z))))
  {
    assert t in SetOf(c.owned) && z in SetOf(c.owned);
  }

  // ---- How it ends ----

  /** The page asked for, as an item: nothing before the walk, and a leaf that may or may not encode. */
  function PageItem(p: Page, encodes: bool): Item
  {
    Item(p, 0, None, encodes)
  }

  function WalkPlan(a: Books, root: nat, p: Page, encodes: bool): Plan
  {
    ItemPlan(Gap(Lookup(a.mem, root, 1, p)), PageItem(p, encodes))
  }

  lemma WalkFails(a: Books, b: Books, c: Books, pool: set<nat>, root: nat, p: Page, n: nat, error: AsError)
    requires Walking(a, b, pool, root, p, n)
    requires Sound(c, pool, root) && Grows(b, c) && LeakRule(b, c, Some(error)) && c.mem == b.mem && c.home == b.home
    ensures MapFailed(a, c, pool, root, error)
  {
    GrowsTransitive(a, b, c);
    DugIsSameSeen(a.mem, b.mem, root, p, n);
  }

  /** Out of frames part way: the plan said so. */
  lemma WalkShort(a: Books, b: Books, c: Books, pool: set<nat>, root: nat, p: Page, n: nat, encodes: bool, error: AsError)
    requires Walking(a, b, pool, root, p, n) && Sound(a, pool, root) && n < LAST - 1
    requires Lookup(b.mem, root, 1, p) == Hole(LAST - 1 - n) && Verdict(b, 1) == Some(error)
    ensures AsPlanned(a, c, root, WalkPlan(a, root, p, encodes), Some(error))
  {
    hide Grows, OnlyTables, PoolSound;
    var w := Lookup(a.mem, root, 1, p);
    assert Lookup(b.mem, root, 1, p) == Dug(w, p, p, n);
    VerdictMore(b, 1, LAST - 1 - n);
    VerdictAfter(a, b, Dig(w, n), LAST - 1 - n);
  }

  /** Something in the way: nothing was dug. */
  lemma WalkBlocked(a: Books, b: Books, pool: set<nat>, root: nat, p: Page, n: nat, encodes: bool)
    requires Walking(a, b, pool, root, p, n) && !Lookup(b.mem, root, 1, p).Hole?
    ensures MapFailed(a, b, pool, root, BadTable)
    ensures AsPlanned(a, b, root, WalkPlan(a, root, p, encodes), Some(BadTable))
  {
    hide Grows, PoolSound;
    assert Lookup(b.mem, root, 1, p) == Dug(Lookup(a.mem, root, 1, p), p, p, n);
    assert b == a;
  }

  /** A table to hold the page, and nothing in the way of it. */
  lemma WalkEnds(a: Books, b: Books, pool: set<nat>, root: nat, p: Page, encodes: bool)
    requires Walking(a, b, pool, root, p, LAST - 1) && Sound(a, pool, root) && Lookup(b.mem, root, 1, p) == Hole(0)
    ensures var plan := WalkPlan(a, root, p, encodes);
            && Verdict(a, plan.need) == None && Spent(a, b, plan.need)
            && plan.end == (if encodes then None else Some(BadTable)) && plan.marks == [Mark(p, encodes)]
  {
    hide Grows, OnlyTables, PoolSound;
    assert Lookup(b.mem, root, 1, p) == Dug(Lookup(a.mem, root, 1, p), p, p, LAST - 1);
    VerdictAfter(a, b, Dig(Lookup(a.mem, root, 1, p), LAST - 1), 0);
  }

  /** The output address does not encode: the tables stand, the page stays unmapped. */
  lemma WalkUnencodable(a: Books, b: Books, pool: set<nat>, root: nat, p: Page)
    requires Walking(a, b, pool, root, p, LAST - 1) && Sound(a, pool, root) && Lookup(b.mem, root, 1, p) == Hole(0)
    ensures MapFailed(a, b, pool, root, BadTable)
    ensures AsPlanned(a, b, root, WalkPlan(a, root, p, false), Some(BadTable))
  {
    hide Grows, Sound, Dug, GapPast;
    WalkEnds(a, b, pool, root, p, false);
    DugIsSameSeen(a.mem, b.mem, root, p, LAST - 1);
    forall q: Page
      ensures Gap(Lookup(b.mem, root, 1, q)) == GapSince(Gap(Lookup(a.mem, root, 1, q)), [Mark(p, false)], q)
    {
      DugGap(Lookup(a.mem, root, 1, q), p, q);
      OneMark(Gap(Lookup(a.mem, root, 1, q)), Mark(p, false), q);
    }
  }

  /** The leaf written: the page is mapped, and that is all. */
  lemma WalkLeaf(a: Books, b: Books, pool: set<nat>, root: nat, p: Page, t: nat, leaf: Desc)
    requires Walking(a, b, pool, root, p, LAST - 1) && Sound(a, pool, root) && leaf.Leaf?
    requires NodeAt(b.mem, root, p, LAST - 1) == Some(t) && t in b.home && b.mem[t].entries[p[2]] == Invalid
    ensures var c := b.(mem := Write(b.mem, t, p[2], leaf));
            MapDone(a, c, pool, root, p, leaf) && AsPlanned(a, c, root, WalkPlan(a, root, p, true), None)
  {
    hide PoolSound, SetOf, Dug, GapPast, Gap;
    var c := b.(mem := Write(b.mem, t, p[2], leaf));
    MapLeaf(b.mem, b.home, root, p, t, leaf);
    RewriteSound(b, pool, root, b.home, c.mem);
    LeafGrows(a, b, pool, root, t, p[2], leaf);
    WalkEnds(a, b, pool, root, p, true);
    LeafSeen(a.mem, b.mem, c.mem, root, p, leaf);
  }

  lemma LeafGrows(a: Books, b: Books, pool: set<nat>, root: nat, t: nat, i: nat, leaf: Desc)
    requires Grows(a, b) && Sound(b, pool, root) && t in b.home && i < ENTRIES
    ensures Grows(a, b.(mem := Write(b.mem, t, i, leaf)))
  {
    assert t in SetOf(b.owned);
  }

  lemma LeafSeen(m: Mem, n: Mem, o: Mem, root: nat, p: Page, leaf: Desc)
    requires DugTo(m, n, root, p, LAST - 1) && Lookup(n, root, 1, p) == Hole(0)
    requires forall q: Page :: Lookup(o, root, 1, q) == if q == p then Found(leaf, LAST) else Lookup(n, root, 1, q)
    ensures Seen(Lookup(m, root, 1, p)) == None
    ensures forall q: Page :: Seen(Lookup(o, root, 1, q)) ==
                              if q == p then Some(Hit(leaf, LAST)) else Seen(Lookup(m, root, 1, q))
    ensures Since(m, root, o, root, [Mark(p, true)])
  {
    hide Dug;
    DugSeen(Lookup(m, root, 1, p), p, p, LAST - 1);
    forall q: Page
      ensures Seen(Lookup(o, root, 1, q)) == if q == p then Some(Hit(leaf, LAST)) else Seen(Lookup(m, root, 1, q))
      ensures Gap(Lookup(o, root, 1, q)) == GapSince(Gap(Lookup(m, root, 1, q)), [Mark(p, true)], q)
    {
      var w := Lookup(m, root, 1, q);
      DugSeen(w, p, q, LAST - 1);
      DugGap(w, p, q);
      OneMark(Gap(w), Mark(p, true), q);
    }
  }
}

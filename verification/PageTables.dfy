/**
 * Three-level translation tables in physical memory: what a walk finds, and what one write to one
 * table does to every walk.
 */
module PageTables {
  import opened Bytes
  import opened Wrappers

  const ENTRIES: nat := 512
  const PAGE_SIZE: nat := 4096
  const PA_END: nat := 0x1_0000_0000_0000
  const LAST: nat := 3

  datatype MemKind = NormalWb | Device

  datatype Perms = Perms(write: bool, execute: bool, user: bool)

  const USER_RW: Perms := Perms(true, false, true)
  const USER_RX: Perms := Perms(false, true, true)

  /** A descriptor as its level reads it; `Reserved` is any encoding the level gives no meaning. */
  datatype Desc = Invalid | Table(frame: nat) | Leaf(pa: nat, kind: MemKind, perms: Perms) | Reserved

  /** What one physical frame holds. */
  datatype Content = TableOf(entries: seq<Desc>) | PageOf(data: seq<byte>)

  /** Physical memory by frame address. */
  type Mem = map<nat, Content>

  predicate IsTable(m: Mem, f: nat)
  {
    f in m && m[f].TableOf? && |m[f].entries| == ENTRIES
  }

  /** A virtual page, as the indices its walk uses at levels one, two and three. */
  type Page = p: seq<nat> | |p| == 3 && p[0] < ENTRIES && p[1] < ENTRIES && p[2] < ENTRIES
    witness [0, 0, 0]

  /** `Level::index` at each level: nine bits each, above the twelve of the page offset. */
  function PageOfVa(va: nat): Page
  {
    [va / 0x4000_0000 % ENTRIES, va / 0x20_0000 % ENTRIES, va / 0x1000 % ENTRIES]
  }

  /** Two addresses share a walk exactly when they lie in the same page of the 39-bit space. */
  lemma SameWalkIffSamePage(v: nat, w: nat)
    ensures PageOfVa(v) == PageOfVa(w) <==> v / PAGE_SIZE % 0x800_0000 == w / PAGE_SIZE % 0x800_0000
  {
    hide PageOfVa;
    IndexDigits(v);
    IndexDigits(w);
    if v / PAGE_SIZE % 0x800_0000 == w / PAGE_SIZE % 0x800_0000 { DigitsTell(PageOfVa(v), PageOfVa(w)); }
  }

  lemma DigitsTell(p: Page, q: Page)
    requires p[0] * 0x4_0000 + p[1] * 0x200 + p[2] == q[0] * 0x4_0000 + q[1] * 0x200 + q[2]
    ensures p == q
  {
    assert p[0] == q[0] && p[1] == q[1] && p[2] == q[2];
  }

  lemma IndexDigits(v: nat)
    ensures var p := PageOfVa(v);
            v / PAGE_SIZE % 0x800_0000 == p[0] * 0x4_0000 + p[1] * 0x200 + p[2]
  {
    ThirdDigit(v);
    SecondDigit(v / 0x20_0000, v);
    ThreeDigits(v / 0x1000);
  }

  lemma ThirdDigit(v: nat)
    ensures v / 0x20_0000 == v / 0x1000 / 512
  {
    var y, r := v / 0x20_0000, v % 0x20_0000;
    assert v == 0x1000 * (512 * y) + r && r / 0x1000 < 512;
    assert v / 0x1000 == 512 * y + r / 0x1000;
  }

  lemma SecondDigit(y: nat, v: nat)
    requires y == v / 0x20_0000
    ensures v / 0x4000_0000 == y / 512
  {
    var z, r := v / 0x4000_0000, v % 0x4000_0000;
    assert v == 0x20_0000 * (512 * z) + r && r / 0x20_0000 < 512;
    assert v / 0x20_0000 == 512 * z + r / 0x20_0000;
  }

  lemma ThreeDigits(x: nat)
    ensures x % 0x800_0000 == x / 512 / 512 % 512 * 0x4_0000 + x / 512 % 512 * 0x200 + x % 512
  {
    var y := x / 512;
    var z := y / 512;
    var w := z / 512;
    assert x == 512 * y + x % 512 && y == 512 * z + y % 512 && z == 512 * w + z % 512;
    assert x == 0x800_0000 * w + (z % 512 * 0x4_0000 + y % 512 * 0x200 + x % 512);
  }

  /**
   * How a walk ends: at a leaf and its level, at an empty entry with so many tables missing below it,
   * or at a descriptor that leads nowhere.
   */
  datatype Walk = Found(leaf: Desc, level: nat) | Hole(missing: nat) | Stuck

  /** The walk for `p` from table `f` at `level`. */
  function Lookup(m: Mem, f: nat, level: nat, p: Page): Walk
    requires 1 <= level <= LAST
    decreases LAST - level
  {
    if !IsTable(m, f) then Stuck else
    var d := m[f].entries[p[level - 1]];
    match d
    case Leaf(_, _, _) => Found(d, level)
    case Table(c) => if level < LAST then Lookup(m, c, level + 1, p) else Stuck
    case Invalid => Hole(LAST - level)
    case Reserved => Stuck
  }

  /** A translation: the leaf found and the level it was found at. */
  datatype Hit = Hit(leaf: Desc, level: nat)

  /** What the hardware makes of a walk. */
  function Seen(w: Walk): Option<Hit>
  {
    if w.Found? then Some(Hit(w.leaf, w.level)) else None
  }

  /** Table `g` of memory `n` walks every page as table `f` of memory `m` does, holes included. */
  ghost predicate SameWalks(m: Mem, f: nat, n: Mem, g: nat, level: nat)
    requires 1 <= level <= LAST
  {
    forall p: Page :: Lookup(n, g, level, p) == Lookup(m, f, level, p)
  }

  /** The same translations, whatever empty tables stand behind the holes. */
  ghost predicate SameSeen(m: Mem, n: Mem, root: nat)
  {
    forall p: Page :: Seen(Lookup(n, root, 1, p)) == Seen(Lookup(m, root, 1, p))
  }

  /** How many tables the walks of two pages have in common below the root. */
  function Share(p: Page, q: Page): (n: nat)
    ensures n < LAST && p[..n] == q[..n]
  {
    if p[0] != q[0] then 0 else if p[1] != q[1] then 1 else 2
  }

  /** A hole on the way of `q` once the walk of `p` has its tables `n` levels down. */
  function Dug(w: Walk, p: Page, q: Page, n: nat): Walk
    requires n < LAST
  {
    var shared := if Share(p, q) < n then Share(p, q) else n;
    if w.Hole? && w.missing > LAST - 1 - shared then Hole(LAST - 1 - shared) else w
  }

  /** Memory with one descriptor written. */
  function Write(m: Mem, f: nat, i: nat, d: Desc): Mem
    requires IsTable(m, f) && i < ENTRIES
  {
    m[f := TableOf(m[f].entries[i := d])]
  }

  /** A zeroed table. */
  function EmptyTable(): (c: Content)
    ensures c.TableOf? && |c.entries| == ENTRIES && forall i :: 0 <= i < ENTRIES ==> c.entries[i] == Invalid
  {
    TableOf(seq(ENTRIES, i => Invalid))
  }

  // ---- The shape of a space's own tables ----

  /** Where each of a space's tables hangs: the indices that lead to it from the root. */
  type Homes = map<nat, seq<nat>>

  /** Every table link leads to a table whose home is one index longer. */
  predicate Consistent(m: Mem, h: Homes)
  {
    forall f :: f in h ==>
      && IsTable(m, f) && |h[f]| < LAST
      && (|h[f]| < LAST - 1 ==>
            forall i :: 0 <= i < ENTRIES && m[f].entries[i].Table? ==>
              m[f].entries[i].frame in h && h[m[f].entries[i].frame] == h[f] + [i])
  }

  function LevelOf(h: Homes, f: nat): nat
    requires f in h
  {
    |h[f]| + 1
  }

  /** A walk from one of the tables stays inside them and never comes back up. */
  lemma {:induction false} LookupFrame(m: Mem, n: Mem, h: Homes, f: nat, p: Page)
    requires Consistent(m, h) && f in h
    requires forall g :: g in h && |h[g]| >= |h[f]| && h[g][..|h[f]|] == h[f] ==> g in n && n[g] == m[g]
    ensures Lookup(n, f, LevelOf(h, f), p) == Lookup(m, f, LevelOf(h, f), p)
    decreases LAST - |h[f]|
  {
    assert h[f][..|h[f]|] == h[f];
    var d := m[f].entries[p[|h[f]|]];
    if d.Table? && |h[f]| < LAST - 1 {
      assert h[d.frame][..|h[f]|] == h[f];
      forall g | g in h && |h[g]| >= |h[d.frame]| && h[g][..|h[d.frame]|] == h[d.frame]
        ensures g in n && n[g] == m[g]
      {
        assert h[g][..|h[f]|] == h[g][..|h[d.frame]|][..|h[f]|];
      }
      LookupFrame(m, n, h, d.frame, p);
    }
  }

  /** A write into table `t` cannot be seen by a page whose indices do not pass through that entry. */
  lemma {:induction false} WriteElsewhere(m: Mem, h: Homes, f: nat, t: nat, i: nat, d: Desc, p: Page)
    requires Consistent(m, h) && f in h && t in h && i < ENTRIES
    requires h[f] == p[..|h[f]|]
    requires !(h[t] == p[..|h[t]|] && i == p[|h[t]|])
    ensures Lookup(Write(m, t, i, d), f, LevelOf(h, f), p) == Lookup(m, f, LevelOf(h, f), p)
    decreases LAST - |h[f]|
  {
    var e := m[f].entries[p[|h[f]|]];
    assert f == t ==> i != p[|h[f]|];
    assert Write(m, t, i, d)[f].entries[p[|h[f]|]] == e;
    if e.Table? && |h[f]| < LAST - 1 {
      assert p[..|h[f]|] + [p[|h[f]|]] == p[..|h[f]| + 1];
      WriteElsewhere(m, h, e.frame, t, i, d, p);
    }
  }

  /** The table `n` levels down on the walk for `p`. */
  function NodeAt(m: Mem, root: nat, p: Page, n: nat): Option<nat>
    requires n < LAST
    decreases n
  {
    if n == 0 then Some(root) else
    var up := NodeAt(m, root, p, n - 1);
    if up.Some? && IsTable(m, up.value) && m[up.value].entries[p[n - 1]].Table?
    then Some(m[up.value].entries[p[n - 1]].frame) else None
  }

  /** The walk for a page is the walk from any table on its path. */
  lemma {:induction false} LookupThrough(m: Mem, root: nat, p: Page, n: nat)
    requires n < LAST && NodeAt(m, root, p, n).Some?
    ensures Lookup(m, root, 1, p) == Lookup(m, NodeAt(m, root, p, n).value, n + 1, p)
    decreases n
  {
    if n > 0 { LookupThrough(m, root, p, n - 1); }
  }

  lemma {:induction false} NodeHome(m: Mem, h: Homes, root: nat, p: Page, n: nat)
    requires Consistent(m, h) && root in h && h[root] == []
    requires n < LAST && NodeAt(m, root, p, n).Some?
    ensures NodeAt(m, root, p, n).value in h && h[NodeAt(m, root, p, n).value] == p[..n]
    decreases n
  {
    if n > 0 {
      NodeHome(m, h, root, p, n - 1);
      assert p[..n] == p[..n - 1] + [p[n - 1]];
    }
  }

  /** Pages with the same leading indices share the leading tables. */
  lemma {:induction false} NodeShared(m: Mem, root: nat, p: Page, q: Page, n: nat)
    requires n < LAST && p[..n] == q[..n]
    ensures NodeAt(m, root, p, n) == NodeAt(m, root, q, n)
    decreases n
  {
    if n > 0 {
      assert p[n - 1] == p[..n][n - 1] == q[..n][n - 1] == q[n - 1];
      assert p[..n - 1] == p[..n][..n - 1] == q[..n][..n - 1] == q[..n - 1];
      NodeShared(m, root, p, q, n - 1);
    }
  }

  /** Writing into a table on a path leaves the path to it. */
  lemma {:induction false} NodeAfterWrite(m: Mem, h: Homes, root: nat, p: Page, n: nat, t: nat, i: nat, d: Desc)
    requires Consistent(m, h) && root in h && h[root] == [] && t in h && i < ENTRIES
    requires n < LAST && NodeAt(m, root, p, n).Some? && n <= |h[t]|
    ensures NodeAt(Write(m, t, i, d), root, p, n) == NodeAt(m, root, p, n)
    decreases n
  {
    if n > 0 {
      NodeAfterWrite(m, h, root, p, n - 1, t, i, d);
      NodeHome(m, h, root, p, n - 1);
    }
  }

  /** What a walk finds behind a descriptor. */
  function Behind(m: Mem, d: Desc, level: nat, p: Page): Walk
    requires 1 <= level <= LAST
  {
    match d
    case Leaf(_, _, _) => Found(d, level)
    case Table(c) => if level < LAST then Lookup(m, c, level + 1, p) else Stuck
    case Invalid => Hole(LAST - level)
    case Reserved => Stuck
  }

  /** A write on the path of `p`, `n` levels down, decides exactly the pages that pass through it. */
  lemma WriteAtNode(m: Mem, h: Homes, root: nat, p: Page, n: nat, d: Desc, q: Page)
    requires Consistent(m, h) && root in h && h[root] == []
    requires n < LAST && NodeAt(m, root, p, n).Some?
    ensures NodeAt(m, root, p, n).value in h
    ensures var t := NodeAt(m, root, p, n).value;
            var after := Write(m, t, p[n], d);
            Lookup(after, root, 1, q) == if q[..n] == p[..n] && q[n] == p[n] then Behind(after, d, n + 1, q)
                                         else Lookup(m, root, 1, q)
  {
    var t := NodeAt(m, root, p, n).value;
    NodeHome(m, h, root, p, n);
    if q[..n] == p[..n] && q[n] == p[n] {
      NodeShared(m, root, p, q, n);
      NodeAfterWrite(m, h, root, q, n, t, p[n], d);
      LookupThrough(Write(m, t, p[n], d), root, q, n);
    } else {
      assert h[root] == q[..0];
      WriteElsewhere(m, h, root, t, p[n], d, q);
    }
  }

  /** An empty table is all holes. */
  lemma EmptyFindsNothing(m: Mem, f: nat, level: nat, p: Page)
    requires 1 <= level <= LAST && f in m && m[f] == EmptyTable()
    ensures Lookup(m, f, level, p) == Hole(LAST - level)
  {
  }

  /** A walk that has its table `n` levels down misses no more than the rest. */
  lemma NodeMisses(m: Mem, root: nat, p: Page, n: nat)
    requires n < LAST && NodeAt(m, root, p, n).Some?
    ensures Lookup(m, root, 1, p).Hole? ==> Lookup(m, root, 1, p).missing <= LAST - 1 - n
  {
    LookupThrough(m, root, p, n);
    LookupMisses(m, NodeAt(m, root, p, n).value, n + 1, p);
  }

  lemma {:induction false} LookupMisses(m: Mem, f: nat, level: nat, p: Page)
    requires 1 <= level <= LAST
    ensures Lookup(m, f, level, p).Hole? ==> Lookup(m, f, level, p).missing <= LAST - level
    decreases LAST - level
  {
    if IsTable(m, f) && m[f].entries[p[level - 1]].Table? && level < LAST {
      LookupMisses(m, m[f].entries[p[level - 1]].frame, level + 1, p);
    }
  }

  /** Pages pass through the same entry `n` levels down exactly when they share more than `n` tables there. */
  lemma ThroughIffShare(p: Page, q: Page, n: nat)
    requires n < LAST - 1
    ensures q[..n] == p[..n] && q[n] == p[n] <==> Share(p, q) > n
  {
    if n == 1 { assert q[..1] == p[..1] <==> q[..1][0] == p[..1][0]; }
  }

  // ---- Growing a space's tables ----

  /** Zeroing a frame that is not one of the tables moves no table on any path. */
  lemma {:induction false} NodeFrame(m: Mem, n: Mem, h: Homes, root: nat, p: Page, k: nat)
    requires Consistent(m, h) && root in h && h[root] == []
    requires k < LAST && NodeAt(m, root, p, k).Some?
    requires forall g :: g in h ==> g in n && n[g] == m[g]
    ensures NodeAt(n, root, p, k) == NodeAt(m, root, p, k)
    decreases k
  {
    if k > 0 {
      NodeFrame(m, n, h, root, p, k - 1);
      NodeHome(m, h, root, p, k - 1);
    }
  }

  lemma ConsistentFrame(m: Mem, n: Mem, h: Homes)
    requires Consistent(m, h) && forall g :: g in h ==> g in n && n[g] == m[g]
    ensures Consistent(n, h)
  {
  }

  /** Memory after frame `z` is zeroed and linked under `t` at `i`. */
  function Linked(m: Mem, t: nat, i: nat, z: nat): Mem
    requires IsTable(m, t) && i < ENTRIES && z != t
  {
    Write(m[z := EmptyTable()], t, i, Table(z))
  }

  lemma LinkConsistent(m: Mem, h: Homes, t: nat, i: nat, z: nat)
    requires Consistent(m, h) && t in h && |h[t]| < LAST - 1 && i < ENTRIES && z !in h
    ensures Consistent(Linked(m, t, i, z), h[z := h[t] + [i]])
  {
  }

  /**
   * Linking an empty table where nothing was: the holes of the pages through it are one table shallower,
   * no other walk changes, and the walk goes on into it.
   */
  lemma LinkEmpty(m: Mem, h: Homes, root: nat, p: Page, n: nat, t: nat, z: nat)
    requires Consistent(m, h) && root in h && h[root] == [] && n < LAST - 1
    requires NodeAt(m, root, p, n) == Some(t) && t in h && z !in h && m[t].entries[p[n]] == Invalid
    ensures h[t] == p[..n] && Consistent(Linked(m, t, p[n], z), h[z := h[t] + [p[n]]])
    ensures NodeAt(Linked(m, t, p[n], z), root, p, n + 1) == Some(z)
    ensures forall q: Page :: Lookup(Linked(m, t, p[n], z), root, 1, q) == Dug(Lookup(m, root, 1, q), p, q, n + 1)
  {
    hide Dug, Share;
    NodeHome(m, h, root, p, n);
    LinkConsistent(m, h, t, p[n], z);
    var zeroed := m[z := EmptyTable()];
    ConsistentFrame(m, zeroed, h);
    NodeFrame(m, zeroed, h, root, p, n);
    NodeAfterWrite(zeroed, h, root, p, n, t, p[n], Table(z));
    forall q: Page
      ensures Lookup(Linked(m, t, p[n], z), root, 1, q) == Dug(Lookup(m, root, 1, q), p, q, n + 1)
    {
      LinkedWalk(m, h, root, p, n, t, z, q);
    }
  }

  lemma LinkedWalk(m: Mem, h: Homes, root: nat, p: Page, n: nat, t: nat, z: nat, q: Page)
    requires Consistent(m, h) && root in h && h[root] == [] && n < LAST - 1
    requires NodeAt(m, root, p, n) == Some(t) && t in h && z !in h && m[t].entries[p[n]] == Invalid
    ensures Lookup(Linked(m, t, p[n], z), root, 1, q) == Dug(Lookup(m, root, 1, q), p, q, n + 1)
  {
    hide Share;
    var zeroed := m[z := EmptyTable()];
    var after := Linked(m, t, p[n], z);
    ConsistentFrame(m, zeroed, h);
    NodeFrame(m, zeroed, h, root, p, n);
    LookupFrame(m, zeroed, h, root, q);
    WriteAtNode(zeroed, h, root, p, n, Table(z), q);
    ThroughIffShare(p, q, n);
    if Share(p, q) > n {
      EmptyFindsNothing(after, z, n + 2, q);
      NodeShared(m, root, p, q, n);
      LookupThrough(m, root, q, n);
    } else {
      NodeShared(m, root, p, q, Share(p, q));
      SharedNode(m, root, p, n, Share(p, q));
      NodeMisses(m, root, q, Share(p, q));
    }
  }

  /** A path that reaches `n` levels down reaches every level above. */
  lemma {:induction false} SharedNode(m: Mem, root: nat, p: Page, n: nat, k: nat)
    requires k <= n < LAST && NodeAt(m, root, p, n).Some?
    ensures NodeAt(m, root, p, k).Some?
    decreases n
  {
    if k < n { SharedNode(m, root, p, n - 1, k); }
  }

  /** A page leaf written where nothing was maps that page and no other. */
  lemma MapLeaf(m: Mem, h: Homes, root: nat, p: Page, t: nat, leaf: Desc)
    requires Consistent(m, h) && root in h && h[root] == [] && leaf.Leaf?
    requires NodeAt(m, root, p, 2) == Some(t) && t in h && m[t].entries[p[2]] == Invalid
    ensures Consistent(Write(m, t, p[2], leaf), h)
    ensures Lookup(m, root, 1, p) == Hole(0)
    ensures forall q: Page :: Lookup(Write(m, t, p[2], leaf), root, 1, q) ==
                              if q == p then Found(leaf, LAST) else Lookup(m, root, 1, q)
  {
    NodeHome(m, h, root, p, 2);
    LookupThrough(m, root, p, 2);
    forall q: Page
      ensures Lookup(Write(m, t, p[2], leaf), root, 1, q) ==
              if q == p then Found(leaf, LAST) else Lookup(m, root, 1, q)
    {
      WriteAtNode(m, h, root, p, 2, leaf, q);
      if q[..2] == p[..2] && q[2] == p[2] {
        assert q[0] == q[..2][0] == p[0] && q[1] == q[..2][1] == p[1];
        assert q == p;
      }
    }
  }

  // ---- Cloning another tree ----

  /** The tables of a tree to be cloned, each with its level: links go one level down and never dangle. */
  predicate Source(m: Mem, k: map<nat, nat>)
  {
    forall f :: f in k ==>
      && IsTable(m, f) && 1 <= k[f] <= LAST
      && (k[f] < LAST ==>
            forall i :: 0 <= i < ENTRIES && m[f].entries[i].Table? ==>
              m[f].entries[i].frame in k && k[m[f].entries[i].frame] == k[f] + 1)
  }

  lemma {:induction false} SourceFrame(m: Mem, n: Mem, k: map<nat, nat>, f: nat, p: Page)
    requires Source(m, k) && f in k && forall g :: g in k ==> g in n && n[g] == m[g]
    ensures Lookup(n, f, k[f], p) == Lookup(m, f, k[f], p)
    decreases LAST - k[f]
  {
    var d := m[f].entries[p[k[f] - 1]];
    if d.Table? && k[f] < LAST { SourceFrame(m, n, k, d.frame, p); }
  }

  /** Descriptor `d` in memory `n` means, for every page, what `s` meant in memory `m`. */
  ghost predicate Cloned(m: Mem, s: Desc, n: Mem, d: Desc, level: nat)
    requires 1 <= level <= LAST
  {
    match s
    case Invalid => d == Invalid
    case Leaf(_, _, _) => d == s
    case Table(c) => level < LAST && d.Table? && SameWalks(m, c, n, d.frame, level + 1)
    case Reserved => false
  }

  /** The first `i` entries of `dst` are clones of those of `src`. */
  ghost predicate ClonedTo(m: Mem, src: nat, n: Mem, dst: nat, level: nat, i: nat)
    requires 1 <= level <= LAST
  {
    && IsTable(m, src) && IsTable(n, dst) && i <= ENTRIES
    && forall j :: 0 <= j < i ==> Cloned(m, m[src].entries[j], n, n[dst].entries[j], level)
  }

  /** Writing other frames, or later entries of `dst`, keeps the clones made so far. */
  lemma ClonedFrame(m: Mem, src: nat, n: Mem, o: Mem, h: Homes, dst: nat, i: nat)
    requires Consistent(n, h) && dst in h && ClonedTo(m, src, n, dst, LevelOf(h, dst), i)
    requires forall g :: g in h && g != dst ==> g in o && o[g] == n[g]
    requires IsTable(o, dst) && forall j :: 0 <= j < i ==> o[dst].entries[j] == n[dst].entries[j]
    ensures ClonedTo(m, src, o, dst, LevelOf(h, dst), i)
  {
    var level := LevelOf(h, dst);
    forall j | 0 <= j < i
      ensures Cloned(m, m[src].entries[j], o, o[dst].entries[j], level)
    {
      var s, d := m[src].entries[j], n[dst].entries[j];
      assert Cloned(m, s, n, d, level);
      if s.Table? {
        var below := level + 1;
        forall p: Page
          ensures Lookup(o, d.frame, below, p) == Lookup(m, s.frame, below, p)
        {
          LookupFrame(n, o, h, d.frame, p);
        }
      }
    }
  }

  /** All entries cloned: the walks agree. */
  lemma ClonedWalks(m: Mem, src: nat, n: Mem, dst: nat, level: nat)
    requires 1 <= level <= LAST && ClonedTo(m, src, n, dst, level, ENTRIES)
    ensures SameWalks(m, src, n, dst, level)
  {
    forall p: Page
      ensures Lookup(n, dst, level, p) == Lookup(m, src, level, p)
    {
      assert Cloned(m, m[src].entries[p[level - 1]], n, n[dst].entries[p[level - 1]], level);
    }
  }
}

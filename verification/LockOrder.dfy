/** Who waits for whom: deadlock is reachable exactly when the nesting of the locks has a ring. */
module LockOrder {
  import opened Wrappers
  import opened SpinLocks

  // ---- Waiting ----

  predicate WaitsFor(s: State, c: nat, d: nat)
  {
    c < |s.cpus| && d < |s.cpus| && s.cpus[c].want.Some? && s.cpus[c].want.value in HeldBy(s.cpus[d].thread)
  }

  /** Each CPU of the chain waits for the next. */
  predicate WaitChain(s: State, chain: seq<nat>)
  {
    forall i, j :: 0 <= i < |chain| && j == i + 1 && j < |chain| ==> WaitsFor(s, chain[i], chain[j])
  }

  predicate NoRepeat<T(==)>(xs: seq<T>)
  {
    forall i, j :: 0 <= i < j < |xs| ==> xs[i] != xs[j]
  }

  function Next(i: nat, n: nat): nat
  {
    if i + 1 == n then 0 else i + 1
  }

  /** Different CPUs, each waiting for the next and the last for the first: none of them ever moves again. */
  predicate Cycle(s: State, cs: seq<nat>)
  {
    && cs != [] && NoRepeat(cs)
    && forall i, j :: 0 <= i < |cs| && 0 <= j < |cs| && j == Next(i, |cs|) ==> WaitsFor(s, cs[i], cs[j])
  }

  ghost predicate Reachable(s: State, nest: Nesting, e: State)
  {
    exists run :: Reaches(s, nest, run, e)
  }

  ghost predicate Deadlocked(s: State)
  {
    exists cs :: Cycle(s, cs)
  }

  /** A CPU that is getting somewhere: running, or about to win its lock. */
  predicate CanMove(s: State, c: nat)
  {
    c < |s.cpus| && (s.cpus[c].want.None? || s.cpus[c].want.value !in s.locked)
  }

  /** Behind `c`, following holders, stands a CPU that can move. */
  ghost predicate Moves(s: State, c: nat)
  {
    exists chain :: LeadsToMover(s, c, chain)
  }

  predicate LeadsToMover(s: State, c: nat, chain: seq<nat>)
  {
    chain != [] && chain[0] == c && WaitChain(s, chain) && CanMove(s, chain[|chain| - 1])
  }

  /** Locks nested in a ring: each may be held while the next is taken, the last while the first is. */
  predicate Ring(nest: Nesting, ring: seq<Lock>)
  {
    && ring != [] && NoRepeat(ring)
    && forall i, j :: 0 <= i < |ring| && 0 <= j < |ring| && j == Next(i, |ring|) ==> (ring[i], ring[j]) in nest
  }

  // ---- No ring, no deadlock ----

  /** Different numbers below `n` are at most `n`. */
  lemma {:induction false} Pigeonhole(xs: seq<nat>, n: nat)
    requires NoRepeat(xs) && forall i :: 0 <= i < |xs| ==> xs[i] < n
    ensures |xs| <= n
    decreases n
  {
    if xs != [] {
      assert xs[0] < n;
      if n - 1 in xs {
        var k :| 0 <= k < |xs| && xs[k] == n - 1;
        Pigeonhole(xs[..k] + xs[k + 1..], n - 1);
      } else {
        Pigeonhole(xs, n - 1);
      }
    }
  }

  /** The end of a chain that comes back to one of its CPUs is a cycle. */
  lemma ChainCloses(s: State, chain: seq<nat>, k: nat)
    requires WaitChain(s, chain) && NoRepeat(chain) && k < |chain| && WaitsFor(s, chain[|chain| - 1], chain[k])
    ensures Cycle(s, chain[k..])
  {
    var cs := chain[k..];
    forall i, j | 0 <= i < |cs| && 0 <= j < |cs| && j == Next(i, |cs|)
      ensures WaitsFor(s, cs[i], cs[j])
    {
      assert cs[i] == chain[k + i] && cs[j] == chain[k + j];
      if i + 1 < |cs| { assert k + j == k + i + 1; }
    }
  }

  /** Follow holders from the end of a chain: to one that moves, or round a cycle. */
  lemma {:induction false} Follow(s: State, nest: Nesting, chain: seq<nat>) returns (all: seq<nat>, cycle: seq<nat>)
    requires Inv(s, nest) && chain != [] && NoRepeat(chain) && WaitChain(s, chain)
    requires forall i :: 0 <= i < |chain| ==> chain[i] < |s.cpus|
    ensures LeadsToMover(s, chain[0], all) || Cycle(s, cycle)
    decreases |s.cpus| - |chain|
  {
    hide CpuInv;
    var c := chain[|chain| - 1];
    all, cycle := chain, [];
    if !CanMove(s, c) {
      var d :| 0 <= d < |s.cpus| && s.cpus[c].want.value in HeldBy(s.cpus[d].thread);
      assert WaitsFor(s, c, d);
      if d in chain {
        var k :| 0 <= k < |chain| && chain[k] == d;
        ChainCloses(s, chain, k);
        cycle := chain[k..];
      } else {
        var longer := chain + [d];
        assert forall i :: 0 <= i < |chain| ==> longer[i] == chain[i];
        Pigeonhole(longer, |s.cpus|);
        all, cycle := Follow(s, nest, longer);
      }
    }
  }

  /** The locks a cycle of CPUs waits for are a ring of the nesting. */
  lemma CycleIsRing(s: State, nest: Nesting, cs: seq<nat>) returns (ring: seq<Lock>)
    requires Inv(s, nest) && Cycle(s, cs)
    ensures Ring(nest, ring) && |ring| == |cs| <= |s.cpus|
  {
    var n := |cs|;
    forall i | 0 <= i < n
      ensures cs[i] < |s.cpus| && s.cpus[cs[i]].want.Some?
    {
      assert WaitsFor(s, cs[i], cs[Next(i, n)]);
    }
    Pigeonhole(cs, |s.cpus|);
    ring := seq(n, i requires 0 <= i < n => s.cpus[cs[i]].want.value);
    forall i, j | 0 <= i < j < n
      ensures ring[i] != ring[j]
    {
      WantedApart(s, nest, cs, i, j);
    }
    forall i, j | 0 <= i < n && 0 <= j < n && j == Next(i, n)
      ensures (ring[i], ring[j]) in nest
    {
      assert WaitsFor(s, cs[i], cs[j]);
      InvCpu(s, nest, cs[j]);
    }
  }

  lemma WantedApart(s: State, nest: Nesting, cs: seq<nat>, i: nat, j: nat)
    requires Inv(s, nest) && Cycle(s, cs) && i < j < |cs|
    requires cs[i] < |s.cpus| && cs[j] < |s.cpus| && s.cpus[cs[i]].want.Some? && s.cpus[cs[j]].want.Some?
    ensures s.cpus[cs[i]].want.value != s.cpus[cs[j]].want.value
  {
    hide CpuInv;
    var x, y := cs[Next(i, |cs|)], cs[Next(j, |cs|)];
    assert WaitsFor(s, cs[i], x) && WaitsFor(s, cs[j], y) && x != y;
    assert HeldBy(s.cpus[x].thread) !! HeldBy(s.cpus[y].thread);
  }

  /** Without a ring short enough for its CPUs, every reachable state has someone moving behind every CPU. */
  lemma NoRingMoves(s: State, nest: Nesting, run: seq<Step>, e: State, c: nat)
    requires Init(s) && Reaches(s, nest, run, e) && c < |e.cpus|
    requires forall ring :: Ring(nest, ring) ==> |ring| > |s.cpus|
    ensures Moves(e, c)
  {
    InitInv(s, nest);
    RunInv(s, nest, run, e);
    CpusStay(s, nest, run, e);
    var all, cycle := Follow(e, nest, [c]);
    if Cycle(e, cycle) {
      var ring := CycleIsRing(e, nest, cycle);
      assert false;
    }
    assert LeadsToMover(e, c, all);
  }

  // ---- A ring, a deadlock ----

  /** A CPU with nothing open takes a free lock. */
  function Taking(p: Cpu, l: Lock): Cpu
  {
    Cpu(true, p.task, Thread(p.thread.base, [Saved(p.masked), Held(l)]), None)
  }

  lemma TakingHolds(p: Cpu, l: Lock)
    ensures HeldBy(Taking(p, l).thread) == {l} && Known(Taking(p, l).thread) == {l}
  {
    var t := Thread(p.thread.base, []);
    var u := Push(t, Saved(p.masked));
    PushPop(t, Saved(p.masked));
    PushPop(u, Held(l));
    assert Taking(p, l).thread.stack == Push(u, Held(l)).stack;
    assert HeldBy(u) == {} && Known(u) == {};
  }

  lemma TakeFirst(s: State, nest: Nesting, c: nat, l: Lock)
    requires Running(s, c) && s.cpus[c].thread.stack == [] && l !in s.locked
    ensures Reaches(s, nest, [Save(c), Want(c, l), Acquire(c)],
                    s.(cpus := s.cpus[c := Taking(s.cpus[c], l)], locked := s.locked + {l}))
  {
    var p := s.cpus[c];
    PushPop(p.thread, Saved(p.masked));
    var s1 := Apply(s, nest, Save(c));
    var s2 := Apply(s1, nest, Want(c, l));
    var s3 := Apply(s2, nest, Acquire(c));
    OneStep(s, nest, Save(c));
    OneStep(s1, nest, Want(c, l));
    OneStep(s2, nest, Acquire(c));
    ReachesThen(s, nest, [Save(c)], s1, [Want(c, l)], s2);
    ReachesThen(s, nest, [Save(c)] + [Want(c, l)], s2, [Acquire(c)], s3);
    assert [Save(c)] + [Want(c, l)] + [Acquire(c)] == [Save(c), Want(c, l), Acquire(c)];
    assert s3.cpus[c].thread.stack == [Saved(p.masked), Held(l)];
    assert s3.cpus == s.cpus[c := Taking(p, l)];
  }

  /** The first `n` CPUs hold one lock of the ring each. */
  predicate Took(s: State, ring: seq<Lock>, n: nat)
  {
    && n <= |ring| <= |s.cpus|
    && (forall c :: 0 <= c < n ==> s.cpus[c].want.None? && s.cpus[c].masked
                                   && HeldBy(s.cpus[c].thread) == {ring[c]} && Known(s.cpus[c].thread) == {ring[c]})
    && (forall c :: n <= c < |s.cpus| ==> s.cpus[c].want.None? && s.cpus[c].thread.stack == [])
    && (forall l :: l in s.locked ==> l in ring[..n])
  }

  lemma {:induction false} TakeRing(s: State, nest: Nesting, ring: seq<Lock>, n: nat) returns (run: seq<Step>, e: State)
    requires Init(s) && Ring(nest, ring) && n <= |ring| <= |s.cpus|
    ensures Reaches(s, nest, run, e) && |e.cpus| == |s.cpus| && Took(e, ring, n)
    decreases n
  {
    if n == 0 {
      return [], s;
    }
    var m;
    run, m := TakeRing(s, nest, ring, n - 1);
    var c := n - 1;
    assert ring[c] !in ring[..c];
    TakeFirst(m, nest, c, ring[c]);
    TakingHolds(m.cpus[c], ring[c]);
    e := m.(cpus := m.cpus[c := Taking(m.cpus[c], ring[c])], locked := m.locked + {ring[c]});
    ReachesThen(s, nest, run, m, [Save(c), Want(c, ring[c]), Acquire(c)], e);
    run := run + [Save(c), Want(c, ring[c]), Acquire(c)];
    assert ring[..n] == ring[..c] + [ring[c]];
  }

  /** ...and the first `n` of them now want the next one. */
  predicate Wanting(s: State, ring: seq<Lock>, n: nat)
  {
    && n <= |ring| <= |s.cpus|
    && forall c :: 0 <= c < |ring| ==>
         && s.cpus[c].masked && HeldBy(s.cpus[c].thread) == {ring[c]} && Known(s.cpus[c].thread) == {ring[c]}
         && s.cpus[c].want == if c < n then Some(ring[Next(c, |ring|)]) else None
  }

  /** The next CPU of the ring reaches for the lock of the one after it. */
  lemma WantStep(m: State, nest: Nesting, ring: seq<Lock>, c: nat)
    requires c < |ring| && Ring(nest, ring) && Wanting(m, ring, c)
    ensures var t := Want(c, ring[Next(c, |ring|)]);
            && Enabled(m, nest, t) && |Apply(m, nest, t).cpus| == |m.cpus| && Wanting(Apply(m, nest, t), ring, c + 1)
  {
    hide HeldBy, Known;
    assert (ring[c], ring[Next(c, |ring|)]) in nest;
  }

  lemma NoSteps(s: State, nest: Nesting)
    ensures Reaches(s, nest, [], s)
  {
  }

  lemma {:induction false} WantRing(s: State, nest: Nesting, ring: seq<Lock>, n: nat) returns (run: seq<Step>, e: State)
    requires Took(s, ring, |ring|) && Ring(nest, ring) && n <= |ring|
    ensures Reaches(s, nest, run, e) && |e.cpus| == |s.cpus| && Wanting(e, ring, n)
    decreases n
  {
    hide HeldBy, Known, Reaches, Enabled, Apply, Ring;
    if n == 0 {
      NoSteps(s, nest);
      return [], s;
    }
    hide Wanting, Took;
    var m;
    run, m := WantRing(s, nest, ring, n - 1);
    var t := Want(n - 1, ring[Next(n - 1, |ring|)]);
    WantStep(m, nest, ring, n - 1);
    e := Apply(m, nest, t);
    OneStep(m, nest, t);
    ReachesThen(s, nest, run, m, [t], e);
    run := run + [t];
  }

  /** A ring in the nesting deadlocks as many CPUs as it has locks. */
  lemma RingDeadlocks(s: State, nest: Nesting, ring: seq<Lock>) returns (run: seq<Step>, e: State, cs: seq<nat>)
    requires Init(s) && Ring(nest, ring) && |ring| <= |s.cpus|
    ensures Reaches(s, nest, run, e) && |e.cpus| == |s.cpus| && Cycle(e, cs) && |cs| == |ring| && 0 in cs
  {
    var m, more;
    run, m := TakeRing(s, nest, ring, |ring|);
    more, e := WantRing(m, nest, ring, |ring|);
    ReachesThen(s, nest, run, m, more, e);
    run := run + more;
    cs := seq(|ring|, i => i);
    assert cs[0] == 0;
  }

  lemma OneHolder(s: State, nest: Nesting, c: nat, d: nat, x: nat)
    requires Inv(s, nest) && WaitsFor(s, c, d) && WaitsFor(s, c, x)
    ensures d == x
  {
    hide CpuInv;
  }

  /** Nobody behind a CPU of a cycle can move: its chains never leave the cycle. */
  lemma {:induction false} CycleHolds(s: State, nest: Nesting, cs: seq<nat>, chain: seq<nat>, k: nat)
    requires Inv(s, nest) && Cycle(s, cs) && WaitChain(s, chain) && k < |chain| && chain[0] in cs
    ensures chain[k] in cs && !CanMove(s, chain[k])
    decreases k
  {
    hide CpuInv;
    if k > 0 {
      CycleHolds(s, nest, cs, chain, k - 1);
      var i :| 0 <= i < |cs| && cs[i] == chain[k - 1];
      var d := cs[Next(i, |cs|)];
      assert WaitsFor(s, chain[k - 1], chain[k]) && WaitsFor(s, cs[i], d);
      OneHolder(s, nest, chain[k - 1], chain[k], d);
    }
    var i :| 0 <= i < |cs| && cs[i] == chain[k];
    assert WaitsFor(s, cs[i], cs[Next(i, |cs|)]);
  }

  /**
   * The exact condition, for any number of CPUs: every CPU of every reachable state has someone moving
   * behind it if and only if the nesting has no ring of at most that many locks.
   */
  lemma MovesIffNoRing(s: State, nest: Nesting)
    requires Init(s)
    ensures (forall e, c: nat :: Reachable(s, nest, e) && c < |e.cpus| ==> Moves(e, c)) <==>
            (forall ring :: Ring(nest, ring) ==> |ring| > |s.cpus|)
  {
    if forall ring :: Ring(nest, ring) ==> |ring| > |s.cpus| {
      forall e, c: nat | Reachable(s, nest, e) && c < |e.cpus|
        ensures Moves(e, c)
      {
        var run :| Reaches(s, nest, run, e);
        NoRingMoves(s, nest, run, e, c);
      }
    } else {
      var ring :| Ring(nest, ring) && |ring| <= |s.cpus|;
      var e := RingStops(s, nest, ring);
    }
  }

  lemma RingStops(s: State, nest: Nesting, ring: seq<Lock>) returns (e: State)
    requires Init(s) && Ring(nest, ring) && |ring| <= |s.cpus|
    ensures Reachable(s, nest, e) && 0 < |e.cpus| && !Moves(e, 0)
  {
    var run, cs;
    run, e, cs := RingDeadlocks(s, nest, ring);
    InitInv(s, nest);
    RunInv(s, nest, run, e);
    forall chain: seq<nat>
      ensures !LeadsToMover(e, 0, chain)
    {
      if chain != [] && chain[0] == 0 && WaitChain(e, chain) { CycleHolds(e, nest, cs, chain, |chain| - 1); }
    }
  }

  lemma {:induction false} CpusStay(s: State, nest: Nesting, run: seq<Step>, e: State)
    requires Reaches(s, nest, run, e)
    ensures |e.cpus| == |s.cpus|
    decreases |run|
  {
    if run != [] { CpusStay(Apply(s, nest, run[0]), nest, run[1..], e); }
  }

  /** Likewise for the cycle itself. */
  lemma DeadlockIffRing(s: State, nest: Nesting)
    requires Init(s)
    ensures (exists e :: Reachable(s, nest, e) && Deadlocked(e)) <==>
            (exists ring :: Ring(nest, ring) && |ring| <= |s.cpus|)
  {
    if e :| Reachable(s, nest, e) && Deadlocked(e) {
      var run :| Reaches(s, nest, run, e);
      var cs :| Cycle(e, cs);
      InitInv(s, nest);
      RunInv(s, nest, run, e);
      CpusStay(s, nest, run, e);
      var ring := CycleIsRing(e, nest, cs);
    }
    if ring :| Ring(nest, ring) && |ring| <= |s.cpus| {
      var run, e, cs := RingDeadlocks(s, nest, ring);
      assert Reachable(s, nest, e) && Deadlocked(e);
    }
  }

  // ---- Ranks ----

  /** A rank that every permitted nesting climbs. */
  ghost predicate Ranked(nest: Nesting, rank: Lock -> nat)
  {
    forall h, l :: (h, l) in nest ==> rank(h) < rank(l)
  }

  lemma {:induction false} RingClimbs(nest: Nesting, rank: Lock -> nat, ring: seq<Lock>, i: nat)
    requires Ranked(nest, rank) && Ring(nest, ring) && i < |ring|
    ensures rank(ring[0]) <= rank(ring[i])
    decreases i
  {
    if i > 0 {
      RingClimbs(nest, rank, ring, i - 1);
      assert i == Next(i - 1, |ring|);
    }
  }

  lemma RankedHasNoRing(nest: Nesting, rank: Lock -> nat, ring: seq<Lock>)
    requires Ranked(nest, rank)
    ensures !Ring(nest, ring)
  {
    if Ring(nest, ring) {
      RingClimbs(nest, rank, ring, |ring| - 1);
    }
  }

  /** Each lock may be taken inside the next one listed: a path walked against the nesting. */
  predicate Backwards(nest: Nesting, path: seq<Lock>)
  {
    forall i, j :: 0 <= i < |path| && j == i + 1 && j < |path| ==> (path[j], path[i]) in nest
  }

  /** A path that comes back to itself is a ring, read the other way. */
  lemma PathCloses(nest: Nesting, path: seq<Lock>, k: nat) returns (ring: seq<Lock>)
    requires Backwards(nest, path) && NoRepeat(path) && k < |path| && (path[k], path[|path| - 1]) in nest
    ensures Ring(nest, ring)
  {
    var n := |path| - k;
    ring := seq(n, i requires 0 <= i < n => path[|path| - 1 - i]);
    forall i, j | 0 <= i < n && 0 <= j < n && j == Next(i, n)
      ensures (ring[i], ring[j]) in nest
    {
      if i + 1 < n { assert |path| - 1 - i == (|path| - 1 - j) + 1; }
    }
  }

  /** Walk back from the end of a path inside `u`: to a lock nothing in `u` is held around, or round a ring. */
  lemma {:induction false} FindFirst(nest: Nesting, u: set<Lock>, path: seq<Lock>) returns (l: Lock, ring: seq<Lock>)
    requires path != [] && NoRepeat(path) && Backwards(nest, path)
    requires forall i :: 0 <= i < |path| ==> path[i] in u
    ensures Ring(nest, ring) || (l in u && forall h :: h in u ==> (h, l) !in nest)
    decreases |u| - |path|
  {
    l, ring := path[|path| - 1], [];
    if h :| h in u && (h, l) in nest {
      if h in path {
        var k :| 0 <= k < |path| && path[k] == h;
        ring := PathCloses(nest, path, k);
      } else {
        var longer := path + [h];
        assert forall i :: 0 <= i < |path| ==> longer[i] == path[i];
        DistinctFit(longer, u);
        l, ring := FindFirst(nest, u, longer);
      }
    }
  }

  lemma {:induction false} DistinctFit(xs: seq<Lock>, u: set<Lock>)
    requires NoRepeat(xs) && forall i :: 0 <= i < |xs| ==> xs[i] in u
    ensures |xs| <= |u|
    decreases |xs|
  {
    if xs != [] {
      var k := |xs| - 1;
      DistinctFit(xs[..k], u - {xs[k]});
    }
  }

  /** The locks of `u` in an order their nesting climbs. */
  predicate Listed(nest: Nesting, u: set<Lock>, order: seq<Lock>)
  {
    && (forall l :: l in u <==> l in order)
    && (forall i, j :: 0 <= i <= j < |order| ==> (order[j], order[i]) !in nest)
  }

  lemma {:induction false} ListLocks(nest: Nesting, u: set<Lock>) returns (order: seq<Lock>)
    requires forall ring :: !Ring(nest, ring)
    ensures Listed(nest, u, order)
    decreases |u|
  {
    order := [];
    if u != {} {
      var some :| some in u;
      var l, ring := FindFirst(nest, u, [some]);
      assert !Ring(nest, ring);
      var rest := ListLocks(nest, u - {l});
      order := [l] + rest;
      assert forall i :: 1 <= i < |order| ==> order[i] == rest[i - 1] && rest[i - 1] in rest;
    }
  }

  function Place(order: seq<Lock>, l: Lock): (n: nat)
    ensures n <= |order| && (l in order ==> n < |order| && order[n] == l)
  {
    if order == [] || order[0] == l then 0 else 1 + Place(order[1..], l)
  }

  /** A nesting can be ranked exactly when it has no ring. */
  lemma RankedIffNoRing(nest: Nesting)
    ensures (exists rank :: Ranked(nest, rank)) <==> (forall ring :: !Ring(nest, ring))
  {
    if exists rank :: Ranked(nest, rank) {
      var rank :| Ranked(nest, rank);
      forall ring: seq<Lock>
        ensures !Ring(nest, ring)
      {
        RankedHasNoRing(nest, rank, ring);
      }
    }
    if forall ring :: !Ring(nest, ring) {
      var u := (set p | p in nest :: p.0) + (set p | p in nest :: p.1);
      var order := ListLocks(nest, u);
      var rank: Lock -> nat := l => Place(order, l);
      forall h, l | (h, l) in nest
        ensures rank(h) < rank(l)
      {
        assert (h, l).0 in u && (h, l).1 in u;
        assert order[Place(order, h)] == h && order[Place(order, l)] == l;
      }
      assert Ranked(nest, rank);
    }
  }

  // ---- The kernel's own nestings ----

  /** Read off the call sites, the arguments of their print macros included: first held, then taken. */
  function KernelNesting(): Nesting
  {
    { // The receive line's plan steps reach the transmit handle.
      (Line, Tx),
      // The loader holds its side tables across a spawn and its messages.
      (Side, Sched), (Side, Tx), (Side, Heap), (Side, Map), (Side, Ipc),
      // The idle report evaluates its counters inside the transmit section.
      (Tx, Sched), (Tx, Frames),
      // A stack released under the scheduler lock remaps its guard page and goes back to the heap.
      (Sched, Map), (Sched, Heap),
      // The status tick reads the heap; confirming a calibration writes the region and the touch driver.
      (Status, Heap), (Status, Durable), (Status, Touch),
      // Display and touch share one bus.
      (Spi0Gate, Display), (Spi0Gate, Touch),
      // Polling the lease prints, and replacing one gives its pages back.
      (Lease, Tx), (Lease, Frames) }
  }

  function KernelRank(l: Lock): nat
  {
    match l
    case Side => 0
    case Line => 0
    case Status => 0
    case Spi0Gate => 0
    case Lease => 0
    case Tx => 1
    case Sched => 2
    case _ => 3
  }

  lemma KernelIsRanked()
    ensures Ranked(KernelNesting(), KernelRank)
  {
  }

  /** With the nestings the kernel has, on any number of CPUs, no deadlock is reachable and someone always moves. */
  lemma KernelNeverDeadlocks(s: State, run: seq<Step>, e: State, c: nat)
    requires Init(s) && Reaches(s, KernelNesting(), run, e) && c < |e.cpus|
    ensures !Deadlocked(e) && Moves(e, c)
  {
    hide KernelNesting;
    KernelIsRanked();
    forall ring: seq<Lock>
      ensures !Ring(KernelNesting(), ring)
    {
      RankedHasNoRing(KernelNesting(), KernelRank, ring);
    }
    DeadlockIffRing(s, KernelNesting());
    assert Reachable(s, KernelNesting(), e);
    NoRingMoves(s, KernelNesting(), run, e, c);
  }

  /** The panic handler takes the transmit lock whatever is held: raised inside a transmit section, it hangs. */
  lemma PanicUnderTxHangs(s: State, nest: Nesting) returns (run: seq<Step>, e: State)
    requires Init(s) && s.cpus != [] && nest == KernelNesting() + {(Tx, Tx)}
    ensures Reaches(s, nest, run, e) && WaitsFor(e, 0, 0)
  {
    hide KernelNesting;
    var cs;
    run, e, cs := RingDeadlocks(s, nest, [Tx]);
    assert WaitsFor(e, cs[0], cs[Next(0, 1)]);
  }
}

/** The physical frame pool, and the books of one address space over it. */
module FrameBooks {
  import opened Wrappers
  import opened PageTables

  const MAX_AS_FRAMES: nat := 256

  datatype AsError =
    | OutOfFrames | LedgerFull | NoKernelRoot | BadTable | AlreadyPrepared
    | PacketPoolNotGranted | PacketPoolAlreadyMapped | Unaligned | OutOfRange | OutOfAsid

  function SetOf(s: seq<nat>): set<nat>
  {
    set f | f in s
  }

  predicate NoRepeat(s: seq<nat>)
  {
    forall i, j :: 0 <= i < j < |s| ==> s[i] != s[j]
  }

  /** A page-aligned, non-null address that fits a descriptor. */
  predicate FrameAddress(f: nat)
  {
    0 < f < PA_END && f % PAGE_SIZE == 0
  }

  /** Physical memory and the frame pool over part of it. */
  class Machine {
    /** Every frame the pool was built over. */
    ghost const pool: set<nat>
    /** `Level::index` at the three levels: which entries the walk for an address uses. */
    const index: nat -> Page
    /** The free stack; the top is the last element. */
    var free: seq<nat>
    var inUse: set<nat>
    var mem: Mem
    /** Tags the TLB may hold entries under. */
    var cached: set<nat>

    /** A pool of `frames`, all free. */
    constructor (frames: seq<nat>, mem: Mem, index: nat -> Page)
      requires NoRepeat(frames) && forall f :: f in frames ==> FrameAddress(f) && f in mem
      ensures pool == SetOf(frames) && free == frames && inUse == {} && this.mem == mem && this.index == index && cached == {}
      ensures PoolSound(pool, free, inUse, this.mem)
    {
      pool, free, inUse, this.mem, this.index, cached := SetOf(frames), frames, {}, mem, index, {};
    }

    /** `frames::alloc`: the top of the free stack. */
    method Alloc() returns (r: Option<nat>)
      requires PoolSound(pool, free, inUse, mem)
      modifies this`free, this`inUse
      ensures PoolSound(pool, free, inUse, mem)
      ensures r.None? <==> old(free) == []
      ensures r.None? ==> free == old(free) && inUse == old(inUse)
      ensures r.Some? ==> r.value !in old(inUse) && r.value in pool && r.value !in free
                          && inUse == old(inUse) + {r.value} && old(free) == free + [r.value]
    {
      if free == [] {
        return None;
      }
      var f := free[|free| - 1];
      free := free[..|free| - 1];
      inUse := inUse + {f};
      r := Some(f);
    }

    /** `mmu::invalidate_asid`: every entry under the tag is gone. */
    method Invalidate(asid: nat)
      modifies this`cached
      ensures cached == old(cached) - {asid}
    {
      cached := cached - {asid};
    }

    /** `frames::free`: refused unless the frame is in use, so a double free changes nothing. */
    method Free(f: nat) returns (ok: bool)
      requires PoolSound(pool, free, inUse, mem)
      modifies this`free, this`inUse
      ensures PoolSound(pool, free, inUse, mem)
      ensures ok <==> f in old(inUse)
      ensures inUse == old(inUse) - {f}
      ensures free == if ok then old(free) + [f] else old(free)
    {
      if f !in inUse {
        return false;
      }
      inUse := inUse - {f};
      free := free + [f];
      return true;
    }
  }

  /** Each pool frame is free once or in use, never both; all are real memory. */
  predicate PoolSound(pool: set<nat>, free: seq<nat>, inUse: set<nat>, mem: Mem)
  {
    && NoRepeat(free)
    && SetOf(free) !! inUse
    && SetOf(free) + inUse == pool
    && forall f :: f in pool ==> FrameAddress(f) && f in mem
  }

  // ---- One space's books ----

  /** Everything a space's table operations can change. */
  datatype Books = Books(
    owned: seq<nat>,
    home: Homes,
    leaked: set<nat>,
    free: seq<nat>,
    inUse: set<nat>,
    mem: Mem)

  /** Frames in use by anyone else. */
  function Others(b: Books): set<nat>
  {
    b.inUse - SetOf(b.owned) - b.leaked
  }

  predicate Sound(b: Books, pool: set<nat>, root: nat)
  {
    && PoolSound(pool, b.free, b.inUse, b.mem)
    && NoRepeat(b.owned) && |b.owned| <= MAX_AS_FRAMES
    && SetOf(b.owned) <= b.inUse && b.leaked <= b.inUse && SetOf(b.owned) !! b.leaked
    && root in b.home && b.home[root] == []
    && b.home.Keys <= SetOf(b.owned)
    && Consistent(b.mem, b.home)
  }

  /** `b` grew out of `a`: frames only move from the pool into this space, and only its own change. */
  predicate Grows(a: Books, b: Books)
  {
    && a.owned <= b.owned
    && a.leaked <= b.leaked
    && Others(a) == Others(b)
    && (forall f :: f in a.home ==> f in b.home && b.home[f] == a.home[f])
    && b.home.Keys - a.home.Keys <= SetOf(b.owned) - SetOf(a.owned)
    && SetOf(b.owned) - SetOf(a.owned) !! a.inUse
    && a.inUse <= b.inUse
    && a.mem.Keys == b.mem.Keys
    && (forall g :: g in a.mem && g !in SetOf(b.owned) ==> b.mem[g] == a.mem[g])
  }

  /** A frame is lost exactly when the ledger refuses it, and then only that one; out of frames means none is left. */
  predicate LeakRule(a: Books, b: Books, r: Option<AsError>)
  {
    && (r == Some(OutOfFrames) ==> b.free == [])
    && (r != Some(LedgerFull) ==> b.leaked == a.leaked)
    && (r == Some(LedgerFull) ==> |b.owned| == MAX_AS_FRAMES && |b.leaked| == |a.leaked| + 1)
  }

  /** How any operation ends: books sound, nothing foreign touched, at most the one frame lost. */
  predicate Settled(a: Books, b: Books, pool: set<nat>, root: nat, r: Option<AsError>)
  {
    Sound(b, pool, root) && Grows(a, b) && LeakRule(a, b, r)
  }

  /** A success followed by anything ends as the second does. */
  lemma SettledThen(a: Books, b: Books, c: Books, pool: set<nat>, root: nat, r: Option<AsError>)
    requires Settled(a, b, pool, root, None) && Settled(b, c, pool, root, r)
    ensures Settled(a, c, pool, root, r)
  {
    GrowsTransitive(a, b, c);
  }

  lemma SettledStill(a: Books, pool: set<nat>, root: nat, r: Option<AsError>)
    requires Sound(a, pool, root) && r != Some(LedgerFull) && r != Some(OutOfFrames)
    ensures Settled(a, a, pool, root, r)
  {
    GrowsReflexive(a);
  }

  lemma GrowsReflexive(a: Books)
    ensures Grows(a, a)
  {
  }

  lemma GrowsTransitive(a: Books, b: Books, c: Books)
    requires Grows(a, b) && Grows(b, c)
    ensures Grows(a, c)
  {
    PrefixSubset(a.owned, b.owned);
    PrefixSubset(b.owned, c.owned);
    forall f | f in c.home && f !in a.home
      ensures f in SetOf(c.owned) - SetOf(a.owned)
    {
      if f in b.home { assert f in SetOf(b.owned) - SetOf(a.owned); } else { assert f in SetOf(c.owned) - SetOf(b.owned); }
    }
  }

  lemma PrefixSubset(s: seq<nat>, t: seq<nat>)
    requires s <= t
    ensures SetOf(s) <= SetOf(t)
  {
  }

  /** What a space does never touches memory outside its own frames: the kernel's tables, another space. */
  lemma GrowsKeepsForeign(a: Books, b: Books, pool: set<nat>, root: nat, f: nat)
    requires Grows(a, b) && Sound(a, pool, root) && Sound(b, pool, root) && f in a.mem
    requires f !in pool || f in Others(a) || f in a.leaked
    ensures b.mem[f] == a.mem[f]
  {
    assert f in Others(a) ==> f in Others(b);
    assert f !in SetOf(b.owned);
  }

  // ---- Taking one frame ----

  /** The top of the free stack goes into the ledger. */
  function Took(b: Books): Books
    requires b.free != []
  {
    var f := b.free[|b.free| - 1];
    b.(free := b.free[..|b.free| - 1], inUse := b.inUse + {f}, owned := b.owned + [f])
  }

  /** The ledger refuses it: nobody holds it any more. */
  function Lost(b: Books): Books
    requires b.free != []
  {
    var f := b.free[|b.free| - 1];
    b.(free := b.free[..|b.free| - 1], inUse := b.inUse + {f}, leaked := b.leaked + {f})
  }

  lemma PopSound(pool: set<nat>, free: seq<nat>, inUse: set<nat>, mem: Mem)
    requires PoolSound(pool, free, inUse, mem) && free != []
    ensures var f := free[|free| - 1];
            f in pool && f !in inUse && PoolSound(pool, free[..|free| - 1], inUse + {f}, mem)
  {
    var f := free[|free| - 1];
    assert f in SetOf(free);
    assert SetOf(free) == SetOf(free[..|free| - 1]) + {f};
  }

  lemma TookSound(b: Books, pool: set<nat>, root: nat)
    requires Sound(b, pool, root) && b.free != [] && |b.owned| < MAX_AS_FRAMES
    ensures Sound(Took(b), pool, root) && Grows(b, Took(b))
  {
    var f := b.free[|b.free| - 1];
    PopSound(pool, b.free, b.inUse, b.mem);
    assert SetOf(b.owned + [f]) == SetOf(b.owned) + {f};
  }

  lemma LostSound(b: Books, pool: set<nat>, root: nat)
    requires Sound(b, pool, root) && b.free != [] && |b.owned| == MAX_AS_FRAMES
    ensures Sound(Lost(b), pool, root) && Grows(b, Lost(b)) && LeakRule(b, Lost(b), Some(LedgerFull))
  {
    PopSound(pool, b.free, b.inUse, b.mem);
  }

  // ---- Writing tables ----

  /** Memory changed only inside owned frames, tables still consistent. */
  lemma RewriteSound(b: Books, pool: set<nat>, root: nat, home: Homes, mem: Mem)
    requires Sound(b, pool, root)
    requires mem.Keys == b.mem.Keys && Consistent(mem, home)
    requires root in home && home[root] == [] && home.Keys <= SetOf(b.owned)
    ensures Sound(b.(home := home, mem := mem), pool, root)
  {
  }
}

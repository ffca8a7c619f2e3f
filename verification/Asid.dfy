/** The ASID bitmap pool and the TTBR0 word it tags. */
module Asid {
  import opened Wrappers

  const ASID_COUNT: nat := 256
  const KERNEL_ASID: nat := 0

  // ---- The set the bitmap stands for ----

  /** Tags are one to 255; the kernel's is never free. */
  predicate Tags(free: set<nat>)
  {
    forall a :: a in free ==> 0 < a < ASID_COUNT
  }

  /** How far the wrapping scan from `start` travels to reach `a`. */
  function Distance(start: nat, a: nat): (d: nat)
    requires start < ASID_COUNT && a < ASID_COUNT
    ensures d < ASID_COUNT && (start + d) % ASID_COUNT == a
  {
    if a >= start then a - start else a + ASID_COUNT - start
  }

  /** One probe further. */
  lemma DistanceNext(start: nat, i: nat)
    requires start < ASID_COUNT && i < ASID_COUNT
    ensures var j := (i + 1) % ASID_COUNT;
            j < ASID_COUNT &&
            Distance(start, j) == if Distance(start, i) + 1 < ASID_COUNT then Distance(start, i) + 1 else 0
  {
  }

  /** The first free tag cyclically from `start`. */
  predicate Nearest(free: set<nat>, start: nat, a: nat)
    requires start < ASID_COUNT && Tags(free)
  {
    a in free && forall b :: b in free ==> Distance(start, a) <= Distance(start, b)
  }

  /** There is one exactly when some tag is free, and never two. */
  lemma {:induction false} NearestExists(free: set<nat>, start: nat) returns (a: nat)
    requires start < ASID_COUNT && Tags(free) && free != {}
    ensures Nearest(free, start, a)
    ensures forall b :: Nearest(free, start, b) ==> b == a
    decreases |free|
  {
    a :| a in free;
    if free != {a} {
      var rest := NearestExists(free - {a}, start);
      if Distance(start, rest) < Distance(start, a) { a := rest; }
    }
    forall b | Nearest(free, start, b)
      ensures b == a
    {
      assert Distance(start, a) == Distance(start, b);
    }
  }

  /** A probe that hits is the nearest; one that misses rules out its own distance. */
  lemma Probe(free: set<nat>, start: nat, i: nat)
    requires start < ASID_COUNT && i < ASID_COUNT && Tags(free) && free != {}
    requires forall b :: b in free ==> Distance(start, i) <= Distance(start, b)
    ensures i in free ==> Nearest(free, start, i)
    ensures i !in free ==> forall b :: b in free ==> Distance(start, i) + 1 <= Distance(start, b)
    ensures i !in free ==> Distance(start, i) + 1 < ASID_COUNT
  {
    var b :| b in free;
  }

  // ---- The pool ----

  /** One bitmap word, least significant bit first. */
  type Word64 = w: seq<bool> | |w| == 64 witness Ones()

  function Ones(): (w: seq<bool>)
    ensures |w| == 64 && forall i :: 0 <= i < 64 ==> w[i]
  {
    seq(64, i => true)
  }

  class Pool {
    const words: array<Word64>
    var next: nat
    var freeCount: nat

    predicate BitSet(a: nat)
      requires words.Length == 4 && a < ASID_COUNT
      reads words
    {
      words[a / 64][a % 64]
    }

    /** The free tags. */
    ghost function Free(): (s: set<nat>)
      requires words.Length == 4
      reads words
      ensures forall a: nat :: a in s <==> a < ASID_COUNT && BitSet(a)
    {
      set a: nat | a < ASID_COUNT && BitSet(a)
    }

    ghost predicate Valid()
      reads this, words
    {
      words.Length == 4 && next < ASID_COUNT && Tags(Free()) && freeCount == |Free()|
    }

    constructor ()
      ensures Valid() && fresh(words) && next == 1
      ensures forall a :: a in Free() <==> 0 < a < ASID_COUNT
    {
      words := new Word64[4](i => Ones());
      next := 1;
      freeCount := ASID_COUNT - 1;
      new;
      words[0] := words[0][0 := false];
      FullSize(Free(), ASID_COUNT - 1);
    }

    predicate IsFree(asid: nat)
      requires words.Length == 4
      reads words
    {
      asid >= ASID_COUNT || BitSet(asid)
    }

    method MarkUsed(a: nat)
      requires words.Length == 4 && a < ASID_COUNT
      modifies words
      ensures Free() == old(Free()) - {a}
    {
      words[a / 64] := words[a / 64][a % 64 := false];
      assert forall b :: b in Free() <==> b in old(Free()) - {a};
    }

    method MarkFree(a: nat)
      requires words.Length == 4 && a < ASID_COUNT
      modifies words
      ensures Free() == old(Free()) + {a}
    {
      words[a / 64] := words[a / 64][a % 64 := true];
      assert forall b :: b in Free() <==> b in old(Free()) + {a};
    }

    /** Hand out tag `a` and leave the hint just past it. */
    method Take(a: nat)
      requires Valid() && a in Free()
      modifies this, words
      ensures Valid() && Free() == old(Free()) - {a} && next == (a + 1) % ASID_COUNT
    {
      MarkUsed(a);
      freeCount := freeCount - 1;
      next := (a + 1) % ASID_COUNT;
    }

    /** `alloc`: the nearest free tag from the hint, exactly when some tag is free. */
    method Alloc() returns (r: Option<nat>)
      requires Valid()
      modifies this, words
      ensures Valid()
      ensures r.None? <==> old(Free()) == {}
      ensures r.Some? ==> r.value in old(Free()) && 0 < r.value < ASID_COUNT
      ensures r.Some? ==> Nearest(old(Free()), old(next), r.value)
                          && Free() == old(Free()) - {r.value} && next == (r.value + 1) % ASID_COUNT
      ensures r.None? ==> Free() == old(Free()) && next == old(next)
    {
      if freeCount == 0 {
        return None;
      }
      var start: nat := next % ASID_COUNT;
      var i: nat := start;
      ghost var free := Free();
      assert start == next;
      while true
        invariant i < ASID_COUNT
        invariant unchanged(this) && unchanged(words)
        invariant forall b :: b in free ==> Distance(start, i) <= Distance(start, b)
        decreases ASID_COUNT - Distance(start, i)
      {
        Probe(free, start, i);
        DistanceNext(start, i);
        if i != KERNEL_ASID && IsFree(i) {
          assert i in Free() && Free() == free;
          assert Nearest(free, start, i);
          Take(i);
          return Some(i);
        }
        i := (i + 1) % ASID_COUNT;
        if i == start {
          // The code's defensive `None`: a whole turn cannot miss the tag that is free.
          assert false;
        }
      }
    }

    /** `free`: succeeds exactly on live tags. */
    method Release(asid: nat) returns (ok: bool)
      requires Valid()
      modifies this, words
      ensures Valid() && next == old(next)
      ensures ok <==> 0 < asid < ASID_COUNT && asid !in old(Free())
      ensures Free() == if ok then old(Free()) + {asid} else old(Free())
    {
      if asid == KERNEL_ASID || asid >= ASID_COUNT {
        return false;
      }
      if IsFree(asid) {
        return false;
      }
      MarkFree(asid);
      freeCount := freeCount + 1;
      return true;
    }
  }

  function UpTo(n: nat): (s: set<nat>)
    ensures |s| == n && forall a: nat :: a in s <==> 0 < a <= n
  {
    if n == 0 then {} else UpTo(n - 1) + {n}
  }

  lemma FullSize(s: set<nat>, n: nat)
    requires forall a :: a in s <==> 0 < a <= n
    ensures |s| == n
  {
    assert s == UpTo(n);
  }

  // ---- TTBR0 ----

  const ROOT_END: nat := 0x1_0000_0000_0000

  function PackTtbr0(root: nat, asid: nat): nat
  {
    root % ROOT_END + asid % ASID_COUNT * ROOT_END
  }

  function UnpackRoot(ttbr: nat): nat
  {
    ttbr % ROOT_END
  }

  function UnpackAsid(ttbr: nat): nat
  {
    ttbr / ROOT_END % 0x1_0000 % ASID_COUNT
  }

  /** The tag stands in bits 48 to 55 and the root below it; bits 56 and up are clear. */
  lemma Ttbr0Bits(root: nat, asid: nat)
    ensures PackTtbr0(root, asid) / 0x1_0000_0000_0000 == asid % 256
    ensures PackTtbr0(root, asid) % 0x1_0000_0000_0000 == root % 0x1_0000_0000_0000
    ensures PackTtbr0(root, asid) < 0x100_0000_0000_0000
  {
  }

  /** A legal root and tag come back, so two spaces with different tags never share a TTBR0. */
  lemma Ttbr0RoundTrip(root: nat, asid: nat)
    ensures UnpackRoot(PackTtbr0(root, asid)) == root % ROOT_END
    ensures UnpackAsid(PackTtbr0(root, asid)) == asid % ASID_COUNT
  {
  }
}

/**
 * What the checksum is, apart from how it is computed: the complemented remainder of a polynomial
 * division (IEEE Std 802.3, section 3.2.9).
 */
module CrcDivision {
  import opened Bytes
  import opened Crc

  // ---- Polynomials over two elements, highest power first ----

  /** The powers of the generator. */
  predicate Power(k: nat)
  {
    k in {32, 26, 23, 22, 16, 12, 11, 10, 8, 7, 5, 4, 2, 1, 0}
  }

  function Generator(): (g: seq<bool>)
    ensures |g| == 33
  {
    seq(33, i requires 0 <= i < 33 => Power(32 - i))
  }

  function Plus(p: seq<bool>, q: seq<bool>): (r: seq<bool>)
    requires |p| == |q|
    ensures |r| == |p| && forall i :: 0 <= i < |r| ==> r[i] == (p[i] != q[i])
  {
    seq(|p|, i requires 0 <= i < |p| => p[i] != q[i])
  }

  /** The generator times `q`. */
  function Times(q: seq<bool>): (p: seq<bool>)
    ensures |p| == |q| + 32
  {
    if q == [] then Fill(32, false) else Plus(Leading(q[0], |q| - 1), [false] + Times(q[1..]))
  }

  /** The generator, or nothing, times the power `n`. */
  function Leading(b: bool, n: nat): (p: seq<bool>)
    ensures |p| == n + 33
  {
    if b then Generator() + Fill(n, false) else Fill(n + 33, false)
  }

  /** `p` is a multiple of the generator plus `r`. */
  ghost predicate Remainder(p: seq<bool>, r: Word)
  {
    exists q: seq<bool> :: |q| + 32 == |p| && p == Sum(q, r)
  }

  function Sum(q: seq<bool>, r: Word): (p: seq<bool>)
    ensures |p| == |q| + 32
  {
    Plus(Times(q), Fill(|q|, false) + r)
  }

  /** The message shifted by 32, its first 32 bits complemented. */
  function Dividend(s: seq<byte>): seq<bool>
  {
    var u := BitsOf(s) + Fill(32, false);
    seq(|u|, i requires 0 <= i < |u| => u[i] != (i < 32))
  }

  /** Bit `i` of a message is bit `i % 8` of its byte `i / 8`. */
  lemma {:induction false} BitsOfAt(s: seq<byte>, i: nat, j: nat)
    requires i < |s| && j < 8
    ensures BitsOf(s)[8 * i + j] <==> s[i] as nat / Pow2(j) % 2 == 1
    decreases i
  {
    hide ToBits, Pow2;
    if i == 0 {
      ToBitsAt(s[0] as nat, 8, j);
    } else {
      BitsOfAt(s[1..], i - 1, j);
      assert BitsOf(s) == ToBits(s[0] as nat, 8) + BitsOf(s[1..]);
    }
  }

  lemma {:induction false} ToBitsAt(v: nat, n: nat, i: nat)
    requires i < n
    ensures ToBits(v, n)[i] <==> v / Pow2(i) % 2 == 1
    decreases n
  {
    if i > 0 {
      ToBitsAt(v / 2, n - 1, i - 1);
      HalfTwice(v, Pow2(i - 1));
    }
  }

  lemma HalfTwice(v: nat, p: nat)
    requires p > 0
    ensures v / 2 / p == v / (2 * p)
  {
    var a, b := v / 2, v % 2;
    var q, r := a / p, a % p;
    assert v == 2 * (q * p + r) + b;
    assert v == (2 * p) * q + (2 * r + b) && 0 <= 2 * r + b < 2 * p;
    QuotientUnique(v, 2 * p, q, 2 * r + b);
  }

  // ---- One step of the division is one shift of the register ----

  lemma TimesAt(q: seq<bool>, i: nat)
    requires q != [] && i < |q| + 31
    ensures Times(q)[0] == q[0]
    ensures Times(q)[i + 1] == ((q[0] && i < 32 && Power(31 - i)) != Times(q[1..])[i])
  {
    hide Leading, Power;
    LeadingAt(q[0], |q| - 1, i);
    var g, t := Leading(q[0], |q| - 1), [false] + Times(q[1..]);
    assert Times(q) == Plus(g, t) && t[0] == false && t[i + 1] == Times(q[1..])[i];
  }

  lemma LeadingAt(b: bool, n: nat, i: nat)
    requires i < n + 32
    ensures Leading(b, n)[0] == b && Leading(b, n)[i + 1] == (b && i < 32 && Power(31 - i))
  {
    hide Power;
    PowerTop();
  }

  lemma PowerTop()
    ensures Power(32)
  {
  }

  /** `p` with its highest power divided away. */
  predicate Reduced(p: seq<bool>, d: seq<bool>)
  {
    |p| == |d| + 1 && |d| >= 32
    && forall i :: 0 <= i < |d| ==> d[i] == (p[i + 1] != (p[0] && i < 32 && Power(31 - i)))
  }

  lemma ReduceStep(p: seq<bool>, d: seq<bool>, q: seq<bool>, r: Word)
    requires Reduced(p, d) && |q| + 32 == |p|
    ensures p == Sum(q, r) <==> q[0] == p[0] && d == Sum(q[1..], r)
  {
    hide Power, Times;
    var t, e := Sum(q, r), Sum(q[1..], r);
    TimesAt(q, 0);
    assert t[0] == q[0];
    forall i | 0 <= i < |d|
      ensures t[i + 1] == ((q[0] && i < 32 && Power(31 - i)) != e[i])
    {
      TimesAt(q, i);
      assert (Fill(|q|, false) + r)[i + 1] == (Fill(|q| - 1, false) + r)[i];
    }
    if p == t {
      assert forall i :: 0 <= i < |d| ==> d[i] == e[i];
    }
    if q[0] == p[0] && d == e {
      forall i | 0 <= i < |p|
        ensures p[i] == t[i]
      {
        if i > 0 { assert d[i - 1] == e[i - 1]; }
      }
    }
  }

  /** The reflected polynomial is the generator without its highest power. */
  lemma PolyIsGenerator(i: nat)
    requires i < 32
    ensures PolyBit(i) <==> Power(31 - i)
  {
    hide Pow2;
    Pow2Table();
    OneOf32(i);
  }

  lemma OneOf32(i: int)
    requires 0 <= i < 32
    ensures i in {0, 1, 2, 3, 4, 5, 6, 7} || i in {8, 9, 10, 11, 12, 13, 14, 15}
         || i in {16, 17, 18, 19, 20, 21, 22, 23} || i in {24, 25, 26, 27, 28, 29, 30, 31}
  {
  }

  lemma Pow2Table()
    ensures Pow2(0) == 0x1 && Pow2(1) == 0x2 && Pow2(2) == 0x4 && Pow2(3) == 0x8
    ensures Pow2(4) == 0x10 && Pow2(5) == 0x20 && Pow2(6) == 0x40 && Pow2(7) == 0x80
    ensures Pow2(8) == 0x100 && Pow2(9) == 0x200 && Pow2(10) == 0x400 && Pow2(11) == 0x800
    ensures Pow2(12) == 0x1000 && Pow2(13) == 0x2000 && Pow2(14) == 0x4000 && Pow2(15) == 0x8000
    ensures Pow2(16) == 0x10000 && Pow2(17) == 0x20000 && Pow2(18) == 0x40000 && Pow2(19) == 0x80000
    ensures Pow2(20) == 0x100000 && Pow2(21) == 0x200000 && Pow2(22) == 0x400000 && Pow2(23) == 0x800000
    ensures Pow2(24) == 0x1000000 && Pow2(25) == 0x2000000 && Pow2(26) == 0x4000000 && Pow2(27) == 0x8000000
    ensures Pow2(28) == 0x10000000 && Pow2(29) == 0x20000000 && Pow2(30) == 0x40000000 && Pow2(31) == 0x80000000
  {
    hide Pow2;
    Doubles(0);
    Doubles(4);
    Doubles(8);
    Doubles(12);
    Doubles(16);
    Doubles(20);
    Doubles(24);
    Doubles(28);
  }

  lemma Doubles(n: nat)
    ensures Pow2(0) == 1 && Pow2(n + 1) == 2 * Pow2(n) && Pow2(n + 2) == 4 * Pow2(n)
    ensures Pow2(n + 3) == 8 * Pow2(n) && Pow2(n + 4) == 16 * Pow2(n)
  {
    assert Pow2(n + 2) == 2 * Pow2(n + 1) && Pow2(n + 3) == 2 * Pow2(n + 2) && Pow2(n + 4) == 2 * Pow2(n + 3);
  }

  /** A register laid over the message still to come. */
  function Laid(c: Word, u: seq<bool>): (p: seq<bool>)
    ensures |p| == |u| + 32
  {
    seq(|u| + 32, i requires 0 <= i < |u| + 32 => (i < |u| && u[i]) != (i < 32 && c[i]))
  }

  lemma LaidReduces(c: Word, u: seq<bool>)
    requires u != []
    ensures Reduced(Laid(c, u), Laid(Bit(Xor(c, One(u[0]))), u[1..]))
  {
    hide Power, PolyBit;
    var p, x := Laid(c, u), Xor(c, One(u[0]));
    var d := Laid(Bit(x), u[1..]);
    assert x[0] == p[0];
    forall i | 0 <= i < |d|
      ensures d[i] == (p[i + 1] != (p[0] && i < 32 && Power(31 - i)))
    {
      if i < 32 { PolyIsGenerator(i); }
      if i < 31 { assert x[i + 1] == c[i + 1]; }
    }
  }

  /** Feeding bits to the register is dividing what it is laid over. */
  lemma {:induction false} FeedIsRemainder(c: Word, u: seq<bool>, r: Word)
    ensures Remainder(Laid(c, u), r) <==> r == FeedBits(c, u)
    decreases |u|
  {
    hide Sum, Laid, Reduced, Bit, Xor, One;
    if u == [] {
      NothingLeft(c, r);
    } else {
      var d := Bit(Xor(c, One(u[0])));
      LaidReduces(c, u);
      FeedIsRemainder(d, u[1..], r);
      RemainderStep(Laid(c, u), Laid(d, u[1..]), r);
    }
  }

  lemma NothingLeft(c: Word, r: Word)
    ensures Remainder(Laid(c, []), r) <==> r == c
  {
    assert Laid(c, []) == c;
    assert forall q: seq<bool> :: |q| == 0 ==> q == [];
    assert Sum([], r) == r;
  }

  lemma RemainderStep(p: seq<bool>, d: seq<bool>, r: Word)
    requires Reduced(p, d)
    ensures Remainder(p, r) <==> Remainder(d, r)
  {
    hide Sum;
    if Remainder(p, r) {
      var q :| |q| + 32 == |p| && p == Sum(q, r);
      ReduceStep(p, d, q, r);
    }
    if Remainder(d, r) {
      var e :| |e| + 32 == |d| && d == Sum(e, r);
      var q := [p[0]] + e;
      assert q[1..] == e;
      ReduceStep(p, d, q, r);
    }
  }

  /**
   * The checksum is the complement of the remainder of the message, shifted by 32 and with its first 32
   * bits complemented, by the generator: bit `i` of the number is the power `31 - i`. There is exactly
   * one such number of 32 bits.
   */
  lemma Crc32IsRemainder(s: seq<byte>, r: Word)
    ensures Remainder(Dividend(s), r) <==> forall i :: 0 <= i < 32 ==> (Crc32(s) / Pow2(i) % 2 == 1 <==> !r[i])
  {
    hide Feed, FeedBits, BitsOf, Pow2, FromBits, ToBits, Remainder;
    var reg := Feed(INIT, s, 8);
    FeedIsBits(INIT, s, 8);
    assert Dividend(s) == Laid(INIT, BitsOf(s));
    FeedIsRemainder(INIT, BitsOf(s), r);
    ValueOfBits(Not(reg));
    forall i | 0 <= i < 32
      ensures Crc32(s) / Pow2(i) % 2 == 1 <==> !reg[i]
    {
      ToBitsAt(Crc32(s), 32, i);
      assert Not(reg)[i] == !reg[i];
    }
  }
}

/** The media header's CRC-32 (IEEE Std 802.3, section 3.2.9): reflected, one bit at a time. */
module Crc {
  import opened Bytes

  /** A 32-bit register, least significant bit first. */
  type Word = w: seq<bool> | |w| == 32 witness Fill(32, false)

  function Fill(n: nat, b: bool): (s: seq<bool>)
    ensures |s| == n && forall i :: 0 <= i < n ==> s[i] == b
  {
    seq(n, i => b)
  }

  /** The low `n` bits of `v`. */
  function ToBits(v: nat, n: nat): (b: seq<bool>)
    ensures |b| == n
  {
    if n == 0 then [] else [v % 2 == 1] + ToBits(v / 2, n - 1)
  }

  /** The number a run of bits denotes. */
  function FromBits(b: seq<bool>): nat
  {
    if b == [] then 0 else (if b[0] then 1 else 0) + 2 * FromBits(b[1..])
  }

  function Pow2(n: nat): (p: nat)
    ensures p > 0
  {
    if n == 0 then 1 else 2 * Pow2(n - 1)
  }

  function Xor(a: Word, b: Word): Word
  {
    seq(32, i requires 0 <= i < 32 => a[i] != b[i])
  }

  function Not(a: Word): Word
  {
    seq(32, i requires 0 <= i < 32 => !a[i])
  }

  const ZERO: Word := Fill(32, false)
  const INIT: Word := Fill(32, true)

  /** Bit `i` of the reflected polynomial `0xEDB8_8320`. */
  predicate PolyBit(i: nat)
  {
    0xEDB8_8320 / Pow2(i) % 2 == 1
  }

  function Poly(): Word
  {
    seq(32, i requires 0 <= i < 32 => PolyBit(i))
  }

  /** One register shift: `(crc >> 1) ^ mask`, the mask being the polynomial when a one falls out. */
  function Bit(c: Word): Word
  {
    seq(32, i requires 0 <= i < 32 => (i < 31 && c[i + 1]) != (c[0] && PolyBit(i)))
  }

  function Bits(c: Word, n: nat): Word
    decreases n
  {
    if n == 0 then c else Bits(Bit(c), n - 1)
  }

  /** A byte in the low eight bits of a word. */
  function Low(b: byte): Word
  {
    ToBits(b as nat, 8) + Fill(24, false)
  }

  /** Fold bytes into the register, `n` shifts for each. */
  function Feed(c: Word, s: seq<byte>, n: nat): Word
    decreases |s|
  {
    if s == [] then c else Feed(Bits(Xor(c, Low(s[0])), n), s[1..], n)
  }

  function Checksum(s: seq<byte>): Word
  {
    Not(Feed(INIT, s, 8))
  }

  /** The number `crc32` returns. */
  function Crc32(s: seq<byte>): nat
  {
    FromBits(Checksum(s))
  }

  // ---- The code's loops compute that function ----

  lemma {:induction false} BitsSnoc(c: Word, n: nat)
    ensures Bits(c, n + 1) == Bit(Bits(c, n))
    decreases n
  {
    if n > 0 { BitsSnoc(Bit(c), n - 1); }
  }

  lemma {:induction false} FeedAppend(c: Word, s: seq<byte>, t: seq<byte>, n: nat)
    ensures Feed(c, s + t, n) == Feed(Feed(c, s, n), t, n)
    decreases |s|
  {
    if s == [] {
      assert s + t == t;
    } else {
      assert (s + t)[1..] == s[1..] + t;
      FeedAppend(Bits(Xor(c, Low(s[0])), n), s[1..], t, n);
    }
  }

  lemma ShiftIsBit(r: Word)
    ensures Xor(r[1..] + [false], if r[0] then Poly() else ZERO) == Bit(r)
  {
  }

  lemma FeedNext(c: Word, s: seq<byte>, i: nat, n: nat)
    requires i < |s|
    ensures Feed(c, s[..i + 1], n) == Bits(Xor(Feed(c, s[..i], n), Low(s[i])), n)
  {
    assert s[..i + 1] == s[..i] + [s[i]];
    FeedAppend(c, s[..i], [s[i]], n);
    var r := Feed(c, s[..i], n);
    assert Feed(r, [s[i]], n) == Feed(Bits(Xor(r, Low(s[i])), n), [], n);
  }

  /** The inner loop of `crc32`: eight shifts. */
  method ShiftEight(start: Word) returns (reg: Word)
    ensures reg == Bits(start, 8)
  {
    reg := start;
    var bit := 0;
    while bit < 8
      invariant 0 <= bit <= 8
      invariant reg == Bits(start, bit)
    {
      BitsSnoc(start, bit);
      ShiftIsBit(reg);
      var mask: Word := if reg[0] then Poly() else ZERO;
      reg := Xor(reg[1..] + [false], mask);
      bit := bit + 1;
    }
  }

  /** `crc32`: fold every byte into the register, then complement it. */
  method ComputeCrc32(bytes: seq<byte>) returns (crc: nat)
    ensures crc == Crc32(bytes)
  {
    var reg: Word := INIT;
    var i := 0;
    while i < |bytes|
      invariant 0 <= i <= |bytes|
      invariant reg == Feed(INIT, bytes[..i], 8)
    {
      FeedNext(INIT, bytes, i, 8);
      reg := ShiftEight(Xor(reg, Low(bytes[i])));
      i := i + 1;
    }
    assert bytes[..i] == bytes;
    crc := FromBits(Not(reg));
  }

  // ---- The register step is linear and one to one ----

  lemma {:induction false} BitsOfValue(v: nat, n: nat)
    requires v < Pow2(n)
    ensures FromBits(ToBits(v, n)) == v
  {
    if n > 0 {
      BitsOfValue(v / 2, n - 1);
      assert ToBits(v, n)[1..] == ToBits(v / 2, n - 1);
    }
  }

  lemma {:induction false} ValueOfBits(b: seq<bool>)
    ensures FromBits(b) < Pow2(|b|) && ToBits(FromBits(b), |b|) == b
  {
    if b != [] {
      ValueOfBits(b[1..]);
      assert FromBits(b) / 2 == FromBits(b[1..]);
      assert (FromBits(b) % 2 == 1) == b[0];
      assert b == [b[0]] + b[1..];
    }
  }

  lemma Crc32Fits(s: seq<byte>)
    ensures Crc32(s) < U32_END
  {
    ValueOfBits(Checksum(s));
    Pow2Of32();
  }

  lemma Pow2Of32()
    ensures Pow2(8) == 256 && Pow2(32) == U32_END
  {
    Pow2Add(16, 16);
    Pow2Add(8, 8);
    assert Pow2(8) == 2 * (2 * (2 * (2 * Pow2(4)))) && Pow2(4) == 2 * (2 * (2 * (2 * Pow2(0))));
  }

  lemma {:induction false} Pow2Add(m: nat, n: nat)
    ensures Pow2(m + n) == Pow2(m) * Pow2(n)
  {
    if m > 0 {
      Pow2Add(m - 1, n);
      assert Pow2(m) * Pow2(n) == 2 * (Pow2(m - 1) * Pow2(n));
    }
  }

  /** The polynomial's top bit is set, so the bit shifted out can be read back. */
  lemma PolyTop()
    ensures PolyBit(31)
  {
    Pow2Of32();
    assert Pow2(32) == 2 * Pow2(31);
  }

  lemma {:induction false} BitsLinear(a: Word, b: Word, n: nat)
    ensures Bits(Xor(a, b), n) == Xor(Bits(a, n), Bits(b, n))
    decreases n
  {
    if n > 0 {
      assert Bit(Xor(a, b)) == Xor(Bit(a), Bit(b));
      BitsLinear(Bit(a), Bit(b), n - 1);
    }
  }

  lemma BitInjective(a: Word, b: Word)
    requires Bit(a) == Bit(b)
    ensures a == b
  {
    PolyTop();
    assert Bit(a)[31] == a[0] && Bit(b)[31] == b[0];
    forall i | 0 <= i < 32
      ensures a[i] == b[i]
    {
      if i > 0 {
        assert Bit(a)[i - 1] == Bit(b)[i - 1];
      }
    }
  }

  lemma {:induction false} BitsInjective(a: Word, b: Word, n: nat)
    requires Bits(a, n) == Bits(b, n)
    ensures a == b
    decreases n
  {
    if n > 0 {
      BitsInjective(Bit(a), Bit(b), n - 1);
      BitInjective(a, b);
    }
  }

  lemma XorInjective(a: Word, b: Word, m: Word)
    requires Xor(a, m) == Xor(b, m)
    ensures a == b
  {
    forall i | 0 <= i < 32
      ensures a[i] == b[i]
    {
      assert Xor(a, m)[i] == Xor(b, m)[i];
    }
  }

  // ---- Bit by bit ----

  /** One bit in the lowest place of a word. */
  function One(b: bool): Word
  {
    [b] + Fill(31, false)
  }

  /** Fold bits into the register, one shift for each. */
  function FeedBits(c: Word, u: seq<bool>): Word
    decreases |u|
  {
    if u == [] then c else FeedBits(Bit(Xor(c, One(u[0]))), u[1..])
  }

  /** A message as the wire sees it: bytes in order, each lowest bit first. */
  function BitsOf(s: seq<byte>): (u: seq<bool>)
    ensures |u| == 8 * |s|
  {
    if s == [] then [] else ToBits(s[0] as nat, 8) + BitsOf(s[1..])
  }

  /** At most 32 bits in the low places of a word. */
  function Wide(u: seq<bool>): Word
    requires |u| <= 32
  {
    u + Fill(32 - |u|, false)
  }

  lemma {:induction false} FeedBitsAppend(c: Word, u: seq<bool>, v: seq<bool>)
    ensures FeedBits(c, u + v) == FeedBits(FeedBits(c, u), v)
    decreases |u|
  {
    if u == [] {
      assert u + v == v;
    } else {
      assert (u + v)[1..] == u[1..] + v;
      FeedBitsAppend(Bit(Xor(c, One(u[0]))), u[1..], v);
    }
  }

  /** What lies above the lowest bit moves down unharmed. */
  lemma ShiftUnder(a: Word, u: seq<bool>)
    requires u != [] && |u| <= 32
    ensures Bit(Xor(a, Wide(u))) == Xor(Bit(Xor(a, One(u[0]))), Wide(u[1..]))
  {
    var x, y := Xor(a, Wide(u)), Xor(a, One(u[0]));
    assert x[0] == y[0];
    forall i | 0 <= i < 32
      ensures Bit(x)[i] == (Bit(y)[i] != Wide(u[1..])[i])
    {
      if i < 31 { assert Wide(u)[i + 1] == Wide(u[1..])[i]; }
    }
  }

  /** Absorbing bits that fit one word is one exclusive-or with that word, then the shifts. */
  lemma {:induction false} FeedBitsIsWord(c: Word, u: seq<bool>)
    requires |u| <= 32
    ensures FeedBits(c, u) == Bits(Xor(c, Wide(u)), |u|)
    decreases |u|
  {
    hide One, Wide, Bit;
    if u == [] {
      XorNothing(c);
    } else {
      FeedBitsIsWord(Bit(Xor(c, One(u[0]))), u[1..]);
      ShiftUnder(c, u);
    }
  }

  lemma XorNothing(c: Word)
    ensures Xor(c, Wide([])) == c
  {
  }

  /** The byte loop and the bit loop leave the same register. */
  lemma {:induction false} FeedIsBits(c: Word, s: seq<byte>, n: nat)
    requires n == 8
    ensures Feed(c, s, n) == FeedBits(c, BitsOf(s))
    decreases |s|
  {
    hide ToBits, Bits;
    if s != [] {
      var u := ToBits(s[0] as nat, 8);
      FeedBitsIsWord(c, u);
      assert Wide(u) == Low(s[0]);
      FeedBitsAppend(c, u, BitsOf(s[1..]));
      FeedIsBits(Bits(Xor(c, Low(s[0])), n), s[1..], n);
    }
  }

  /** Two registers that differ still differ after the same bits. */
  lemma {:induction false} FeedBitsInjective(a: Word, b: Word, u: seq<bool>)
    requires FeedBits(a, u) == FeedBits(b, u)
    ensures a == b
    decreases |u|
  {
    hide One, Bit, Xor;
    if u != [] {
      var m := One(u[0]);
      FeedBitsInjective(Bit(Xor(a, m)), Bit(Xor(b, m)), u[1..]);
      BitInjective(Xor(a, m), Xor(b, m));
      XorInjective(a, b, m);
    }
  }

  // ---- Bursts ----

  lemma XorCommutes(a: Word, b: Word)
    ensures Xor(a, b) == Xor(b, a)
  {
  }

  lemma WideInjective(u: seq<bool>, v: seq<bool>)
    requires |u| == |v| <= 32 && Wide(u) == Wide(v)
    ensures u == v
  {
    assert u == Wide(u)[..|u|] && v == Wide(v)[..|u|];
  }

  lemma ShortDetected(c: Word, u: seq<bool>, v: seq<bool>)
    requires |u| == |v| <= 32 && FeedBits(c, u) == FeedBits(c, v)
    ensures u == v
  {
    hide Wide, Xor, Bits, FeedBits;
    FeedBitsIsWord(c, u);
    FeedBitsIsWord(c, v);
    BitsInjective(Xor(c, Wide(u)), Xor(c, Wide(v)), |u|);
    XorCommutes(c, Wide(u));
    XorCommutes(c, Wide(v));
    XorInjective(Wide(u), Wide(v), c);
    WideInjective(u, v);
  }

  /** Equal registers after equal surroundings mean equal middles. */
  lemma MiddleDetected(c: Word, pre: seq<bool>, u: seq<bool>, v: seq<bool>, post: seq<bool>)
    requires |u| == |v| <= 32 && FeedBits(c, pre + u + post) == FeedBits(c, pre + v + post)
    ensures u == v
  {
    hide FeedBits;
    FeedBitsAppend(c, pre + u, post);
    FeedBitsAppend(c, pre + v, post);
    FeedBitsAppend(c, pre, u);
    FeedBitsAppend(c, pre, v);
    var r := FeedBits(c, pre);
    FeedBitsInjective(FeedBits(r, u), FeedBits(r, v), post);
    ShortDetected(r, u, v);
  }

  lemma Crc32Injective(a: Word, b: Word)
    requires FromBits(Not(a)) == FromBits(Not(b))
    ensures a == b
  {
    ValueOfBits(Not(a));
    ValueOfBits(Not(b));
    forall i | 0 <= i < 32
      ensures a[i] == b[i]
    {
      assert Not(a)[i] == Not(b)[i];
    }
  }

  /**
   * A burst is always detected: messages of any length whose bits differ only inside 32 adjacent
   * ones, at any bit offset, have different checksums.
   */
  lemma BurstDetected(s: seq<byte>, t: seq<byte>, pre: seq<bool>, u: seq<bool>, v: seq<bool>, post: seq<bool>)
    requires BitsOf(s) == pre + u + post && BitsOf(t) == pre + v + post && |u| == |v| <= 32 && u != v
    ensures Crc32(s) != Crc32(t)
  {
    hide Feed, FeedBits, Not, FromBits;
    if Crc32(s) == Crc32(t) {
      Crc32Injective(Feed(INIT, s, 8), Feed(INIT, t, 8));
      FeedIsBits(INIT, s, 8);
      FeedIsBits(INIT, t, 8);
      MiddleDetected(INIT, pre, u, v, post);
    }
  }

  lemma {:induction false} BitsOfAppend(s: seq<byte>, t: seq<byte>)
    ensures BitsOf(s + t) == BitsOf(s) + BitsOf(t)
    decreases |s|
  {
    hide ToBits;
    if s == [] {
      assert s + t == t;
    } else {
      assert (s + t)[1..] == s[1..] + t;
      BitsOfAppend(s[1..], t);
    }
  }

  lemma {:induction false} BitsOfInjective(s: seq<byte>, t: seq<byte>)
    requires BitsOf(s) == BitsOf(t) && |s| == |t|
    ensures s == t
    decreases |s|
  {
    hide ToBits;
    if s != [] {
      var a, b := ToBits(s[0] as nat, 8), ToBits(t[0] as nat, 8);
      assert a == BitsOf(s)[..8] && b == BitsOf(t)[..8];
      Pow2Of32();
      BitsOfValue(s[0] as nat, 8);
      BitsOfValue(t[0] as nat, 8);
      assert BitsOf(s[1..]) == BitsOf(s)[8..] && BitsOf(t[1..]) == BitsOf(t)[8..];
      BitsOfInjective(s[1..], t[1..]);
      assert s == [s[0]] + s[1..] && t == [t[0]] + t[1..];
    }
  }

  /** In particular four adjacent bytes. */
  lemma BytesDetected(pre: seq<byte>, s: seq<byte>, t: seq<byte>, post: seq<byte>)
    requires |s| == |t| <= 4 && s != t
    ensures Crc32(pre + s + post) != Crc32(pre + t + post)
  {
    hide BitsOf, Crc32;
    BitsOfAppend(pre + s, post);
    BitsOfAppend(pre + t, post);
    BitsOfAppend(pre, s);
    BitsOfAppend(pre, t);
    if BitsOf(s) == BitsOf(t) { BitsOfInjective(s, t); }
    BurstDetected(pre + s + post, pre + t + post, BitsOf(pre), BitsOf(s), BitsOf(t), BitsOf(post));
  }

  // ---- Any checksum can be had ----

  /** The register before a shift: the bit that fell out is the top one. */
  function UnBit(r: Word): Word
  {
    [r[31]] + seq(31, i requires 0 <= i < 31 => r[i] != (r[31] && PolyBit(i)))
  }

  lemma BitUnBit(r: Word)
    ensures Bit(UnBit(r)) == r
  {
    PolyTop();
    var c := UnBit(r);
    forall i | 0 <= i < 32
      ensures Bit(c)[i] == r[i]
    {
      if i < 31 { assert c[i + 1] == (r[i] != (r[31] && PolyBit(i))); }
    }
  }

  lemma {:induction false} BitsOnto(r: Word, n: nat) returns (c: Word)
    ensures Bits(c, n) == r
    decreases n
  {
    hide Bit, UnBit;
    c := r;
    if n > 0 {
      var d := BitsOnto(r, n - 1);
      c := UnBit(d);
      BitUnBit(d);
    }
  }

  lemma XorTwice(a: Word, b: Word)
    ensures Xor(a, Xor(b, a)) == b
  {
  }

  /** Any 32 bits are four bytes. */
  lemma {:induction false} BytesOf(u: seq<bool>, n: nat) returns (s: seq<byte>)
    requires |u| == 8 * n
    ensures |s| == n && BitsOf(s) == u
    decreases n
  {
    hide ToBits, FromBits;
    s := [];
    if n > 0 {
      ValueOfBits(u[..8]);
      Pow2Of32();
      var rest := BytesOf(u[8..], n - 1);
      s := [FromBits(u[..8]) as byte] + rest;
      assert s[1..] == rest;
      assert u == u[..8] + u[8..];
    }
  }

  /** Four bytes after any message reach any register... */
  lemma RegisterOnto(c: Word, r: Word) returns (s: seq<byte>)
    ensures |s| == 4 && FeedBits(c, BitsOf(s)) == r
  {
    hide Xor, Bits, FeedBits, BitsOf;
    var x := BitsOnto(r, 32);
    var u := Xor(x, c);
    s := BytesOf(u, 4);
    FeedBitsIsWord(c, u);
    assert Wide(u) == u;
    XorTwice(c, x);
  }

  /** ...so any 32-bit number is the checksum of some continuation of any message. */
  lemma Crc32Onto(pre: seq<byte>, v: nat) returns (s: seq<byte>)
    requires v < U32_END
    ensures |s| == 4 && Crc32(pre + s) == v
  {
    hide Feed, FeedBits, BitsOf, ToBits, FromBits;
    Pow2Of32();
    BitsOfValue(v, 32);
    var r := Not(ToBits(v, 32));
    s := RegisterOnto(FeedBits(INIT, BitsOf(pre)), r);
    FeedIsBits(INIT, pre + s, 8);
    BitsOfAppend(pre, s);
    FeedBitsAppend(INIT, BitsOf(pre), BitsOf(s));
    assert Not(r) == ToBits(v, 32);
  }
}

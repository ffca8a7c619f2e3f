/** The checksum's published check value, worked out in machine words. */
module CrcCheck {
  import opened Bytes
  import opened Crc
  import opened CrcDivision

  // ---- Machine words ----

  function Mask(i: nat): bv32
  {
    if i == 0 then 1 else Mask(i - 1) << 1
  }

  predicate Hits(b: bv32, m: bv32)
  {
    b & m != 0
  }

  predicate On(b: bv32, i: nat)
  {
    Hits(b, Mask(i))
  }

  predicate OneBit(m: bv32)
  {
    m & (m - 1) == 0
  }

  /** The register as a machine word holds it. */
  function Of(b: bv32): Word
  {
    seq(32, i requires 0 <= i < 32 => On(b, i))
  }

  function Shift(b: bv32): bv32
  {
    if Hits(b, 1) then (b >> 1) ^ 0xEDB8_8320 else b >> 1
  }

  function Shifts(b: bv32, n: nat): bv32
    decreases n
  {
    if n == 0 then b else Shifts(Shift(b), n - 1)
  }

  lemma {:induction false} MaskIsOneBit(i: nat)
    ensures OneBit(Mask(i))
    decreases i
  {
    if i > 0 {
      MaskIsOneBit(i - 1);
      OneBitUp(Mask(i - 1));
    }
  }

  lemma OneBitUp(m: bv32)
    requires OneBit(m)
    ensures OneBit(m << 1)
  {
  }

  lemma OneBitXor(a: bv32, b: bv32, m: bv32)
    requires OneBit(m)
    ensures Hits(a ^ b, m) <==> Hits(a, m) != Hits(b, m)
  {
  }

  lemma OneBitDown(b: bv32, m: bv32)
    requires OneBit(m)
    ensures Hits(b >> 1, m) <==> Hits(b, m << 1)
  {
  }

  lemma MaskTable()
    ensures Mask(0) == 0x1 && Mask(1) == 0x2 && Mask(2) == 0x4 && Mask(3) == 0x8
    ensures Mask(4) == 0x10 && Mask(5) == 0x20 && Mask(6) == 0x40 && Mask(7) == 0x80
    ensures Mask(8) == 0x100 && Mask(9) == 0x200 && Mask(10) == 0x400 && Mask(11) == 0x800
    ensures Mask(12) == 0x1000 && Mask(13) == 0x2000 && Mask(14) == 0x4000 && Mask(15) == 0x8000
    ensures Mask(16) == 0x10000 && Mask(17) == 0x20000 && Mask(18) == 0x40000 && Mask(19) == 0x80000
    ensures Mask(20) == 0x100000 && Mask(21) == 0x200000 && Mask(22) == 0x400000 && Mask(23) == 0x800000
    ensures Mask(24) == 0x1000000 && Mask(25) == 0x2000000 && Mask(26) == 0x4000000 && Mask(27) == 0x8000000
    ensures Mask(28) == 0x10000000 && Mask(29) == 0x20000000 && Mask(30) == 0x40000000 && Mask(31) == 0x80000000
    ensures Mask(32) == 0
  {
    hide Mask;
    MaskUp(0); MaskUp(1); MaskUp(2); MaskUp(3); MaskUp(4); MaskUp(5); MaskUp(6); MaskUp(7);
    MaskUp(8); MaskUp(9); MaskUp(10); MaskUp(11); MaskUp(12); MaskUp(13); MaskUp(14); MaskUp(15);
    MaskUp(16); MaskUp(17); MaskUp(18); MaskUp(19); MaskUp(20); MaskUp(21); MaskUp(22); MaskUp(23);
    MaskUp(24); MaskUp(25); MaskUp(26); MaskUp(27); MaskUp(28); MaskUp(29); MaskUp(30); MaskUp(31);
  }

  lemma MaskUp(n: nat)
    ensures Mask(0) == 1 && Mask(n + 1) == Mask(n) << 1
  {
  }

  lemma PolyMask(i: nat)
    requires i < 32
    ensures On(0xEDB8_8320, i) <==> PolyBit(i)
  {
    hide Mask, PolyBit;
    MaskTable();
    PolyIsGenerator(i);
    OneOf32(i);
  }

  lemma XorOf(a: bv32, b: bv32)
    ensures Xor(Of(a), Of(b)) == Of(a ^ b)
  {
    hide On;
    forall i | 0 <= i < 32
      ensures Xor(Of(a), Of(b))[i] == Of(a ^ b)[i]
    {
      XorAt(a, b, i);
    }
  }

  lemma XorAt(a: bv32, b: bv32, i: nat)
    ensures On(a ^ b, i) <==> On(a, i) != On(b, i)
  {
    hide Hits, OneBit;
    MaskIsOneBit(i);
    OneBitXor(a, b, Mask(i));
  }

  lemma BitOf(b: bv32)
    ensures Bit(Of(b)) == Of(Shift(b))
  {
    hide PolyBit, On, Shift;
    forall i | 0 <= i < 32
      ensures Bit(Of(b))[i] == Of(Shift(b))[i]
    {
      BitAt(b, i);
    }
  }

  lemma BitAt(b: bv32, i: nat)
    requires i < 32
    ensures On(Shift(b), i) <==> (i < 31 && On(b, i + 1)) != (On(b, 0) && PolyBit(i))
  {
    hide PolyBit, On, Shift;
    ShiftOn(b, i);
    PolyMask(i);
    NothingAbove(b);
  }

  lemma NothingAbove(b: bv32)
    ensures !On(b, 32)
  {
    hide Mask;
    MaskTable();
  }

  lemma ShiftOn(b: bv32, i: nat)
    ensures On(Shift(b), i) <==> On(b, i + 1) != (On(b, 0) && On(0xEDB8_8320, i))
  {
    hide Shift, Hits, OneBit, Mask;
    MaskIsOneBit(i);
    MaskUp(i);
    ShiftMask(b, Mask(i));
  }

  lemma ShiftMask(b: bv32, m: bv32)
    requires OneBit(m)
    ensures Hits(Shift(b), m) <==> Hits(b, m << 1) != (Hits(b, 1) && Hits(0xEDB8_8320, m))
  {
    hide Hits, OneBit;
    OneBitDown(b, m);
    OneBitXor(b >> 1, 0xEDB8_8320, m);
  }

  lemma {:induction false} BitsOfWord(b: bv32, n: nat)
    ensures Bits(Of(b), n) == Of(Shifts(b, n))
    decreases n
  {
    hide Of, Bit, Shift;
    if n > 0 {
      BitOf(b);
      BitsOfWord(Shift(b), n - 1);
    }
  }

  /** A byte as a machine word. */
  lemma LowOf(d: byte, b: bv32)
    requires b & 0xFFFF_FF00 == 0 && forall i: nat :: i < 8 ==> (d as nat / Pow2(i) % 2 == 1 <==> On(b, i))
    ensures Low(d) == Of(b)
  {
    hide On, ToBits, Pow2;
    forall i | 0 <= i < 32
      ensures Low(d)[i] == Of(b)[i]
    {
      if i < 8 { ToBitsAt(d as nat, 8, i); } else { HighMask(b, i); }
    }
  }

  lemma HighMask(b: bv32, i: nat)
    requires 8 <= i < 32 && b & 0xFFFF_FF00 == 0
    ensures !On(b, i)
  {
    hide Mask;
    MaskTable();
    OneOf32(i);
  }

  /** The bits of a decimal digit's code. */
  predicate DigitBit(n: nat, i: nat)
  {
    i in {4, 5} || (i == 0 && n in {1, 3, 5, 7, 9}) || (i == 1 && n in {2, 3, 6, 7})
    || (i == 2 && n in {4, 5, 6, 7}) || (i == 3 && n in {8, 9})
  }

  lemma DigitNumber(n: nat, i: nat)
    requires 1 <= n <= 9 && i < 8
    ensures (0x30 + n) / Pow2(i) % 2 == 1 <==> DigitBit(n, i)
  {
    hide Pow2;
    Pow2Table();
    assert n in {1, 2, 3, 4, 5, 6, 7, 8, 9} && i in {0, 1, 2, 3, 4, 5, 6, 7};
  }

  lemma DigitWord(n: nat, b: bv32, i: nat)
    requires (n, b) in {(1, 0x31), (2, 0x32), (3, 0x33), (4, 0x34), (5, 0x35), (6, 0x36), (7, 0x37), (8, 0x38), (9, 0x39)}
    requires i < 8
    ensures On(b, i) <==> DigitBit(n, i)
  {
    hide Mask;
    MaskTable();
    assert i in {0, 1, 2, 3, 4, 5, 6, 7};
  }

  lemma DigitHigh(n: nat, b: bv32)
    requires (n, b) in {(1, 0x31), (2, 0x32), (3, 0x33), (4, 0x34), (5, 0x35), (6, 0x36), (7, 0x37), (8, 0x38), (9, 0x39)}
    ensures b & 0xFFFF_FF00 == 0
  {
  }

  /** The decimal digits. */
  lemma DigitOf(n: nat, d: byte, b: bv32)
    requires (n, b) in {(1, 0x31), (2, 0x32), (3, 0x33), (4, 0x34), (5, 0x35), (6, 0x36), (7, 0x37), (8, 0x38), (9, 0x39)}
    requires d as nat == 0x30 + n
    ensures Low(d) == Of(b)
  {
    hide Pow2, Low, Of, On, DigitBit;
    forall i: nat | i < 8
      ensures d as nat / Pow2(i) % 2 == 1 <==> On(b, i)
    {
      DigitNumber(n, i);
      DigitWord(n, b, i);
    }
    DigitHigh(n, b);
    LowOf(d, b);
  }

  /** One digit more. */
  lemma Absorbs(s: seq<byte>, i: nat, b: bv32, c: bv32, n: nat)
    requires i < |s| && n == 8 && Feed(INIT, s[..i], n) == Of(c) && Low(s[i]) == Of(b)
    ensures Feed(INIT, s[..i + 1], n) == Of(Shifts(c ^ b, n))
  {
    hide Feed, Of, Bits, Low, Shifts;
    FeedNext(INIT, s, i, n);
    XorOf(c, b);
    BitsOfWord(c ^ b, n);
  }

  lemma NineSteps()
    ensures Shifts(0xFFFF_FFFF ^ 0x31, 8) == 0x7C23_1048
    ensures Shifts(0x7C23_1048 ^ 0x32, 8) == 0xB0AC_BB32
    ensures Shifts(0xB0AC_BB32 ^ 0x33, 8) == 0x77B7_9C2D
    ensures Shifts(0x77B7_9C2D ^ 0x34, 8) == 0x641C_1F5C
    ensures Shifts(0x641C_1F5C ^ 0x35, 8) == 0x340A_C5E3
    ensures Shifts(0x340A_C5E3 ^ 0x36, 8) == 0xF68D_2C9E
    ensures Shifts(0xF68D_2C9E ^ 0x37, 8) == 0xAFFC_9660
    ensures Shifts(0xAFFC_9660 ^ 0x38, 8) == 0x651F_2550
    ensures Shifts(0x651F_2550 ^ 0x39, 8) == 0x340B_C6D9
  {
  }

  lemma StartOf()
    ensures INIT == Of(0xFFFF_FFFF)
  {
    hide Mask;
    MaskTable();
    forall i | 0 <= i < 32
      ensures Of(0xFFFF_FFFF)[i]
    {
      OneOf32(i);
    }
  }

  lemma CheckRegister(s: seq<byte>, n: nat)
    requires s == [0x31, 0x32, 0x33, 0x34, 0x35, 0x36, 0x37, 0x38, 0x39] && n == 8
    ensures Feed(INIT, s, n) == Of(0x340B_C6D9)
  {
    hide Feed, Of, Low, Shifts;
    StartOf();
    NothingFed(s, n);
    NineSteps();
    DigitOf(1, 0x31, 0x31);
    Absorbs(s, 0, 0x31, 0xFFFF_FFFF, n);
    DigitOf(2, 0x32, 0x32);
    Absorbs(s, 1, 0x32, 0x7C23_1048, n);
    DigitOf(3, 0x33, 0x33);
    Absorbs(s, 2, 0x33, 0xB0AC_BB32, n);
    DigitOf(4, 0x34, 0x34);
    Absorbs(s, 3, 0x34, 0x77B7_9C2D, n);
    DigitOf(5, 0x35, 0x35);
    Absorbs(s, 4, 0x35, 0x641C_1F5C, n);
    DigitOf(6, 0x36, 0x36);
    Absorbs(s, 5, 0x36, 0x340A_C5E3, n);
    DigitOf(7, 0x37, 0x37);
    Absorbs(s, 6, 0x37, 0xF68D_2C9E, n);
    DigitOf(8, 0x38, 0x38);
    Absorbs(s, 7, 0x38, 0xAFFC_9660, n);
    DigitOf(9, 0x39, 0x39);
    Absorbs(s, 8, 0x39, 0x651F_2550, n);
    assert s[..9] == s;
  }

  lemma NothingFed(s: seq<byte>, n: nat)
    ensures Feed(INIT, s[..0], n) == INIT
  {
  }

  /** The check value every description of this checksum gives: the nine digits, and nothing. */
  lemma CheckValue()
    ensures Crc32([0x31, 0x32, 0x33, 0x34, 0x35, 0x36, 0x37, 0x38, 0x39]) == 0xCBF4_3926
    ensures Crc32([]) == 0
  {
    hide Feed, Of, FromBits, ToBits, Pow2;
    CheckRegister([0x31, 0x32, 0x33, 0x34, 0x35, 0x36, 0x37, 0x38, 0x39], 8);
    Reads();
    NothingFed([], 8);
    assert Not(INIT) == Fill(32, false);
    NoBitsSet(32);
  }

  /** The bits of the check value. */
  predicate CheckBit(i: int)
  {
    i in {1, 2, 5, 8, 11, 12, 13, 18, 20, 21, 22, 23, 24, 25, 27, 30, 31}
  }

  lemma NumberBit(i: nat)
    requires i < 32
    ensures 0xCBF4_3926 / Pow2(i) % 2 == 1 <==> CheckBit(i)
  {
    hide Pow2;
    Pow2Table();
    OneOf32(i);
  }

  lemma RegisterBit(i: nat)
    requires i < 32
    ensures !On(0x340B_C6D9, i) <==> CheckBit(i)
  {
    hide Mask;
    MaskTable();
    OneOf32(i);
  }

  lemma Reads()
    ensures FromBits(Not(Of(0x340B_C6D9))) == 0xCBF4_3926
  {
    hide FromBits, ToBits, Pow2, On, CheckBit;
    forall i | 0 <= i < 32
      ensures ToBits(0xCBF4_3926, 32)[i] == Not(Of(0x340B_C6D9))[i]
    {
      ToBitsAt(0xCBF4_3926, 32, i);
      NumberBit(i);
      RegisterBit(i);
    }
    assert ToBits(0xCBF4_3926, 32) == Not(Of(0x340B_C6D9));
    Pow2Of32();
    BitsOfValue(0xCBF4_3926, 32);
  }

  lemma {:induction false} NoBitsSet(n: nat)
    ensures FromBits(Fill(n, false)) == 0
    decreases n
  {
    if n > 0 {
      NoBitsSet(n - 1);
      assert Fill(n, false)[1..] == Fill(n - 1, false);
    }
  }
}

/** Bytes and little-endian words, the alphabet of every on-media and on-wire format. */
module Bytes {

  /** One octet. Words are unbounded naturals; each format states its own width. */
  newtype byte = x: int | 0 <= x < 256

  const U16_END: nat := 0x1_0000
  const U32_END: nat := 0x1_0000_0000
  const U64_END: nat := 0x1_0000_0000_0000_0000

  /** `n` zero bytes. */
  function Zeros(n: nat): (s: seq<byte>)
    ensures |s| == n && forall i :: 0 <= i < n ==> s[i] == 0
  {
    seq(n, i => 0)
  }

  /** `v.to_le_bytes()` cut to `n` bytes: least significant byte first. */
  function ToLe(v: nat, n: nat): (s: seq<byte>)
    ensures |s| == n
  {
    seq(n, i requires 0 <= i < n => (v / Pow256(i) % 256) as byte)
  }

  /** `from_le_bytes`. */
  function FromLe(s: seq<byte>): nat
  {
    if s == [] then 0 else s[0] as nat + 256 * FromLe(s[1..])
  }

  function Pow256(n: nat): (p: nat)
    ensures p > 0
  {
    if n == 0 then 1 else 256 * Pow256(n - 1)
  }

  lemma Widths()
    ensures Pow256(2) == U16_END && Pow256(4) == U32_END && Pow256(8) == U64_END
  {
    assert Pow256(4) == 256 * (256 * Pow256(2));
    assert Pow256(8) == 256 * (256 * (256 * (256 * Pow256(4))));
  }

  lemma {:induction false} FromLeBound(s: seq<byte>)
    ensures FromLe(s) < Pow256(|s|)
  {
    if s != [] { FromLeBound(s[1..]); }
  }

  /** The low byte first, then the rest of the word. */
  lemma ToLeStep(v: nat, n: nat)
    requires n > 0
    ensures ToLe(v, n) == [(v % 256) as byte] + ToLe(v / 256, n - 1)
  {
    forall i | 0 < i < n
      ensures v / Pow256(i) == v / 256 / Pow256(i - 1)
    {
      DivDiv(v, Pow256(i - 1));
    }
  }

  lemma DivDiv(v: nat, b: nat)
    requires b > 0
    ensures v / (256 * b) == v / 256 / b
  {
    var q, r := v / 256, v % 256;
    var t, u := q / b, q % b;
    var bt := b * t;
    assert q == bt + u;
    QuotientUnique(v, 256 * b, t, 256 * u + r) by {
      assert (256 * b) * t == 256 * bt;
    }
  }

  lemma MulMonotone(a: nat, x: int, y: int)
    requires x <= y
    ensures a * x <= a * y
  {
  }

  lemma QuotientUnique(v: nat, d: nat, q: nat, r: nat)
    requires d > 0 && v == d * q + r && r < d
    ensures v / d == q
  {
    var k := v / d;
    if k < q { MulMonotone(d, k + 1, q); }
    if q < k { MulMonotone(d, q + 1, k); }
  }

  /** A word that fits its field survives encode then decode. */
  lemma {:induction false} LeRoundTrip(v: nat, n: nat)
    requires v < Pow256(n)
    ensures FromLe(ToLe(v, n)) == v
  {
    if n > 0 {
      LeRoundTrip(v / 256, n - 1);
      ToLeStep(v, n);
      assert ToLe(v, n)[1..] == ToLe(v / 256, n - 1);
    }
  }

  /** A field read back and printed again is the same bytes, so the encoding is one to one. */
  lemma {:induction false} LeInverse(s: seq<byte>)
    ensures ToLe(FromLe(s), |s|) == s
  {
    if s != [] {
      LeInverse(s[1..]);
      ToLeStep(FromLe(s), |s|);
      assert FromLe(s) % 256 == s[0] as nat && FromLe(s) / 256 == FromLe(s[1..]);
      assert s == [s[0]] + s[1..];
    }
  }

  /** `u16::from_le_bytes` and `u32::from_le_bytes`, written out. */
  lemma FourBytes(b: seq<byte>)
    ensures |b| == 2 ==> FromLe(b) == b[0] as nat + 0x100 * b[1] as nat
    ensures |b| == 4 ==>
      FromLe(b) == b[0] as nat + 0x100 * b[1] as nat + 0x1_0000 * b[2] as nat + 0x100_0000 * b[3] as nat
  {
    if |b| == 2 {
      TwoBytes(b);
    } else if |b| == 4 {
      TwoBytes(b[2..]);
      assert b[1..][1..] == b[2..];
      assert FromLe(b) == b[0] as nat + 256 * FromLe(b[1..]) && FromLe(b[1..]) == b[1] as nat + 256 * FromLe(b[2..]);
    }
  }

  lemma TwoBytes(b: seq<byte>)
    requires |b| == 2
    ensures FromLe(b) == b[0] as nat + 0x100 * b[1] as nat
  {
    assert b[1..][1..] == [];
    assert FromLe(b) == b[0] as nat + 256 * FromLe(b[1..]) && FromLe(b[1..]) == b[1] as nat + 256 * FromLe([]);
  }

  // ---- Writing into the middle of a buffer ----

  /** `a` with `s` written over it at `at`. */
  function Splice(a: seq<byte>, at: nat, s: seq<byte>): (r: seq<byte>)
    requires at + |s| <= |a|
    ensures |r| == |a|
  {
    a[..at] + s + a[at + |s|..]
  }

  /** Two adjacent writes are one write. */
  /** Byte by byte: what was written where it was written, and the rest as it was. */
  lemma SpliceAt(a: seq<byte>, at: nat, s: seq<byte>, i: nat)
    requires at + |s| <= |a| && i < |a|
    ensures Splice(a, at, s)[i] == if at <= i < at + |s| then s[i - at] else a[i]
  {
  }

  lemma SpliceNext(a: seq<byte>, at: nat, s: seq<byte>, t: seq<byte>)
    requires at + |s| + |t| <= |a|
    ensures Splice(Splice(a, at, s), at + |s|, t) == Splice(a, at, s + t)
  {
  }

  /** Written bytes read back. */
  lemma SpliceReads(a: seq<byte>, at: nat, s: seq<byte>)
    requires at + |s| <= |a|
    ensures Splice(a, at, s)[at..at + |s|] == s
  {
  }

  lemma SubSlice(a: seq<byte>, off: nat, n: nat, i: nat, j: nat)
    requires off + n <= |a| && i <= j <= n
    ensures a[off..off + n][i..j] == a[off + i..off + j]
  {
    var l, r := a[off..off + n][i..j], a[off + i..off + j];
    assert forall k :: 0 <= k < |l| ==> l[k] == r[k];
  }

  /** Copy `s` over `out[at..]`. */
  method CopyInto(out: array<byte>, at: nat, s: seq<byte>)
    requires at + |s| <= out.Length
    modifies out
    ensures out[..] == Splice(old(out[..]), at, s)
  {
    var i := 0;
    while i < |s|
      invariant 0 <= i <= |s|
      invariant forall j :: 0 <= j < out.Length ==>
        out[j] == if at <= j < at + i then s[j - at] else old(out[j])
    {
      out[at + i] := s[i];
      i := i + 1;
    }
  }
}

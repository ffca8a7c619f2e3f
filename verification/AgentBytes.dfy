/** The agent store byte by byte: which rule a bad store breaks first, and where each field of a good one stands. */
module AgentBytes {
  import opened Bytes
  import opened Wrappers
  import opened AgentStore

  predicate Clear(buf: seq<byte>, at: nat, n: nat)
    requires at + n <= |buf|
  {
    forall i :: at <= i < at + n ==> buf[i] == 0
  }

  /** Four bytes, least significant first. */
  function Num(buf: seq<byte>, at: nat): nat
    requires at + 4 <= |buf|
  {
    buf[at] as nat + 0x100 * buf[at + 1] as nat + 0x1_0000 * buf[at + 2] as nat + 0x100_0000 * buf[at + 3] as nat
  }

  /** The name field up to its first zero. */
  function NameAt(buf: seq<byte>, off: nat): seq<byte>
    requires off + 16 <= |buf|
  {
    buf[off..off + FirstNul(buf[off..off + 16])]
  }

  /** The thirteen rules of a record at `off`, in the order they are checked. */
  predicate Meets(utf8: seq<byte> -> bool, buf: seq<byte>, off: nat, k: nat)
  {
    match k
    case 0 => off + 16 <= |buf|
    case 1 => off + 16 <= |buf| && buf[off] != 0 && utf8(NameAt(buf, off))
    case 2 => off + 24 <= |buf|
    case 3 => off + 24 <= |buf| && !Clear(buf, off + 16, 4) && !Clear(buf, off + 20, 4)
    case 4 => off + 32 <= |buf|
    case 5 => off + 32 <= |buf| && buf[off + 28] < 2 && buf[off + 29] < 4 && Clear(buf, off + 30, 2)
    case 6 => off + 36 <= |buf|
    case 7 => off + 36 <= |buf| && Clear(buf, off + 33, 3)
    case 8 => off + 44 <= |buf|
    case 9 =>
      && off + 44 <= |buf|
      && if buf[off + 32] == 0xFF then Clear(buf, off + 36, 8) else buf[off + 36] == 0 && buf[off + 37] % 16 == 0
    case 10 => off + 48 <= |buf|
    case 11 => off + 48 <= |buf| && off + 48 + Num(buf, off + 44) <= |buf|
    case 12 => off + 48 <= |buf| && Num(buf, off + 44) <= 4096 * Num(buf, off + 16)
    case _ => true
  }

  /** What breaking it is called. */
  function Fault(k: nat): ParseError
  {
    match k
    case 1 => BadName
    case 3 => BadGeometry
    case 5 => BadHome
    case 7 => BadWindow
    case 9 => BadWindow
    case 12 => ImageTooLarge
    case _ => Truncated
  }

  /** Rule `k` is the first one broken. */
  predicate Breaks(utf8: seq<byte> -> bool, buf: seq<byte>, off: nat, k: nat)
  {
    k < 13 && !Meets(utf8, buf, off, k) && forall j: nat :: j < k ==> Meets(utf8, buf, off, j)
  }

  // ---- Numbers and bytes ----

  lemma WordIsNum(buf: seq<byte>, at: nat)
    requires at + 4 <= |buf|
    ensures Word(buf, at) == Num(buf, at) && (Num(buf, at) == 0 <==> Clear(buf, at, 4))
    ensures Num(buf, at) < 256 <==> Clear(buf, at + 1, 3)
    ensures Num(buf, at) < 0x400 <==> buf[at + 1] < 4 && Clear(buf, at + 2, 2)
    ensures Num(buf, at) % 256 == buf[at] as nat
  {
    FourBytes(buf[at..at + 4]);
    hide FromLe;
    var b0, b1, b2, b3 := buf[at] as nat, buf[at + 1] as nat, buf[at + 2] as nat, buf[at + 3] as nat;
    assert Clear(buf, at, 4) <==> b0 == 0 && b1 == 0 && b2 == 0 && b3 == 0;
    assert Clear(buf, at + 1, 3) <==> b1 == 0 && b2 == 0 && b3 == 0;
    assert Clear(buf, at + 2, 2) <==> b2 == 0 && b3 == 0;
  }

  lemma {:induction false} ZeroIsClear(s: seq<byte>)
    ensures FromLe(s) == 0 <==> forall i :: 0 <= i < |s| ==> s[i] == 0
    decreases |s|
  {
    if s != [] {
      ZeroIsClear(s[1..]);
      assert (forall i :: 0 <= i < |s| ==> s[i] == 0) <==> s[0] == 0 && forall i :: 0 <= i < |s[1..]| ==> s[1..][i] == 0 by {
        assert forall i :: 1 <= i < |s| ==> s[i] == s[1..][i - 1];
      }
    }
  }

  lemma AddressBits(buf: seq<byte>, at: nat)
    requires at + 8 <= |buf|
    ensures var va := FromLe(buf[at..at + 8]);
            && (va == 0 <==> Clear(buf, at, 8))
            && (va % 4096 == 0 <==> buf[at] == 0 && buf[at + 1] % 16 == 0)
  {
    var s := buf[at..at + 8];
    ZeroIsClear(s);
    assert Clear(buf, at, 8) <==> forall i :: 0 <= i < 8 ==> s[i] == 0 by {
      assert forall i :: at <= i < at + 8 ==> buf[i] == s[i - at];
    }
    var rest := FromLe(s[1..][1..]);
    assert FromLe(s) == s[0] as nat + 256 * FromLe(s[1..]) && FromLe(s[1..]) == s[1] as nat + 256 * rest;
    LowTwelve(s[0] as nat, s[1] as nat, rest);
  }

  lemma LowTwelve(b0: nat, b1: nat, rest: nat)
    requires b0 < 256 && b1 < 256
    ensures (b0 + 256 * (b1 + 256 * rest)) % 4096 == 0 <==> b0 == 0 && b1 % 16 == 0
  {
    var q, r := b1 / 16, b1 % 16;
    var k, t := q + 16 * rest, 256 * r + b0;
    assert b1 == 16 * q + r;
    assert b0 + 256 * (b1 + 256 * rest) == 4096 * k + t;
    PastPages(k, t);
  }

  lemma PastPages(k: nat, t: nat)
    requires t < 4096
    ensures (4096 * k + t) % 4096 == t
  {
  }

  lemma NameFound(buf: seq<byte>, off: nat)
    requires off + 16 <= |buf|
    ensures var field := buf[off..off + 16];
            field[..FirstNul(field)] == NameAt(buf, off) && (NameAt(buf, off) == [] <==> buf[off] == 0)
  {
    var field := buf[off..off + 16];
    SubSlice(buf, off, 16, 0, FirstNul(field));
    assert field[0] == buf[off];
  }

  // ---- Records ----

  /** A record is read exactly when it breaks no rule, and the first one it breaks is the error. */
  lemma RecordRules(utf8: seq<byte> -> bool, buf: seq<byte>, off: nat)
    ensures Record(utf8, buf, off).Ok? <==> forall k: nat :: k < 13 ==> Meets(utf8, buf, off, k)
    ensures forall k: nat :: Breaks(utf8, buf, off, k) ==> Record(utf8, buf, off) == Err(Fault(k))
  {
    var r := First(utf8, buf, off, 0);
    FirstIs(utf8, buf, off, 0);
    RecordIsFirst(utf8, buf, off);
    if r.None? {
      assert forall k: nat :: k < 13 ==> Meets(utf8, buf, off, k);
    } else {
      forall k: nat | Breaks(utf8, buf, off, k)
        ensures k == r.value
      {
      }
    }
  }

  /** The first rule broken from the `k`th on. */
  function First(utf8: seq<byte> -> bool, buf: seq<byte>, off: nat, k: nat): Option<nat>
    decreases 13 - k
  {
    if k >= 13 then None else if !Meets(utf8, buf, off, k) then Some(k) else First(utf8, buf, off, k + 1)
  }

  lemma {:induction false} FirstIs(utf8: seq<byte> -> bool, buf: seq<byte>, off: nat, k: nat)
    ensures var r := First(utf8, buf, off, k);
            && (r.None? ==> forall j: nat :: k <= j < 13 ==> Meets(utf8, buf, off, j))
            && (r.Some? ==> k <= r.value < 13 && !Meets(utf8, buf, off, r.value)
                            && forall j: nat :: k <= j < r.value ==> Meets(utf8, buf, off, j))
    decreases 13 - k
  {
    hide Meets;
    if k < 13 { FirstIs(utf8, buf, off, k + 1); }
  }

  lemma RecordIsFirst(utf8: seq<byte> -> bool, buf: seq<byte>, off: nat)
    ensures match First(utf8, buf, off, 0)
            case None => Record(utf8, buf, off).Ok?
            case Some(k) => Record(utf8, buf, off) == Err(Fault(k))
  {
    hide Clear, Num, FromLe, Word, NameAt;
    if off + 16 <= |buf| { NameFound(buf, off); }
    if off + 24 <= |buf| {
      WordIsNum(buf, off + 16);
      WordIsNum(buf, off + 20);
    }
    if off + 32 <= |buf| { WordIsNum(buf, off + 28); }
    if off + 36 <= |buf| { WordIsNum(buf, off + 32); }
    if off + 44 <= |buf| { AddressBits(buf, off + 36); }
    if off + 48 <= |buf| { WordIsNum(buf, off + 44); }
  }

  /** Where each field of a record stands. */
  lemma RecordFields(utf8: seq<byte> -> bool, buf: seq<byte>, off: nat)
    requires Record(utf8, buf, off).Ok?
    ensures off + 48 <= |buf|
    ensures var (p, next) := Record(utf8, buf, off).value;
            && p.name == NameAt(buf, off) && p.text == Num(buf, off + 16) && p.stack == Num(buf, off + 20)
            && p.slots == buf[off + 24..off + 28] && p.home == buf[off + 28]
            && (p.resolve <==> buf[off + 29] in {1, 3}) && (p.pool <==> buf[off + 29] in {2, 3})
            && p.window == buf[off + 32] && p.va == FromLe(buf[off + 36..off + 44])
            && p.at == off + 48 && p.len == Num(buf, off + 44)
            && p.at + p.len <= next < p.at + p.len + 4 && next % 4 == 0
  {
    hide Clear, Num, FromLe, Word, NameAt;
    NameFound(buf, off);
    WordIsNum(buf, off + 16);
    WordIsNum(buf, off + 20);
    WordIsNum(buf, off + 28);
    WordIsNum(buf, off + 32);
    WordIsNum(buf, off + 44);
    FlagBits(buf, off + 28);
    WindowByte(buf, off + 32);
  }

  lemma FlagBits(buf: seq<byte>, at: nat)
    requires at + 4 <= |buf| && Num(buf, at) < 0x400
    ensures Num(buf, at) / 256 % 2 == 1 <==> buf[at + 1] in {1, 3}
    ensures Num(buf, at) / 512 % 2 == 1 <==> buf[at + 1] in {2, 3}
  {
    WordIsNum(buf, at);
    assert Num(buf, at) == buf[at] as nat + 256 * buf[at + 1] as nat;
    assert buf[at + 1] as nat in {0, 1, 2, 3};
  }

  lemma WindowByte(buf: seq<byte>, at: nat)
    requires at + 4 <= |buf| && Num(buf, at) < 256
    ensures Num(buf, at) == buf[at] as nat
  {
    WordIsNum(buf, at);
  }

  // ---- Stores ----

  /** Where the `k`th record from `off` on begins, if all before it are good. */
  function Begins(utf8: seq<byte> -> bool, buf: seq<byte>, off: nat, k: nat): Option<nat>
    decreases k
  {
    if k == 0 then Some(off)
    else match Record(utf8, buf, off)
         case Err(_) => None
         case Ok((_, next)) => Begins(utf8, buf, next, k - 1)
  }

  lemma {:induction false} RecordsRules(utf8: seq<byte> -> bool, buf: seq<byte>, off: nat, n: nat)
    ensures Records(utf8, buf, off, n).Ok? <==> Begins(utf8, buf, off, n).Some?
    ensures forall k: nat, j: nat ::
              k < n && Begins(utf8, buf, off, k).Some? && Breaks(utf8, buf, Begins(utf8, buf, off, k).value, j) ==>
              Records(utf8, buf, off, n) == Err(Fault(j))
    decreases n
  {
    hide Record, Breaks, Fault;
    if n > 0 {
      RecordRules(utf8, buf, off);
      var r := Record(utf8, buf, off);
      if r.Ok? { RecordsRules(utf8, buf, r.value.1, n - 1); }
      forall k: nat, j: nat | k < n && Begins(utf8, buf, off, k).Some? && Breaks(utf8, buf, Begins(utf8, buf, off, k).value, j)
        ensures Records(utf8, buf, off, n) == Err(Fault(j))
      {
        if k > 0 { assert Begins(utf8, buf, off, k) == Begins(utf8, buf, r.value.1, k - 1); }
      }
    }
  }

  /** The sixteen bytes a store begins with: `HARB`, version two, one to eight agents. */
  predicate GoodHead(buf: seq<byte>)
  {
    |buf| >= 16 && buf[..4] == [0x48, 0x41, 0x52, 0x42] && buf[4..8] == [2, 0, 0, 0] && 1 <= buf[8] <= 8 && Clear(buf, 9, 3)
  }

  /** What any bytes parse to or fail with: the first rule broken, of the head, then of the first bad record. */
  lemma ParseRules(utf8: seq<byte> -> bool, buf: seq<byte>)
    ensures var r := ParseOf(utf8, buf);
            && (|buf| < 16 ==> r == Err(TooShort))
            && (|buf| >= 16 && buf[..4] != [0x48, 0x41, 0x52, 0x42] ==> r == Err(BadMagic))
            && (|buf| >= 16 && buf[..4] == [0x48, 0x41, 0x52, 0x42] && buf[4..8] != [2, 0, 0, 0] ==> r == Err(BadVersion))
            && (|buf| >= 16 && buf[..4] == [0x48, 0x41, 0x52, 0x42] && buf[4..8] == [2, 0, 0, 0] && !GoodHead(buf) ==>
                  r == Err(BadCount))
            && (r.Ok? <==> GoodHead(buf) && Begins(utf8, buf, 16, buf[8] as nat).Some?)
    ensures GoodHead(buf) ==>
      forall k: nat, j: nat ::
        k < buf[8] as nat && Begins(utf8, buf, 16, k).Some? && Breaks(utf8, buf, Begins(utf8, buf, 16, k).value, j) ==>
        ParseOf(utf8, buf) == Err(Fault(j))
  {
    hide Records, Breaks, Fault, Begins, FromLe;
    if |buf| >= 16 {
      HeadBytes(buf);
      CountByte(buf);
      hide Word, Clear;
      RecordsRules(utf8, buf, 16, Word(buf, 8));
    }
  }

  lemma HeadBytes(buf: seq<byte>)
    requires |buf| >= 16
    ensures Word(buf, 0) == FromLe(Magic()) <==> buf[..4] == [0x48, 0x41, 0x52, 0x42]
    ensures Word(buf, 4) == 2 <==> buf[4..8] == [2, 0, 0, 0]
  {
    hide FromLe;
    var m, v := buf[0..4], buf[4..8];
    assert m == buf[..4];
    FourBytes(m);
    FourBytes(v);
    FourBytes(Magic());
    assert FromLe(m) == 0x4252_4148 <==> m[0] == 0x48 && m[1] == 0x41 && m[2] == 0x52 && m[3] == 0x42;
    assert FromLe(v) == 2 <==> v[0] == 2 && v[1] == 0 && v[2] == 0 && v[3] == 0;
  }

  lemma CountByte(buf: seq<byte>)
    requires |buf| >= 16
    ensures 1 <= Word(buf, 8) <= 8 <==> 1 <= buf[8] <= 8 && Clear(buf, 9, 3)
    ensures 1 <= Word(buf, 8) <= 8 ==> Word(buf, 8) == buf[8] as nat
  {
    hide FromLe;
    WordIsNum(buf, 8);
  }

  /** A packed store begins with its sixteen bytes, and a printed record is zero wherever it has nothing to say. */
  lemma PackedHead(agents: seq<Agent>)
    requires |agents| <= 8
    ensures |PackOf(agents)| >= 16
    ensures PackOf(agents)[..16] == [0x48, 0x41, 0x52, 0x42, 2, 0, 0, 0, |agents| as byte, 0, 0, 0, 0, 0, 0, 0]
  {
    hide ToLe, PrintAll;
    SmallWord(2);
    SmallWord(|agents|);
    SmallWord(0);
    assert PackOf(agents)[..16] == HeaderOf(|agents|);
  }

  lemma SmallWord(v: nat)
    requires v < 256
    ensures ToLe(v, 4) == [v as byte, 0, 0, 0]
  {
    hide ToLe, FromLe;
    var s := [v as byte, 0, 0, 0];
    FourBytes(s);
    LeInverse(s);
  }

  lemma PrintedPadding(a: Agent, i: nat)
    requires Typed(a) && |a.name| <= 16 && i < |Printed(a)|
    ensures |a.name| <= i < 16 || 48 + |a.image| <= i ==> Printed(a)[i] == 0
  {
    hide Middle;
    MiddleFields(a);
  }
}

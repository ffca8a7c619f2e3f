/** The external agent store: its parser, its packer, and what either promises about the other. */
module AgentStore {
  import opened Bytes
  import opened Wrappers

  const VERSION: nat := 2
  const MAX_AGENTS: nat := 8
  const NAME_LEN: nat := 16
  const MAX_SLOTS: nat := 4
  const N_CPUS: nat := 2
  const SLOT_NONE: byte := 0xFF
  const WINDOW_NONE: byte := 0xFF
  const PAGE: nat := 4096
  const HEADER: nat := 16
  /** Bytes of a record before its image. */
  const FIXED: nat := 48

  /** "HARB". */
  function Magic(): seq<byte>
  {
    [0x48, 0x41, 0x52, 0x42]
  }

  datatype ParseError =
    | TooShort | BadMagic | BadVersion | BadCount | Truncated | BadName
    | BadGeometry | ImageTooLarge | BadHome | BadWindow

  /** What a packer is given. */
  datatype Agent = Agent(
    name: seq<byte>,
    text: nat,
    stack: nat,
    slots: seq<byte>,
    home: byte,
    resolve: bool,
    pool: bool,
    window: byte,
    va: nat,
    image: seq<byte>)

  /** What a parser finds: the image stays in the buffer, named by where it lies. */
  datatype Parsed = Parsed(
    name: seq<byte>,
    text: nat,
    stack: nat,
    slots: seq<byte>,
    home: byte,
    resolve: bool,
    pool: bool,
    window: byte,
    va: nat,
    at: nat,
    len: nat)

  function AgentAt(buf: seq<byte>, p: Parsed): Agent
    requires p.at + p.len <= |buf|
  {
    Agent(p.name, p.text, p.stack, p.slots, p.home, p.resolve, p.pool, p.window, p.va, buf[p.at..p.at + p.len])
  }

  /** The widths the fields have anywhere. */
  predicate Typed(a: Agent)
  {
    a.text < U32_END && a.stack < U32_END && |a.slots| == MAX_SLOTS && a.va < U64_END && |a.image| < U32_END
  }

  /** The rules of the format. */
  predicate Rules(utf8: seq<byte> -> bool, a: Agent)
  {
    && 0 < |a.name| <= NAME_LEN && 0 !in a.name && utf8(a.name)
    && a.text > 0 && a.stack > 0
    && a.home as nat < N_CPUS
    && (if a.window == WINDOW_NONE then a.va == 0 else a.va % PAGE == 0)
    && |a.image| <= a.text * PAGE
  }

  // ---- Parsing ----

  function Word(buf: seq<byte>, off: nat): nat
    requires off + 4 <= |buf|
  {
    FromLe(buf[off..off + 4])
  }

  function Align4(n: nat): (r: nat)
    ensures n <= r < n + 4 && r % 4 == 0
  {
    (n + 3) / 4 * 4
  }

  /** Where the padding starts. */
  function FirstNul(s: seq<byte>): (n: nat)
    ensures n <= |s| && 0 !in s[..n] && (n < |s| ==> s[n] == 0)
  {
    if s == [] || s[0] == 0 then 0
    else var n := 1 + FirstNul(s[1..]);
         assert s[..n] == [s[0]] + s[1..][..n - 1];
         n
  }

  /** One record at `off`, and where the next begins. */
  function Record(utf8: seq<byte> -> bool, buf: seq<byte>, off: nat): Result<(Parsed, nat), ParseError>
  {
    if off + NAME_LEN > |buf| then Err(Truncated) else
    var field := buf[off..off + NAME_LEN];
    var name := field[..FirstNul(field)];
    if name == [] || !utf8(name) then Err(BadName) else
    if off + 24 > |buf| then Err(Truncated) else
    var text, stack := Word(buf, off + 16), Word(buf, off + 20);
    if text == 0 || stack == 0 then Err(BadGeometry) else
    if off + 32 > |buf| then Err(Truncated) else
    var slots, flags := buf[off + 24..off + 28], Word(buf, off + 28);
    if flags >= 0x400 || flags % 256 >= N_CPUS then Err(BadHome) else
    if off + 36 > |buf| then Err(Truncated) else
    var device := Word(buf, off + 32);
    if device >= 256 then Err(BadWindow) else
    if off + 44 > |buf| then Err(Truncated) else
    var window, va := device as byte, FromLe(buf[off + 36..off + 44]);
    if (if window == WINDOW_NONE then va != 0 else va % PAGE != 0) then Err(BadWindow) else
    if off + 48 > |buf| then Err(Truncated) else
    var at, len := off + FIXED, Word(buf, off + 44);
    if at + len > |buf| then Err(Truncated) else
    if len > text * PAGE then Err(ImageTooLarge) else
    Ok((Parsed(name, text, stack, slots, (flags % 256) as byte, flags / 256 % 2 == 1, flags / 512 % 2 == 1,
               window, va, at, len), Align4(at + len)))
  }

  function Records(utf8: seq<byte> -> bool, buf: seq<byte>, off: nat, n: nat): Result<seq<Parsed>, ParseError>
    decreases n
  {
    if n == 0 then Ok([]) else
    match Record(utf8, buf, off)
    case Err(e) => Err(e)
    case Ok(pn) => match Records(utf8, buf, pn.1, n - 1)
                   case Err(e) => Err(e)
                   case Ok(ps) => Ok([pn.0] + ps)
  }

  function ParseOf(utf8: seq<byte> -> bool, buf: seq<byte>): Result<seq<Parsed>, ParseError>
  {
    if |buf| < HEADER then Err(TooShort)
    else if Word(buf, 0) != FromLe(Magic()) then Err(BadMagic)
    else if Word(buf, 4) != VERSION then Err(BadVersion)
    else if Word(buf, 8) == 0 || Word(buf, 8) > MAX_AGENTS then Err(BadCount)
    else Records(utf8, buf, HEADER, Word(buf, 8))
  }

  /** `parse`: fills `out` from the front. */
  method Parse(utf8: seq<byte> -> bool, buf: seq<byte>, out: array<Parsed>) returns (r: Result<nat, ParseError>)
    requires out.Length == MAX_AGENTS
    modifies out
    ensures r.Ok? ==> r.value <= MAX_AGENTS && ParseOf(utf8, buf) == Ok(out[..r.value])
    ensures r.Err? ==> ParseOf(utf8, buf) == Err(r.error)
  {
    if |buf| < HEADER {
      return Err(TooShort);
    }
    if Word(buf, 0) != FromLe(Magic()) {
      return Err(BadMagic);
    }
    if Word(buf, 4) != VERSION {
      return Err(BadVersion);
    }
    var count := Word(buf, 8);
    if count == 0 || count > MAX_AGENTS {
      return Err(BadCount);
    }
    r := ParseRecords(utf8, buf, count, out);
  }

  /** The record loop. */
  method ParseRecords(utf8: seq<byte> -> bool, buf: seq<byte>, count: nat, out: array<Parsed>)
    returns (r: Result<nat, ParseError>)
    requires count <= out.Length
    modifies out
    ensures r.Ok? ==> r.value == count && Records(utf8, buf, HEADER, count) == Ok(out[..count])
    ensures r.Err? ==> Records(utf8, buf, HEADER, count) == Err(r.error)
  {
    hide Record, Records;
    var off, i := HEADER, 0;
    RecordsEnd(utf8, buf, off, count);
    while i < count
      invariant i <= count
      invariant Records(utf8, buf, HEADER, count) == After(out[..i], Records(utf8, buf, off, count - i))
    {
      RecordsNext(utf8, buf, off, count - i);
      var rec := Record(utf8, buf, off);
      if rec.Err? {
        return Err(rec.error);
      }
      AfterAfter(out[..i], [rec.value.0], Records(utf8, buf, rec.value.1, count - i - 1));
      out[i] := rec.value.0;
      assert out[..i + 1] == out[..i] + [rec.value.0];
      off := rec.value.1;
      i := i + 1;
    }
    RecordsEnd(utf8, buf, off, count);
    assert out[..count] + [] == out[..count];
    r := Ok(count);
  }

  lemma RecordsNext(utf8: seq<byte> -> bool, buf: seq<byte>, off: nat, n: nat)
    requires n > 0
    ensures var rec := Record(utf8, buf, off);
            Records(utf8, buf, off, n) ==
              if rec.Err? then Err(rec.error) else After([rec.value.0], Records(utf8, buf, rec.value.1, n - 1))
  {
  }

  lemma RecordsEnd(utf8: seq<byte> -> bool, buf: seq<byte>, off: nat, n: nat)
    ensures Records(utf8, buf, off, 0) == Ok([])
    ensures Records(utf8, buf, off, n) == After([], Records(utf8, buf, off, n))
  {
    if Records(utf8, buf, off, n).Ok? { assert [] + Records(utf8, buf, off, n).value == Records(utf8, buf, off, n).value; }
  }

  function After(ps: seq<Parsed>, r: Result<seq<Parsed>, ParseError>): Result<seq<Parsed>, ParseError>
  {
    if r.Ok? then Ok(ps + r.value) else r
  }

  lemma AfterAfter(ps: seq<Parsed>, qs: seq<Parsed>, r: Result<seq<Parsed>, ParseError>)
    ensures After(ps, After(qs, r)) == After(ps + qs, r)
  {
    if r.Ok? { assert ps + (qs + r.value) == ps + qs + r.value; }
  }

  // ---- Packing ----

  function Flags(a: Agent): nat
  {
    a.home as nat + (if a.resolve then 256 else 0) + (if a.pool then 512 else 0)
  }

  /** The 32 bytes between name and image. */
  function Middle(a: Agent): seq<byte>
  {
    ToLe(a.text, 4) + ToLe(a.stack, 4) + a.slots + ToLe(Flags(a), 4) + ToLe(a.window as nat, 4)
    + ToLe(a.va, 8) + ToLe(|a.image|, 4)
  }

  /** `pad_name`: cut or filled to sixteen. */
  function PadName(name: seq<byte>): (s: seq<byte>)
    ensures |s| == NAME_LEN
  {
    if |name| >= NAME_LEN then name[..NAME_LEN] else name + Zeros(NAME_LEN - |name|)
  }

  /** A record as printed: padded to a multiple of four. */
  function Printed(a: Agent): seq<byte>
  {
    var body := PadName(a.name) + Middle(a) + a.image;
    body + Zeros(Align4(|body|) - |body|)
  }

  function PrintAll(agents: seq<Agent>): seq<byte>
  {
    if agents == [] then [] else PrintAll(agents[..|agents| - 1]) + Printed(agents[|agents| - 1])
  }

  function HeaderOf(n: nat): (h: seq<byte>)
    ensures |h| == HEADER
  {
    Magic() + ToLe(VERSION, 4) + ToLe(n, 4) + ToLe(0, 4)
  }

  function PackOf(agents: seq<Agent>): seq<byte>
  {
    HeaderOf(|agents|) + PrintAll(agents)
  }

  /** `append_agent`: padding counts from the start of the buffer. */
  method AppendAgent(buf: seq<byte>, a: Agent) returns (r: seq<byte>)
    requires Typed(a) && |buf| % 4 == 0
    ensures r == buf + Printed(a) && |r| % 4 == 0
  {
    hide ToLe, PadName, Align4;
    r := buf + PadName(a.name);
    r := r + ToLe(a.text, 4) + ToLe(a.stack, 4);
    r := r + a.slots;
    r := r + ToLe(Flags(a), 4);
    r := r + ToLe(a.window as nat, 4) + ToLe(a.va, 8);
    r := r + ToLe(|a.image|, 4);
    r := r + a.image;
    ghost var body := PadName(a.name) + Middle(a) + a.image;
    assert r == buf + body;
    hide Middle;
    var k: nat := 0;
    while |r| % 4 != 0
      invariant k <= Align4(|body|) - |body| && r == buf + body + Zeros(k)
      decreases Align4(|body|) - |body| - k
    {
      r := r + [0];
      k := k + 1;
    }
    assert k == Align4(|body|) - |body|;
  }

  method Pack(agents: seq<Agent>) returns (r: seq<byte>)
    requires forall i :: 0 <= i < |agents| ==> Typed(agents[i])
    ensures r == PackOf(agents)
  {
    hide Printed;
    r := HeaderOf(|agents|);
    var i := 0;
    while i < |agents|
      invariant i <= |agents| && |r| % 4 == 0 && r == HeaderOf(|agents|) + PrintAll(agents[..i])
    {
      assert agents[..i + 1][..i] == agents[..i];
      r := AppendAgent(r, agents[i]);
      i := i + 1;
    }
    assert agents[..i] == agents;
  }

  // ---- What a record is ----

  /** The bytes at `off` spell `a`; what follows a short name, and padding, is anybody's. */
  predicate Spells(buf: seq<byte>, off: nat, a: Agent)
  {
    && off + FIXED + |a.image| <= |buf| && |a.name| <= NAME_LEN
    && buf[off..off + |a.name|] == a.name && (|a.name| < NAME_LEN ==> buf[off + |a.name|] == 0)
    && buf[off + NAME_LEN..off + FIXED] == Middle(a)
    && buf[off + FIXED..off + FIXED + |a.image|] == a.image
  }

  lemma MiddleFields(a: Agent)
    requires Typed(a)
    ensures var m := Middle(a);
            && |m| == 32
            && m[0..4] == ToLe(a.text, 4) && m[4..8] == ToLe(a.stack, 4) && m[8..12] == a.slots
            && m[12..16] == ToLe(Flags(a), 4) && m[16..20] == ToLe(a.window as nat, 4)
            && m[20..28] == ToLe(a.va, 8) && m[28..32] == ToLe(|a.image|, 4)
  {
  }

  lemma MiddleValues(a: Agent)
    requires Typed(a)
    ensures var m := Middle(a);
            && |m| == 32
            && FromLe(m[0..4]) == a.text && FromLe(m[4..8]) == a.stack && m[8..12] == a.slots
            && FromLe(m[12..16]) == Flags(a) && FromLe(m[16..20]) == a.window as nat
            && FromLe(m[20..28]) == a.va && FromLe(m[28..32]) == |a.image|
  {
    hide Middle, FromLe, ToLe, Pow256;
    MiddleFields(a);
    Widths();
    LeRoundTrip(a.text, 4);
    LeRoundTrip(a.stack, 4);
    LeRoundTrip(Flags(a), 4);
    LeRoundTrip(a.window as nat, 4);
    LeRoundTrip(a.va, 8);
    LeRoundTrip(|a.image|, 4);
  }

  /** The seven fields of the middle of a record in a buffer. */
  lemma MiddleSlices(buf: seq<byte>, off: nat)
    requires off + FIXED <= |buf|
    ensures var m := buf[off + NAME_LEN..off + FIXED];
            && m[0..4] == buf[off + 16..off + 20] && m[4..8] == buf[off + 20..off + 24]
            && m[8..12] == buf[off + 24..off + 28] && m[12..16] == buf[off + 28..off + 32]
            && m[16..20] == buf[off + 32..off + 36] && m[20..28] == buf[off + 36..off + 44]
            && m[28..32] == buf[off + 44..off + 48]
  {
    var at := off + NAME_LEN;
    SubSlice(buf, at, 32, 0, 4);
    SubSlice(buf, at, 32, 4, 8);
    SubSlice(buf, at, 32, 8, 12);
    SubSlice(buf, at, 32, 12, 16);
    SubSlice(buf, at, 32, 16, 20);
    SubSlice(buf, at, 32, 20, 28);
    SubSlice(buf, at, 32, 28, 32);
  }

  lemma NulFound(s: seq<byte>, name: seq<byte>)
    requires |name| <= |s| && s[..|name|] == name && 0 !in name && (|name| < |s| ==> s[|name|] == 0)
    ensures s[..FirstNul(s)] == name
  {
    var n := FirstNul(s);
    assert forall i :: 0 <= i < |name| ==> s[i] == name[i] && name[i] in name;
    assert forall i :: 0 <= i < n ==> s[..n][i] == s[i] && s[i] in s[..n];
  }

  lemma FlagBits(a: Agent)
    requires a.home as nat < N_CPUS
    ensures Flags(a) < 0x400 && Flags(a) % 256 == a.home as nat
    ensures (Flags(a) / 256 % 2 == 1) == a.resolve && (Flags(a) / 512 % 2 == 1) == a.pool
  {
  }

  /** A record that spells a legal agent is read as that agent. */
  lemma SpelledIsRead(utf8: seq<byte> -> bool, buf: seq<byte>, off: nat, a: Agent)
    requires Typed(a) && Rules(utf8, a) && Spells(buf, off, a)
    ensures var r := Record(utf8, buf, off);
            && r.Ok? && r.value.0.at + r.value.0.len <= |buf|
            && AgentAt(buf, r.value.0) == a && r.value.1 == Align4(off + FIXED + |a.image|)
  {
    hide FromLe, Middle;
    var field := buf[off..off + NAME_LEN];
    SubSlice(buf, off, NAME_LEN, 0, |a.name|);
    assert field[..|a.name|] == field[0..|a.name|];
    NulFound(field, a.name);
    MiddleValues(a);
    MiddleSlices(buf, off);
    FlagBits(a);
  }

  lemma LeWord(s: seq<byte>)
    requires |s| == 4 || |s| == 8
    ensures ToLe(FromLe(s), |s|) == s && FromLe(s) < if |s| == 4 then U32_END else U64_END
  {
    LeInverse(s);
    FromLeBound(s);
    Widths();
  }

  /** A record that is read, whatever the buffer, spells a legal agent lying inside it. */
  lemma ReadIsSpelled(utf8: seq<byte> -> bool, buf: seq<byte>, off: nat)
    requires Record(utf8, buf, off).Ok?
    ensures var (p, next) := Record(utf8, buf, off).value;
            && p.at == off + FIXED && p.at + p.len <= |buf| && next == Align4(p.at + p.len)
            && Typed(AgentAt(buf, p)) && Rules(utf8, AgentAt(buf, p)) && Spells(buf, off, AgentAt(buf, p))
  {
    hide FromLe, ToLe, Pow256;
    var (p, next) := Record(utf8, buf, off).value;
    var a := AgentAt(buf, p);
    LeWord(buf[off + 16..off + 20]);
    LeWord(buf[off + 20..off + 24]);
    LeWord(buf[off + 28..off + 32]);
    LeWord(buf[off + 32..off + 36]);
    LeWord(buf[off + 36..off + 44]);
    LeWord(buf[off + 44..off + 48]);
    FlagsBack(Word(buf, off + 28), a);
    MiddleBack(buf, off, a);
    NameBack(buf, off, a.name);
  }

  lemma FlagsBack(flags: nat, a: Agent)
    requires flags < 0x400 && a.home as nat == flags % 256
    requires a.resolve == (flags / 256 % 2 == 1) && a.pool == (flags / 512 % 2 == 1)
    ensures Flags(a) == flags
  {
  }

  lemma MiddleBack(buf: seq<byte>, off: nat, a: Agent)
    requires off + FIXED <= |buf|
    requires ToLe(a.text, 4) == buf[off + 16..off + 20] && ToLe(a.stack, 4) == buf[off + 20..off + 24]
    requires a.slots == buf[off + 24..off + 28] && ToLe(Flags(a), 4) == buf[off + 28..off + 32]
    requires ToLe(a.window as nat, 4) == buf[off + 32..off + 36] && ToLe(a.va, 8) == buf[off + 36..off + 44]
    requires ToLe(|a.image|, 4) == buf[off + 44..off + 48]
    ensures buf[off + NAME_LEN..off + FIXED] == Middle(a)
  {
    var m := buf[off + NAME_LEN..off + FIXED];
    MiddleSlices(buf, off);
    assert m == m[0..4] + m[4..8] + m[8..12] + m[12..16] + m[16..20] + m[20..28] + m[28..32];
  }

  lemma NameBack(buf: seq<byte>, off: nat, name: seq<byte>)
    requires off + NAME_LEN <= |buf|
    requires var field := buf[off..off + NAME_LEN]; name == field[..FirstNul(field)]
    ensures |name| <= NAME_LEN && buf[off..off + |name|] == name && (|name| < NAME_LEN ==> buf[off + |name|] == 0)
    ensures 0 !in name
  {
    var field := buf[off..off + NAME_LEN];
    SubSlice(buf, off, NAME_LEN, 0, |name|);
    assert field[..|name|] == field[0..|name|];
    assert |name| < NAME_LEN ==> field[|name|] == buf[off + |name|];
  }

  // ---- Whole stores ----

  /** Images lie in the buffer after `from`, in order, apart from each other. */
  predicate Laid(ps: seq<Parsed>, from: nat, end: nat)
  {
    && (forall i :: 0 <= i < |ps| ==> from <= ps[i].at && ps[i].at + ps[i].len <= end)
    && (forall i, j :: 0 <= i < j < |ps| ==> ps[i].at + ps[i].len + FIXED <= ps[j].at)
  }

  lemma {:induction false} RecordsSound(utf8: seq<byte> -> bool, buf: seq<byte>, off: nat, n: nat)
    requires Records(utf8, buf, off, n).Ok?
    ensures var ps := Records(utf8, buf, off, n).value;
            && |ps| == n && Laid(ps, off + FIXED, |buf|)
            && forall i :: 0 <= i < n ==> Typed(AgentAt(buf, ps[i])) && Rules(utf8, AgentAt(buf, ps[i]))
    decreases n
  {
    hide Record, Rules, Typed, AgentAt;
    if n > 0 {
      ReadIsSpelled(utf8, buf, off);
      var (p, next) := Record(utf8, buf, off).value;
      RecordsSound(utf8, buf, next, n - 1);
      var rest := Records(utf8, buf, next, n - 1).value;
      var ps := [p] + rest;
      assert forall i :: 0 < i < n ==> ps[i] == rest[i - 1];
    }
  }

  /** Any input at all: what parses is one to eight legal agents whose images are disjoint and in bounds. */
  lemma ParseSound(utf8: seq<byte> -> bool, buf: seq<byte>)
    requires ParseOf(utf8, buf).Ok?
    ensures var ps := ParseOf(utf8, buf).value;
            && 0 < |ps| <= MAX_AGENTS && Laid(ps, HEADER + FIXED, |buf|)
            && forall i :: 0 <= i < |ps| ==> Typed(AgentAt(buf, ps[i])) && Rules(utf8, AgentAt(buf, ps[i]))
  {
    RecordsSound(utf8, buf, HEADER, Word(buf, 8));
  }

  lemma {:induction false} PrintAllFront(agents: seq<Agent>)
    requires agents != []
    ensures PrintAll(agents) == Printed(agents[0]) + PrintAll(agents[1..])
    decreases |agents|
  {
    hide Printed;
    var k := |agents| - 1;
    var init, last, tail := agents[..k], agents[k], agents[1..];
    if k == 0 {
      assert init == [] && tail == [];
    } else {
      PrintAllFront(init);
      assert tail[..k - 1] == init[1..] && tail[k - 1] == last;
      var first, middle := Printed(agents[0]), PrintAll(init[1..]);
      assert PrintAll(tail) == middle + Printed(last);
      assert first + middle + Printed(last) == first + (middle + Printed(last));
    }
  }

  lemma PrintedSpells(pre: seq<byte>, a: Agent, post: seq<byte>)
    requires Typed(a) && |a.name| <= NAME_LEN
    ensures Spells(pre + Printed(a) + post, |pre|, a)
    ensures |pre| % 4 == 0 ==> |pre + Printed(a)| == Align4(|pre| + FIXED + |a.image|)
  {
    hide Middle, Zeros, Printed, PadName, Align4;
    MiddleFields(a);
    var name, middle, tail := PadName(a.name), Middle(a), PadOf(a) + post;
    var buf := pre + Printed(a) + post;
    PrintedInside(pre, a, post);
    Parts(pre, name, middle, a.image, tail);
    PaddedName(a.name);
    SubSlice(buf, |pre|, NAME_LEN, 0, |a.name|);
    assert |a.name| < NAME_LEN ==> buf[|pre| + |a.name|] == buf[|pre|..|pre| + NAME_LEN][|a.name|];
    if |pre| % 4 == 0 { AlignAfter(|pre|, FIXED + |a.image|); }
  }

  function PadOf(a: Agent): seq<byte>
  {
    var n := |PadName(a.name)| + |Middle(a)| + |a.image|;
    Zeros(Align4(n) - n)
  }

  lemma PrintedInside(pre: seq<byte>, a: Agent, post: seq<byte>)
    requires |Middle(a)| == FIXED - NAME_LEN
    ensures pre + Printed(a) + post == pre + PadName(a.name) + Middle(a) + a.image + (PadOf(a) + post)
    ensures |Printed(a)| == Align4(FIXED + |a.image|)
  {
    hide Middle, PadName, Align4, Zeros;
    var name, middle, pad := PadName(a.name), Middle(a), PadOf(a);
    assert |name + middle + a.image| == |name| + |middle| + |a.image|;
    assert Printed(a) == name + middle + a.image + pad;
    Regroup(pre, name, middle, a.image, pad, post);
  }

  lemma Regroup(pre: seq<byte>, name: seq<byte>, middle: seq<byte>, image: seq<byte>, pad: seq<byte>, post: seq<byte>)
    ensures pre + (name + middle + image + pad) + post == pre + name + middle + image + (pad + post)
  {
    assert pre + (name + middle + image + pad) == pre + name + middle + image + pad;
  }

  lemma AlignAfter(p: nat, n: nat)
    requires p % 4 == 0
    ensures Align4(p + n) == p + Align4(n)
  {
  }

  /** Four pieces side by side, each found at its place. */
  lemma Parts(pre: seq<byte>, name: seq<byte>, middle: seq<byte>, image: seq<byte>, post: seq<byte>)
    ensures var buf := pre + name + middle + image + post;
            var i := |pre| + |name|;
            var j := i + |middle|;
            && buf[|pre|..i] == name && buf[i..j] == middle && buf[j..j + |image|] == image
  {
    var i := |pre| + |name|;
    var j := i + |middle|;
    var buf := pre + name + middle + image + post;
    assert (pre + name)[|pre|..] == name && (pre + name + middle)[i..] == middle;
    assert (pre + name + middle + image)[j..] == image;
    assert buf[..j + |image|] == pre + name + middle + image && buf[..j] == pre + name + middle && buf[..i] == pre + name;
    assert buf[|pre|..i] == buf[..i][|pre|..] && buf[i..j] == buf[..j][i..] && buf[j..j + |image|] == buf[..j + |image|][j..];
  }

  lemma PaddedName(name: seq<byte>)
    requires |name| <= NAME_LEN
    ensures PadName(name)[..|name|] == name && (|name| < NAME_LEN ==> PadName(name)[|name|] == 0)
  {
  }

  /** Every printed record is read back as itself, whatever follows. */
  lemma {:induction false} PrintedIsRead(utf8: seq<byte> -> bool, pre: seq<byte>, agents: seq<Agent>, tail: seq<byte>)
    requires |pre| % 4 == 0
    requires forall i :: 0 <= i < |agents| ==> Typed(agents[i]) && Rules(utf8, agents[i])
    ensures var buf := pre + PrintAll(agents) + tail;
            var r := Records(utf8, buf, |pre|, |agents|);
            && r.Ok? && |r.value| == |agents|
            && forall i :: 0 <= i < |agents| ==>
                 r.value[i].at + r.value[i].len <= |buf| && AgentAt(buf, r.value[i]) == agents[i]
    decreases |agents|
  {
    hide Record, Typed, AgentAt, Printed, Spells, Rules, PrintAll;
    if agents != [] {
      PrintAllFront(agents);
      NameFits(utf8, agents[0]);
      var a, rest := agents[0], agents[1..];
      var buf := pre + PrintAll(agents) + tail;
      PrintedSpells(pre, a, PrintAll(rest) + tail);
      assert buf == pre + Printed(a) + (PrintAll(rest) + tail);
      SpelledIsRead(utf8, buf, |pre|, a);
      PrintedIsRead(utf8, pre + Printed(a), rest, tail);
      assert buf == pre + Printed(a) + PrintAll(rest) + tail;
    }
  }

  lemma NameFits(utf8: seq<byte> -> bool, a: Agent)
    requires Rules(utf8, a)
    ensures |a.name| <= NAME_LEN
  {
  }

  lemma HeaderReads(n: nat, rest: seq<byte>)
    requires n < U32_END
    ensures var buf := HeaderOf(n) + rest;
            Word(buf, 0) == FromLe(Magic()) && Word(buf, 4) == VERSION && Word(buf, 8) == n
  {
    hide FromLe, ToLe, Pow256;
    var buf := HeaderOf(n) + rest;
    assert buf[0..4] == Magic() && buf[4..8] == ToLe(VERSION, 4) && buf[8..12] == ToLe(n, 4);
    Widths();
    LeRoundTrip(VERSION, 4);
    LeRoundTrip(n, 4);
  }

  /** What a store packed from `agents`, with anything after it, parses to is those agents. */
  ghost predicate ReadsBack(utf8: seq<byte> -> bool, agents: seq<Agent>, tail: seq<byte>)
  {
    var buf := PackOf(agents) + tail;
    var r := ParseOf(utf8, buf);
    && r.Ok? && |r.value| == |agents|
    && forall i :: 0 <= i < |agents| ==>
         r.value[i].at + r.value[i].len <= |buf| && AgentAt(buf, r.value[i]) == agents[i]
  }

  /** The round trip holds exactly for one to eight agents that keep the rules. */
  lemma RoundTrip(utf8: seq<byte> -> bool, agents: seq<Agent>, tail: seq<byte>)
    requires |agents| < U32_END && forall i :: 0 <= i < |agents| ==> Typed(agents[i])
    ensures ReadsBack(utf8, agents, tail) <==>
      0 < |agents| <= MAX_AGENTS && forall i :: 0 <= i < |agents| ==> Rules(utf8, agents[i])
  {
    hide Records, Rules, Typed, AgentAt, PrintAll, FromLe, ToLe, Magic;
    var buf := PackOf(agents) + tail;
    HeaderReads(|agents|, PrintAll(agents) + tail);
    assert buf == HeaderOf(|agents|) + (PrintAll(agents) + tail);
    if ReadsBack(utf8, agents, tail) {
      ParseSound(utf8, buf);
    }
    if 0 < |agents| <= MAX_AGENTS && forall i :: 0 <= i < |agents| ==> Rules(utf8, agents[i]) {
      PrintedIsRead(utf8, HeaderOf(|agents|), agents, tail);
    }
  }

  // ---- Manifest entries ----

  /** `to_entry`'s slots: the marker means empty. */
  method EntrySlots(slots: seq<byte>) returns (r: seq<Option<byte>>)
    requires |slots| == MAX_SLOTS
    ensures |r| == 4 && forall i :: 0 <= i < 4 ==> r[i] == if slots[i] == 0xFF then None else Some(slots[i])
  {
    r := seq(MAX_SLOTS, i => None);
    var i := 0;
    while i < MAX_SLOTS
      invariant i <= MAX_SLOTS && |r| == MAX_SLOTS
      invariant forall j :: 0 <= j < i ==> r[j] == if slots[j] == SLOT_NONE then None else Some(slots[j])
      invariant forall j :: i <= j < MAX_SLOTS ==> r[j] == None
    {
      if slots[i] != SLOT_NONE {
        r := r[i := Some(slots[i])];
      }
      i := i + 1;
    }
  }
}

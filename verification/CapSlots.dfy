/** Capability ids and the per-task slot table: what a run of grants, moves and exits conserves and confines. */
module CapSlots {
  import opened Wrappers

  // ---- Ids ----

  const INDEX_END: nat := 0x1_0000
  const TASK_BAND: nat := 0x4000
  const IRQ_BAND: nat := 0x8000

  /** A table index in the low half, a generation in the high half. */
  type CapId = c: nat | c < 0x1_0000_0000

  datatype CapClass = Endpoint(payload: nat) | Task(payload: nat) | Interrupt(payload: nat) | Invalid

  function NewCap(index: nat, generation: nat): CapId
    requires index < INDEX_END && generation < INDEX_END
  {
    generation * INDEX_END + index
  }

  function Index(c: CapId): (r: nat)
    ensures r < INDEX_END
  {
    c % INDEX_END
  }

  function Generation(c: CapId): (r: nat)
    ensures r < INDEX_END
  {
    c / INDEX_END
  }

  /** Bits 15 and 14 of the index say what it names. */
  function Classify(c: CapId): CapClass
  {
    var payload := Index(c) % TASK_BAND;
    match (Index(c) / IRQ_BAND % 2 != 0, Index(c) / TASK_BAND % 2 != 0)
    case (false, false) => Endpoint(payload)
    case (false, true) => Task(payload)
    case (true, false) => Interrupt(payload)
    case (true, true) => Invalid
  }

  /** The index a class and payload are minted with. */
  function Banded(k: CapClass): Option<nat>
  {
    match k
    case Endpoint(p) => Some(p)
    case Task(p) => Some(TASK_BAND + p)
    case Interrupt(p) => Some(IRQ_BAND + p)
    case Invalid => None
  }

  /** Ids are exactly index and generation, and a stale generation never compares equal. */
  lemma CapRoundTrip(index: nat, generation: nat, c: CapId)
    requires index < INDEX_END && generation < INDEX_END
    ensures Index(NewCap(index, generation)) == index && Generation(NewCap(index, generation)) == generation
    ensures NewCap(Index(c), Generation(c)) == c
  {
  }

  /** The decoder undoes the bands, and refuses exactly the ids with both bits set. */
  lemma ClassifyInverts(c: CapId)
    ensures Classify(c).Invalid? <==> Index(c) >= IRQ_BAND + TASK_BAND
    ensures !Classify(c).Invalid? ==> Banded(Classify(c)) == Some(Index(c)) && Classify(c).payload < TASK_BAND
  {
  }

  /** The bands in numbers: a quarter of the indices each, the top quarter refused. */
  lemma ClassifyBands(c: CapId)
    ensures Classify(c).Endpoint? <==> c % 0x1_0000 < 0x4000
    ensures Classify(c).Task? <==> 0x4000 <= c % 0x1_0000 < 0x8000
    ensures Classify(c).Interrupt? <==> 0x8000 <= c % 0x1_0000 < 0xC000
    ensures !Classify(c).Invalid? ==> Classify(c).payload == c % 0x4000
  {
    BandBits(Index(c));
    LowBits(c);
  }

  lemma BandBits(i: nat)
    requires i < 0x1_0000
    ensures i / 0x8000 % 2 != 0 <==> i >= 0x8000
    ensures i / 0x4000 % 2 != 0 <==> 0x4000 <= i < 0x8000 || i >= 0xC000
  {
    var q := i / 0x4000;
    assert q in {0, 1, 2, 3} && 0x4000 * q <= i < 0x4000 * q + 0x4000;
    assert i / 0x8000 == if i < 0x8000 then 0 else 1;
  }

  lemma LowBits(c: nat)
    ensures c % 0x1_0000 % 0x4000 == c % 0x4000
  {
    var k, i := c / 0x1_0000, c % 0x1_0000;
    var q, r := i / 0x4000, i % 0x4000;
    assert c == 0x4000 * (4 * k + q) + r;
  }

  lemma ClassifyReads(k: CapClass, generation: nat)
    requires !k.Invalid? && k.payload < TASK_BAND && generation < INDEX_END
    ensures Banded(k).Some? && Banded(k).value < INDEX_END && Classify(NewCap(Banded(k).value, generation)) == k
  {
    CapRoundTrip(Banded(k).value, generation, 0);
  }

  // ---- Rows ----

  type Row = seq<Option<CapId>>
  /** One row a task, all of one width. */
  type Grid = seq<Row>

  datatype SlotError = OutOfRange(slot: nat, slots: nat) | Empty(slot: nat)
  datatype InstallError = BadSlot
  datatype TransferError = BadFromSlot | ToSlotFull | ToSlotOob | Untransferable

  function FromSlot(caps: Row, slot: nat): Result<CapId, SlotError>
  {
    if slot >= |caps| then Err(OutOfRange(slot, |caps|))
    else match caps[slot]
         case Some(c) => Ok(c)
         case None => Err(Empty(slot))
  }

  predicate Wide(g: Grid, slots: nat)
  {
    forall t :: 0 <= t < |g| ==> |g[t]| == slots
  }

  function Blank(slots: nat): Row
  {
    seq(slots, i => None)
  }

  /** A spawn's row: the slots listed, holes included, the rest cleared. */
  function SeedRow(slots: nat, caps: Row): Row
  {
    seq(slots, i requires 0 <= i => if i < |caps| then caps[i] else None)
  }

  function Cell(g: Grid, t: nat, i: nat, v: Option<CapId>): Grid
    requires t < |g| && i < |g[t]|
  {
    g[t := g[t][i := v]]
  }

  function BoundsOf(slots: nat, fromSlot: nat, toSlot: nat): Result<(), TransferError>
  {
    if fromSlot >= slots then Err(BadFromSlot) else if toSlot >= slots then Err(ToSlotOob) else Ok(())
  }

  /** The refusal order of the ABI. */
  function TransferOf(g: Grid, slots: nat, ft: nat, fs: nat, tt: nat, ts: nat): Result<(), TransferError>
    requires Wide(g, slots) && ft < |g| && tt < |g|
  {
    if BoundsOf(slots, fs, ts).Err? then BoundsOf(slots, fs, ts)
    else if ft == tt && fs == ts then Ok(())
    else match g[ft][fs]
         case None => Err(BadFromSlot)
         case Some(c) =>
           if !Classify(c).Endpoint? then Err(Untransferable)
           else if g[tt][ts].Some? then Err(ToSlotFull)
           else Ok(())
  }

  function Moved(g: Grid, slots: nat, ft: nat, fs: nat, tt: nat, ts: nat): Grid
    requires Wide(g, slots) && ft < |g| && tt < |g|
  {
    if TransferOf(g, slots, ft, fs, tt, ts).Err? || (ft == tt && fs == ts) then g
    else Cell(Cell(g, ft, fs, None), tt, ts, g[ft][fs])
  }

  /** A transfer goes through exactly for an endpoint into an empty slot, or onto itself. */
  lemma TransferExact(g: Grid, slots: nat, ft: nat, fs: nat, tt: nat, ts: nat)
    requires Wide(g, slots) && ft < |g| && tt < |g|
    ensures TransferOf(g, slots, ft, fs, tt, ts).Ok? <==>
      && fs < slots && ts < slots
      && ((ft == tt && fs == ts)
          || (FromSlot(g[ft], fs).Ok? && Classify(FromSlot(g[ft], fs).value).Endpoint?
              && FromSlot(g[tt], ts) == Err(Empty(ts))))
  {
  }

  /** Each refusal, and what the two slots hold when it is given. */
  lemma TransferErrors(g: Grid, slots: nat, ft: nat, fs: nat, tt: nat, ts: nat)
    requires Wide(g, slots) && ft < |g| && tt < |g|
    ensures var r, from, to := TransferOf(g, slots, ft, fs, tt, ts), FromSlot(g[ft], fs), FromSlot(g[tt], ts);
            var other := !(ft == tt && fs == ts);
            && (r == Err(ToSlotOob) <==> fs < slots && ts >= slots)
            && (r == Err(BadFromSlot) <==> fs >= slots || (ts < slots && other && from == Err(Empty(fs))))
            && (r == Err(Untransferable) <==> ts < slots && other && from.Ok? && from.value % 0x1_0000 >= 0x4000)
            && (r == Err(ToSlotFull) <==> other && from.Ok? && from.value % 0x1_0000 < 0x4000 && to.Ok?)
  {
    if FromSlot(g[ft], fs).Ok? { ClassifyBands(FromSlot(g[ft], fs).value); }
  }

  /** The cap is then found in the one slot and gone from the other; the same transfer back undoes it. */
  lemma TransferBack(g: Grid, slots: nat, ft: nat, fs: nat, tt: nat, ts: nat)
    requires Wide(g, slots) && ft < |g| && tt < |g| && !(ft == tt && fs == ts)
    requires TransferOf(g, slots, ft, fs, tt, ts).Ok?
    ensures var h := Moved(g, slots, ft, fs, tt, ts);
            && |h| == |g| && Wide(h, slots)
            && FromSlot(h[tt], ts) == FromSlot(g[ft], fs) && FromSlot(h[ft], fs) == Err(Empty(fs))
            && TransferOf(h, slots, tt, ts, ft, fs).Ok? && Moved(h, slots, tt, ts, ft, fs) == g
  {
    var h := Moved(g, slots, ft, fs, tt, ts);
    SameGrid(Moved(h, slots, tt, ts, ft, fs), g, slots);
  }

  // ---- The table ----

  class Table {
    const tasks: nat
    const slots: nat
    const cells: array2<Option<CapId>>

    ghost predicate Valid()
    {
      cells.Length0 == tasks && cells.Length1 == slots
    }

    ghost function RowOf(t: nat): (r: Row)
      requires Valid() && t < tasks
      reads cells
      ensures |r| == slots && forall i :: 0 <= i < slots ==> r[i] == cells[t, i]
    {
      seq(slots, i requires 0 <= i < slots reads cells => cells[t, i])
    }

    ghost function Rows(): (g: Grid)
      requires Valid()
      reads cells
      ensures |g| == tasks && Wide(g, slots)
      ensures forall t :: 0 <= t < tasks ==> g[t] == RowOf(t)
      ensures forall t, i :: 0 <= t < tasks && 0 <= i < slots ==> g[t][i] == cells[t, i]
    {
      seq(tasks, t requires 0 <= t < tasks reads cells => RowOf(t))
    }

    constructor (tasks: nat, slots: nat)
      ensures Valid() && fresh(cells) && this.tasks == tasks && this.slots == slots
      ensures Rows() == seq(tasks, t => Blank(slots))
    {
      this.tasks, this.slots := tasks, slots;
      cells := new Option<CapId>[tasks, slots]((t, i) => None);
      new;
      SameGrid(Rows(), seq(tasks, t => Blank(slots)), slots);
    }

    /** `get`: an agent can only name a slot of its own row. */
    method Get(task: nat, slot: nat) returns (r: Result<CapId, SlotError>)
      requires Valid()
      ensures r == if task < tasks then FromSlot(Rows()[task], slot) else Err(OutOfRange(slot, 0))
      ensures forall c: CapId :: r == Ok(c) <==> task < tasks && slot < slots && Rows()[task][slot] == Some(c)
      ensures r == Err(Empty(slot)) <==> task < tasks && slot < slots && Rows()[task][slot] == None
      ensures r.Err? && r.error.OutOfRange? <==> task >= tasks || slot >= slots
    {
      if task >= tasks {
        return Err(OutOfRange(slot, 0));
      }
      if slot >= slots {
        return Err(OutOfRange(slot, slots));
      }
      match cells[task, slot] {
        case Some(c) => r := Ok(c);
        case None => r := Err(Empty(slot));
      }
    }

    /** `holds`: exactly when some slot of the row resolves to the cap. */
    method Holds(task: nat, cap: CapId) returns (r: bool)
      requires Valid()
      ensures r <==> task < tasks && exists slot: nat :: FromSlot(Rows()[task], slot) == Ok(cap)
    {
      if task >= tasks {
        return false;
      }
      var i: nat := 0;
      while i < slots
        invariant i <= slots && forall j: nat :: j < i ==> cells[task, j] != Some(cap)
      {
        if cells[task, i] == Some(cap) {
          assert FromSlot(Rows()[task], i) == Ok(cap);
          return true;
        }
        i := i + 1;
      }
      r := false;
    }

    /** `seed`: slot for slot the list, what it leaves open cleared. */
    method Seed(task: nat, caps: Row)
      requires Valid()
      modifies cells
      ensures task < tasks ==>
        forall i: nat :: i < slots ==> FromSlot(Rows()[task], i) == if i < |caps| then FromSlot(caps, i) else Err(Empty(i))
      ensures forall t: nat :: t < tasks && t != task ==> Rows()[t] == old(Rows())[t]
      ensures Rows() == if task < tasks then old(Rows())[task := SeedRow(slots, caps)] else old(Rows())
    {
      if task >= tasks {
        return;
      }
      var i: nat := 0;
      while i < slots
        invariant i <= slots
        invariant forall t: nat, j: nat :: t < tasks && j < slots ==>
          cells[t, j] == if t == task && j < i then SeedRow(slots, caps)[j] else old(cells[t, j])
      {
        cells[task, i] := if i < |caps| then caps[i] else None;
        i := i + 1;
      }
      SameGrid(Rows(), old(Rows())[task := SeedRow(slots, caps)], slots);
    }

    method Install(task: nat, slot: nat, cap: CapId) returns (r: Result<(), InstallError>)
      requires Valid()
      modifies cells
      ensures r.Ok? <==> task < tasks && slot < slots && old(Rows())[task][slot].None?
      ensures Rows() == if r.Ok? then Cell(old(Rows()), task, slot, Some(cap)) else old(Rows())
    {
      if task >= tasks || slot >= slots || cells[task, slot].Some? {
        return Err(BadSlot);
      }
      cells[task, slot] := Some(cap);
      SameGrid(Rows(), Cell(old(Rows()), task, slot, Some(cap)), slots);
      r := Ok(());
    }

    method TransferBounds(fromSlot: nat, toSlot: nat) returns (r: Result<(), TransferError>)
      ensures r.Ok? <==> fromSlot < slots && toSlot < slots
      ensures r == Err(BadFromSlot) <==> fromSlot >= slots
      ensures r == BoundsOf(slots, fromSlot, toSlot)
    {
      if fromSlot >= slots {
        return Err(BadFromSlot);
      }
      if toSlot >= slots {
        return Err(ToSlotOob);
      }
      r := Ok(());
    }

    /** `transfer`, between rows the caller has already found live. */
    method Transfer(fromTask: nat, fromSlot: nat, toTask: nat, toSlot: nat) returns (r: Result<(), TransferError>)
      requires Valid() && fromTask < tasks && toTask < tasks
      modifies cells
      ensures r == TransferOf(old(Rows()), slots, fromTask, fromSlot, toTask, toSlot)
      ensures Rows() == Moved(old(Rows()), slots, fromTask, fromSlot, toTask, toSlot)
    {
      r := TransferBounds(fromSlot, toSlot);
      if r.Err? {
        return;
      }
      if fromTask == toTask && fromSlot == toSlot {
        return Ok(());
      }
      var cap := cells[fromTask, fromSlot];
      if cap.None? {
        return Err(BadFromSlot);
      }
      if !Classify(cap.value).Endpoint? {
        return Err(Untransferable);
      }
      if cells[toTask, toSlot].Some? {
        return Err(ToSlotFull);
      }
      cells[fromTask, fromSlot] := None;
      cells[toTask, toSlot] := cap;
      SameGrid(Rows(), Moved(old(Rows()), slots, fromTask, fromSlot, toTask, toSlot), slots);
      r := Ok(());
    }

    /** `drain`: the row as it was; it is empty afterwards. */
    method Drain(task: nat) returns (row: Row)
      requires Valid()
      modifies cells
      ensures row == if task < tasks then old(Rows())[task] else Blank(slots)
      ensures Rows() == if task < tasks then old(Rows())[task := Blank(slots)] else old(Rows())
    {
      if task >= tasks {
        return Blank(slots);
      }
      row := seq(slots, i requires 0 <= i < slots reads cells => cells[task, i]);
      assert row == old(Rows())[task];
      Seed(task, []);
      assert SeedRow(slots, []) == Blank(slots);
    }
  }

  lemma SameGrid(g: Grid, h: Grid, slots: nat)
    requires |g| == |h| && Wide(g, slots) && Wide(h, slots)
    requires forall t, i :: 0 <= t < |g| && 0 <= i < slots ==> g[t][i] == h[t][i]
    ensures g == h
  {
    forall t | 0 <= t < |g|
      ensures g[t] == h[t]
    {
      assert forall i :: 0 <= i < slots ==> g[t][i] == h[t][i];
    }
  }

  // ---- Runs ----

  datatype Op =
    | SeedTo(task: nat, caps: Row)
    | InstallTo(task: nat, slot: nat, cap: CapId)
    | Move(fromTask: nat, fromSlot: nat, toTask: nat, toSlot: nat)
    | DrainOf(task: nat)

  /** Moves name live tasks; the rest takes any numbers. */
  predicate Legal(op: Op, tasks: nat)
  {
    op.Move? ==> op.fromTask < tasks && op.toTask < tasks
  }

  predicate Accepted(g: Grid, slots: nat, op: Op)
    requires Wide(g, slots) && Legal(op, |g|)
  {
    match op
    case SeedTo(t, _) => t < |g|
    case InstallTo(t, i, _) => t < |g| && i < slots && g[t][i].None?
    case Move(ft, fs, tt, ts) => TransferOf(g, slots, ft, fs, tt, ts).Ok?
    case DrainOf(t) => t < |g|
  }

  function After(g: Grid, slots: nat, op: Op): (h: Grid)
    requires Wide(g, slots) && Legal(op, |g|)
    ensures |h| == |g| && Wide(h, slots)
  {
    if !Accepted(g, slots, op) then g
    else match op
         case SeedTo(t, caps) => g[t := SeedRow(slots, caps)]
         case InstallTo(t, i, c) => Cell(g, t, i, Some(c))
         case Move(ft, fs, tt, ts) => Moved(g, slots, ft, fs, tt, ts)
         case DrainOf(t) => g[t := Blank(slots)]
  }

  function RunOf(g: Grid, slots: nat, ops: seq<Op>): (h: Grid)
    requires Wide(g, slots) && forall i :: 0 <= i < |ops| ==> Legal(ops[i], |g|)
    ensures |h| == |g| && Wide(h, slots)
    decreases |ops|
  {
    if ops == [] then g else After(RunOf(g, slots, ops[..|ops| - 1]), slots, ops[|ops| - 1])
  }

  /** How often a row, and the whole table, holds a cap. */
  function InRow(r: Row, c: CapId): nat
  {
    multiset(r)[Some(c)]
  }

  function InGrid(g: Grid, c: CapId): nat
  {
    if g == [] then 0 else InGrid(g[..|g| - 1], c) + InRow(g[|g| - 1], c)
  }

  /** How many of a cap an operation brings in from outside, and how many it lets go. */
  function Granted(g: Grid, slots: nat, op: Op, c: CapId): nat
    requires Wide(g, slots) && Legal(op, |g|)
  {
    if !Accepted(g, slots, op) then 0
    else match op
         case SeedTo(_, caps) => InRow(if |caps| <= slots then caps else caps[..slots], c)
         case InstallTo(_, _, d) => if d == c then 1 else 0
         case _ => 0
  }

  function Released(g: Grid, slots: nat, op: Op, c: CapId): nat
    requires Wide(g, slots) && Legal(op, |g|)
  {
    if (op.SeedTo? || op.DrainOf?) && Accepted(g, slots, op) then InRow(g[op.task], c) else 0
  }

  function GrantedIn(g: Grid, slots: nat, ops: seq<Op>, c: CapId): nat
    requires Wide(g, slots) && forall i :: 0 <= i < |ops| ==> Legal(ops[i], |g|)
    decreases |ops|
  {
    if ops == [] then 0
    else var k := |ops| - 1;
         GrantedIn(g, slots, ops[..k], c) + Granted(RunOf(g, slots, ops[..k]), slots, ops[k], c)
  }

  function ReleasedIn(g: Grid, slots: nat, ops: seq<Op>, c: CapId): nat
    requires Wide(g, slots) && forall i :: 0 <= i < |ops| ==> Legal(ops[i], |g|)
    decreases |ops|
  {
    if ops == [] then 0
    else var k := |ops| - 1;
         ReleasedIn(g, slots, ops[..k], c) + Released(RunOf(g, slots, ops[..k]), slots, ops[k], c)
  }

  lemma {:induction false} RowReplaced(g: Grid, t: nat, r: Row, c: CapId)
    requires t < |g|
    ensures InGrid(g[t := r], c) + InRow(g[t], c) == InGrid(g, c) + InRow(r, c)
    decreases |g|
  {
    var k := |g| - 1;
    if t == k {
      assert g[t := r][..k] == g[..k];
    } else {
      assert g[t := r][..k] == g[..k][t := r];
      RowReplaced(g[..k], t, r, c);
    }
  }

  function One(v: Option<CapId>, c: CapId): nat
  {
    if v == Some(c) then 1 else 0
  }

  lemma CellReplaced(g: Grid, t: nat, i: nat, v: Option<CapId>, c: CapId)
    requires t < |g| && i < |g[t]|
    ensures InGrid(Cell(g, t, i, v), c) + One(g[t][i], c) == InGrid(g, c) + One(v, c)
  {
    var r := g[t];
    assert multiset(r[i := v]) == multiset(r) - multiset{r[i]} + multiset{v};
    RowReplaced(g, t, r[i := v], c);
  }

  lemma BlankHoldsNothing(slots: nat, c: CapId)
    ensures InRow(Blank(slots), c) == 0
  {
    assert Some(c) !in Blank(slots);
  }

  /** A seeded row holds what the list names in its first slots, as often as it names it. */
  lemma SeedHolds(slots: nat, caps: Row, c: CapId)
    ensures InRow(SeedRow(slots, caps), c) == InRow(if |caps| <= slots then caps else caps[..slots], c)
  {
    var listed := if |caps| <= slots then caps else caps[..slots];
    var row, rest := SeedRow(slots, caps), Blank(slots - |listed|);
    assert row == listed + rest;
    BlankHoldsNothing(slots - |listed|, c);
    assert multiset(row) == multiset(listed) + multiset(rest);
  }

  /** A transfer moves a cap and makes none: every cap is held as often as before. */
  lemma TransferConserves(g: Grid, slots: nat, ft: nat, fs: nat, tt: nat, ts: nat, c: CapId)
    requires Wide(g, slots) && ft < |g| && tt < |g|
    ensures InGrid(Moved(g, slots, ft, fs, tt, ts), c) == InGrid(g, c)
  {
    if TransferOf(g, slots, ft, fs, tt, ts).Ok? && !(ft == tt && fs == ts) {
      CellReplaced(g, ft, fs, None, c);
      CellReplaced(Cell(g, ft, fs, None), tt, ts, g[ft][fs], c);
    }
  }

  lemma StepConserves(g: Grid, slots: nat, op: Op, c: CapId)
    requires Wide(g, slots) && Legal(op, |g|)
    ensures InGrid(After(g, slots, op), c) + Released(g, slots, op, c) == InGrid(g, c) + Granted(g, slots, op, c)
  {
    if Accepted(g, slots, op) {
      match op {
        case SeedTo(t, caps) => RowReplaced(g, t, SeedRow(slots, caps), c); SeedHolds(slots, caps, c);
        case InstallTo(t, i, d) => CellReplaced(g, t, i, Some(d), c);
        case Move(ft, fs, tt, ts) => TransferConserves(g, slots, ft, fs, tt, ts, c);
        case DrainOf(t) => RowReplaced(g, t, Blank(slots), c); BlankHoldsNothing(slots, c);
      }
    }
  }

  /** Over any run the books balance for every cap: held now and let go is held before and granted. */
  lemma {:induction false} RunConserves(g: Grid, slots: nat, ops: seq<Op>, c: CapId)
    requires Wide(g, slots) && forall i :: 0 <= i < |ops| ==> Legal(ops[i], |g|)
    ensures InGrid(RunOf(g, slots, ops), c) + ReleasedIn(g, slots, ops, c) == InGrid(g, c) + GrantedIn(g, slots, ops, c)
    decreases |ops|
  {
    if ops != [] {
      var k := |ops| - 1;
      RunConserves(g, slots, ops[..k], c);
      StepConserves(RunOf(g, slots, ops[..k]), slots, ops[k], c);
    }
  }

  /** A seed or an install named row `t` for the cap. */
  predicate GrantedTo(ops: seq<Op>, t: nat, c: CapId)
  {
    exists i :: 0 <= i < |ops| && Names(ops[i], t, c)
  }

  predicate Names(op: Op, t: nat, c: CapId)
  {
    match op
    case SeedTo(u, caps) => u == t && Some(c) in caps
    case InstallTo(u, _, d) => u == t && d == c
    case _ => false
  }

  lemma StepConfines(g: Grid, slots: nat, op: Op, t: nat, c: CapId)
    requires Wide(g, slots) && Legal(op, |g|) && t < |g| && !Classify(c).Endpoint?
    requires Some(c) in After(g, slots, op)[t]
    ensures Some(c) in g[t] || Names(op, t, c)
  {
    var i :| 0 <= i < slots && After(g, slots, op)[t][i] == Some(c);
    if g[t][i] != Some(c) && op.SeedTo? {
      assert op.caps[i] == Some(c);
    }
  }

  /** Only endpoints travel: any other cap is found only in rows it was granted to by name. */
  lemma {:induction false} RunConfines(g: Grid, slots: nat, ops: seq<Op>, t: nat, c: CapId)
    requires Wide(g, slots) && forall i :: 0 <= i < |ops| ==> Legal(ops[i], |g|)
    requires t < |g| && !Classify(c).Endpoint? && Some(c) in RunOf(g, slots, ops)[t]
    ensures Some(c) in g[t] || GrantedTo(ops, t, c)
    decreases |ops|
  {
    if ops != [] {
      var k := |ops| - 1;
      var h := RunOf(g, slots, ops[..k]);
      StepConfines(h, slots, ops[k], t, c);
      if Some(c) in h[t] {
        RunConfines(g, slots, ops[..k], t, c);
        if Some(c) !in g[t] {
          var i :| 0 <= i < k && Names(ops[..k][i], t, c);
          assert Names(ops[i], t, c);
        }
      } else {
        assert Names(ops[k], t, c);
      }
    }
  }
}

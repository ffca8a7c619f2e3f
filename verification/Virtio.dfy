/** The split virtqueue driver: free-running 16-bit cursors over eight-entry rings, against an in-order device. */
module Virtio {
  import opened Wrappers

  const QUEUE_COUNT: nat := 2
  const QUEUE_SIZE: nat := 8
  const RX_QUEUE: nat := 0
  const TX_QUEUE: nat := 1
  const MAX_BUFFER_BYTES: nat := 2060
  const DESC_F_WRITE: nat := 2
  const U16_END: nat := 0x1_0000

  datatype Failure = InvalidBuffer | InvalidRing(queue: nat) | QueueFull(queue: nat)

  /** One buffer as the device sees it. */
  datatype Buffer = Buffer(pa: nat, len: nat, flags: nat)

  datatype UsedElement = UsedElement(descriptor: nat, len: nat)

  /** One queue: the driver's two cursors, and the ring memory it shares with the device. */
  datatype Queue = Queue(
    avail: nat,
    used: nat,
    desc: seq<Buffer>,
    availRing: seq<nat>,
    availIdx: nat,
    usedRing: seq<UsedElement>,
    usedIdx: nat)

  predicate Shaped(q: Queue)
  {
    && |q.desc| == |q.availRing| == |q.usedRing| == QUEUE_SIZE
    && q.avail < U16_END && q.used < U16_END && q.availIdx < U16_END && q.usedIdx < U16_END
  }

  function WrappingSub(a: nat, b: nat): (r: nat)
    requires a < U16_END && b < U16_END
    ensures r < U16_END
  {
    (a + U16_END - b) % U16_END
  }

  function WrappingNext(a: nat): (r: nat)
    ensures r < U16_END
  {
    (a + 1) % U16_END
  }

  /** `validate_descriptor`. */
  predicate GoodBuffer(pa: nat, len: nat)
  {
    pa != 0 && pa % 16 == 0 && 0 < len <= MAX_BUFFER_BYTES
  }

  /** `publish` past its checks. */
  function Published(q: Queue, b: Buffer): Queue
    requires Shaped(q)
  {
    var slot := q.avail % QUEUE_SIZE;
    q.(desc := q.desc[slot := b], availRing := q.availRing[slot := slot],
       avail := WrappingNext(q.avail), availIdx := WrappingNext(q.avail))
  }

  predicate Full(q: Queue)
    requires Shaped(q)
  {
    WrappingSub(q.avail, q.usedIdx) >= QUEUE_SIZE
  }

  function Polled(q: Queue): (Queue, Option<UsedElement>)
    requires Shaped(q)
  {
    if q.used == q.usedIdx then (q, None)
    else (q.(used := WrappingNext(q.used)), Some(q.usedRing[q.used % QUEUE_SIZE]))
  }

  class Configured {
    const queues: array<Queue>

    ghost predicate Valid()
      reads queues
    {
      queues.Length == QUEUE_COUNT && forall i :: 0 <= i < QUEUE_COUNT ==> Shaped(queues[i])
    }

    /** Fresh from `configure`: zeroed ring pages, cursors at zero. */
    constructor ()
      ensures Valid() && fresh(queues)
      ensures forall i :: 0 <= i < QUEUE_COUNT ==> queues[i] == Idle()
    {
      queues := new Queue[QUEUE_COUNT](i => Idle());
    }

    method PostRx(pa: nat, len: nat) returns (r: Result<(), Failure>)
      requires Valid()
      modifies queues
      ensures Valid() && queues[1] == old(queues[1])
      ensures r.Ok? <==> pa != 0 && pa % 16 == 0 && 1 <= len <= 2060 && !Full(old(queues[0]))
      ensures queues[0] == if r.Ok? then Published(old(queues[0]), Buffer(pa, len, 2)) else old(queues[0])
    {
      r := Publish(RX_QUEUE, pa, len, DESC_F_WRITE);
    }

    method SubmitTx(pa: nat, len: nat) returns (r: Result<(), Failure>)
      requires Valid()
      modifies queues
      ensures Valid() && queues[0] == old(queues[0])
      ensures r.Ok? <==> pa != 0 && pa % 16 == 0 && 1 <= len <= 2060 && !Full(old(queues[1]))
      ensures queues[1] == if r.Ok? then Published(old(queues[1]), Buffer(pa, len, 0)) else old(queues[1])
    {
      r := Publish(TX_QUEUE, pa, len, 0);
    }

    method PollUsed(queue: nat) returns (r: Result<Option<UsedElement>, Failure>)
      requires Valid()
      modifies queues
      ensures Valid()
      ensures queue >= QUEUE_COUNT ==> r == Err(InvalidRing(queue))
      ensures queue < QUEUE_COUNT ==>
        r == Ok(Polled(old(queues[queue])).1) && queues[..] == old(queues[..])[queue := Polled(old(queues[queue])).0]
    {
      if queue >= QUEUE_COUNT {
        return Err(InvalidRing(queue));
      }
      var q := queues[queue];
      if q.used == q.usedIdx {
        return Ok(None);
      }
      var element := q.usedRing[q.used % QUEUE_SIZE];
      queues[queue] := q.(used := WrappingNext(q.used));
      r := Ok(Some(element));
    }

    method Publish(queue: nat, pa: nat, len: nat, flags: nat) returns (r: Result<(), Failure>)
      requires Valid()
      modifies queues
      ensures Valid()
      ensures r == Err(InvalidBuffer) <==> pa == 0 || pa % 16 != 0 || len == 0 || len > 2060
      ensures GoodBuffer(pa, len) && queue >= QUEUE_COUNT ==> r == Err(InvalidRing(queue))
      ensures GoodBuffer(pa, len) && queue < QUEUE_COUNT ==>
        r == if Full(old(queues[queue])) then Err(QueueFull(queue)) else Ok(())
      ensures r.Err? ==> queues[..] == old(queues[..])
      ensures r.Ok? ==> queues[..] == old(queues[..])[queue := Published(old(queues[queue]), Buffer(pa, len, flags))]
    {
      if !GoodBuffer(pa, len) {
        return Err(InvalidBuffer);
      }
      if queue >= QUEUE_COUNT {
        return Err(InvalidRing(queue));
      }
      var q := queues[queue];
      if WrappingSub(q.avail, q.usedIdx) >= QUEUE_SIZE {
        return Err(QueueFull(queue));
      }
      var descriptor := q.avail % QUEUE_SIZE;
      q := q.(desc := q.desc[descriptor := Buffer(pa, len, flags)]);
      q := q.(availRing := q.availRing[q.avail % QUEUE_SIZE := descriptor]);
      q := q.(avail := WrappingNext(q.avail));
      q := q.(availIdx := q.avail);
      queues[queue] := q;
      r := Ok(());
    }

    /** `reset`: both cursors of both queues; the ring memory stays. */
    method Reset()
      requires Valid()
      modifies queues
      ensures Valid() && forall i :: 0 <= i < QUEUE_COUNT ==> queues[i] == Cleared(old(queues[i]))
    {
      queues[RX_QUEUE] := Cleared(queues[RX_QUEUE]);
      queues[TX_QUEUE] := Cleared(queues[TX_QUEUE]);
    }
  }

  function Idle(): (q: Queue)
    ensures Shaped(q) && q.avail == q.used == q.availIdx == q.usedIdx == 0
  {
    Queue(0, 0, seq(QUEUE_SIZE, i => Buffer(0, 0, 0)), seq(QUEUE_SIZE, i => 0), 0,
          seq(QUEUE_SIZE, i => UsedElement(0, 0)), 0)
  }

  function Cleared(q: Queue): Queue
  {
    q.(avail := 0, used := 0)
  }

  // ---- Driver and device, write by write ----

  /** How far the driver has got with a buffer: its writes are separate, and the device acts between them. */
  datatype Writing = Resting | Checked(b: Buffer) | Described(b: Buffer) | Listed(b: Buffer)

  /** The queue with everything that ever passed through it. */
  datatype World = World(
    q: Queue,
    writing: Writing,
    // Every buffer whose index write was made; then, for each one the device fetched, its descriptor and contents.
    published: seq<Buffer>,
    taken: seq<nat>,
    seen: seq<Buffer>,
    // Every element the device wrote to the used ring, and how many of them its index admits.
    landed: seq<UsedElement>,
    told: nat,
    polled: seq<UsedElement>)

  datatype Step =
    // `publish`: read `used.idx`, then write descriptor, ring entry and index.
    | Check(b: Buffer)
    | WriteDesc
    | WriteRing
    | WriteIdx
    // The device, in order: read the next ring entry and its descriptor, write the used element, write the index.
    | Fetch
    | Land(len: nat)
    | Tell
    | Poll

  function NextDescriptor(w: World): nat
    requires Shaped(w.q)
  {
    w.q.availRing[|w.taken| % QUEUE_SIZE]
  }

  predicate Enabled(w: World, t: Step)
  {
    && Shaped(w.q)
    && match t
       case Check(_) => w.writing.Resting? && !Full(w.q)
       case WriteDesc => w.writing.Checked?
       case WriteRing => w.writing.Described?
       case WriteIdx => w.writing.Listed?
       case Fetch => w.q.availIdx != |w.taken| % U16_END && NextDescriptor(w) < QUEUE_SIZE
       case Land(_) => |w.landed| == w.told && |w.landed| < |w.taken|
       case Tell => w.told < |w.landed|
       case Poll => w.writing.Resting?
  }

  function Apply(w: World, t: Step): World
    requires Enabled(w, t)
  {
    match t
    case Check(b) => w.(writing := Checked(b))
    case WriteDesc =>
      w.(q := w.q.(desc := w.q.desc[w.q.avail % QUEUE_SIZE := w.writing.b]), writing := Described(w.writing.b))
    case WriteRing =>
      var slot := w.q.avail % QUEUE_SIZE;
      w.(q := w.q.(availRing := w.q.availRing[slot := slot]), writing := Listed(w.writing.b))
    case WriteIdx =>
      var next := WrappingNext(w.q.avail);
      w.(q := w.q.(avail := next, availIdx := next), writing := Resting, published := w.published + [w.writing.b])
    case Fetch =>
      var d := NextDescriptor(w);
      w.(taken := w.taken + [d], seen := w.seen + [w.q.desc[d]])
    case Land(len) =>
      var n := |w.landed|;
      var e := UsedElement(w.taken[n], len);
      w.(q := w.q.(usedRing := w.q.usedRing[n % QUEUE_SIZE := e]), landed := w.landed + [e])
    case Tell => w.(q := w.q.(usedIdx := WrappingNext(w.q.usedIdx)), told := w.told + 1)
    case Poll =>
      var (q, e) := Polled(w.q);
      w.(q := q, polled := if e.Some? then w.polled + [e.value] else w.polled)
  }

  function Start(): World
  {
    World(Idle(), Resting, [], [], [], [], 0, [])
  }

  ghost predicate Reaches(w: World, run: seq<Step>, e: World)
    decreases |run|
  {
    if run == [] then e == w else Enabled(w, run[0]) && Reaches(Apply(w, run[0]), run[1..], e)
  }

  /** With no device in between, the four steps are the method. */
  lemma PublishIsSteps(w: World, b: Buffer)
    requires Shaped(w.q) && w.writing.Resting? && !Full(w.q)
    ensures Reaches(w, [Check(b), WriteDesc, WriteRing, WriteIdx],
                    w.(q := Published(w.q, b), published := w.published + [b]))
  {
    var w1 := Apply(w, Check(b));
    var w2 := Apply(w1, WriteDesc);
    var w3 := Apply(w2, WriteRing);
    var w4 := Apply(w3, WriteIdx);
    var run := [Check(b), WriteDesc, WriteRing, WriteIdx];
    assert Reaches(w4, run[4..], w4);
    assert run[3..][1..] == run[4..] && Reaches(w3, run[3..], w4);
    assert run[2..][1..] == run[3..] && Reaches(w2, run[2..], w4);
    assert run[1..][1..] == run[2..] && Reaches(w1, run[1..], w4);
  }

  // ---- What every step keeps ----

  /** The cursors are the counts, sixteen bits of them; a buffer being written still has its place. */
  predicate Counted(w: World)
  {
    && Shaped(w.q)
    && |w.polled| <= w.told <= |w.landed| <= w.told + 1
    && |w.landed| <= |w.taken| == |w.seen| <= |w.published| <= w.told + QUEUE_SIZE
    && (!w.writing.Resting? ==> |w.published| < w.told + QUEUE_SIZE)
    && w.q.avail == w.q.availIdx == |w.published| % U16_END
    && w.q.usedIdx == w.told % U16_END
    && w.q.used == |w.polled| % U16_END
  }

  /** What the device owns, until it says it is done, is as it was published; a half-written buffer is as far as it got. */
  predicate Owned(w: World)
    requires Shaped(w.q)
  {
    && (forall i: nat :: w.told <= i < |w.published| ==>
          w.q.availRing[i % QUEUE_SIZE] == i % QUEUE_SIZE && w.q.desc[i % QUEUE_SIZE] == w.published[i])
    && (w.writing.Described? || w.writing.Listed? ==> w.q.desc[|w.published| % QUEUE_SIZE] == w.writing.b)
    && (w.writing.Listed? ==> w.q.availRing[|w.published| % QUEUE_SIZE] == |w.published| % QUEUE_SIZE)
  }

  /** What the device fetched and reported: the right buffers, the right descriptors, the last eight still in the ring. */
  predicate Reported(w: World)
    requires Shaped(w.q) && |w.landed| <= |w.taken| == |w.seen| <= |w.published|
  {
    && (forall i: nat :: i < |w.taken| ==> w.seen[i] == w.published[i] && w.taken[i] == i % QUEUE_SIZE)
    && (forall i: nat :: i < |w.landed| ==> w.landed[i].descriptor == i % QUEUE_SIZE)
    && (forall i: nat :: i < |w.landed| <= i + QUEUE_SIZE ==> w.q.usedRing[i % QUEUE_SIZE] == w.landed[i])
  }

  predicate Inv(w: World)
  {
    Counted(w) && Owned(w) && Reported(w)
  }

  lemma SixteenBits(n: nat)
    ensures n % U16_END % QUEUE_SIZE == n % QUEUE_SIZE && WrappingNext(n % U16_END) == (n + 1) % U16_END
  {
  }

  /** The full check counts buffers not reported back, through any wrap. */
  lemma FullIsEight(w: World)
    requires Counted(w)
    ensures WrappingSub(w.q.avail, w.q.usedIdx) == |w.published| - w.told
    ensures Full(w.q) <==> |w.published| == w.told + QUEUE_SIZE
  {
    WrapsAround(w.told, |w.published| - w.told);
  }

  /** A short distance survives the wrap. */
  lemma WrapsAround(n: nat, d: nat)
    requires d < U16_END
    ensures WrappingSub((n + d) % U16_END, n % U16_END) == d
  {
    var r := n % U16_END;
    assert n == n / U16_END * U16_END + r;
    assert (n + d) % U16_END == if r + d < U16_END then r + d else r + d - U16_END by {
      assert n + d == n / U16_END * U16_END + (r + d);
      assert n + d == (n / U16_END + 1) * U16_END + (r + d - U16_END);
    }
  }

  lemma SameSlot(n: nat)
    ensures (n + QUEUE_SIZE) % QUEUE_SIZE == n % QUEUE_SIZE
  {
  }

  lemma SlotsDiffer(i: nat, j: nat)
    requires i < j < i + QUEUE_SIZE
    ensures i % QUEUE_SIZE != j % QUEUE_SIZE
  {
  }

  lemma WriteDescInv(w: World)
    requires Inv(w) && Enabled(w, WriteDesc)
    ensures Inv(Apply(w, WriteDesc))
  {
    var e, n := Apply(w, WriteDesc), |w.published|;
    SixteenBits(n);
    forall i: nat | w.told <= i < n
      ensures e.q.desc[i % QUEUE_SIZE] == e.published[i]
    {
      SlotsDiffer(i, n);
    }
  }

  lemma WriteRingInv(w: World)
    requires Inv(w) && Enabled(w, WriteRing)
    ensures Inv(Apply(w, WriteRing))
  {
    var e, n := Apply(w, WriteRing), |w.published|;
    SixteenBits(n);
    forall i: nat | w.told <= i < n
      ensures e.q.availRing[i % QUEUE_SIZE] == i % QUEUE_SIZE
    {
      SlotsDiffer(i, n);
    }
  }

  lemma WriteIdxInv(w: World)
    requires Inv(w) && Enabled(w, WriteIdx)
    ensures Inv(Apply(w, WriteIdx))
  {
    SixteenBits(|w.published|);
  }

  lemma FetchInv(w: World)
    requires Inv(w) && Enabled(w, Fetch)
    ensures Inv(Apply(w, Fetch))
  {
    var n := |w.taken|;
    SixteenBits(n);
    assert n < |w.published| && w.told <= n;
  }

  lemma LandInv(w: World, len: nat)
    requires Inv(w) && Enabled(w, Land(len))
    ensures Inv(Apply(w, Land(len)))
  {
    var e, n := Apply(w, Land(len)), |w.landed|;
    forall i: nat | i < |e.landed| <= i + QUEUE_SIZE
      ensures e.q.usedRing[i % QUEUE_SIZE] == e.landed[i]
    {
      if i < n { SlotsDiffer(i, n); }
    }
  }

  lemma TellInv(w: World)
    requires Inv(w) && Enabled(w, Tell)
    ensures Inv(Apply(w, Tell))
  {
    SixteenBits(w.told);
  }

  lemma PollInv(w: World)
    requires Inv(w) && Enabled(w, Poll)
    ensures Inv(Apply(w, Poll))
  {
    SixteenBits(|w.polled|);
  }

  lemma CheckInv(w: World, b: Buffer)
    requires Inv(w) && Enabled(w, Check(b))
    ensures Inv(Apply(w, Check(b)))
  {
    FullIsEight(w);
  }

  /** Every write of the driver and every act of the device, in any interleaving, keeps the invariant. */
  lemma StepInv(w: World, t: Step)
    requires Inv(w) && Enabled(w, t)
    ensures Inv(Apply(w, t))
  {
    hide Inv;
    match t {
      case Check(b) => CheckInv(w, b);
      case WriteDesc => WriteDescInv(w);
      case WriteRing => WriteRingInv(w);
      case WriteIdx => WriteIdxInv(w);
      case Fetch => FetchInv(w);
      case Land(len) => LandInv(w, len);
      case Tell => TellInv(w);
      case Poll => PollInv(w);
    }
  }

  lemma {:induction false} RunInv(w: World, run: seq<Step>, e: World)
    requires Inv(w) && Reaches(w, run, e)
    ensures Inv(e)
    decreases |run|
  {
    hide Inv;
    if run != [] {
      StepInv(w, run[0]);
      RunInv(Apply(w, run[0]), run[1..], e);
    }
  }

  lemma StartInv()
    ensures Inv(Start())
  {
  }

  /**
   * Safety, over every interleaving and through every wrap of the cursors: at most eight buffers are out,
   * the device has fetched exactly the buffers published, in order, and every one it has not reported
   * yet is still in its descriptor as published.
   */
  lemma RunSafe(run: seq<Step>, e: World)
    requires Reaches(Start(), run, e)
    ensures Shaped(e.q) && |e.published| <= e.told + QUEUE_SIZE && e.seen <= e.published && |e.landed| <= |e.seen|
    ensures forall i: nat :: e.told <= i < |e.published| ==> e.q.desc[i % QUEUE_SIZE] == e.published[i]
  {
    StartInv();
    RunInv(Start(), run, e);
  }

  /** The device finds something to fetch exactly while something published is not fetched. */
  lemma DeviceReady(w: World)
    requires Inv(w)
    ensures Enabled(w, Fetch) <==> |w.taken| < |w.published|
  {
    SameSixteenBits(|w.taken|, |w.published|);
    if |w.taken| < |w.published| { assert w.told <= |w.taken|; }
  }

  // ---- What the device may touch ----

  /** The device writes a buffer only if bit one of its flags is set (section 2.7.5 of VIRTIO 1.2). */
  predicate DeviceWritable(b: Buffer)
  {
    b.flags / 2 % 2 == 1
  }

  /** A buffer as `post_rx`, or `submit_tx`, hands it over. */
  predicate Handed(b: Buffer, receive: bool)
  {
    b.pa != 0 && b.pa % 16 == 0 && 1 <= b.len <= 2060 && b.flags == if receive then 2 else 0
  }

  /** Everything handed to this queue came by the one call. */
  predicate OnlyBy(run: seq<Step>, receive: bool)
  {
    forall i :: 0 <= i < |run| && run[i].Check? ==> Handed(run[i].b, receive)
  }

  predicate AllHanded(w: World, receive: bool)
  {
    && (forall i :: 0 <= i < |w.published| ==> Handed(w.published[i], receive))
    && (!w.writing.Resting? ==> Handed(w.writing.b, receive))
  }

  lemma {:induction false} HandedOn(w: World, run: seq<Step>, e: World, receive: bool)
    requires Reaches(w, run, e) && OnlyBy(run, receive) && AllHanded(w, receive)
    ensures AllHanded(e, receive)
    decreases |run|
  {
    hide Handed, Polled;
    if run != [] {
      assert run[0].Check? ==> Handed(run[0].b, receive);
      HandedOn(Apply(w, run[0]), run[1..], e, receive);
    }
  }

  /** Over every run the device only ever sees buffers that were handed over, and writes only those posted for receive. */
  lemma DeviceWritesOnlyReceive(run: seq<Step>, e: World, receive: bool, i: nat)
    requires Reaches(Start(), run, e) && OnlyBy(run, receive) && i < |e.seen|
    ensures Handed(e.seen[i], receive) && (DeviceWritable(e.seen[i]) <==> receive)
  {
    HandedOn(Start(), run, e, receive);
    RunSafe(run, e);
    assert e.seen[i] == e.published[i];
  }

  // ---- Completions ----

  /** The newest of `n` elements in the ring slot of element `p`. */
  function Newest(p: nat, n: nat): (r: nat)
    requires p < n
    ensures p <= r < n <= r + QUEUE_SIZE && r % QUEUE_SIZE == p % QUEUE_SIZE
    decreases n - p
  {
    if n <= p + QUEUE_SIZE then p else SameSlot(p); Newest(p + QUEUE_SIZE, n)
  }

  /**
   * A poll finds something unless the count of unpolled completions is a multiple of 65536, and what it
   * finds is the newest element in that slot: the next one in order exactly while at most eight
   * elements, one still unannounced included, are unpolled.
   */
  lemma PollYields(w: World)
    requires Inv(w)
    ensures Polled(w.q).1.None? <==> (w.told - |w.polled|) % U16_END == 0
    ensures |w.polled| < w.told && Polled(w.q).1.Some? ==>
      Polled(w.q).1.value == w.landed[Newest(|w.polled|, |w.landed|)]
    ensures |w.polled| < w.told ==>
      (Newest(|w.polled|, |w.landed|) == |w.polled| <==> |w.landed| <= |w.polled| + QUEUE_SIZE)
  {
    SixteenBits(|w.polled|);
    SameSixteenBits(|w.polled|, w.told);
  }

  lemma SameSixteenBits(p: nat, n: nat)
    requires p <= n
    ensures p % U16_END == n % U16_END <==> (n - p) % U16_END == 0
  {
  }

  /** Nobody lets more than eight elements pile up along the run. */
  ghost predicate Prompt(w: World, run: seq<Step>)
    decreases |run|
  {
    && |w.landed| <= |w.polled| + QUEUE_SIZE
    && (run != [] && Enabled(w, run[0]) ==> Prompt(Apply(w, run[0]), run[1..]))
  }

  /** Polled promptly, every completion comes back once, in order, with its own length. */
  lemma {:induction false} PromptPollsInOrder(w: World, run: seq<Step>, e: World)
    requires Inv(w) && w.polled <= w.landed && Reaches(w, run, e) && Prompt(w, run)
    ensures e.polled <= e.landed
    decreases |run|
  {
    hide Inv, Enabled, Apply;
    if run != [] {
      StepInv(w, run[0]);
      PromptStep(w, run[0]);
      PromptPollsInOrder(Apply(w, run[0]), run[1..], e);
    }
  }

  lemma PromptStep(w: World, t: Step)
    requires Inv(w) && w.polled <= w.landed && Enabled(w, t) && (t.Poll? ==> |w.landed| <= |w.polled| + QUEUE_SIZE)
    ensures Apply(w, t).polled <= Apply(w, t).landed
  {
    if t.Poll? { PollYields(w); }
  }

  /** One buffer through the whole cycle, unpolled. */
  function Cycle(b: Buffer, len: nat): seq<Step>
  {
    [Check(b), WriteDesc, WriteRing, WriteIdx, Fetch, Land(len), Tell]
  }

  /** Everything published is reported, and nothing is polled. */
  predicate Settled(w: World, n: nat)
  {
    Inv(w) && w.writing.Resting? && w.polled == [] && |w.published| == |w.taken| == |w.landed| == w.told == n
  }

  lemma CycleSettles(w: World, n: nat, b: Buffer, len: nat) returns (e: World)
    requires Settled(w, n)
    ensures Reaches(w, Cycle(b, len), e) && Settled(e, n + 1) && e.landed == w.landed + [UsedElement(n % QUEUE_SIZE, len)]
  {
    FullIsEight(w);
    var w1 := Apply(w, Check(b));
    CheckInv(w, b);
    var w2 := Apply(w1, WriteDesc);
    WriteDescInv(w1);
    var w3 := Apply(w2, WriteRing);
    WriteRingInv(w2);
    var w4 := Apply(w3, WriteIdx);
    WriteIdxInv(w3);
    DeviceReady(w4);
    var w5 := Apply(w4, Fetch);
    FetchInv(w4);
    var w6 := Apply(w5, Land(len));
    LandInv(w5, len);
    e := Apply(w6, Tell);
    TellInv(w6);
    CycleReaches(w, b, len, w1, w2, w3, w4, w5, w6, e);
  }

  lemma CycleReaches(w: World, b: Buffer, len: nat, w1: World, w2: World, w3: World, w4: World, w5: World, w6: World, e: World)
    requires Enabled(w, Check(b)) && w1 == Apply(w, Check(b)) && Enabled(w1, WriteDesc) && w2 == Apply(w1, WriteDesc)
    requires Enabled(w2, WriteRing) && w3 == Apply(w2, WriteRing) && Enabled(w3, WriteIdx) && w4 == Apply(w3, WriteIdx)
    requires Enabled(w4, Fetch) && w5 == Apply(w4, Fetch) && Enabled(w5, Land(len)) && w6 == Apply(w5, Land(len))
    requires Enabled(w6, Tell) && e == Apply(w6, Tell)
    ensures Reaches(w, Cycle(b, len), e)
  {
    hide Enabled, Apply;
    var run := Cycle(b, len);
    assert Reaches(e, run[7..], e);
    assert run[6..][1..] == run[7..] && Reaches(w6, run[6..], e);
    assert run[5..][1..] == run[6..] && Reaches(w5, run[5..], e);
    assert run[4..][1..] == run[5..] && Reaches(w4, run[4..], e);
    assert run[3..][1..] == run[4..] && Reaches(w3, run[3..], e);
    assert run[2..][1..] == run[3..] && Reaches(w2, run[2..], e);
    assert run[1..][1..] == run[2..] && Reaches(w1, run[1..], e);
  }

  lemma {:induction false} ReachesThen(w: World, run: seq<Step>, m: World, more: seq<Step>, e: World)
    requires Reaches(w, run, m) && Reaches(m, more, e)
    ensures Reaches(w, run + more, e)
    decreases |run|
  {
    hide Enabled, Apply;
    if run == [] {
      assert run + more == more;
    } else {
      assert (run + more)[1..] == run[1..] + more;
      ReachesThen(Apply(w, run[0]), run[1..], m, more, e);
    }
  }

  /** Nothing in the driver keeps completions to eight: any number can be left unpolled. */
  lemma {:induction false} ManyUnpolled(b: Buffer, len: nat, n: nat) returns (run: seq<Step>, w: World)
    ensures Reaches(Start(), run, w) && Settled(w, n)
    ensures |w.landed| == n && forall i: nat :: i < n ==> w.landed[i] == UsedElement(i % QUEUE_SIZE, len)
    decreases n
  {
    hide Settled, Cycle, Start;
    if n == 0 {
      StartSettled();
      return [], Start();
    }
    var m;
    run, m := ManyUnpolled(b, len, n - 1);
    w := CycleSettles(m, n - 1, b, len);
    ReachesThen(Start(), run, m, Cycle(b, len), w);
    run := run + Cycle(b, len);
  }

  lemma StartSettled()
    ensures Settled(Start(), 0)
  {
    StartInv();
  }

  /** Then the ninth overwrites the first: from the start, nine buffers, and the first poll returns the ninth. */
  lemma NinthOverwritesFirst(b: Buffer, len: nat, other: nat) returns (run: seq<Step>, e: World)
    ensures Reaches(Start(), run, e) && Enabled(e, Poll) && Apply(e, Poll).polled == [UsedElement(0, other)]
    ensures |e.landed| == 9 && e.landed[0] == UsedElement(0, len)
  {
    var m;
    run, m := ManyUnpolled(b, len, QUEUE_SIZE);
    e := CycleSettles(m, QUEUE_SIZE, b, other);
    ReachesThen(Start(), run, m, Cycle(b, other), e);
    run := run + Cycle(b, other);
    PollYields(e);
  }

  // ---- Reset ----

  /** After a reset a restarted device, counting from zero, and the driver agree that nothing is pending. */
  predicate Agrees(q: Queue)
    requires Shaped(q)
  {
    Polled(q).1.None? && q.availIdx == 0
  }

  /** The ring memory is not cleared, so they agree exactly when both indices happen to be at zero. */
  lemma ResetAgrees(w: World)
    requires Inv(w)
    ensures Agrees(Cleared(w.q)) <==> w.told % U16_END == 0 && |w.published| % U16_END == 0
    ensures w.told % U16_END != 0 ==> Polled(Cleared(w.q)).1 == Some(w.landed[Newest(0, |w.landed|)])
  {
    if w.told % U16_END != 0 {
      assert w.q.usedRing[Newest(0, |w.landed|) % QUEUE_SIZE] == w.landed[Newest(0, |w.landed|)];
    }
  }
}

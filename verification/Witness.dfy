/** The boot counter: load the store from media, advance the count, write it back. */
module Witness {
  import opened Bytes
  import opened Wrappers
  import opened DurableMedia
  import opened SlotProtocol
  import opened SdStore
  import opened Sdhci
  import opened DurableFormat
  import opened DurableStore

  /** The key `b"boot"`. */
  const BOOT: seq<byte> := [0x62, 0x6F, 0x6F, 0x74]

  /** The region a boot starts from: the good state on media, else whatever RAM holds. */
  function StartRegion(c: Option<Commit>, ram: Region): Region
  {
    if c.Some? then c.value.payload else ram
  }

  /** The count found; anything but four bytes under the key reads as zero. */
  function PreviousCount(region: Region): nat
  {
    match GetResult(region, BOOT, 4)
    case Ok(p) => if |p| == 4 then FromLe(p) else 0
    case Err(_) => 0
  }

  /** `prev + 1` on 32 bits: the release profile wraps. */
  function BootCount(region: Region): nat
  {
    (PreviousCount(region) + 1) % U32_END
  }

  /** The region once the advanced count has been put. */
  function CountedRegion(region: Region): Region
  {
    PutRegion(region, BOOT, ToLe(BootCount(region), 4))
  }

  /** What a witness keeps between open and commit. */
  datatype Handle = Handle(winner: Option<(Slot, nat)>)

  /** Load the winner and restore it into the region. */
  method RestoreFrom(card: Card, lba: nat, store: Store) returns (r: Result<Option<(Slot, nat)>, SdError>)
    requires Formatted(card.disk, lba) && store.region.Length == REGION_SIZE
    modifies card`budget, store.region
    ensures r.Ok? <==> old(card.budget) >= 2 + 2 * PAYLOAD_SECTORS
    ensures r.Ok? ==> r.value == HandleOf(Load(card.disk, lba))
    ensures store.region[..] ==
            if r.Ok? then StartRegion(Load(card.disk, lba), old(store.region[..])) else old(store.region[..])
    ensures r.Err? || Load(card.disk, lba).None? ==> store.region[..] == old(store.region[..])
    ensures r.Ok? && Load(card.disk, lba).Some? ==> store.region[..] == Load(card.disk, lba).value.payload
  {
    var loaded := new byte[REGION_SIZE](i => 0);
    r := card.MediaLoad(lba, loaded);
    if r.Ok? && r.value.Some? {
      store.Restore(loaded[..]);
    }
  }

  /** Read the count, advance it, put it back. */
  method CountBoot(store: Store) returns (boot: nat, r: Result<(), EncodeError>)
    requires store.region.Length == REGION_SIZE
    modifies store.region
    ensures boot == BootCount(old(store.region[..]))
    ensures store.region[..] == CountedRegion(old(store.region[..]))
    ensures r.Ok? <==> PutError(old(store.region[..]), BOOT, ToLe(boot, 4)).None?
  {
    hide PutRegion, FromLe, ToLe;
    var g := store.Get(BOOT, 4);
    var prev := if g.Ok? && |g.value| == 4 then FromLe(g.value) else 0;
    boot := (prev + 1) % U32_END;
    r := store.Put(BOOT, ToLe(boot, 4));
  }

  /** `open`, from the media load on: restore, count, put. */
  method Open(card: Card, lba: nat, store: Store) returns (w: Option<Handle>, boot: nat)
    requires Formatted(card.disk, lba) && store.region.Length == REGION_SIZE
    modifies card`budget, store.region
    ensures old(card.budget) < 2 + 2 * PAYLOAD_SECTORS ==> w == None && store.region[..] == old(store.region[..])
    ensures old(card.budget) >= 2 + 2 * PAYLOAD_SECTORS ==>
      var c := Load(card.disk, lba);
      var start := StartRegion(c, old(store.region[..]));
      && boot == BootCount(start)
      && store.region[..] == CountedRegion(start)
      && w == if PutError(start, BOOT, ToLe(boot, 4)).None? then Some(Handle(HandleOf(c))) else None
  {
    var l := RestoreFrom(card, lba, store);
    if l.Err? {
      return None, 0;
    }
    var p;
    boot, p := CountBoot(store);
    w := if p.Ok? then Some(Handle(l.value)) else None;
  }

  /** `commit`: snapshot the region and flush it opposite the slot that was loaded. */
  method Commit(w: Handle, card: Card, lba: nat, store: Store)
    requires Formatted(card.disk, lba) && store.region.Length == REGION_SIZE
    modifies card
    ensures var slot := if w.winner.Some? then Some(w.winner.value.0) else None;
            var seqno := if w.winner.Some? then w.winner.value.1 else 0;
            card.disk == Flushed(old(card.disk), lba, NextSlot(slot),
                                 EncodeHeader(NextSeq(seqno), store.region[..]), store.region[..], old(card.supply))
  {
    var seqno := if w.winner.Some? then w.winner.value.1 else 0;
    var snap := store.Snapshot();
    var slot := if w.winner.Some? then Some(w.winner.value.0) else None;
    var r := card.MediaFlush(lba, slot, seqno, snap);
    FlushedFormatted(old(card.disk), lba, NextSlot(slot), EncodeHeader(NextSeq(seqno), snap), snap, old(card.supply));
    if r.Ok? {
      var ok := card.MediaVerify(lba, r.value.0, r.value.1, snap);
    }
  }

  // ---- Cold boots ----

  /** One cold boot: what RAM held, what else the boot put before its commit, where the commit was cut. */
  datatype ColdBoot = ColdBoot(ram: Region, puts: seq<PutOp>, cut: Cut)

  /** Nothing else writes the counter's key, and a cold RAM region holds no blobs. */
  predicate Orderly(b: ColdBoot)
  {
    && BlobsOf(b.ram) == []
    && (forall i :: 0 <= i < |b.puts| ==> b.puts[i].key != BOOT)
    && !HeaderTorn(b.cut)
  }

  /** What the boot commits. */
  function Committed(c: Option<Commit>, b: ColdBoot): Region
  {
    RunRegion(CountedRegion(StartRegion(c, b.ram)), b.puts)
  }

  function AfterCold(d: Disk, lba: nat, b: ColdBoot): (e: Disk)
    requires Formatted(d, lba)
    ensures Formatted(e, lba)
  {
    var c := Load(d, lba);
    var start := StartRegion(c, b.ram);
    if PutError(start, BOOT, ToLe(BootCount(start), 4)).Some? then d
    else AfterBoot(d, lba, Boot(Committed(c, b), b.cut))
  }

  /** Everything else a boot puts before it commits. */
  method PutAll(store: Store, puts: seq<PutOp>)
    requires store.region.Length == REGION_SIZE
    modifies store.region
    ensures store.region[..] == RunRegion(old(store.region[..]), puts)
  {
    hide PutRegion;
    var i := 0;
    while i < |puts|
      invariant 0 <= i <= |puts|
      invariant store.region[..] == RunRegion(old(store.region[..]), puts[..i])
    {
      assert puts[..i + 1][..i] == puts[..i];
      var r := store.Put(puts[i].key, puts[i].payload);
      i := i + 1;
    }
    assert puts[..i] == puts;
  }

  /** One boot of the code, open to commit: the media it leaves and the count it prints are the model's. */
  method RunBoot(card: Card, lba: nat, store: Store, puts: seq<PutOp>) returns (boot: nat)
    requires Formatted(card.disk, lba) && store.region.Length == REGION_SIZE
    modifies card, store.region
    ensures old(card.budget) < 2 + 2 * PAYLOAD_SECTORS ==> card.disk == old(card.disk)
    ensures old(card.budget) >= 2 + 2 * PAYLOAD_SECTORS ==>
      && boot == Reported(old(card.disk), lba, old(store.region[..]))
      && card.disk == AfterCold(old(card.disk), lba, ColdBoot(old(store.region[..]), puts, old(card.supply)))
  {
    hide BootCount, CountedRegion, PutError, Flushed, EncodeHeader, Load;
    var w;
    w, boot := Open(card, lba, store);
    if w.None? {
      return;
    }
    PutAll(store, puts);
    Commit(w.value, card, lba, store);
  }

  /** The media before the first boot of a run and after each. */
  predicate ColdRun(disks: seq<Disk>, lba: nat, run: seq<ColdBoot>)
  {
    && |disks| == |run| + 1
    && (forall i :: 0 <= i < |run| ==> Orderly(run[i]))
    && (forall i :: 0 <= i < |disks| ==> Formatted(disks[i], lba))
    && (forall i :: 0 <= i < |run| ==> disks[i + 1] == AfterCold(disks[i], lba, run[i]))
  }

  /** The number a boot prints. */
  function Reported(d: Disk, lba: nat, ram: Region): nat
    requires Formatted(d, lba)
  {
    BootCount(StartRegion(Load(d, lba), ram))
  }

  /** Boots of the run whose header write landed. */
  function LandedBoots(run: seq<ColdBoot>): (n: nat)
    ensures n <= |run|
  {
    if run == [] then 0
    else LandedBoots(run[..|run| - 1]) + (if Complete(run[|run| - 1].cut) then 1 else 0)
  }

  /** The good state records `n` commits: none at all, or `n` under the counter's key. */
  predicate Counts(c: Option<Commit>, n: nat)
  {
    && SeqOf(c) == n
    && (c.None? <==> n == 0)
    && (c.Some? ==> CountHeld(c.value.payload, n))
  }

  predicate CountHeld(region: Region, n: nat)
  {
    && Decode(region).Ok?
    && BOOT in Content(region)
    && Content(region)[BOOT] == ToLe(n % U32_END, 4)
  }

  /** Puts on other keys leave a key alone. */
  lemma {:induction false} RunKeeps(region: Region, ops: seq<PutOp>, key: seq<byte>)
    requires forall i :: 0 <= i < |ops| ==> ops[i].key != key
    ensures key in Content(RunRegion(region, ops)) <==> key in Content(region)
    ensures key in Content(region) ==> Content(RunRegion(region, ops))[key] == Content(region)[key]
    ensures Decode(region).Ok? ==> Decode(RunRegion(region, ops)).Ok?
    decreases |ops|
  {
    if ops != [] {
      var o := ops[|ops| - 1];
      RunKeeps(region, ops[..|ops| - 1], key);
      PutRefines(RunRegion(region, ops[..|ops| - 1]), o.key, o.payload);
    }
  }

  lemma CountRead(region: Region, n: nat)
    requires CountHeld(region, n)
    ensures PreviousCount(region) == n % U32_END
  {
    FindIsLookup(BlobsOf(region), BOOT);
    Widths();
    LeRoundTrip(n % U32_END, 4);
  }

  lemma NoCountRead(region: Region)
    requires BlobsOf(region) == []
    ensures PreviousCount(region) == 0
  {
  }

  lemma WrapNext(n: nat)
    ensures (n % U32_END + 1) % U32_END == (n + 1) % U32_END
  {
  }

  /** After `n` commits a boot counts `n + 1`, and its put is accepted. */
  lemma CountAdvances(c: Option<Commit>, n: nat, ram: Region)
    requires Counts(c, n) && BlobsOf(ram) == []
    ensures var start := StartRegion(c, ram);
            && BootCount(start) == (n + 1) % U32_END
            && PutError(start, BOOT, ToLe(BootCount(start), 4)).None?
            && CountHeld(CountedRegion(start), n + 1)
  {
    var start := StartRegion(c, ram);
    if c.Some? { CountRead(start, n); } else { NoCountRead(start); }
    WrapNext(n);
    PutRefines(start, BOOT, ToLe(BootCount(start), 4));
  }

  /** One orderly cold boot adds one to the count exactly when its header lands. */
  lemma ColdStep(d: Disk, lba: nat, c: Option<Commit>, n: nat, b: ColdBoot)
    returns (c': Option<Commit>)
    requires Holds(d, lba, c) && Counts(c, n) && Orderly(b) && n + 1 < U64_END
    ensures Load(d, lba) == c
    ensures Holds(AfterCold(d, lba, b), lba, c')
    ensures Counts(c', if Complete(b.cut) then n + 1 else n)
  {
    hide Holds, AfterBoot, RunRegion, CountedRegion, StartRegion, BootCount, Decode;
    CountAdvances(c, n, b.ram);
    RunKeeps(CountedRegion(StartRegion(c, b.ram)), b.puts, BOOT);
    var boot := Boot(Committed(c, b), b.cut);
    BootStep(d, lba, c, boot);
    c' := Advance(c, boot);
  }

  lemma {:induction false} ColdsHold(disks: seq<Disk>, lba: nat, run: seq<ColdBoot>)
    returns (c: Option<Commit>)
    requires ColdRun(disks, lba, run) && Holds(disks[0], lba, None) && |run| < U64_END
    ensures Holds(disks[|run|], lba, c) && Counts(c, LandedBoots(run))
    decreases |run|
  {
    hide Holds, AfterCold;
    if run == [] {
      c := None;
    } else {
      var k := |run| - 1;
      var before := ColdsHold(disks[..k + 1], lba, run[..k]);
      c := ColdStep(disks[k], lba, before, LandedBoots(run[..k]), run[k]);
      assert disks[k + 1] == AfterCold(disks[k], lba, run[k]);
    }
  }

  lemma ReportedCount(d: Disk, lba: nat, c: Option<Commit>, n: nat, ram: Region)
    requires Holds(d, lba, c) && Counts(c, n) && BlobsOf(ram) == []
    ensures Reported(d, lba, ram) == (n + 1) % U32_END
  {
    LoadOfFinds(View(d, lba), c);
    CountAdvances(c, n, ram);
  }

  /**
   * The count is exact: whatever was cut, the next cold boot reports one plus the number of earlier
   * boots whose header landed, on 32 bits.
   */
  lemma {:induction false} CounterIsExact(disks: seq<Disk>, lba: nat, run: seq<ColdBoot>, ram: Region, n: nat)
    requires ColdRun(disks, lba, run) && Holds(disks[0], lba, None) && |run| < U64_END
    requires BlobsOf(ram) == [] && n == LandedBoots(run)
    ensures Reported(disks[|run|], lba, ram) == (n + 1) % U32_END
  {
    var c := ColdsHold(disks, lba, run);
    ReportedCount(disks[|run|], lba, c, n, ram);
  }

  /** ...and the card holds that number of commits, as four bytes under `boot`. */
  lemma CounterIsStored(disks: seq<Disk>, lba: nat, run: seq<ColdBoot>, n: nat)
    requires ColdRun(disks, lba, run) && Holds(disks[0], lba, None) && |run| < U64_END && n == LandedBoots(run) > 0
    ensures var c := Load(disks[|run|], lba);
            && c.Some? && c.value.seqno == n
            && [0x62, 0x6F, 0x6F, 0x74] in Content(c.value.payload)
            && Content(c.value.payload)[[0x62, 0x6F, 0x6F, 0x74]] == ToLe(n % 0x1_0000_0000, 4)
  {
    hide ToLe;
    var c := ColdsHold(disks, lba, run);
    LoadOfFinds(View(disks[|run|], lba), c);
  }
}

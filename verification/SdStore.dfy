/**
 * The A/B flush protocol on an SD card: what a load sees after any number of boots, each of which
 * may lose power, or have its transport fail, at any sector write.
 */
module SdStore {
  import opened Bytes
  import opened Wrappers
  import opened DurableMedia
  import opened SlotProtocol
  import Crc

  type Disk = map<nat, Sector>

  /** The store partition at `lba` exists. */
  predicate Formatted(d: Disk, lba: nat)
  {
    forall s :: lba <= s < lba + MIN_PARTITION_SECTORS ==> s in d
  }

  /** The bytes of a slot's payload sectors, run together. */
  function Span(d: Disk, at: nat): (p: Region)
    requires forall s :: at <= s < at + PAYLOAD_SECTORS ==> s in d
  {
    seq(REGION_SIZE, i requires 0 <= i < REGION_SIZE => d[at + i / SECTOR_SIZE][i % SECTOR_SIZE])
  }

  function SlotAt(d: Disk, lba: nat, slot: Slot): SlotState
    requires Formatted(d, lba)
  {
    SlotState(d[lba + slot.HeaderSector()], Span(d, lba + slot.PayloadSector()))
  }

  function View(d: Disk, lba: nat): Media
    requires Formatted(d, lba)
  {
    Media(SlotAt(d, lba, A), SlotAt(d, lba, B))
  }

  /** What `media_load` finds. */
  function Load(d: Disk, lba: nat): Option<Commit>
    requires Formatted(d, lba)
  {
    LoadOf(View(d, lba))
  }

  predicate Holds(d: Disk, lba: nat, c: Option<Commit>)
  {
    Formatted(d, lba) && HoldsIn(View(d, lba), c)
  }

  // ---- A flush, cut anywhere ----

  function Piece(payload: Region, k: nat): Sector
    requires k < PAYLOAD_SECTORS
  {
    payload[k * SECTOR_SIZE..(k + 1) * SECTOR_SIZE]
  }

  /** The disk once the first `k` payload sectors have landed. */
  function PayloadWritten(d: Disk, at: nat, payload: Region, k: nat): Disk
    requires k <= PAYLOAD_SECTORS
  {
    map s | s in d :: if at <= s < at + k then Piece(payload, s - at) else d[s]
  }

  /** Where a flush stops: after `landed` whole sectors, the next one left in state `tear`. */
  datatype Cut = Cut(landed: nat, tear: Option<Sector>)

  const FLUSH_WRITES: nat := PAYLOAD_SECTORS + 1

  predicate Complete(cut: Cut)
  {
    cut.landed >= FLUSH_WRITES
  }

  predicate HeaderTorn(cut: Cut)
  {
    cut.landed == PAYLOAD_SECTORS && cut.tear.Some?
  }

  function Torn(d: Disk, at: nat, tear: Option<Sector>): Disk
  {
    if tear.Some? then d[at := tear.value] else d
  }

  /** Payload sectors that land before the cut. */
  function WholeSectors(cut: Cut): (k: nat)
    ensures k <= PAYLOAD_SECTORS
  {
    if cut.landed < PAYLOAD_SECTORS then cut.landed else PAYLOAD_SECTORS
  }

  /** The media after flushing `payload` into `slot` under `header`, stopped at `cut`. */
  function Flushed(d: Disk, lba: nat, slot: Slot, header: Sector, payload: Region, cut: Cut): Disk
  {
    var at := lba + slot.PayloadSector();
    var e := PayloadWritten(d, at, payload, WholeSectors(cut));
    if Complete(cut) then e[lba + slot.HeaderSector() := header]
    else if cut.landed < PAYLOAD_SECTORS then Torn(e, at + cut.landed, cut.tear)
    else Torn(e, lba + slot.HeaderSector(), cut.tear)
  }

  lemma FlushedFormatted(d: Disk, lba: nat, slot: Slot, header: Sector, payload: Region, cut: Cut)
    requires Formatted(d, lba)
    ensures Formatted(Flushed(d, lba, slot, header, payload, cut), lba)
  {
  }

  /** The header a cut flush leaves in its slot. */
  function HeaderLeft(before: Sector, header: Sector, cut: Cut): Sector
  {
    if Complete(cut) then header else if HeaderTorn(cut) then cut.tear.value else before
  }

  lemma SpanSame(d: Disk, e: Disk, at: nat)
    requires forall s :: at <= s < at + PAYLOAD_SECTORS ==> s in d && s in e && e[s] == d[s]
    ensures Span(e, at) == Span(d, at)
  {
  }

  lemma SpanIsPayload(d: Disk, at: nat, payload: Region)
    requires forall s :: at <= s < at + PAYLOAD_SECTORS ==> s in d && d[s] == Piece(payload, s - at)
    ensures Span(d, at) == payload
  {
    forall i | 0 <= i < REGION_SIZE
      ensures Span(d, at)[i] == payload[i]
    {
      assert d[at + i / SECTOR_SIZE] == Piece(payload, i / SECTOR_SIZE);
    }
  }

  lemma FlushedOther(d: Disk, lba: nat, slot: Slot, header: Sector, payload: Region, cut: Cut)
    requires Formatted(d, lba)
    ensures Formatted(Flushed(d, lba, slot, header, payload, cut), lba)
    ensures SlotAt(Flushed(d, lba, slot, header, payload, cut), lba, slot.Other()) == SlotAt(d, lba, slot.Other())
  {
    var e := Flushed(d, lba, slot, header, payload, cut);
    FlushedFormatted(d, lba, slot, header, payload, cut);
    SpanSame(d, e, lba + slot.Other().PayloadSector());
  }

  lemma FlushedOwn(d: Disk, lba: nat, slot: Slot, header: Sector, payload: Region, cut: Cut)
    requires Formatted(d, lba)
    ensures Formatted(Flushed(d, lba, slot, header, payload, cut), lba)
    ensures var s := SlotAt(Flushed(d, lba, slot, header, payload, cut), lba, slot);
            s.header == HeaderLeft(d[lba + slot.HeaderSector()], header, cut) &&
            (cut.landed >= PAYLOAD_SECTORS ==> s.payload == payload)
  {
    hide Span, Piece, Flushed;
    var e := Flushed(d, lba, slot, header, payload, cut);
    FlushedFormatted(d, lba, slot, header, payload, cut);
    FlushedHeader(d, lba, slot, header, payload, cut);
    if cut.landed >= PAYLOAD_SECTORS {
      FlushedPayload(d, lba, slot, header, payload, cut);
      SpanIsPayload(e, lba + slot.PayloadSector(), payload);
    }
  }

  lemma FlushedHeader(d: Disk, lba: nat, slot: Slot, header: Sector, payload: Region, cut: Cut)
    requires Formatted(d, lba)
    ensures var e, at := Flushed(d, lba, slot, header, payload, cut), lba + slot.HeaderSector();
            at in e && at in d && e[at] == HeaderLeft(d[at], header, cut)
  {
    hide Piece;
  }

  lemma FlushedPayload(d: Disk, lba: nat, slot: Slot, header: Sector, payload: Region, cut: Cut)
    requires Formatted(d, lba) && cut.landed >= PAYLOAD_SECTORS
    ensures var e, at := Flushed(d, lba, slot, header, payload, cut), lba + slot.PayloadSector();
            forall s :: at <= s < at + PAYLOAD_SECTORS ==> s in e && e[s] == Piece(payload, s - at)
  {
    hide Piece;
  }

  /** Where the two slots stand on the card, sector by sector and byte by byte. */
  lemma SlotSectors(d: Disk, lba: nat, i: nat)
    requires (forall s :: lba <= s < lba + 32 ==> s in d) && i < 4096
    ensures Formatted(d, lba)
    ensures View(d, lba).a.header == d[lba] && View(d, lba).b.header == d[lba + 16]
    ensures View(d, lba).a.payload[i] == d[lba + 1 + i / 512][i % 512]
    ensures View(d, lba).b.payload[i] == d[lba + 17 + i / 512][i % 512]
  {
  }

  /** What a cut flush did, slot by slot: `junk` is the payload left in the target slot. */
  lemma FlushedView(d: Disk, lba: nat, slot: Slot, header: Sector, payload: Region, cut: Cut)
    returns (junk: Region)
    requires Formatted(d, lba)
    ensures Formatted(Flushed(d, lba, slot, header, payload, cut), lba)
    ensures View(Flushed(d, lba, slot, header, payload, cut), lba)
         == View(d, lba).Set(slot, SlotState(HeaderLeft(View(d, lba).Get(slot).header, header, cut), junk))
    ensures cut.landed >= PAYLOAD_SECTORS ==> junk == payload
  {
    FlushedOther(d, lba, slot, header, payload, cut);
    FlushedOwn(d, lba, slot, header, payload, cut);
    junk := SlotAt(Flushed(d, lba, slot, header, payload, cut), lba, slot).payload;
  }

  // ---- One boot: load, then at most one flush against what was loaded ----

  /** `seq + 1` on 64 bits: the release profile wraps. */
  function NextSeq(seqno: nat): (s: nat)
    ensures s < U64_END
  {
    (seqno + 1) % U64_END
  }

  function SlotOf(c: Option<Commit>): Option<Slot>
  {
    if c.Some? then Some(c.value.slot) else None
  }

  function SeqOf(c: Option<Commit>): nat
  {
    if c.Some? then c.value.seqno else 0
  }

  /** Flush against a handle taken from an earlier load. */
  function FlushFrom(d: Disk, lba: nat, handle: Option<Commit>, payload: Region, cut: Cut): Disk
  {
    Flushed(d, lba, NextSlot(SlotOf(handle)), EncodeHeader(NextSeq(SeqOf(handle)), payload), payload, cut)
  }

  datatype Boot = Boot(payload: Region, cut: Cut)

  function AfterBoot(d: Disk, lba: nat, b: Boot): (e: Disk)
    requires Formatted(d, lba)
    ensures Formatted(e, lba)
  {
    FlushFrom(d, lba, Load(d, lba), b.payload, b.cut)
  }

  /** What the good state becomes: the next commit when the header landed, else unchanged. */
  function Advance(c: Option<Commit>, b: Boot): Option<Commit>
  {
    if Complete(b.cut) && SeqOf(c) + 1 < U64_END then
      Some(Commit(NextSlot(SlotOf(c)), SeqOf(c) + 1, b.payload))
    else c
  }

  lemma AdvanceIsBetter(c: Option<Commit>, b: Boot)
    requires Complete(b.cut) && SeqOf(c) < U64_END
    ensures Advance(c, b) == Better(c, Commit(NextSlot(SlotOf(c)), NextSeq(SeqOf(c)), b.payload))
  {
  }

  /**
   * One flush moves the good state exactly as promised. At the last sequence number the commit
   * wraps to zero and loses to the state it should have replaced, so nothing moves.
   */
  lemma FlushStep(d: Disk, lba: nat, c: Option<Commit>, b: Boot)
    requires Holds(d, lba, c) && !HeaderTorn(b.cut) && SeqOf(c) < U64_END
    ensures Holds(FlushFrom(d, lba, c, b.payload, b.cut), lba, Advance(c, b))
  {
    var slot, seqno := NextSlot(SlotOf(c)), NextSeq(SeqOf(c));
    var junk := FlushedView(d, lba, slot, EncodeHeader(seqno, b.payload), b.payload, b.cut);
    if Complete(b.cut) {
      AdvanceIsBetter(c, b);
      LandCommits(View(d, lba), c, Commit(slot, seqno, b.payload));
    } else {
      ScribbleKeeps(View(d, lba), c, slot, junk);
    }
  }

  lemma BootStep(d: Disk, lba: nat, c: Option<Commit>, b: Boot)
    requires Holds(d, lba, c) && !HeaderTorn(b.cut) && SeqOf(c) < U64_END
    ensures Load(d, lba) == c
    ensures Holds(AfterBoot(d, lba, b), lba, Advance(c, b))
    ensures SeqOf(Advance(c, b)) < U64_END
  {
    LoadOfFinds(View(d, lba), c);
    FlushStep(d, lba, c, b);
  }

  // ---- Whole runs ----

  predicate Legal(run: seq<Boot>)
  {
    forall i :: 0 <= i < |run| ==> !HeaderTorn(run[i].cut)
  }

  function AfterRun(d: Disk, lba: nat, run: seq<Boot>): (e: Disk)
    requires Formatted(d, lba)
    ensures Formatted(e, lba)
    decreases |run|
  {
    if run == [] then d else AfterBoot(AfterRun(d, lba, run[..|run| - 1]), lba, run[|run| - 1])
  }

  /** How many boots of the run had their header land. */
  function Landed(run: seq<Boot>): (n: nat)
    ensures n <= |run|
  {
    if run == [] then 0
    else Landed(run[..|run| - 1]) + (if Complete(run[|run| - 1].cut) then 1 else 0)
  }

  /** The payload of the last boot whose header landed. */
  function LastLanded(run: seq<Boot>): Region
    requires Landed(run) > 0
  {
    if Complete(run[|run| - 1].cut) then run[|run| - 1].payload else LastLanded(run[..|run| - 1])
  }

  /** The state a run from fresh media must leave, from the run alone. */
  function Expected(run: seq<Boot>): Option<Commit>
  {
    if Landed(run) == 0 then None
    else Some(Commit(if Landed(run) % 2 == 1 then A else B, Landed(run), LastLanded(run)))
  }

  lemma {:induction false} AdvanceExpected(run: seq<Boot>)
    requires run != [] && Landed(run) < U64_END
    ensures Advance(Expected(run[..|run| - 1]), run[|run| - 1]) == Expected(run)
    ensures SeqOf(Expected(run[..|run| - 1])) < U64_END
  {
  }

  lemma {:induction false} RunHolds(d: Disk, lba: nat, run: seq<Boot>)
    requires Holds(d, lba, None) && Legal(run) && Landed(run) < U64_END
    ensures Holds(AfterRun(d, lba, run), lba, Expected(run))
    decreases |run|
  {
    if run != [] {
      var init, b := run[..|run| - 1], run[|run| - 1];
      AdvanceExpected(run);
      RunHolds(d, lba, init);
      BootStep(AfterRun(d, lba, init), lba, Expected(init), b);
    }
  }

  /**
   * Crash atomicity over whole runs: from fresh media, through any boots and any cuts, the next
   * load returns the last payload whose header landed, with as many commits as its sequence number.
   */
  lemma CrashAtomicity(d: Disk, lba: nat, run: seq<Boot>)
    requires Holds(d, lba, None) && Legal(run) && Landed(run) < U64_END
    ensures Load(AfterRun(d, lba, run), lba) == Expected(run)
  {
    RunHolds(d, lba, run);
    LoadOfFinds(View(AfterRun(d, lba, run), lba), Expected(run));
  }

  // ---- Where the promise stops ----

  /** A torn commit sector leaves the complete old state or the complete new payload. */
  lemma TornHeaderIsAllOrNothing(d: Disk, lba: nat, c: Option<Commit>, payload: Region, cut: Cut)
    requires Holds(d, lba, c) && HeaderTorn(cut)
    ensures var e := FlushFrom(d, lba, c, payload, cut);
            Formatted(e, lba) &&
            (Load(e, lba) == c ||
             (Load(e, lba).Some? && Load(e, lba).value.slot == NextSlot(SlotOf(c)) &&
              Load(e, lba).value.payload == payload))
  {
    var slot, seqno := NextSlot(SlotOf(c)), NextSeq(SeqOf(c));
    var junk := FlushedView(d, lba, slot, EncodeHeader(seqno, payload), payload, cut);
    TornIsAllOrNothing(View(d, lba), c, slot, cut.tear.value, payload);
  }

  /** And the protocol goes on from it exactly when the torn header does not lie about its payload. */
  lemma TornHeaderKeepsProtocol(d: Disk, lba: nat, c: Option<Commit>, payload: Region, cut: Cut)
    requires Holds(d, lba, c) && HeaderTorn(cut)
    ensures var e := FlushFrom(d, lba, c, payload, cut);
            var torn := cut.tear.value;
            Formatted(e, lba) &&
            (Holds(e, lba, Load(e, lba)) <==>
              (Beats(torn, NextSlot(SlotOf(c)), c) ==> DecodeHeader(torn).value.crc == Crc.Crc32(payload)))
  {
    var slot, seqno := NextSlot(SlotOf(c)), NextSeq(SeqOf(c));
    var junk := FlushedView(d, lba, slot, EncodeHeader(seqno, payload), payload, cut);
    TornKeepsProtocol(View(d, lba), c, slot, cut.tear.value, payload);
  }

  /** Every cut of the next boot's flush, before its header, leaves the load unchanged. */
  ghost predicate NextCutSafe(d: Disk, lba: nat)
    requires Formatted(d, lba)
  {
    forall payload: Region, cut: Cut ::
      !Complete(cut) && !HeaderTorn(cut) ==>
        Formatted(FlushFrom(d, lba, Load(d, lba), payload, cut), lba) &&
        Load(FlushFrom(d, lba, Load(d, lba), payload, cut), lba) == Load(d, lba)
  }

  lemma HoldsIsCutSafe(d: Disk, lba: nat, c: Option<Commit>)
    requires Holds(d, lba, c)
    ensures Load(d, lba) == c && NextCutSafe(d, lba)
  {
    hide HoldsIn, Flushed, View;
    LoadOfFinds(View(d, lba), c);
    forall payload: Region, cut: Cut | !Complete(cut) && !HeaderTorn(cut)
      ensures Formatted(FlushFrom(d, lba, c, payload, cut), lba) && Load(FlushFrom(d, lba, c, payload, cut), lba) == c
    {
      var slot, header := NextSlot(SlotOf(c)), EncodeHeader(NextSeq(SeqOf(c)), payload);
      var junk := FlushedView(d, lba, slot, header, payload, cut);
      ScribbleKeeps(View(d, lba), c, slot, junk);
      LoadOfFinds(View(Flushed(d, lba, slot, header, payload, cut), lba), c);
    }
  }

  /** The media after a flush whose header sector tore: the whole payload under the torn header. */
  lemma TornView(d: Disk, lba: nat, c: Option<Commit>, payload: Region, cut: Cut)
    requires Holds(d, lba, c) && HeaderTorn(cut)
    ensures var e := FlushFrom(d, lba, c, payload, cut);
            Formatted(e, lba) && View(e, lba) == View(d, lba).Set(NextSlot(SlotOf(c)), SlotState(cut.tear.value, payload))
  {
    hide Flushed, View;
    var junk := FlushedView(d, lba, NextSlot(SlotOf(c)), EncodeHeader(NextSeq(SeqOf(c)), payload), payload, cut);
  }

  /** A torn header that outranks the good state and names a checksum nobody wrote waits for a payload to match. */
  lemma LiarAdopts(d: Disk, lba: nat, c: Option<Commit>, payload: Region, cut: Cut, next: Region)
    requires Holds(d, lba, c) && HeaderTorn(cut)
    requires var torn := cut.tear.value;
             Beats(torn, NextSlot(SlotOf(c)), c) && DecodeHeader(torn).value.crc == Crc.Crc32(next) != Crc.Crc32(payload)
    ensures var e := FlushFrom(d, lba, c, payload, cut);
            Formatted(e, lba) && Load(e, lba) == c &&
            var f := FlushFrom(e, lba, c, next, Cut(PAYLOAD_SECTORS, None));
            Formatted(f, lba) &&
            Load(f, lba) == Some(Commit(NextSlot(SlotOf(c)), DecodeHeader(cut.tear.value).value.seqno, next))
  {
    hide Flushed, View, Crc.Crc32, EncodeHeader;
    var slot := NextSlot(SlotOf(c));
    var e := FlushFrom(d, lba, c, payload, cut);
    TornView(d, lba, c, payload, cut);
    var junk := FlushedView(e, lba, slot, EncodeHeader(NextSeq(SeqOf(c)), next), next, Cut(PAYLOAD_SECTORS, None));
  }

  /**
   * What a torn header means for the next boot, exactly: every cut of its flush is harmless if and only
   * if the torn header does not outrank the good state while naming a checksum other than its payload's.
   */
  lemma TornHeaderSafeIff(d: Disk, lba: nat, c: Option<Commit>, payload: Region, cut: Cut)
    requires Holds(d, lba, c) && HeaderTorn(cut)
    ensures var e := FlushFrom(d, lba, c, payload, cut);
            var torn := cut.tear.value;
            Formatted(e, lba) &&
            (NextCutSafe(e, lba) <==>
              (Beats(torn, NextSlot(SlotOf(c)), c) ==> DecodeHeader(torn).value.crc == Crc.Crc32(payload)))
  {
    hide Flushed, View, Crc.Crc32, EncodeHeader, HoldsIn;
    var torn, e := cut.tear.value, FlushFrom(d, lba, c, payload, cut);
    TornHeaderKeepsProtocol(d, lba, c, payload, cut);
    if Beats(torn, NextSlot(SlotOf(c)), c) && DecodeHeader(torn).value.crc != Crc.Crc32(payload) {
      HeaderCrcFits(torn);
      var next := RegionOnto(DecodeHeader(torn).value.crc);
      LiarAdopts(d, lba, c, payload, cut, next);
      assert !Complete(Cut(PAYLOAD_SECTORS, None)) && !HeaderTorn(Cut(PAYLOAD_SECTORS, None));
    } else {
      HoldsIsCutSafe(e, lba, Load(e, lba));
    }
  }

  /** Two regions that begin with the same sector leave the same media when only that sector lands. */
  lemma SameFirstSector(d: Disk, at: nat, p: Region, q: Region)
    requires Piece(p, 0) == Piece(q, 0)
    ensures PayloadWritten(d, at, p, 1) == PayloadWritten(d, at, q, 1)
  {
  }

  /**
   * The failing family at work: a torn header over `Flip(payload)`, then a boot whose flush of `next`
   * is cut after its first sector. The load is a payload that was never flushed: one sector of the
   * new write, the rest of the old.
   */
  lemma TornHeaderMixes(d: Disk, lba: nat, c: Option<Commit>, payload: Region, seqno: nat, next: Region)
    requires Holds(d, lba, c) && SeqOf(c) < seqno < U64_END
    requires Piece(next, 0) == Piece(Flip(payload), 0) && next != Flip(payload)
    ensures var torn := EncodeHeader(seqno, Flip(payload));
            var e := FlushFrom(d, lba, c, payload, Cut(PAYLOAD_SECTORS, Some(torn)));
            Formatted(e, lba) && Load(e, lba) == c &&
            var f := FlushFrom(e, lba, c, next, Cut(1, None));
            Formatted(f, lba) && Load(f, lba) == Some(Commit(NextSlot(SlotOf(c)), seqno, Flip(payload))) &&
            Flip(payload) != payload && Flip(payload) != next
  {
    hide View, Crc.Crc32, EncodeHeader, PayloadWritten, Span;
    var torn, slot := EncodeHeader(seqno, Flip(payload)), NextSlot(SlotOf(c));
    var cut := Cut(PAYLOAD_SECTORS, Some(torn));
    var e := FlushFrom(d, lba, c, payload, cut);
    HeaderRoundTrip(seqno, Flip(payload));
    FlipDetected(payload);
    TornView(d, lba, c, payload, cut);
    var header := EncodeHeader(NextSeq(SeqOf(c)), next);
    FlushedOther(e, lba, slot, header, next, Cut(1, None));
    FlushedOwn(e, lba, slot, header, next, Cut(1, None));
    SlotOfView(e, lba, slot);
    FlippedSpan(e, lba + slot.PayloadSector(), payload);
    SameFirstSector(e, lba + slot.PayloadSector(), next, Flip(payload));
    SlotOfView(FlushFrom(e, lba, c, next, Cut(1, None)), lba, slot);
  }

  lemma SlotOfView(d: Disk, lba: nat, slot: Slot)
    requires Formatted(d, lba)
    ensures View(d, lba).Get(slot) == SlotAt(d, lba, slot) && View(d, lba).Get(slot.Other()) == SlotAt(d, lba, slot.Other())
    ensures SlotAt(d, lba, slot).payload == Span(d, lba + slot.PayloadSector())
    ensures SlotAt(d, lba, slot).header == d[lba + slot.HeaderSector()]
  {
  }

  lemma FlippedSpan(d: Disk, at: nat, p: Region)
    requires forall s :: at <= s < at + PAYLOAD_SECTORS ==> s in d
    requires Span(d, at) == p
    ensures Span(PayloadWritten(d, at, Flip(p), 1), at) == Flip(p)
  {
    var e := PayloadWritten(d, at, Flip(p), 1);
    forall i | 0 <= i < REGION_SIZE
      ensures Span(e, at)[i] == Flip(p)[i]
    {
      assert p[i] == d[at + i / SECTOR_SIZE][i % SECTOR_SIZE];
    }
  }

  lemma RewriteView(d: Disk, lba: nat, slot: Slot, header: Sector)
    requires Formatted(d, lba)
    ensures var p := SlotAt(d, lba, slot).payload;
            var e := Flushed(d, lba, slot, header, Flip(p), Cut(1, None));
            Formatted(e, lba) && SlotAt(e, lba, slot) == SlotState(SlotAt(d, lba, slot).header, Flip(p))
  {
    var p := SlotAt(d, lba, slot).payload;
    FlushedOwn(d, lba, slot, header, Flip(p), Cut(1, None));
    FlippedSpan(d, lba + slot.PayloadSector(), p);
  }

  /** Cutting a rewrite of the good slot after one sector leaves that slot invalid. */
  lemma RewriteLoses(d: Disk, lba: nat, c: Commit, header: Sector)
    requires Holds(d, lba, Some(c))
    ensures var e := Flushed(d, lba, c.slot, header, Flip(c.payload), Cut(1, None));
            Formatted(e, lba) && (Load(e, lba).Some? ==> Load(e, lba).value.slot == c.slot.Other())
  {
    RewriteView(d, lba, c.slot, header);
    FlipDetected(c.payload);
    InvalidNeverWins(View(Flushed(d, lba, c.slot, header, Flip(c.payload), Cut(1, None)), lba), c.slot);
  }

  /** Every cut before the header leaves the load unchanged. */
  ghost predicate CutSafe(d: Disk, lba: nat, c: Commit, slot: Slot, header: Sector)
    requires Formatted(d, lba)
  {
    forall payload: Region, cut: Cut ::
      !Complete(cut) && !HeaderTorn(cut) ==>
        Formatted(Flushed(d, lba, slot, header, payload, cut), lba) &&
        Load(Flushed(d, lba, slot, header, payload, cut), lba) == Some(c)
  }

  /** A flush is safe under every such cut exactly when it aims at the slot opposite the good one. */
  lemma SafeIffOpposite(d: Disk, lba: nat, c: Commit, slot: Slot, header: Sector)
    requires Holds(d, lba, Some(c))
    ensures CutSafe(d, lba, c, slot, header) <==> slot != c.slot
  {
    if slot != c.slot {
      forall payload: Region, cut: Cut | !Complete(cut) && !HeaderTorn(cut)
        ensures Formatted(Flushed(d, lba, slot, header, payload, cut), lba) &&
                Load(Flushed(d, lba, slot, header, payload, cut), lba) == Some(c)
      {
        var junk := FlushedView(d, lba, slot, header, payload, cut);
        ScribbleKeeps(View(d, lba), Some(c), slot, junk);
        LoadOfFinds(View(Flushed(d, lba, slot, header, payload, cut), lba), Some(c));
      }
    } else {
      RewriteLoses(d, lba, c, header);
      assert !Complete(Cut(1, None)) && !HeaderTorn(Cut(1, None));
    }
  }

  /**
   * Two flushes from one load break atomicity: the second aims at the slot the first committed,
   * and a cut after one sector loses that commit.
   */
  lemma SecondFlushFromOneLoadLoses(d: Disk, lba: nat, c: Option<Commit>, b: Boot)
    requires Holds(d, lba, c) && SeqOf(c) + 1 < U64_END && Complete(b.cut)
    ensures var once := FlushFrom(d, lba, c, b.payload, b.cut);
            var twice := FlushFrom(once, lba, c, Flip(b.payload), Cut(1, None));
            Formatted(once, lba) && Formatted(twice, lba) &&
            Load(once, lba) == Advance(c, b) && Load(twice, lba) != Load(once, lba)
  {
    var once := FlushFrom(d, lba, c, b.payload, b.cut);
    var now := Advance(c, b).value;
    FlushStep(d, lba, c, b);
    LoadOfFinds(View(once, lba), Some(now));
    RewriteLoses(once, lba, now, EncodeHeader(NextSeq(SeqOf(c)), Flip(b.payload)));
  }
}

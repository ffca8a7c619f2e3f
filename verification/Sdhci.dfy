/** The media half of the SD host driver, over abstract sector reads and writes that may fail. */
module Sdhci {
  import opened Bytes
  import opened Wrappers
  import opened DurableMedia
  import opened SlotProtocol
  import opened SdStore
  import Crc

  datatype SdError = Transport

  class Card {
    var disk: Disk
    /** Sector reads the transport still answers. */
    var budget: nat
    /** Sector writes still to land whole, and what the one after them leaves behind. */
    var supply: Cut

    constructor (disk: Disk, budget: nat, supply: Cut)
      ensures this.disk == disk && this.budget == budget && this.supply == supply
    {
      this.disk, this.budget, this.supply := disk, budget, supply;
    }

    method ReadBlock(lba: nat) returns (r: Result<Sector, SdError>)
      requires lba in disk
      modifies this`budget
      ensures old(budget) == 0 ==> r == Err(Transport) && budget == 0
      ensures old(budget) > 0 ==> r == Ok(disk[lba]) && budget == old(budget) - 1
    {
      if budget == 0 {
        return Err(Transport);
      }
      budget := budget - 1;
      r := Ok(disk[lba]);
    }

    method WriteBlock(lba: nat, data: Sector) returns (r: Result<(), SdError>)
      modifies this`disk, this`supply
      ensures old(supply.landed) == 0 ==>
        r == Err(Transport) && supply == Cut(0, None) && disk == Torn(old(disk), lba, old(supply.tear))
      ensures old(supply.landed) > 0 ==>
        r == Ok(()) && supply == Cut(old(supply.landed) - 1, old(supply.tear)) && disk == old(disk)[lba := data]
    {
      if supply.landed == 0 {
        disk := Torn(disk, lba, supply.tear);
        supply := Cut(0, None);
        return Err(Transport);
      }
      supply := Cut(supply.landed - 1, supply.tear);
      disk := disk[lba := data];
      r := Ok(());
    }

    /** `read_payload`: eight sectors into one region, stopping at the first failure. */
    method ReadPayload(lba: nat, slot: Slot) returns (r: Result<Region, SdError>)
      requires Formatted(disk, lba)
      modifies this`budget
      ensures old(budget) >= PAYLOAD_SECTORS ==>
        r == Ok(Span(disk, lba + slot.PayloadSector())) && budget == old(budget) - PAYLOAD_SECTORS
      ensures old(budget) < PAYLOAD_SECTORS ==> r == Err(Transport) && budget == 0
    {
      var out: seq<byte> := [];
      var s := 0;
      while s < PAYLOAD_SECTORS
        invariant 0 <= s <= PAYLOAD_SECTORS
        invariant budget == old(budget) - s
        invariant |out| == s * SECTOR_SIZE
        invariant out == Span(disk, lba + slot.PayloadSector())[..s * SECTOR_SIZE]
      {
        var block := ReadBlock(lba + slot.PayloadSector() + s);
        if block.Err? {
          return Err(block.error);
        }
        SpanSector(disk, lba + slot.PayloadSector(), s);
        out := out + block.value;
        s := s + 1;
      }
      assert out == Span(disk, lba + slot.PayloadSector());
      r := Ok(out);
    }

    /** Both headers, then both payloads. */
    method ReadSlots(lba: nat) returns (r: Result<Media, SdError>)
      requires Formatted(disk, lba)
      modifies this`budget
      ensures r.Ok? <==> old(budget) >= 2 + 2 * PAYLOAD_SECTORS
      ensures r.Ok? ==> r.value == View(disk, lba)
    {
      var headerA := ReadBlock(lba + A.HeaderSector());
      if headerA.Err? { return Err(headerA.error); }
      var headerB := ReadBlock(lba + B.HeaderSector());
      if headerB.Err? { return Err(headerB.error); }
      var payloadA := ReadPayload(lba, A);
      if payloadA.Err? { return Err(payloadA.error); }
      var payloadB := ReadPayload(lba, B);
      if payloadB.Err? { return Err(payloadB.error); }
      r := Ok(Media(SlotState(headerA.value, payloadA.value), SlotState(headerB.value, payloadB.value)));
    }

    /** `media_load`: the winning slot into `out`; `out` is untouched on fresh media and on error. */
    method MediaLoad(lba: nat, out: array<byte>) returns (r: Result<Option<(Slot, nat)>, SdError>)
      requires Formatted(disk, lba) && out.Length == REGION_SIZE
      modifies this`budget, out
      ensures r.Ok? <==> old(budget) >= 2 + 2 * PAYLOAD_SECTORS
      ensures r.Ok? ==> r.value == HandleOf(Load(disk, lba))
      ensures out[..] == if r.Ok? && Load(disk, lba).Some? then Load(disk, lba).value.payload
                         else old(out[..])
    {
      var slots := ReadSlots(lba);
      if slots.Err? { return Err(slots.error); }
      var m := slots.value;
      match PickWinner(m.a.header, m.a.payload, m.b.header, m.b.payload) {
        case None =>
          r := Ok(None);
        case Some((slot, h)) =>
          CopyInto(out, 0, m.Get(slot).payload);
          assert out[..] == m.Get(slot).payload;
          r := Ok(Some((slot, h.seqno)));
      }
    }

    /** The payload half of a flush. */
    method WritePayload(lba: nat, slot: Slot, payload: Region) returns (r: Result<(), SdError>)
      requires Formatted(disk, lba)
      modifies this`disk, this`supply
      ensures r == if old(supply.landed) >= PAYLOAD_SECTORS then Ok(()) else Err(Transport)
      ensures r.Ok? ==> supply == Cut(old(supply.landed) - PAYLOAD_SECTORS, old(supply.tear))
      ensures var at := lba + slot.PayloadSector();
              var e := PayloadWritten(old(disk), at, payload, WholeSectors(old(supply)));
              disk == if r.Ok? then e else Torn(e, at + old(supply.landed), old(supply.tear))
    {
      hide PayloadWritten, Formatted, Piece;
      ghost var d, at := disk, lba + slot.PayloadSector();
      PayloadWrittenNone(d, at, payload);
      var s := 0;
      while s < PAYLOAD_SECTORS
        invariant 0 <= s <= PAYLOAD_SECTORS && s <= old(supply.landed)
        invariant disk == PayloadWritten(d, at, payload, s)
        invariant supply == Cut(old(supply.landed) - s, old(supply.tear))
      {
        var w := WriteBlock(lba + slot.PayloadSector() + s, Piece(payload, s));
        if w.Err? {
          return Err(w.error);
        }
        PayloadWrittenNext(d, lba, slot, payload, s);
        s := s + 1;
      }
      r := Ok(());
    }

    /**
     * `media_flush`: payload sectors in order, header last. Wherever the transport stops, the
     * media is the one `Flushed` describes, and success means every write landed.
     */
    method MediaFlush(lba: nat, winner: Option<Slot>, seqno: nat, payload: Region)
      returns (r: Result<(Slot, nat), SdError>)
      requires Formatted(disk, lba)
      modifies this`disk, this`supply
      ensures disk == Flushed(old(disk), lba, NextSlot(winner), EncodeHeader(NextSeq(seqno), payload),
                              payload, old(supply))
      ensures r == if Complete(old(supply)) then Ok((NextSlot(winner), NextSeq(seqno))) else Err(Transport)
    {
      hide PayloadWritten, EncodeHeader, Formatted;
      var slot, nextSeq := NextSlot(winner), NextSeq(seqno);
      var p := WritePayload(lba, slot, payload);
      if p.Err? {
        return Err(p.error);
      }
      r := WriteHeader(lba, slot, nextSeq, payload);
    }

    /** The commit: encode the header over the payload that landed, and write its one sector. */
    method WriteHeader(lba: nat, slot: Slot, seqno: nat, payload: Region) returns (r: Result<(Slot, nat), SdError>)
      modifies this`disk, this`supply
      ensures r == if old(supply.landed) > 0 then Ok((slot, seqno)) else Err(Transport)
      ensures disk == if r.Ok? then old(disk)[lba + slot.HeaderSector() := EncodeHeader(seqno, payload)]
                      else Torn(old(disk), lba + slot.HeaderSector(), old(supply.tear))
    {
      var header := BuildHeader(seqno, payload);
      var w := WriteBlock(lba + slot.HeaderSector(), header[..]);
      r := if w.Ok? then Ok((slot, seqno)) else Err(w.error);
    }

    /** `media_verify`: the slot commits exactly `payload` at `seqno`. */
    method MediaVerify(lba: nat, slot: Slot, seqno: nat, payload: Region) returns (r: Result<bool, SdError>)
      requires Formatted(disk, lba)
      modifies this`budget
      ensures r.Ok? <==> old(budget) >= 1 + PAYLOAD_SECTORS
      ensures r.Ok? ==>
        (r.value <==>
          Span(disk, lba + slot.PayloadSector()) == payload &&
          Validate(disk[lba + slot.HeaderSector()], payload).Some? &&
          Validate(disk[lba + slot.HeaderSector()], payload).value.seqno == seqno)
    {
      var header := ReadBlock(lba + slot.HeaderSector());
      if header.Err? { return Err(header.error); }
      var back := ReadPayload(lba, slot);
      if back.Err? { return Err(back.error); }
      r := match Validate(header.value, back.value)
           case Some(h) => Ok(h.seqno == seqno && back.value == payload)
           case None => Ok(false);
    }
  }

  /** The part of a load the caller keeps for its flush. */
  function HandleOf(c: Option<Commit>): Option<(Slot, nat)>
  {
    match c
    case None => None
    case Some(w) => Some((w.slot, w.seqno))
  }

  lemma PayloadWrittenNone(d: Disk, at: nat, payload: Region)
    ensures PayloadWritten(d, at, payload, 0) == d
  {
  }

  lemma PayloadWrittenNext(d: Disk, lba: nat, slot: Slot, payload: Region, k: nat)
    requires k < PAYLOAD_SECTORS && Formatted(d, lba)
    ensures var at := lba + slot.PayloadSector();
            PayloadWritten(d, at, payload, k)[at + k := Piece(payload, k)] == PayloadWritten(d, at, payload, k + 1)
  {
    assert lba + slot.PayloadSector() + k in d;
  }

  lemma SpanSector(d: Disk, at: nat, s: nat)
    requires forall i :: at <= i < at + PAYLOAD_SECTORS ==> i in d
    requires s < PAYLOAD_SECTORS
    ensures Span(d, at)[..s * SECTOR_SIZE] + d[at + s] == Span(d, at)[..(s + 1) * SECTOR_SIZE]
  {
    assert forall i :: s * SECTOR_SIZE <= i < (s + 1) * SECTOR_SIZE ==>
      i / SECTOR_SIZE == s && i % SECTOR_SIZE == i - s * SECTOR_SIZE;
  }

  /** The read-back after a flush that returned success always confirms it. */
  lemma FlushVerifies(d: Disk, lba: nat, winner: Option<Slot>, seqno: nat, payload: Region, cut: Cut)
    requires Formatted(d, lba) && Complete(cut)
    ensures var e := Flushed(d, lba, NextSlot(winner), EncodeHeader(NextSeq(seqno), payload), payload, cut);
            Formatted(e, lba) &&
            SlotAt(e, lba, NextSlot(winner)).payload == payload &&
            Validate(SlotAt(e, lba, NextSlot(winner)).header, payload)
              == Some(Header(NextSeq(seqno), Crc.Crc32(payload)))
  {
    FlushedOwn(d, lba, NextSlot(winner), EncodeHeader(NextSeq(seqno), payload), payload, cut);
    HeaderRoundTrip(NextSeq(seqno), payload);
  }
}

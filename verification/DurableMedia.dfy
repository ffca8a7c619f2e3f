/** Two-slot media layout of the durable store: header format, slot choice, winner. */
module DurableMedia {
  import opened Bytes
  import opened Wrappers
  import Crc

  const SECTOR_SIZE: nat := 512
  const REGION_SIZE: nat := 4096
  const PAYLOAD_SECTORS: nat := REGION_SIZE / SECTOR_SIZE
  const MIN_PARTITION_SECTORS: nat := 32

  type Sector = s: seq<byte> | |s| == SECTOR_SIZE witness Zeros(SECTOR_SIZE)
  type Region = s: seq<byte> | |s| == REGION_SIZE witness Zeros(REGION_SIZE)

  /** `b"DMH1"`, little endian. */
  const MAGIC: nat := 0x3148_4D44
  const VERSION: nat := 1

  datatype Slot = A | B {
    function HeaderSector(): nat
    {
      if A? then 0 else 16
    }

    function PayloadSector(): nat
    {
      if A? then 1 else 17
    }

    function Other(): Slot
    {
      if A? then B else A
    }
  }

  function NextSlot(winner: Option<Slot>): (s: Slot)
    ensures winner.Some? ==> s == winner.value.Other()
  {
    match winner
    case None => A
    case Some(B) => A
    case Some(A) => B
  }

  datatype Header = Header(seqno: nat, crc: nat)

  /** The sector that commits `payload` at `seqno`. */
  function EncodeHeader(seqno: nat, payload: seq<byte>): Sector
  {
    ToLe(MAGIC, 4) + ToLe(VERSION, 4) + ToLe(seqno, 8) + ToLe(Crc.Crc32(payload), 4)
    + Zeros(SECTOR_SIZE - 20)
  }

  function DecodeHeader(sector: Sector): Option<Header>
  {
    if FromLe(sector[0..4]) != MAGIC || FromLe(sector[4..8]) != VERSION then
      None
    else
      Some(Header(FromLe(sector[8..16]), FromLe(sector[16..20])))
  }

  function Validate(header: Sector, payload: seq<byte>): Option<Header>
  {
    var h := DecodeHeader(header);
    if h.Some? && Crc.Crc32(payload) != h.value.crc then None else h
  }

  function PickWinner(headerA: Sector, payloadA: seq<byte>,
                      headerB: Sector, payloadB: seq<byte>): Option<(Slot, Header)>
  {
    match (Validate(headerA, payloadA), Validate(headerB, payloadB))
    case (None, None) => None
    case (Some(h), None) => Some((A, h))
    case (None, Some(h)) => Some((B, h))
    case (Some(ha), Some(hb)) => if ha.seqno >= hb.seqno then Some((A, ha)) else Some((B, hb))
  }

  /** Any sequence number that fits the field, and the payload's checksum, come back. */
  lemma HeaderRoundTrip(seqno: nat, payload: seq<byte>)
    requires seqno < U64_END
    ensures DecodeHeader(EncodeHeader(seqno, payload)) == Some(Header(seqno, Crc.Crc32(payload)))
    ensures Validate(EncodeHeader(seqno, payload), payload) == Some(Header(seqno, Crc.Crc32(payload)))
  {
    var out := EncodeHeader(seqno, payload);
    assert out[0..4] == ToLe(MAGIC, 4);
    assert out[4..8] == ToLe(VERSION, 4);
    assert out[8..16] == ToLe(seqno, 8);
    assert out[16..20] == ToLe(Crc.Crc32(payload), 4);
    Widths();
    Crc.Crc32Fits(payload);
    LeRoundTrip(MAGIC, 4);
    LeRoundTrip(VERSION, 4);
    LeRoundTrip(seqno, 8);
    LeRoundTrip(Crc.Crc32(payload), 4);
  }

  /** A header sector byte by byte: `DMH1`, version one, then eight bytes of number and four of checksum. */
  lemma HeaderOnBytes(sector: Sector)
    ensures DecodeHeader(sector).Some? <==> sector[..4] == [0x44, 0x4D, 0x48, 0x31] && sector[4..8] == [1, 0, 0, 0]
    ensures DecodeHeader(sector).Some? ==>
      && DecodeHeader(sector).value.seqno == FromLe(sector[8..16])
      && DecodeHeader(sector).value.crc == FromLe(sector[16..20])
  {
    hide FromLe;
    var m, v := sector[0..4], sector[4..8];
    FourBytes(m);
    FourBytes(v);
    assert m == sector[..4];
    assert FromLe(m) == MAGIC <==> m == [0x44, 0x4D, 0x48, 0x31];
    assert FromLe(v) == VERSION <==> v == [1, 0, 0, 0];
  }

  /** A slot is valid exactly when its header decodes and names its payload's checksum. */
  lemma ValidExactly(header: Sector, payload: seq<byte>)
    ensures Validate(header, payload).Some? <==>
            DecodeHeader(header).Some? && DecodeHeader(header).value.crc == Crc.Crc32(payload)
    ensures Validate(header, payload).Some? ==> Validate(header, payload) == DecodeHeader(header)
  {
  }

  /** A header never validates a payload whose bits differ from its own only inside 32 adjacent ones. */
  lemma BurstRejected(header: Sector, s: seq<byte>, t: seq<byte>,
                      pre: seq<bool>, u: seq<bool>, v: seq<bool>, post: seq<bool>)
    requires Crc.BitsOf(s) == pre + u + post && Crc.BitsOf(t) == pre + v + post && |u| == |v| <= 32 && u != v
    requires Validate(header, s).Some?
    ensures Validate(header, t).None?
  {
    Crc.BurstDetected(s, t, pre, u, v, post);
  }

  /** Every checksum a header can name is that of some region. */
  lemma RegionOnto(v: nat) returns (p: Region)
    requires v < U32_END
    ensures Crc.Crc32(p) == v
  {
    hide Crc.Crc32;
    var pre := Zeros(REGION_SIZE - 4);
    var s := Crc.Crc32Onto(pre, v);
    p := pre + s;
  }

  lemma HeaderCrcFits(sector: Sector)
    requires DecodeHeader(sector).Some?
    ensures DecodeHeader(sector).value.crc < U32_END
  {
    FromLeBound(sector[16..20]);
    Widths();
  }

  /** `encode_header`: fill a zeroed sector field by field. */
  method BuildHeader(seqno: nat, payload: seq<byte>) returns (out: array<byte>)
    ensures fresh(out) && out[..] == EncodeHeader(seqno, payload)
  {
    hide ToLe, Crc.Crc32;
    out := new byte[SECTOR_SIZE](i => 0);
    ghost var z := out[..];
    CopyInto(out, 0, ToLe(MAGIC, 4));
    CopyInto(out, 4, ToLe(VERSION, 4));
    CopyInto(out, 8, ToLe(seqno, 8));
    var crc := Crc.ComputeCrc32(payload);
    CopyInto(out, 16, ToLe(crc, 4));
    SpliceNext(z, 0, ToLe(MAGIC, 4), ToLe(VERSION, 4));
    SpliceNext(z, 0, ToLe(MAGIC, 4) + ToLe(VERSION, 4), ToLe(seqno, 8));
    SpliceNext(z, 0, ToLe(MAGIC, 4) + ToLe(VERSION, 4) + ToLe(seqno, 8), ToLe(crc, 4));
    assert z[20..] == Zeros(SECTOR_SIZE - 20);
  }
}

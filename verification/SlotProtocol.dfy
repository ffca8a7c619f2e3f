/**
 * The two-slot commit protocol, slot by slot: what the media holds, what a load finds, and what a
 * write into one slot, finished or not, does to either.
 */
module SlotProtocol {
  import opened Bytes
  import opened Wrappers
  import opened DurableMedia
  import Crc

  datatype SlotState = SlotState(header: Sector, payload: Region)

  datatype Media = Media(a: SlotState, b: SlotState) {
    function Get(slot: Slot): SlotState
    {
      if slot == A then a else b
    }

    function Set(slot: Slot, s: SlotState): Media
    {
      if slot == A then Media(s, b) else Media(a, s)
    }
  }

  /** A good state: its slot, its sequence number and its payload. */
  datatype Commit = Commit(slot: Slot, seqno: nat, payload: Region)

  function LoadOf(m: Media): Option<Commit>
  {
    match PickWinner(m.a.header, m.a.payload, m.b.header, m.b.payload)
    case None => None
    case Some((slot, h)) => Some(Commit(slot, h.seqno, m.Get(slot).payload))
  }

  /** A header that can never beat `c`, whatever its payload sectors hold. */
  predicate Outranked(header: Sector, c: Commit)
  {
    var h := DecodeHeader(header);
    h.Some? ==> h.value.seqno < c.seqno || (h.value.seqno == c.seqno && c.slot == A)
  }

  /** The media's good state is `c`; with `None`, neither slot was ever committed. */
  predicate HoldsIn(m: Media, c: Option<Commit>)
  {
    match c
    case None => DecodeHeader(m.a.header).None? && DecodeHeader(m.b.header).None?
    case Some(w) =>
      && DecodeHeader(m.Get(w.slot).header) == Some(Header(w.seqno, Crc.Crc32(w.payload)))
      && m.Get(w.slot).payload == w.payload
      && Outranked(m.Get(w.slot.Other()).header, w)
  }

  /** A load finds exactly the state the media holds: no checksum assumption is involved. */
  lemma LoadOfFinds(m: Media, c: Option<Commit>)
    requires HoldsIn(m, c)
    ensures LoadOf(m) == c
  {
  }

  /** On any media: the load is a slot whose header commits its payload, the higher number, and A of two equals. */
  lemma LoadExact(m: Media, slot: Slot)
    ensures var own, other := Validate(m.Get(slot).header, m.Get(slot).payload),
                              Validate(m.Get(slot.Other()).header, m.Get(slot.Other()).payload);
            var l := LoadOf(m);
            && (l.Some? && l.value.slot == slot <==>
                  && own.Some?
                  && (other.None? || other.value.seqno < own.value.seqno || (other.value.seqno == own.value.seqno && slot == A)))
            && (l.Some? && l.value.slot == slot ==> l.value.seqno == own.value.seqno && l.value.payload == m.Get(slot).payload)
            && (l.None? <==> own.None? && other.None?)
  {
    hide Validate;
  }

  /** Any payload may sit under the losing slot's header. */
  lemma ScribbleKeeps(m: Media, c: Option<Commit>, slot: Slot, junk: Region)
    requires HoldsIn(m, c) && (c.Some? ==> slot != c.value.slot)
    ensures HoldsIn(m.Set(slot, SlotState(m.Get(slot).header, junk)), c)
  {
  }

  /** The state that wins once `w` lands beside `c`. */
  function Better(c: Option<Commit>, w: Commit): Option<Commit>
  {
    if c.None? || w.seqno > c.value.seqno || (w.seqno == c.value.seqno && w.slot == A) then Some(w) else c
  }

  /** The header write commits, exactly when the new sequence number beats the old one. */
  lemma LandCommits(m: Media, c: Option<Commit>, w: Commit)
    requires HoldsIn(m, c) && (c.Some? ==> w.slot != c.value.slot) && w.seqno < U64_END
    ensures HoldsIn(m.Set(w.slot, SlotState(EncodeHeader(w.seqno, w.payload), w.payload)), Better(c, w))
  {
    HeaderRoundTrip(w.seqno, w.payload);
  }

  /** A torn commit sector leaves the complete old state or the complete new payload. */
  lemma TornIsAllOrNothing(m: Media, c: Option<Commit>, slot: Slot, torn: Sector, payload: Region)
    requires HoldsIn(m, c) && (c.Some? ==> slot != c.value.slot)
    ensures var l := LoadOf(m.Set(slot, SlotState(torn, payload)));
            l == c || (l.Some? && l.value.slot == slot && l.value.payload == payload)
  {
  }

  /** The torn header decodes and outranks the good state. */
  predicate Beats(torn: Sector, slot: Slot, c: Option<Commit>)
  {
    var h := DecodeHeader(torn);
    h.Some? && (c.None? || h.value.seqno > c.value.seqno || (h.value.seqno == c.value.seqno && slot == A))
  }

  /**
   * After a torn header the protocol's invariant survives, for the state the next load finds,
   * exactly when that header does not outrank the good state without committing the new payload.
   */
  lemma TornKeepsProtocol(m: Media, c: Option<Commit>, slot: Slot, torn: Sector, payload: Region)
    requires HoldsIn(m, c) && (c.Some? ==> slot != c.value.slot) && (c.None? ==> slot == A)
    ensures var e := m.Set(slot, SlotState(torn, payload));
            HoldsIn(e, LoadOf(e)) <==>
            (Beats(torn, slot, c) ==> DecodeHeader(torn).value.crc == Crc.Crc32(payload))
  {
  }

  /** A slot that does not validate never wins. */
  lemma InvalidNeverWins(m: Media, slot: Slot)
    requires Validate(m.Get(slot).header, m.Get(slot).payload).None?
    ensures LoadOf(m).Some? ==> LoadOf(m).value.slot == slot.Other()
  {
  }

  /** The payload with its first byte changed. */
  function Flip(p: Region): (q: Region)
  {
    [if p[0] == 0 then 1 else 0 as byte] + p[1..]
  }

  lemma FlipDetected(p: Region)
    ensures Crc.Crc32(Flip(p)) != Crc.Crc32(p)
  {
    assert p == [] + [p[0]] + p[1..];
    assert Flip(p) == [] + [Flip(p)[0]] + p[1..];
    Crc.BytesDetected([], [Flip(p)[0]], [p[0]], p[1..]);
  }
}

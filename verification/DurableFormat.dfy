/** The DURB multi-blob block: a fixed-capacity list of keyed blobs in one byte region. */
module DurableFormat {
  import opened Bytes
  import opened Wrappers
  import opened DurableMedia

  /** `b"DURB"`, little endian. */
  const DURB: nat := 0x4252_5544
  const DURB_VERSION: nat := 1
  const MAX_BLOBS: nat := 4
  const MAX_KEY_LEN: nat := 16
  const MAX_PAYLOAD: nat := 64
  const HEADER: nat := 16

  datatype EncodeError = TooLarge | BadKey

  datatype DecodeError = TooShort | BadMagic | BadVersion | BadCount | Truncated | BadKeyLen

  datatype Blob = Blob(key: seq<byte>, payload: seq<byte>)

  predicate LegalKey(key: seq<byte>)
  {
    0 < |key| <= MAX_KEY_LEN
  }

  predicate LegalBlob(b: Blob)
  {
    LegalKey(b.key) && |b.payload| <= MAX_PAYLOAD
  }

  predicate LegalList(bs: seq<Blob>)
  {
    |bs| <= MAX_BLOBS && forall i :: 0 <= i < |bs| ==> LegalBlob(bs[i])
  }

  // ---- What is on the wire ----

  function Record(b: Blob): (s: seq<byte>)
    requires LegalBlob(b)
    ensures |s| == 3 + |b.key| + |b.payload|
  {
    [|b.key| as byte] + b.key + ToLe(|b.payload|, 2) + b.payload
  }

  function Records(bs: seq<Blob>): seq<byte>
    requires forall i :: 0 <= i < |bs| ==> LegalBlob(bs[i])
  {
    if bs == [] then [] else Records(bs[..|bs| - 1]) + Record(bs[|bs| - 1])
  }

  function Head(count: nat): (s: seq<byte>)
    ensures |s| == HEADER
  {
    ToLe(DURB, 4) + ToLe(DURB_VERSION, 4) + ToLe(count, 4) + ToLe(0, 4)
  }

  /** `s` at the front of a zeroed buffer of `n` bytes. */
  function Padded(s: seq<byte>, n: nat): (r: seq<byte>)
    requires |s| <= n
    ensures |r| == n
  {
    Splice(Zeros(n), 0, s)
  }

  predicate Fits(bs: seq<Blob>, n: nat)
    requires forall i :: 0 <= i < |bs| ==> LegalBlob(bs[i])
  {
    HEADER + |Records(bs)| <= n
  }

  /** The region holding exactly `bs`. */
  function Image(bs: seq<Blob>, n: nat): (r: seq<byte>)
    requires LegalList(bs) && Fits(bs, n)
    ensures |r| == n
  {
    Padded(Head(|bs|) + Records(bs), n)
  }

  /** Four records at their largest fit with room to spare. */
  lemma {:induction false} RecordsBound(bs: seq<Blob>)
    requires forall i :: 0 <= i < |bs| ==> LegalBlob(bs[i])
    ensures |Records(bs)| <= |bs| * (3 + MAX_KEY_LEN + MAX_PAYLOAD)
  {
    if bs != [] { RecordsBound(bs[..|bs| - 1]); }
  }

  lemma RegionFits(bs: seq<Blob>)
    requires LegalList(bs)
    ensures Fits(bs, REGION_SIZE)
  {
    RecordsBound(bs);
  }

  // ---- Encode, in place ----

  /** Whether blob `i` stops the encoder, and with what, when the list before it went in. */
  function Refusal(bs: seq<Blob>, i: nat, n: nat): Option<EncodeError>
    requires i < |bs| && forall j :: 0 <= j < i ==> LegalBlob(bs[j])
  {
    if !LegalKey(bs[i].key) then Some(EncodeError.BadKey)
    else if |bs[i].payload| > MAX_PAYLOAD then Some(TooLarge)
    else if HEADER + |Records(bs[..i])| + |Record(bs[i])| > n then Some(TooLarge)
    else None
  }

  /** `bs[..i]` goes in and `i` is as far as the encoder gets. */
  predicate StopsAt(bs: seq<Blob>, i: nat, n: nat)
  {
    && i <= |bs|
    && (forall j :: 0 <= j < i ==> LegalBlob(bs[j]))
    && Fits(bs[..i], n)
    && (i < |bs| ==> Refusal(bs, i, n).Some?)
  }

  /** Each refusal in numbers: the key first, then the payload, then the room. */
  lemma RefusalExact(bs: seq<Blob>, i: nat, n: nat)
    requires i < |bs| && forall j :: 0 <= j < i ==> LegalBlob(bs[j])
    ensures var e, k, p := Refusal(bs, i, n), |bs[i].key|, |bs[i].payload|;
            && (e == Some(EncodeError.BadKey) <==> k == 0 || k > 16)
            && (e == Some(TooLarge) <==> 1 <= k <= 16 && (p > 64 || 16 + |Records(bs[..i])| + 3 + k + p > n))
  {
    hide Records;
  }

  lemma {:induction false} RecordsPrefix(bs: seq<Blob>, i: nat)
    requires i <= |bs| && forall j :: 0 <= j < |bs| ==> LegalBlob(bs[j])
    ensures |Records(bs[..i])| <= |Records(bs)|
    decreases |bs|
  {
    hide Record;
    if i < |bs| {
      var k := |bs| - 1;
      RecordsPrefix(bs[..k], i);
      assert bs[..k][..i] == bs[..i];
    } else {
      assert bs[..i] == bs;
    }
  }

  /** A legal list that fits is encoded to its end. */
  lemma NothingRefused(bs: seq<Blob>, n: nat)
    requires LegalList(bs) && Fits(bs, n)
    ensures forall i :: 0 <= i <= |bs| && StopsAt(bs, i, n) ==> i == |bs|
  {
    forall i | 0 <= i < |bs|
      ensures !StopsAt(bs, i, n)
    {
      RecordsNext(bs, i);
      RecordsPrefix(bs, i + 1);
    }
  }

  method WriteRecord(b: Blob, out: array<byte>, off: nat)
    requires LegalBlob(b) && off + |Record(b)| <= out.Length
    modifies out
    ensures out[..] == Splice(old(out[..]), off, Record(b))
  {
    var klen, plen := |b.key|, |b.payload|;
    CopyInto(out, off, [klen as byte]);
    CopyInto(out, off + 1, b.key);
    CopyInto(out, off + 1 + klen, ToLe(plen, 2));
    CopyInto(out, off + 3 + klen, b.payload);
    SpliceNext(old(out[..]), off, [klen as byte], b.key);
    SpliceNext(old(out[..]), off, [klen as byte] + b.key, ToLe(plen, 2));
    SpliceNext(old(out[..]), off, [klen as byte] + b.key + ToLe(plen, 2), b.payload);
  }

  lemma RecordsNext(bs: seq<Blob>, i: nat)
    requires i < |bs| && forall j :: 0 <= j <= i ==> LegalBlob(bs[j])
    ensures Records(bs[..i + 1]) == Records(bs[..i]) + Record(bs[i])
  {
    assert bs[..i + 1][..i] == bs[..i];
  }

  method Clear(out: array<byte>, count: nat)
    requires out.Length >= HEADER
    modifies out
    ensures out[..] == Padded(Head(count), out.Length)
  {
    forall i | 0 <= i < out.Length { out[i] := 0; }
    ghost var z := out[..];
    assert z == Zeros(out.Length);
    CopyInto(out, 0, ToLe(DURB, 4));
    CopyInto(out, 4, ToLe(DURB_VERSION, 4));
    CopyInto(out, 8, ToLe(count, 4));
    CopyInto(out, 12, ToLe(0, 4));
    SpliceNext(z, 0, ToLe(DURB, 4), ToLe(DURB_VERSION, 4));
    SpliceNext(z, 0, ToLe(DURB, 4) + ToLe(DURB_VERSION, 4), ToLe(count, 4));
    SpliceNext(z, 0, ToLe(DURB, 4) + ToLe(DURB_VERSION, 4) + ToLe(count, 4), ToLe(0, 4));
  }

  /** `bs[..i]` is in the buffer, under the full count, and `off` is where it ends. */
  predicate Encoded(bs: seq<Blob>, i: nat, contents: seq<byte>, off: nat)
  {
    && i <= |bs|
    && (forall j :: 0 <= j < i ==> LegalBlob(bs[j]))
    && off == HEADER + |Records(bs[..i])| <= |contents|
    && contents == Padded(Head(|bs|) + Records(bs[..i]), |contents|)
  }

  lemma EncodedNone(bs: seq<Blob>, contents: seq<byte>)
    requires |contents| >= HEADER && contents == Padded(Head(|bs|), |contents|)
    ensures Encoded(bs, 0, contents, HEADER)
  {
    assert bs[..0] == [];
    assert Head(|bs|) + Records(bs[..0]) == Head(|bs|);
  }

  lemma EncodedNext(bs: seq<Blob>, i: nat, contents: seq<byte>, off: nat)
    requires i < |bs| && Encoded(bs, i, contents, off) && LegalBlob(bs[i]) && off + |Record(bs[i])| <= |contents|
    ensures Encoded(bs, i + 1, Splice(contents, off, Record(bs[i])), off + |Record(bs[i])|)
  {
    hide Record, Head, Zeros;
    SpliceNext(Zeros(|contents|), 0, Head(|bs|) + Records(bs[..i]), Record(bs[i]));
    RecordsNext(bs, i);
    assert Head(|bs|) + Records(bs[..i]) + Record(bs[i]) == Head(|bs|) + Records(bs[..i + 1]);
  }

  /** How the encoder ends: with the image of the blobs that went in, and why it stopped. */
  predicate EndsAt(bs: seq<Blob>, i: nat, contents: seq<byte>, r: Result<nat, EncodeError>)
  {
    && StopsAt(bs, i, |contents|)
    && contents == Padded(Head(|bs|) + Records(bs[..i]), |contents|)
    && r == if i == |bs| then Ok(HEADER + |Records(bs[..i])|) else Err(Refusal(bs, i, |contents|).value)
  }

  lemma EncodedEnds(bs: seq<Blob>, i: nat, contents: seq<byte>, off: nat)
    requires Encoded(bs, i, contents, off)
    ensures i == |bs| ==> EndsAt(bs, i, contents, Ok(off))
    ensures i < |bs| && Refusal(bs, i, |contents|).Some? ==>
      EndsAt(bs, i, contents, Err(Refusal(bs, i, |contents|).value))
  {
  }

  /**
   * `encode`: success means the whole image is there. A refusal before the first write leaves the
   * buffer alone; a later one leaves the image of the blobs that went in, under the full count.
   */
  method Encode(bs: seq<Blob>, out: array<byte>) returns (r: Result<nat, EncodeError>)
    modifies out
    ensures out.Length < HEADER || |bs| > MAX_BLOBS ==> r == Err(TooLarge) && out[..] == old(out[..])
    ensures out.Length >= HEADER && |bs| <= MAX_BLOBS ==> exists i :: EndsAt(bs, i, out[..], r)
    ensures r.Ok? <==> LegalList(bs) && Fits(bs, out.Length)
    ensures r.Ok? ==> out[..] == Image(bs, out.Length)
  {
    if LegalList(bs) && Fits(bs, out.Length) { NothingRefused(bs, out.Length); }
    if out.Length < HEADER || |bs| > MAX_BLOBS {
      return Err(TooLarge);
    }
    Clear(out, |bs|);
    EncodedNone(bs, out[..]);
    ghost var n;
    r, n := EncodeBlobs(bs, out);
    assert EndsAt(bs, n, out[..], r);
    assert bs[..|bs|] == bs;
  }

  /** The record loop, up to the first blob that does not go in. */
  method EncodeBlobs(bs: seq<Blob>, out: array<byte>) returns (r: Result<nat, EncodeError>, ghost n: nat)
    requires Encoded(bs, 0, out[..], HEADER)
    modifies out
    ensures n <= |bs| && EndsAt(bs, n, out[..], r)
  {
    hide Encoded, EndsAt;
    var off: nat, i: nat := HEADER, 0;
    while i < |bs|
      invariant i <= |bs| && Encoded(bs, i, out[..], off)
    {
      EncodedEnds(bs, i, out[..], off);
      EncodedKnown(bs, i, out[..], off);
      var b := bs[i];
      if !LegalKey(b.key) {
        return Err(EncodeError.BadKey), i;
      }
      if |b.payload| > MAX_PAYLOAD || off + (|b.key| + 1 + 2 + |b.payload|) > out.Length {
        return Err(TooLarge), i;
      }
      EncodedNext(bs, i, out[..], off);
      WriteRecord(b, out, off);
      off := off + |b.key| + 1 + 2 + |b.payload|;
      i := i + 1;
    }
    EncodedEnds(bs, i, out[..], off);
    r, n := Ok(off), i;
  }

  lemma EncodedKnown(bs: seq<Blob>, i: nat, contents: seq<byte>, off: nat)
    requires Encoded(bs, i, contents, off)
    ensures (forall j :: 0 <= j < i ==> LegalBlob(bs[j])) && off == HEADER + |Records(bs[..i])| <= |contents|
  {
  }

  // ---- Decode ----

  /** One record at `off`, and the offset after it. */
  function DecodeRecord(buf: seq<byte>, off: nat): Result<(Blob, nat), DecodeError>
  {
    if off >= |buf| then Err(Truncated) else
    var klen := buf[off] as nat;
    if klen == 0 || klen > MAX_KEY_LEN then Err(BadKeyLen) else
    var p := off + 1 + klen;
    if p + 2 > |buf| then Err(Truncated) else
    var plen := FromLe(buf[p..p + 2]);
    if plen > MAX_PAYLOAD || p + 2 + plen > |buf| then Err(Truncated) else
    Ok((Blob(buf[off + 1..p], buf[p + 2..p + 2 + plen]), p + 2 + plen))
  }

  /** `n` records from `off` on. */
  function DecodeFrom(buf: seq<byte>, off: nat, n: nat): Result<seq<Blob>, DecodeError>
    decreases n
  {
    if n == 0 then Ok([]) else
    match DecodeRecord(buf, off)
    case Err(e) => Err(e)
    case Ok((b, next)) => After([b], DecodeFrom(buf, next, n - 1))
  }

  function Decode(buf: seq<byte>): Result<seq<Blob>, DecodeError>
  {
    if |buf| < HEADER then Err(TooShort)
    else if FromLe(buf[0..4]) != DURB then Err(BadMagic)
    else if FromLe(buf[4..8]) != DURB_VERSION then Err(BadVersion)
    else if FromLe(buf[8..12]) > MAX_BLOBS then Err(BadCount)
    else DecodeFrom(buf, HEADER, FromLe(buf[8..12]))
  }

  /** A decoded list continued by the rest of the decoding. */
  function After(done: seq<Blob>, rest: Result<seq<Blob>, DecodeError>): Result<seq<Blob>, DecodeError>
  {
    if rest.Ok? then Ok(done + rest.value) else rest
  }

  lemma AfterNone(rest: Result<seq<Blob>, DecodeError>)
    ensures After([], rest) == rest
  {
    if rest.Ok? { assert [] + rest.value == rest.value; }
  }

  lemma AfterNext(done: seq<Blob>, b: Blob, rest: Result<seq<Blob>, DecodeError>)
    ensures After(done, After([b], rest)) == After(done + [b], rest)
  {
    if rest.Ok? { assert done + ([b] + rest.value) == (done + [b]) + rest.value; }
  }

  /** `decode`: the loop over the count, stopping at the first bad record. */
  method DecodeBlobs(buf: seq<byte>) returns (r: Result<seq<Blob>, DecodeError>)
    ensures r == Decode(buf)
  {
    if |buf| < HEADER { return Err(TooShort); }
    if FromLe(buf[0..4]) != DURB { return Err(BadMagic); }
    if FromLe(buf[4..8]) != DURB_VERSION { return Err(BadVersion); }
    var count := FromLe(buf[8..12]);
    if count > MAX_BLOBS { return Err(BadCount); }
    r := DecodeRecords(buf, count);
  }

  method DecodeRecords(buf: seq<byte>, count: nat) returns (r: Result<seq<Blob>, DecodeError>)
    ensures r == DecodeFrom(buf, HEADER, count)
  {
    hide DecodeRecord;
    var off, i, blobs := HEADER, 0, [];
    AfterNone(DecodeFrom(buf, off, count));
    while i < count
      invariant 0 <= i <= count
      invariant DecodeFrom(buf, HEADER, count) == After(blobs, DecodeFrom(buf, off, count - i))
    {
      var rec := DecodeRecord(buf, off);
      if rec.Err? {
        return Err(rec.error);
      }
      AfterNext(blobs, rec.value.0, DecodeFrom(buf, rec.value.1, count - i - 1));
      blobs := blobs + [rec.value.0];
      off := rec.value.1;
      i := i + 1;
    }
    assert blobs + [] == blobs;
    r := Ok(blobs);
  }

  /** Whatever decodes is a legal list. */
  lemma {:induction false} DecodeFromLegal(buf: seq<byte>, off: nat, n: nat)
    requires DecodeFrom(buf, off, n).Ok?
    ensures |DecodeFrom(buf, off, n).value| == n
    ensures forall i :: 0 <= i < n ==> LegalBlob(DecodeFrom(buf, off, n).value[i])
    decreases n
  {
    if n > 0 {
      DecodeFromLegal(buf, DecodeRecord(buf, off).value.1, n - 1);
    }
  }

  lemma DecodeLegal(buf: seq<byte>)
    requires Decode(buf).Ok?
    ensures LegalList(Decode(buf).value)
  {
    DecodeFromLegal(buf, HEADER, FromLe(buf[8..12]));
  }

  lemma DecodeRecordOf(buf: seq<byte>, off: nat, b: Blob)
    requires LegalBlob(b) && off + |Record(b)| <= |buf| && buf[off..off + |Record(b)|] == Record(b)
    ensures DecodeRecord(buf, off) == Ok((b, off + |Record(b)|))
  {
    hide ToLe, FromLe, Pow256;
    var rec := buf[off..off + |Record(b)|];
    var k := 1 + |b.key|;
    var n := |rec|;
    RecordParts(b);
    assert buf[off] == rec[0];
    SubSlice(buf, off, n, 1, k);
    SubSlice(buf, off, n, k, k + 2);
    SubSlice(buf, off, n, k + 2, n);
    Widths();
    LeRoundTrip(|b.payload|, 2);
  }

  lemma RecordParts(b: Blob)
    requires LegalBlob(b)
    ensures var rec, k := Record(b), 1 + |b.key|;
            && rec[0] as nat == |b.key| && rec[1..k] == b.key
            && rec[k..k + 2] == ToLe(|b.payload|, 2) && rec[k + 2..|rec|] == b.payload
  {
    hide ToLe;
    var rec, k := Record(b), 1 + |b.key|;
    var width := ToLe(|b.payload|, 2);
    assert rec == [|b.key| as byte] + b.key + (width + b.payload);
    assert rec[k..] == width + b.payload;
    assert rec[k..k + 2] == rec[k..][..2] && rec[k + 2..] == rec[k..][2..];
  }

  lemma {:induction false} RecordsCons(bs: seq<Blob>)
    requires bs != [] && forall i :: 0 <= i < |bs| ==> LegalBlob(bs[i])
    ensures Records(bs) == Record(bs[0]) + Records(bs[1..])
    decreases |bs|
  {
    hide Record;
    var k := |bs| - 1;
    var init, last, tail := bs[..k], bs[k], bs[1..];
    if k == 0 {
      assert init == [] && tail == [];
    } else {
      RecordsCons(init);
      assert tail[..k - 1] == init[1..] && tail[k - 1] == last;
      var first, middle := Record(bs[0]), Records(init[1..]);
      assert Records(tail) == middle + Record(last);
      assert first + middle + Record(last) == first + (middle + Record(last));
    }
  }

  lemma {:induction false} DecodeFromOf(buf: seq<byte>, off: nat, bs: seq<Blob>)
    requires forall i :: 0 <= i < |bs| ==> LegalBlob(bs[i])
    requires off + |Records(bs)| <= |buf| && buf[off..off + |Records(bs)|] == Records(bs)
    ensures DecodeFrom(buf, off, |bs|) == Ok(bs)
    decreases |bs|
  {
    hide Record, DecodeRecord, Records, LegalBlob;
    if bs != [] {
      RecordsCons(bs);
      var first, rest := Record(bs[0]), Records(bs[1..]);
      var n := |first| + |rest|;
      SubSlice(buf, off, n, 0, |first|);
      SubSlice(buf, off, n, |first|, n);
      assert (first + rest)[0..|first|] == first && (first + rest)[|first|..n] == rest;
      DecodeRecordOf(buf, off, bs[0]);
      DecodeFromOf(buf, off + |first|, bs[1..]);
      assert bs == [bs[0]] + bs[1..];
    }
  }

  /** Decode of encode, for every legal list. */
  lemma RoundTrip(bs: seq<Blob>, n: nat)
    requires LegalList(bs) && Fits(bs, n)
    ensures Decode(Image(bs, n)) == Ok(bs)
  {
    var buf := Image(bs, n);
    assert buf[0..4] == ToLe(DURB, 4);
    assert buf[4..8] == ToLe(DURB_VERSION, 4);
    assert buf[8..12] == ToLe(|bs|, 4);
    Widths();
    LeRoundTrip(DURB, 4);
    LeRoundTrip(DURB_VERSION, 4);
    LeRoundTrip(|bs|, 4);
    SpliceReads(Zeros(n), 0, Head(|bs|) + Records(bs));
    assert buf[HEADER..HEADER + |Records(bs)|] == Records(bs);
    DecodeFromOf(buf, HEADER, bs);
  }

  // ---- The format byte by byte ----

  /** A key length no record may have stands at `off`. */
  predicate BadLengthAt(buf: seq<byte>, off: nat)
  {
    off < |buf| && (buf[off] == 0 || buf[off] > 16)
  }

  /** Where the record at `off` ends: length, key, two bytes of payload length, payload. */
  function RecordEnd(buf: seq<byte>, off: nat): Option<nat>
  {
    if off >= |buf| || buf[off] == 0 || buf[off] > 16 then None else
    var p := off + 1 + buf[off] as nat;
    if p + 2 > |buf| then None else
    var len := buf[p] as nat + 0x100 * buf[p + 1] as nat;
    if len > 64 || p + 2 + len > |buf| then None else Some(p + 2 + len)
  }

  /** Where the `k`th record from `off` on begins. */
  function RecordAt(buf: seq<byte>, off: nat, k: nat): Option<nat>
    decreases k
  {
    if k == 0 then Some(off)
    else match RecordEnd(buf, off)
         case None => None
         case Some(end) => RecordAt(buf, end, k - 1)
  }

  lemma RecordOnBytes(buf: seq<byte>, off: nat)
    ensures var r, end := DecodeRecord(buf, off), RecordEnd(buf, off);
            && (r.Ok? <==> end.Some?) && (r == Err(BadKeyLen) <==> BadLengthAt(buf, off))
            && (r.Err? ==> r.error in {BadKeyLen, Truncated})
            && (r.Ok? ==> r.value.1 == end.value)
  {
    hide FromLe;
    if off < |buf| && 0 < buf[off] <= 16 && off + 3 + buf[off] as nat <= |buf| {
      FourBytes(buf[off + 1 + buf[off] as nat..off + 3 + buf[off] as nat]);
    }
  }

  lemma {:induction false} DecodeFromOnBytes(buf: seq<byte>, off: nat, n: nat)
    ensures var r := DecodeFrom(buf, off, n);
            && (r.Ok? <==> RecordAt(buf, off, n).Some?)
            && (r == Err(BadKeyLen) <==> exists k: nat :: k < n && BadRecord(buf, off, k))
            && (r.Err? ==> r.error in {BadKeyLen, Truncated})
    decreases n
  {
    hide DecodeRecord, RecordEnd, BadLengthAt;
    if n > 0 {
      RecordOnBytes(buf, off);
      var end := RecordEnd(buf, off);
      BadFirst(buf, off);
      if end.Some? {
        DecodeFromOnBytes(buf, end.value, n - 1);
        BadLater(buf, off, n);
      } else if exists k: nat :: k < n && BadRecord(buf, off, k) {
        var k: nat :| k < n && BadRecord(buf, off, k);
        assert k == 0;
      }
    }
  }

  /** The `k`th record is reached, and begins with a bad length. */
  predicate BadRecord(buf: seq<byte>, off: nat, k: nat)
  {
    RecordAt(buf, off, k).Some? && BadLengthAt(buf, RecordAt(buf, off, k).value)
  }

  lemma BadFirst(buf: seq<byte>, off: nat)
    ensures BadRecord(buf, off, 0) <==> BadLengthAt(buf, off)
    ensures BadLengthAt(buf, off) ==> RecordEnd(buf, off).None?
  {
  }

  lemma BadLater(buf: seq<byte>, off: nat, n: nat)
    requires n > 0 && RecordEnd(buf, off).Some?
    ensures (exists k: nat :: k < n && BadRecord(buf, off, k)) <==>
            (exists k: nat :: k < n - 1 && BadRecord(buf, RecordEnd(buf, off).value, k))
  {
    hide BadLengthAt, RecordEnd;
    var end := RecordEnd(buf, off).value;
    BadFirst(buf, off);
    if exists k: nat :: k < n && BadRecord(buf, off, k) {
      var k: nat :| k < n && BadRecord(buf, off, k);
      assert k > 0 && BadRecord(buf, end, k - 1);
    }
    if exists k: nat :: k < n - 1 && BadRecord(buf, end, k) {
      var k: nat :| k < n - 1 && BadRecord(buf, end, k);
      assert BadRecord(buf, off, k + 1);
    }
  }

  /** The `k`th blob is the key and the payload that stand in the `k`th record. */
  lemma {:induction false} DecodedRecord(buf: seq<byte>, off: nat, n: nat, k: nat)
    requires DecodeFrom(buf, off, n).Ok? && k < n
    ensures |DecodeFrom(buf, off, n).value| == n && RecordAt(buf, off, k).Some?
    ensures var at := RecordAt(buf, off, k).value;
            && RecordEnd(buf, at).Some?
            && var p := at + 1 + buf[at] as nat;
               DecodeFrom(buf, off, n).value[k] == Blob(buf[at + 1..p], buf[p + 2..RecordEnd(buf, at).value])
    decreases n
  {
    hide DecodeRecord, RecordEnd;
    RecordOnBytes(buf, off);
    RecordContent(buf, off);
    DecodeFromLegal(buf, off, n);
    if k > 0 {
      DecodedRecord(buf, RecordEnd(buf, off).value, n - 1, k - 1);
    }
  }

  lemma RecordContent(buf: seq<byte>, off: nat)
    requires DecodeRecord(buf, off).Ok?
    ensures RecordEnd(buf, off).Some?
    ensures var p := off + 1 + buf[off] as nat;
            DecodeRecord(buf, off).value.0 == Blob(buf[off + 1..p], buf[p + 2..RecordEnd(buf, off).value])
  {
    RecordOnBytes(buf, off);
  }

  /** The sixteen bytes a region must begin with: `DURB`, version one, at most four records. */
  predicate GoodHead(buf: seq<byte>)
  {
    && |buf| >= 16 && buf[..4] == [0x44, 0x55, 0x52, 0x42] && buf[4..8] == [1, 0, 0, 0]
    && buf[8] <= 4 && buf[9..12] == [0, 0, 0]
  }

  /** An image byte by byte: the head, then the records, then zeros to the end. */
  lemma ImageOnBytes(bs: seq<Blob>, n: nat, i: nat)
    requires LegalList(bs) && Fits(bs, n)
    ensures n >= 16 && GoodHead(Image(bs, n)) && Image(bs, n)[8] as nat == |bs| && Image(bs, n)[12..16] == [0, 0, 0, 0]
    ensures 16 + |Records(bs)| <= i < n ==> Image(bs, n)[i] == 0
  {
    hide ToLe, FromLe, Records, DecodeFrom;
    var buf := Image(bs, n);
    RoundTrip(bs, n);
    DecodeOnBytes(buf);
    hide Decode;
    HeadCount(bs, n);
  }

  lemma HeadCount(bs: seq<Blob>, n: nat)
    requires LegalList(bs) && Fits(bs, n)
    ensures Image(bs, n)[8] as nat == |bs| && Image(bs, n)[12..16] == [0, 0, 0, 0]
  {
    hide ToLe, FromLe, Records;
    var buf := Image(bs, n);
    assert buf[8..12] == ToLe(|bs|, 4) && buf[12..16] == ToLe(0, 4);
    Widths();
    LeRoundTrip(|bs|, 4);
    LeRoundTrip(0, 4);
    FourBytes(buf[8..12]);
    FourBytes(buf[12..16]);
  }

  /** What every buffer decodes to or fails with, by its bytes and by the first rule broken. */
  lemma DecodeOnBytes(buf: seq<byte>)
    ensures var r := Decode(buf);
            && (r == Err(TooShort) <==> |buf| < 16)
            && (r == Err(BadMagic) <==> |buf| >= 16 && buf[..4] != [0x44, 0x55, 0x52, 0x42])
            && (r == Err(BadVersion) <==>
                  |buf| >= 16 && buf[..4] == [0x44, 0x55, 0x52, 0x42] && buf[4..8] != [1, 0, 0, 0])
            && (r == Err(BadCount) <==>
                  && |buf| >= 16 && buf[..4] == [0x44, 0x55, 0x52, 0x42] && buf[4..8] == [1, 0, 0, 0]
                  && !(buf[8] <= 4 && buf[9..12] == [0, 0, 0]))
            && (r == Err(BadKeyLen) <==> GoodHead(buf) && exists k: nat :: k < buf[8] as nat && BadRecord(buf, 16, k))
            && (r.Ok? <==> GoodHead(buf) && RecordAt(buf, 16, buf[8] as nat).Some?)
  {
    hide FromLe, DecodeFrom, RecordAt, BadRecord;
    if |buf| >= 16 {
      var m, v, c := buf[0..4], buf[4..8], buf[8..12];
      FourBytes(m);
      FourBytes(v);
      FourBytes(c);
      assert m == buf[..4] && buf[9..12] == c[1..];
      assert FromLe(m) == DURB <==> m == [0x44, 0x55, 0x52, 0x42];
      assert FromLe(v) == DURB_VERSION <==> v == [1, 0, 0, 0];
      assert FromLe(c) <= 4 <==> c[0] <= 4 && c[1] == 0 && c[2] == 0 && c[3] == 0;
      assert c[1..] == [0, 0, 0] <==> c[1] == 0 && c[2] == 0 && c[3] == 0;
      DecodeFromOnBytes(buf, 16, FromLe(c));
    }
  }
}

/** The durable region as a keyed store: put and get over its bytes refine a bounded map. */
module DurableStore {
  import opened Bytes
  import opened Wrappers
  import opened DurableMedia
  import opened DurableFormat

  // ---- The list the region holds, and the map it stands for ----

  /** An undecodable region counts as empty. */
  function BlobsOf(region: seq<byte>): seq<Blob>
  {
    var d := Decode(region);
    if d.Ok? then d.value else []
  }

  /** The first blob filed under `key`, or the length of the list. */
  function Find(bs: seq<Blob>, key: seq<byte>): (i: nat)
    ensures i <= |bs| && (i < |bs| ==> bs[i].key == key)
    ensures forall j :: 0 <= j < i ==> bs[j].key != key
  {
    if bs == [] || bs[0].key == key then 0 else 1 + Find(bs[1..], key)
  }

  /** First entry wins. */
  function AsMap(bs: seq<Blob>): map<seq<byte>, seq<byte>>
  {
    if bs == [] then map[] else AsMap(bs[1..])[bs[0].key := bs[0].payload]
  }

  function Content(region: seq<byte>): map<seq<byte>, seq<byte>>
  {
    AsMap(BlobsOf(region))
  }

  predicate Distinct(bs: seq<Blob>)
  {
    forall i, j :: 0 <= i < j < |bs| ==> bs[i].key != bs[j].key
  }

  /** What `put` makes of the list, refusals in the code's order. */
  function PutList(bs: seq<Blob>, key: seq<byte>, payload: seq<byte>): Result<seq<Blob>, EncodeError>
  {
    var i := Find(bs, key);
    if i < |bs| then
      if |payload| > MAX_PAYLOAD then Err(TooLarge) else Ok(bs[i := Blob(key, payload)])
    else if |bs| >= MAX_BLOBS then Err(TooLarge)
    else if !LegalKey(key) then Err(EncodeError.BadKey)
    else if |payload| > MAX_PAYLOAD then Err(TooLarge)
    else Ok(bs + [Blob(key, payload)])
  }

  function PutError(region: seq<byte>, key: seq<byte>, payload: seq<byte>): Option<EncodeError>
  {
    var r := PutList(BlobsOf(region), key, payload);
    if r.Ok? then None else Some(r.error)
  }

  /** The region after `put`; a refusal leaves every byte alone. */
  function PutRegion(region: Region, key: seq<byte>, payload: seq<byte>): Region
  {
    var r := PutList(BlobsOf(region), key, payload);
    if r.Ok? then
      PutListLegal(region, key, payload);
      RegionFits(r.value);
      Image(r.value, REGION_SIZE)
    else region
  }

  function GetResult(region: seq<byte>, key: seq<byte>, room: nat): Result<seq<byte>, DecodeError>
  {
    match Decode(region)
    case Err(e) => Err(e)
    case Ok(bs) =>
      var i := Find(bs, key);
      if i == |bs| then Err(BadKeyLen)
      else if room < |bs[i].payload| then Err(Truncated)
      else Ok(bs[i].payload)
  }

  lemma BlobsLegal(region: seq<byte>)
    ensures LegalList(BlobsOf(region))
  {
    if Decode(region).Ok? { DecodeLegal(region); }
  }

  lemma PutListLegal(region: seq<byte>, key: seq<byte>, payload: seq<byte>)
    requires PutList(BlobsOf(region), key, payload).Ok?
    ensures LegalList(PutList(BlobsOf(region), key, payload).value)
  {
    BlobsLegal(region);
  }

  // ---- The code, in place ----

  class Store {
    const region: array<byte>

    constructor (bytes: Region)
      ensures fresh(region) && region.Length == REGION_SIZE && region[..] == bytes
    {
      region := new byte[REGION_SIZE](i requires 0 <= i < REGION_SIZE => bytes[i]);
    }

    /** `put`: decode, replace or append, encode back; the final encode never fails. */
    method Put(key: seq<byte>, payload: seq<byte>) returns (r: Result<(), EncodeError>)
      requires region.Length == REGION_SIZE
      modifies region
      ensures region[..] == PutRegion(old(region[..]), key, payload)
      ensures r == match PutError(old(region[..]), key, payload)
                   case None => Ok(())
                   case Some(e) => Err(e)
    {
      var decoded := DecodeBlobs(region[..]);
      var blobs := if decoded.Ok? then decoded.value else [];
      var i := FindKey(blobs, key);
      if i < |blobs| {
        if |payload| > MAX_PAYLOAD {
          return Err(TooLarge);
        }
        blobs := blobs[i := Blob(key, payload)];
      } else {
        if |blobs| >= MAX_BLOBS {
          return Err(TooLarge);
        }
        if !LegalKey(key) {
          return Err(EncodeError.BadKey);
        }
        if |payload| > MAX_PAYLOAD {
          return Err(TooLarge);
        }
        blobs := blobs + [Blob(key, payload)];
      }
      PutListLegal(region[..], key, payload);
      RegionFits(blobs);
      var e := Encode(blobs, region);
      assert e.Ok? by { EncodeNeverFails(blobs); }
      r := Ok(());
    }

    /** `get`: the payload filed under `key`, if it fits `room` bytes. */
    method Get(key: seq<byte>, room: nat) returns (r: Result<seq<byte>, DecodeError>)
      requires region.Length == REGION_SIZE
      ensures r == GetResult(region[..], key, room)
    {
      var decoded := DecodeBlobs(region[..]);
      if decoded.Err? {
        return Err(decoded.error);
      }
      var blobs := decoded.value;
      var i := FindKey(blobs, key);
      if i == |blobs| {
        return Err(BadKeyLen);
      }
      if room < |blobs[i].payload| {
        return Err(Truncated);
      }
      r := Ok(blobs[i].payload);
    }

    method Snapshot() returns (bytes: Region)
      requires region.Length == REGION_SIZE
      ensures bytes == region[..]
    {
      bytes := region[..];
    }

    method Restore(bytes: Region)
      requires region.Length == REGION_SIZE
      modifies region
      ensures region[..] == bytes
    {
      CopyInto(region, 0, bytes);
    }
  }

  method FindKey(bs: seq<Blob>, key: seq<byte>) returns (i: nat)
    ensures i == Find(bs, key)
  {
    i := 0;
    while i < |bs| && bs[i].key != key
      invariant 0 <= i <= |bs|
      invariant forall j :: 0 <= j < i ==> bs[j].key != key
    {
      i := i + 1;
    }
  }

  /** With the checks of `put` behind it, no blob can stop the encoder. */
  lemma EncodeNeverFails(bs: seq<Blob>)
    requires LegalList(bs)
    ensures forall i :: 0 <= i <= |bs| && StopsAt(bs, i, REGION_SIZE) ==> i == |bs|
  {
    forall i | 0 <= i < |bs|
      ensures !StopsAt(bs, i, REGION_SIZE)
    {
      RecordsNext(bs, i);
      RegionFits(bs[..i + 1]);
    }
  }

  // ---- Refinement to a bounded map ----

  lemma {:induction false} FindIsLookup(bs: seq<Blob>, key: seq<byte>)
    ensures Find(bs, key) < |bs| <==> key in AsMap(bs)
    ensures Find(bs, key) < |bs| ==> AsMap(bs)[key] == bs[Find(bs, key)].payload
    decreases |bs|
  {
    if bs != [] { FindIsLookup(bs[1..], key); }
  }

  lemma {:induction false} UpdateIsMapUpdate(bs: seq<Blob>, key: seq<byte>, payload: seq<byte>)
    requires Find(bs, key) < |bs|
    ensures AsMap(bs[Find(bs, key) := Blob(key, payload)]) == AsMap(bs)[key := payload]
    decreases |bs|
  {
    var i := Find(bs, key);
    var after := bs[i := Blob(key, payload)];
    if bs[0].key == key {
      assert after[1..] == bs[1..];
    } else {
      assert after[1..] == bs[1..][i - 1 := Blob(key, payload)];
      UpdateIsMapUpdate(bs[1..], key, payload);
    }
  }

  lemma {:induction false} AppendIsMapUpdate(bs: seq<Blob>, b: Blob)
    requires Find(bs, b.key) == |bs|
    ensures AsMap(bs + [b]) == AsMap(bs)[b.key := b.payload]
    decreases |bs|
  {
    if bs == [] {
      assert [] + [b] == [b] && [b][1..] == [];
    } else {
      assert (bs + [b])[1..] == bs[1..] + [b];
      AppendIsMapUpdate(bs[1..], b);
    }
  }

  lemma {:induction false} DistinctSize(bs: seq<Blob>)
    requires Distinct(bs)
    ensures |AsMap(bs)| == |bs|
    ensures forall k :: k in AsMap(bs) ==> exists i :: 0 <= i < |bs| && bs[i].key == k
    decreases |bs|
  {
    if bs != [] {
      DistinctSize(bs[1..]);
      FindIsLookup(bs[1..], bs[0].key);
      forall k | k in AsMap(bs)
        ensures exists i :: 0 <= i < |bs| && bs[i].key == k
      {
        FindIsLookup(bs, k);
        assert bs[Find(bs, k)].key == k;
      }
    }
  }

  /** A put is accepted exactly when the payload fits and its key is present or there is room for it. */
  predicate Accepts(bs: seq<Blob>, key: seq<byte>, payload: seq<byte>)
  {
    |payload| <= 64 && (key in AsMap(bs) || (|bs| < 4 && 1 <= |key| <= 16))
  }

  /** Each refusal of a put: a full list comes before a bad key, and a bad key before a long payload. */
  lemma PutErrorsExact(region: seq<byte>, key: seq<byte>, payload: seq<byte>)
    ensures var e, held, n := PutError(region, key, payload), key in Content(region), |BlobsOf(region)|;
            && (e == Some(TooLarge) <==>
                  if held then |payload| > 64 else n >= 4 || (1 <= |key| <= 16 && |payload| > 64))
            && (e == Some(EncodeError.BadKey) <==> !held && n < 4 && !(1 <= |key| <= 16))
  {
    FindIsLookup(BlobsOf(region), key);
  }

  /** Each answer of a get. */
  lemma GetExact(region: seq<byte>, key: seq<byte>, room: nat)
    ensures var r, d, c := GetResult(region, key, room), Decode(region), Content(region);
            && (d.Err? ==> r == Err(d.error))
            && (d.Ok? && key !in c ==> r == Err(BadKeyLen))
            && (d.Ok? && key in c ==> r == if |c[key]| > room then Err(Truncated) else Ok(c[key]))
  {
    FindIsLookup(BlobsOf(region), key);
  }

  /** Of two records under one key the first counts. */
  lemma FirstWins(bs: seq<Blob>, i: nat)
    requires i < |bs| && forall j :: 0 <= j < i ==> bs[j].key != bs[i].key
    ensures bs[i].key in AsMap(bs) && AsMap(bs)[bs[i].key] == bs[i].payload
  {
    hide Find, AsMap;
    FindIsLookup(bs, bs[i].key);
    assert Find(bs, bs[i].key) == i;
  }

  lemma PutListRefines(bs: seq<Blob>, key: seq<byte>, payload: seq<byte>)
    ensures PutList(bs, key, payload).Ok? <==> Accepts(bs, key, payload)
    ensures PutList(bs, key, payload).Ok? ==>
      AsMap(PutList(bs, key, payload).value) == AsMap(bs)[key := payload]
    ensures PutList(bs, key, payload).Ok? && Distinct(bs) ==> Distinct(PutList(bs, key, payload).value)
  {
    FindIsLookup(bs, key);
    if PutList(bs, key, payload).Ok? {
      if Find(bs, key) < |bs| {
        UpdateIsMapUpdate(bs, key, payload);
      } else {
        AppendIsMapUpdate(bs, Blob(key, payload));
      }
    }
  }

  /** On every region, an accepted put changes its key and nothing else; a refused one, nothing. */
  lemma PutRefines(region: Region, key: seq<byte>, payload: seq<byte>)
    ensures PutError(region, key, payload).None? <==> Accepts(BlobsOf(region), key, payload)
    ensures PutError(region, key, payload).None? ==>
      && Decode(PutRegion(region, key, payload)).Ok?
      && BlobsOf(PutRegion(region, key, payload)) == PutList(BlobsOf(region), key, payload).value
      && Content(PutRegion(region, key, payload)) == Content(region)[key := payload]
    ensures PutError(region, key, payload).Some? ==> PutRegion(region, key, payload) == region
    ensures Distinct(BlobsOf(region)) ==> Distinct(BlobsOf(PutRegion(region, key, payload)))
  {
    PutListRefines(BlobsOf(region), key, payload);
    var r := PutList(BlobsOf(region), key, payload);
    if r.Ok? {
      PutListLegal(region, key, payload);
      RegionFits(r.value);
      RoundTrip(r.value, REGION_SIZE);
    }
  }

  /** On a decodable region, get with room for any payload is a map lookup. */
  lemma GetRefines(region: seq<byte>, key: seq<byte>)
    requires Decode(region).Ok?
    ensures GetResult(region, key, MAX_PAYLOAD) ==
            if key in Content(region) then Ok(Content(region)[key]) else Err(BadKeyLen)
  {
    FindIsLookup(BlobsOf(region), key);
    DecodeLegal(region);
  }

  /** Put then get, for every region, every accepted pair and every key. */
  lemma PutThenGet(region: Region, key: seq<byte>, payload: seq<byte>, other: seq<byte>)
    requires PutError(region, key, payload).None?
    ensures GetResult(PutRegion(region, key, payload), key, MAX_PAYLOAD) == Ok(payload)
    ensures other != key && Decode(region).Ok? ==>
      GetResult(PutRegion(region, key, payload), other, MAX_PAYLOAD) == GetResult(region, other, MAX_PAYLOAD)
  {
    PutRefines(region, key, payload);
    GetRefines(PutRegion(region, key, payload), key);
    if Decode(region).Ok? {
      GetRefines(region, other);
      GetRefines(PutRegion(region, key, payload), other);
    }
  }

  // ---- Runs of puts ----

  datatype PutOp = PutOp(key: seq<byte>, payload: seq<byte>)

  function RunRegion(region: Region, ops: seq<PutOp>): Region
  {
    if ops == [] then region
    else var o := ops[|ops| - 1]; PutRegion(RunRegion(region, ops[..|ops| - 1]), o.key, o.payload)
  }

  /** The bounded map the store stands for: at most four keys, refusals change nothing. */
  function BoundedPut(m: map<seq<byte>, seq<byte>>, o: PutOp): map<seq<byte>, seq<byte>>
  {
    if |o.payload| <= MAX_PAYLOAD && (o.key in m || (|m| < MAX_BLOBS && LegalKey(o.key)))
    then m[o.key := o.payload] else m
  }

  function BoundedRun(m: map<seq<byte>, seq<byte>>, ops: seq<PutOp>): map<seq<byte>, seq<byte>>
  {
    if ops == [] then m else BoundedPut(BoundedRun(m, ops[..|ops| - 1]), ops[|ops| - 1])
  }

  /** Any run of puts refines the bounded map, from any region whose keys are distinct. */
  lemma {:induction false} RunRefines(region: Region, ops: seq<PutOp>)
    requires Distinct(BlobsOf(region))
    ensures Distinct(BlobsOf(RunRegion(region, ops)))
    ensures Content(RunRegion(region, ops)) == BoundedRun(Content(region), ops)
    ensures |Content(RunRegion(region, ops))| <= MAX_BLOBS
    decreases |ops|
  {
    if ops != [] {
      var before, o := RunRegion(region, ops[..|ops| - 1]), ops[|ops| - 1];
      RunRefines(region, ops[..|ops| - 1]);
      PutRefines(before, o.key, o.payload);
      DistinctSize(BlobsOf(before));
    }
    DistinctSize(BlobsOf(RunRegion(region, ops)));
    BlobsLegal(RunRegion(region, ops));
  }
}

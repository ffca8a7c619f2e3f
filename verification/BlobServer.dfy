/** The durable blob service: for any run of wire messages, its replies are those of a map. */
module BlobServer {
  import opened Bytes
  import opened Wrappers
  import opened DurableMedia
  import opened DurableFormat
  import opened DurableStore
  import opened BlobWire

  function PutErrorCode(e: EncodeError): nat
  {
    match e
    case TooLarge => 2
    case BadKey => 1
  }

  /** The region after one message. */
  function NextRegion(region: Region, m: Message): Region
  {
    match DecodeRequest(m)
    case Ok(Put(key, payload)) => PutRegion(region, key.AsSlice(), payload.AsSlice())
    case _ => region
  }

  /** The reply to one message. */
  function Reply(region: Region, m: Message): Message
  {
    match DecodeRequest(m)
    case Err(_) => BAD_REQUEST
    case Ok(Put(key, payload)) =>
      (match PutError(region, key.AsSlice(), payload.AsSlice())
       case None => OkReply(0)
       case Some(e) => StoreError(PutErrorCode(e)))
    case Ok(Get(key)) =>
      match GetResult(region, key.AsSlice(), MAX_PAYLOAD)
      case Ok(payload) => if |payload| <= MAX_WIRE_BYTES then OkReply(Pack(payload)) else StoreError(3)
      case Err(BadKeyLen) => MISSING
      case Err(_) => StoreError(4)
  }

  /** `handle`: decode the message, drive the store, build the reply. */
  method Handle(store: Store, m: Message) returns (reply: Message)
    requires store.region.Length == REGION_SIZE
    modifies store.region
    ensures store.region[..] == NextRegion(old(store.region[..]), m)
    ensures reply == Reply(old(store.region[..]), m)
  {
    match DecodeRequest(m) {
      case Err(_) =>
        reply := BAD_REQUEST;
      case Ok(Put(key, payload)) =>
        var r := store.Put(key.AsSlice(), payload.AsSlice());
        reply := if r.Ok? then OkReply(0) else StoreError(PutErrorCode(r.error));
      case Ok(Get(key)) =>
        var r := store.Get(key.AsSlice(), MAX_PAYLOAD);
        match r {
          case Ok(payload) =>
            if |payload| <= MAX_WIRE_BYTES {
              var packed := PackBytes(payload);
              reply := OkReply(packed);
            } else {
              reply := StoreError(3);
            }
          case Err(e) =>
            reply := if e == BadKeyLen then MISSING else StoreError(4);
        }
    }
  }

  // ---- Whole conversations ----

  function RunServer(region: Region, ms: seq<Message>): Region
  {
    if ms == [] then region else NextRegion(RunServer(region, ms[..|ms| - 1]), ms[|ms| - 1])
  }

  /** `run`, message by message: the region and every reply are those of the conversation so far. */
  method Run(store: Store, ms: seq<Message>) returns (replies: seq<Message>)
    requires store.region.Length == REGION_SIZE
    modifies store.region
    ensures store.region[..] == RunServer(old(store.region[..]), ms)
    ensures |replies| == |ms|
    ensures forall i :: 0 <= i < |ms| ==> replies[i] == Reply(RunServer(old(store.region[..]), ms[..i]), ms[i])
  {
    hide NextRegion, Reply;
    replies := [];
    var i := 0;
    while i < |ms|
      invariant 0 <= i <= |ms| && |replies| == i
      invariant store.region[..] == RunServer(old(store.region[..]), ms[..i])
      invariant forall j :: 0 <= j < i ==> replies[j] == Reply(RunServer(old(store.region[..]), ms[..j]), ms[j])
    {
      assert ms[..i + 1][..i] == ms[..i];
      var reply := Handle(store, ms[i]);
      replies := replies + [reply];
      i := i + 1;
    }
    assert ms[..i] == ms;
  }

  /** Message `m` is a put on `key`. */
  predicate PutsKey(m: Message, key: seq<byte>)
  {
    var r := DecodeRequest(m);
    r.Ok? && r.value.Put? && r.value.key.AsSlice() == key
  }

  /** The payload of the latest put on `key` that was answered OK, seen from the messages alone. */
  function LatestPut(region: Region, ms: seq<Message>, key: seq<byte>): Option<seq<byte>>
  {
    if ms == [] then None else
    var init, m := ms[..|ms| - 1], ms[|ms| - 1];
    if PutsKey(m, key) && Reply(RunServer(region, init), m).tag == TAG_OK
    then Some(DecodeRequest(m).value.payload.AsSlice())
    else LatestPut(region, init, key)
  }

  /** Some put was answered OK. */
  predicate AnyPut(region: Region, ms: seq<Message>)
  {
    if ms == [] then false else
    var init, m := ms[..|ms| - 1], ms[|ms| - 1];
    var r := DecodeRequest(m);
    AnyPut(region, init) || (r.Ok? && r.value.Put? && Reply(RunServer(region, init), m).tag == TAG_OK)
  }

  /** One message moves the stored map exactly as its reply says. */
  lemma HandleStep(region: Region, m: Message, key: seq<byte>)
    ensures var after := NextRegion(region, m);
            var done := PutsKey(m, key) && Reply(region, m).tag == TAG_OK;
            && (key in Content(after) <==> done || key in Content(region))
            && (key in Content(after) ==>
                  Content(after)[key] == if done then DecodeRequest(m).value.payload.AsSlice()
                                         else Content(region)[key])
    ensures Reply(region, m).tag != TAG_OK ==> NextRegion(region, m) == region
    ensures Decode(NextRegion(region, m)).Ok? <==>
            Decode(region).Ok? || (DecodeRequest(m).Ok? && DecodeRequest(m).value.Put? && Reply(region, m).tag == TAG_OK)
  {
    match DecodeRequest(m) {
      case Ok(Put(k, p)) => PutRefines(region, k.AsSlice(), p.AsSlice());
      case _ =>
    }
  }

  lemma {:induction false} ContentIsLatestPut(region: Region, ms: seq<Message>, key: seq<byte>)
    requires Content(region) == map[]
    ensures var c := Content(RunServer(region, ms));
            var p := LatestPut(region, ms, key);
            (key in c <==> p.Some?) && (key in c ==> c[key] == p.value)
    decreases |ms|
  {
    if ms != [] {
      ContentIsLatestPut(region, ms[..|ms| - 1], key);
      HandleStep(RunServer(region, ms[..|ms| - 1]), ms[|ms| - 1], key);
    }
  }

  lemma {:induction false} ReadableAfterPut(region: Region, ms: seq<Message>)
    ensures Decode(RunServer(region, ms)).Ok? <==> Decode(region).Ok? || AnyPut(region, ms)
    ensures !AnyPut(region, ms) ==> RunServer(region, ms) == region
    decreases |ms|
  {
    if ms != [] {
      ReadableAfterPut(region, ms[..|ms| - 1]);
      HandleStep(RunServer(region, ms[..|ms| - 1]), ms[|ms| - 1], []);
    }
  }

  lemma {:induction false} LatestPutFitsWire(region: Region, ms: seq<Message>, key: seq<byte>)
    requires LatestPut(region, ms, key).Some?
    ensures 1 <= |LatestPut(region, ms, key).value| <= MAX_WIRE_BYTES
    decreases |ms|
  {
    var init, m := ms[..|ms| - 1], ms[|ms| - 1];
    if PutsKey(m, key) && Reply(RunServer(region, init), m).tag == TAG_OK {
      UnpackSound(m.b);
    } else {
      LatestPutFitsWire(region, init, key);
    }
  }

  /** A region that was never written reads as empty: a good head, and records that all stand or end at a bad length. */
  predicate ReadsAsEmpty(region: seq<byte>)
  {
    && GoodHead(region)
    && (RecordAt(region, 16, region[8] as nat).Some? || exists k: nat :: k < region[8] as nat && BadRecord(region, 16, k))
  }

  /**
   * Every Get, after any messages at all from an empty store, unpacks to the payload of the latest
   * successful Put on its key. With no such Put it reports the key missing exactly when the region
   * decodes or fails on a key length, the two answers sharing one error; any other region that was
   * never written is a read error, not an empty store.
   */
  lemma GetAnswersLatestPut(region: Region, ms: seq<Message>, m: Message)
    requires Content(region) == map[] && DecodeRequest(m).Ok? && DecodeRequest(m).value.Get?
    ensures var reply := Reply(RunServer(region, ms), m);
            var p := LatestPut(region, ms, DecodeRequest(m).value.key.AsSlice());
            && (reply.tag == 0x1003 <==> p.Some?)
            && match p
               case Some(payload) => Unpack(reply.a).Some? && Unpack(reply.a).value.AsSlice() == payload
               case None =>
                 reply == if ReadsAsEmpty(region) || AnyPut(region, ms) then Message(0x1004, 0, 0) else Message(0x1006, 4, 0)
  {
    hide ReadsAsEmpty;
    var now := RunServer(region, ms);
    var key := DecodeRequest(m).value.key.AsSlice();
    ContentIsLatestPut(region, ms, key);
    ReadableAfterPut(region, ms);
    EmptyOnBytes(region);
    if LatestPut(region, ms, key).Some? {
      LatestPutFitsWire(region, ms, key);
      WireRoundTrip(LatestPut(region, ms, key).value);
    }
    if Decode(now).Ok? {
      GetRefines(now, key);
    }
  }

  lemma EmptyOnBytes(region: seq<byte>)
    ensures ReadsAsEmpty(region) <==> Decode(region).Ok? || Decode(region) == Err(BadKeyLen)
  {
    hide Decode, RecordAt, BadRecord;
    DecodeOnBytes(region);
  }

  /** What a client can tell from the tag alone: whether the message was one, and what became of it. */
  lemma TagsTell(region: Region, m: Message)
    ensures var reply, r := Reply(region, m), DecodeRequest(m);
            && reply.tag in {0x1003, 0x1004, 0x1005, 0x1006} && reply.b == 0
            && (reply.tag == 0x1005 <==> r.Err?)
            && (reply.tag == 0x1004 ==> r.Ok? && r.value.Get?)
  {
  }

  /** A Get on any region that decodes, whoever wrote it: missing, too long for the wire, or the payload itself. */
  lemma GetReplies(region: Region, m: Message)
    requires Decode(region).Ok? && DecodeRequest(m).Ok? && DecodeRequest(m).value.Get?
    ensures var key, c, reply := DecodeRequest(m).value.key.AsSlice(), Content(region), Reply(region, m);
            && (key !in c ==> reply == Message(0x1004, 0, 0))
            && (key in c && |c[key]| > 7 ==> reply == Message(0x1006, 3, 0))
            && (key in c && |c[key]| <= 7 ==> reply == Message(0x1003, Pack(c[key]), 0))
            && (key in c && 1 <= |c[key]| <= 7 ==> Unpack(reply.a).Some? && Unpack(reply.a).value.AsSlice() == c[key])
  {
    hide Pack;
    var key := DecodeRequest(m).value.key.AsSlice();
    GetRefines(region, key);
    if key in Content(region) && 1 <= |Content(region)[key]| <= 7 { WireRoundTrip(Content(region)[key]); }
  }

  /** The blank region is such a one: before its first Put a store of zeros answers every Get with a read error. */
  lemma BlankStoreIsUnreadable(m: Message)
    requires DecodeRequest(m).Ok? && DecodeRequest(m).value.Get?
    ensures Content(Zeros(REGION_SIZE)) == map[] && Reply(Zeros(REGION_SIZE), m) == Message(0x1006, 4, 0)
  {
    hide DecodeRequest;
    var region: Region := Zeros(REGION_SIZE);
    assert region[0..4] == Zeros(4);
    ZerosAreZero(4);
    assert Decode(region) == Err(BadMagic);
  }

  lemma {:induction false} ZerosAreZero(n: nat)
    ensures FromLe(Zeros(n)) == 0
    decreases n
  {
    if n > 0 {
      assert Zeros(n)[1..] == Zeros(n - 1);
      ZerosAreZero(n - 1);
    }
  }

  /** A Put is refused exactly when its key is new and four keys are held; the code is then 2. */
  lemma PutAnswers(region: Region, m: Message)
    requires Distinct(BlobsOf(region)) && DecodeRequest(m).Ok? && DecodeRequest(m).value.Put?
    ensures var key := DecodeRequest(m).value.key.AsSlice();
            var room := key in Content(region) || |Content(region)| < MAX_BLOBS;
            Reply(region, m) == if room then Message(0x1003, 0, 0) else Message(0x1006, 2, 0)
  {
    var Put(k, p) := DecodeRequest(m).value;
    PutRefines(region, k.AsSlice(), p.AsSlice());
    DistinctSize(BlobsOf(region));
    FindIsLookup(BlobsOf(region), k.AsSlice());
  }

  /** Neither a malformed message, nor a Get, nor a refused Put touches a byte of the store. */
  lemma OnlyGoodPutsWrite(region: Region, m: Message)
    requires Reply(region, m) != OkReply(0) || DecodeRequest(m).Err? || DecodeRequest(m).value.Get?
    ensures NextRegion(region, m) == region
  {
    HandleStep(region, m, []);
  }
}

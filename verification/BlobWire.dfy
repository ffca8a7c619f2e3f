/** The one-message blob protocol: seven bytes to a word, and the request decoder. */
module BlobWire {
  import opened Bytes
  import opened Wrappers

  const TAG_PUT: nat := 0x1001
  const TAG_GET: nat := 0x1002
  const TAG_OK: nat := 0x1003
  const TAG_MISSING: nat := 0x1004
  const TAG_BAD_REQUEST: nat := 0x1005
  const TAG_STORE_ERROR: nat := 0x1006
  const MAX_WIRE_BYTES: nat := 7

  /** A message: a tag and two 64-bit words. */
  datatype Message = Message(tag: nat, a: nat, b: nat)

  /** Seven bytes, of which the first `len` count. */
  datatype Field = Field(len: nat, bytes: seq<byte>) {
    function AsSlice(): seq<byte>
      requires len <= |bytes|
    {
      bytes[..len]
    }
  }

  /** `Field::pack`: length in the top byte, at most seven data bytes below it. */
  function Pack(s: seq<byte>): nat
  {
    FromLe(if |s| <= MAX_WIRE_BYTES then s else s[..MAX_WIRE_BYTES]) + |s| % 256 * Pow256(7)
  }

  /** `Field::unpack`: a length outside one to seven is refused. */
  function Unpack(v: nat): Option<Field>
  {
    var len := v / Pow256(7);
    if len == 0 || len > MAX_WIRE_BYTES then None
    else Some(Field(len, ToLe(v, len) + Zeros(MAX_WIRE_BYTES - len)))
  }

  /** `pack`'s loop over the bytes. */
  method PackBytes(s: seq<byte>) returns (v: nat)
    ensures v == Pack(s)
  {
    v := |s| % 256 * Pow256(7);
    var i := 0;
    while i < |s| && i < MAX_WIRE_BYTES
      invariant 0 <= i <= |s| && i <= MAX_WIRE_BYTES
      invariant v == FromLe(s[..i]) + |s| % 256 * Pow256(7)
    {
      FromLeNext(s, i);
      v := v + s[i] as nat * Pow256(i);
      i := i + 1;
    }
    if |s| <= MAX_WIRE_BYTES { assert s[..i] == s; }
  }

  /** `unpack`'s loop over the length. */
  method UnpackBytes(v: nat) returns (f: Option<Field>)
    ensures f == Unpack(v)
  {
    var len := v / Pow256(7);
    if len == 0 || len > MAX_WIRE_BYTES {
      return None;
    }
    var bytes := Zeros(MAX_WIRE_BYTES);
    var i := 0;
    while i < len
      invariant 0 <= i <= len
      invariant bytes == ToLe(v, i) + Zeros(MAX_WIRE_BYTES - i)
    {
      bytes := bytes[i := (v / Pow256(i) % 256) as byte];
      i := i + 1;
    }
    f := Some(Field(len, bytes));
  }

  lemma {:induction false} FromLeNext(s: seq<byte>, i: nat)
    requires i < |s|
    ensures FromLe(s[..i + 1]) == FromLe(s[..i]) + s[i] as nat * Pow256(i)
    decreases i
  {
    if i == 0 {
      assert s[..1][1..] == [] && s[..0] == [];
    } else {
      FromLeNext(s[1..], i - 1);
      assert s[..i + 1][1..] == s[1..][..i] && s[..i][1..] == s[1..][..i - 1];
      assert 256 * (s[i] as nat * Pow256(i - 1)) == s[i] as nat * Pow256(i);
    }
  }

  /** Bytes above the field do not disturb the field. */
  lemma {:induction false} ToLeAbove(v: nat, k: nat, m: nat, n: nat)
    requires n <= m
    ensures ToLe(v + k * Pow256(m), n) == ToLe(v, n)
    decreases n
  {
    hide ToLe, Pow256;
    if n > 0 {
      var w := k * Pow256(m - 1);
      HigherWord(k, m);
      ToLeStep(v, n);
      ToLeStep(v + 256 * w, n);
      assert (v + 256 * w) / 256 == v / 256 + w && (v + 256 * w) % 256 == v % 256;
      ToLeAbove(v / 256, k, m - 1, n - 1);
    }
  }

  lemma HigherWord(k: nat, m: nat)
    requires m > 0
    ensures k * Pow256(m) == 256 * (k * Pow256(m - 1))
  {
    var p := Pow256(m - 1);
    assert Pow256(m) == 256 * p;
    assert k * (256 * p) == 256 * (k * p);
  }

  lemma {:induction false} Pow256Monotone(m: nat, n: nat)
    requires m <= n
    ensures Pow256(m) <= Pow256(n)
    decreases n
  {
    if m < n { Pow256Monotone(m, n - 1); }
  }

  /** One to seven bytes survive the wire. */
  lemma WireRoundTrip(s: seq<byte>)
    requires 1 <= |s| <= MAX_WIRE_BYTES
    ensures Pack(s) < U64_END
    ensures Unpack(Pack(s)) == Some(Field(|s|, s + Zeros(MAX_WIRE_BYTES - |s|)))
    ensures Unpack(Pack(s)).value.AsSlice() == s
  {
    hide Zeros;
    FromLeBound(s);
    Pow256Monotone(|s|, 7);
    TopByte(FromLe(s), |s|, Pow256(7));
    ToLeAbove(FromLe(s), |s|, 7, |s|);
    LeInverse(s);
    Widths();
    assert Pow256(8) == 256 * Pow256(7);
    MulMonotone(Pow256(7), |s|, 7);
  }

  lemma TopByte(low: nat, k: nat, p: nat)
    requires low < p
    ensures (low + k * p) / p == k
  {
    QuotientUnique(low + k * p, p, k, low);
  }

  /** Nothing outside those lengths ever unpacks. */
  lemma UnpackSound(v: nat)
    requires Unpack(v).Some?
    ensures 1 <= Unpack(v).value.len <= MAX_WIRE_BYTES == |Unpack(v).value.bytes|
    ensures |Unpack(v).value.AsSlice()| == Unpack(v).value.len
  {
  }

  /** Packing again gives the word back exactly when the bytes past the length were zero. */
  lemma Repacked(v: nat)
    requires Unpack(v).Some?
    ensures Pack(Unpack(v).value.AsSlice()) == v <==> v % Pow256(7) < Pow256(Unpack(v).value.len)
  {
    hide FromLe, ToLe, Pow256;
    var len, low := v / Pow256(7), v % Pow256(7);
    assert v == low + len * Pow256(7);
    assert Unpack(v).value.AsSlice() == ToLe(v, len);
    ToLeAbove(low, len, 7, len);
    FromLeBound(ToLe(low, len));
    if low < Pow256(len) { LeRoundTrip(low, len); }
  }

  datatype Request = Put(key: Field, payload: Field) | Get(key: Field)

  datatype WireError = UnknownTag | BadKey | BadPayload

  function DecodeRequest(m: Message): Result<Request, WireError>
  {
    if m.tag == TAG_PUT then
      if Unpack(m.a).None? then Err(BadKey)
      else if Unpack(m.b).None? then Err(BadPayload)
      else Ok(Put(Unpack(m.a).value, Unpack(m.b).value))
    else if m.tag == TAG_GET then
      if Unpack(m.a).None? then Err(BadKey) else Ok(Get(Unpack(m.a).value))
    else Err(UnknownTag)
  }

  /** Exactly which messages are requests, in the wire's numbers, and what they ask. */
  lemma DecodeExact(m: Message)
    ensures var r := DecodeRequest(m);
            var key, data := 1 <= m.a / 0x100_0000_0000_0000 <= 7, 1 <= m.b / 0x100_0000_0000_0000 <= 7;
            && (r == Err(UnknownTag) <==> m.tag != 0x1001 && m.tag != 0x1002)
            && (r == Err(BadKey) <==> (m.tag == 0x1001 || m.tag == 0x1002) && !key)
            && (r == Err(BadPayload) <==> m.tag == 0x1001 && key && !data)
            && (r.Ok? && r.value.Put? <==> m.tag == 0x1001 && key && data)
            && (r.Ok? && r.value.Get? <==> m.tag == 0x1002 && key)
            && (r.Ok? ==> r.value.key.AsSlice() == ToLe(m.a, m.a / 0x100_0000_0000_0000))
            && (r.Ok? && r.value.Put? ==> r.value.payload.AsSlice() == ToLe(m.b, m.b / 0x100_0000_0000_0000))
  {
    hide ToLe, Pow256;
    SevenBytes();
  }

  lemma SevenBytes()
    ensures Pow256(7) == 0x100_0000_0000_0000
  {
    hide Pow256;
    Widths();
    PowStep(7);
  }

  lemma PowStep(n: nat)
    requires n > 0
    ensures Pow256(n + 1) == 256 * Pow256(n)
  {
  }

  const MISSING: Message := Message(TAG_MISSING, 0, 0)
  const BAD_REQUEST: Message := Message(TAG_BAD_REQUEST, 0, 0)

  function OkReply(payload: nat): Message
  {
    Message(TAG_OK, payload, 0)
  }

  function StoreError(code: nat): Message
  {
    Message(TAG_STORE_ERROR, code, 0)
  }
}

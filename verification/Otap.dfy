/** The OTAP envelope codec: length prefixes computed before the bytes exist, and the decoders that read them. */
module Otap {
  import opened Bytes
  import opened Options
  import opened Varint
  import opened Wire
  import opened Walk
  import opened Utf8
  import opened Encode

  // ----- decode_varint -----

  /**
    * What `decode_varint` yields when byte number `index` of the varint is at the front of `s`. The payload
    * limit of 1 is checked on the ninth byte, and the tenth is cut to one bit by the shift.
    */
  function DecodeFrom(s: bytes, index: nat): (r: Result<Read>)
    requires index <= 9
    ensures r.Ok? ==> 1 <= r.value.used <= |s| && index + r.value.used <= 10
    ensures r.Ok? ==> r.value.value < Room(index)
    decreases 10 - index
  {
    if |s| == 0 then Err(TruncatedVarint)
    else
      RoomFitsDigit(index);
      assert index == 9 ==> Room(index) == 2;
      if s[0] < 128 then Ok(Read(if index == 9 then s[0] % 2 else s[0], 1))
      else if index == 9 || (index == 8 && s[0] % 128 > 1) then Err(VarintOverflow)
      else
        var rest :- DecodeFrom(s[1..], index + 1);
        RoomShrinks(index);
        Ok(Read(s[0] % 128 + 128 * rest.value, rest.used + 1))
  }

  function DecodeVarint(s: bytes): (r: Result<Read>)
    ensures r.Ok? ==> 1 <= r.value.used <= |s| && r.value.used <= 10
  {
    DecodeFrom(s, 0)
  }

  /**
    * The values whose encoding `decode_varint` reads back: below 2^63, or with nothing but bit 56 set in bits 56 to
    * 62.
    */
  predicate Survives(value: u64) {
    value < 0x8000_0000_0000_0000 || value / 0x100_0000_0000_0000 % 128 <= 1
  }

  /** 128^(8 - index): the weight that the ninth byte has for a read that starts at byte `index`. */
  function Weight(index: nat): (w: nat)
    requires index <= 8
    ensures w > 0
  {
    [0x100_0000_0000_0000, 0x2_0000_0000_0000, 0x400_0000_0000, 0x8_0000_0000, 0x1000_0000, 0x20_0000, 0x4000,
     0x80, 1][index]
  }

  /** `value`, its low `index` base-128 digits already read, survives the rest of the read. */
  predicate SurvivesFrom(value: nat, index: nat)
    requires index <= 9
  {
    index == 9 || value < 128 * Weight(index) || value / Weight(index) % 128 <= 1
  }

  lemma SurvivesStep(value: nat, index: nat)
    requires index < 8
    ensures SurvivesFrom(value, index) <==> SurvivesFrom(value / 128, index + 1)
  {
  }

  lemma DecodeFromStep(s: bytes, index: nat)
    requires index <= 9 && |s| > 0
    ensures s[0] < 128 ==> DecodeFrom(s, index) == Ok(Read(if index == 9 then s[0] % 2 else s[0], 1))
    ensures s[0] >= 128 && (index == 9 || (index == 8 && s[0] % 128 > 1)) ==>
      DecodeFrom(s, index) == Err(VarintOverflow)
    ensures s[0] >= 128 && !(index == 9 || (index == 8 && s[0] % 128 > 1)) ==>
      match DecodeFrom(s[1..], index + 1)
      case Ok(r) => DecodeFrom(s, index).Ok? && DecodeFrom(s, index).value.value == s[0] % 128 + 128 * r.value
                    && DecodeFrom(s, index).value.used == r.used + 1
      case Err(e) => DecodeFrom(s, index) == Err(e)
  {
    hide Room;
  }

  lemma PushStep(value: nat, rest: bytes)
    ensures value < 128 ==> PushVarint(value) == [value]
    ensures value >= 128 ==>
      && PushVarint(value)[0] == value % 128 + 128 && |PushVarint(value)| == 1 + |PushVarint(value / 128)|
      && (PushVarint(value) + rest)[1..] == PushVarint(value / 128) + rest
  {
    if value >= 128 {
      PushedTail(value, rest);
    }
  }

  lemma PushedTail(value: nat, rest: bytes)
    requires value >= 128
    ensures PushVarint(value)[0] == value % 128 + 128 && |PushVarint(value)| == 1 + |PushVarint(value / 128)|
    ensures (PushVarint(value) + rest)[1..] == PushVarint(value / 128) + rest
  {
    hide PushVarint;
    PushUnfolds(value);
    var tail := PushVarint(value / 128);
    assert ([value % 128 + 128] + tail + rest)[1..] == tail + rest;
  }

  /** Reading back an encoded value succeeds exactly when it survives, and then returns it. */
  lemma {:induction false} DecodeFromPush(value: nat, index: nat, rest: bytes)
    requires index <= 9 && value < Room(index)
    ensures SurvivesFrom(value, index) ==>
      DecodeFrom(PushVarint(value) + rest, index).Ok?
      && DecodeFrom(PushVarint(value) + rest, index).value.value == value
      && DecodeFrom(PushVarint(value) + rest, index).value.used == |PushVarint(value)|
    ensures !SurvivesFrom(value, index) ==> DecodeFrom(PushVarint(value) + rest, index) == Err(VarintOverflow)
    decreases value
  {
    hide DecodeFrom, PushVarint, Room, SurvivesFrom;
    var s := PushVarint(value) + rest;
    PushStep(value, rest);
    DecodeFromStep(s, index);
    SurvivesEnds(value, index);
    if value < 128 {
      assert s[0] == value;
    } else {
      RoomShrinks(index);
      assert s[0] == value % 128 + 128;
      if index < 8 {
        SurvivesStep(value, index);
      }
      if index < 8 || s[0] % 128 <= 1 {
        SurvivesEnds(value / 128, index + 1);
        DecodeFromPush(value / 128, index + 1, rest);
      }
    }
  }

  /** A last digit survives; at the ninth byte a digit with more to come survives only if it is 0 or 1. */
  lemma SurvivesEnds(value: nat, index: nat)
    requires index <= 9 && value < Room(index)
    ensures value < 128 || index == 9 ==> SurvivesFrom(value, index)
    ensures index == 9 ==> value < 2
    ensures index == 8 && value >= 128 ==> (SurvivesFrom(value, index) <==> value % 128 <= 1)
  {
  }

  /** `decode_varint` undoes `encode_varint` exactly on the values that survive; every other value is refused. */
  lemma DecodeVarintExact(value: u64, rest: bytes)
    ensures Survives(value) ==> DecodeVarint(PushVarint(value) + rest) == Ok(Read(value, |PushVarint(value)|))
    ensures !Survives(value) ==> DecodeVarint(PushVarint(value) + rest) == Err(VarintOverflow)
  {
    hide DecodeFrom, PushVarint;
    RoomFitsDigit(0);
    assert Room(0) == 0x1_0000_0000_0000_0000;
    DecodeFromPush(value, 0, rest);
  }

  /** `((byte & 0x7F) as u64) << shift`, bits beyond the word lost. */
  function ShiftedInWord(byte: u8, index: nat): nat {
    Shifted(byte, index) % 0x1_0000_0000_0000_0000
  }

  lemma ShiftedFits(byte: u8, index: nat)
    requires index <= 9
    ensures index < 9 ==> ShiftedInWord(byte, index) == Shifted(byte, index)
    ensures index == 9 ==> ShiftedInWord(byte, index) == byte % 2 * Pow(128, 9)
  {
    assert Pow(128, 9) == 0x8000_0000_0000_0000;
    if index < 9 {
      PowMonotone(index, 8);
      assert Pow(128, 8) == 0x100_0000_0000_0000;
      ProductBound(byte % 128, Pow(128, index), 0x100_0000_0000_0000);
    }
  }

  lemma {:induction false} ProductBound(d: nat, p: nat, q: nat)
    requires p <= q
    ensures d * p <= d * q
    decreases d
  {
    if d > 0 {
      ProductBound(d - 1, p, q);
      assert d * p == (d - 1) * p + p;
      assert d * q == (d - 1) * q + q;
    }
  }

  lemma CollectOtapDigit(s: bytes, low: nat, index: nat)
    requires index <= 9 && |s| > 0
    ensures s[0] < 128 ==>
      Collected(DecodeFrom(s, index), low, index) == Ok((low + ShiftedInWord(s[0], index), index + 1))
    ensures s[0] >= 128 && !(index == 9 || (index == 8 && s[0] % 128 > 1)) ==>
      Collected(DecodeFrom(s, index), low, index)
      == Collected(DecodeFrom(s[1..], index + 1), low + ShiftedInWord(s[0], index), index + 1)
  {
    hide ShiftedInWord, DecodeFrom, Pow;
    ShiftedFits(s[0], index);
    DecodeFromStep(s, index);
    if s[0] >= 128 && index < 9 {
      PowStep(index);
      var rest := DecodeFrom(s[1..], index + 1);
      if rest.Ok? {
        Regroup(low, Pow(128, index), s[0] % 128, rest.value.value);
      }
    }
  }

  /** `decode_varint`: the loop with its shift counter. */
  method DecodeVarintAt(buf: bytes, pos: nat) returns (r: Result<(u64, nat)>)
    requires pos <= |buf|
    ensures r == match DecodeVarint(buf[pos..]) case Ok(read) => Ok((read.value, pos + read.used)) case Err(e) => Err(e)
  {
    hide DecodeFrom, ShiftedInWord;
    var value: nat, shift, i := 0, 0, pos;
    ghost var index := 0;
    ghost var whole := Collected(DecodeFrom(buf[pos..], 0), 0, 0);
    CollectedFromStart(DecodeFrom(buf[pos..], 0));
    while true
      invariant index <= 9 && shift == 7 * index && i == pos + index <= |buf|
      invariant Collected(DecodeFrom(buf[i..], index), value, index) == whole
      decreases 9 - index
    {
      if i >= |buf| {
        OtapFails(buf[i..], index);
        return Err(TruncatedVarint);
      }
      var byte := buf[i];
      CollectOtapDigit(buf[i..], value, index);
      OtapFails(buf[i..], index);
      assert buf[i..][1..] == buf[i + 1..];
      i := i + 1;
      value := value + ShiftedInWord(byte, shift / 7);
      if byte < 128 {
        return Ok((value, i));
      }
      shift := shift + 7;
      if shift >= 64 || (shift == 63 && byte % 128 > 1) {
        return Err(VarintOverflow);
      }
      index := index + 1;
    }
  }

  lemma OtapFails(s: bytes, index: nat)
    requires index <= 9
    ensures |s| == 0 ==> DecodeFrom(s, index) == Err(TruncatedVarint)
    ensures |s| > 0 && s[0] >= 128 && (index == 9 || (index == 8 && s[0] % 128 > 1)) ==>
      DecodeFrom(s, index) == Err(VarintOverflow)
  {
  }

  // ----- Fields -----

  /** The wire types `skip_field` and the decoders read; groups are refused. */
  function OtapPayload(t: bytes, wireType: nat): (r: Result<(Payload, nat)>)
    ensures r.Ok? ==> r.value.1 <= |t|
    ensures r.Ok? ==> !r.value.0.Group?
  {
    match wireType
    case 0 =>
      var v :- DecodeVarint(t);
      Ok((Varint(v.value), v.used))
    case 1 =>
      if |t| < 8 then Err(TruncatedFixed64)
      else
        assert Pow(256, 8) == 0x1_0000_0000_0000_0000;
        Ok((Fixed64(LittleEndian(t[..8])), 8))
    case 2 =>
      var n :- DecodeVarint(t);
      if |t| - n.used < n.value then Err(TruncatedLen) else Ok((Len(t[n.used..n.used + n.value]), n.used + n.value))
    case 5 =>
      if |t| < 4 then Err(TruncatedFixed32)
      else
        assert Pow(256, 4) == 0x1_0000_0000;
        Ok((Fixed32(LittleEndian(t[..4])), 4))
    case _ => Err(BadWireType)
  }

  /** `decode_tag` and the value behind it; the field number is cut to 32 bits. */
  function OtapField(s: bytes): (r: Result<Step>)
    ensures r.Ok? ==> 1 <= r.value.used <= |s|
  {
    var tag :- DecodeVarint(s);
    var payload :- OtapPayload(s[tag.used..], tag.value % 8);
    Ok(Step(Field(tag.value / 8 % 0x1_0000_0000, payload.0, 0), tag.used + payload.1))
  }

  function OtapWalk(s: bytes): Walked
    decreases |s|
  {
    if |s| == 0 then Walked([], None)
    else
      match OtapField(s)
      case Err(e) => Walked([], Some(e))
      case Ok(step) =>
        var rest := OtapWalk(s[step.used..]);
        Walked([step.field] + rest.fields, rest.stop)
  }

  // ----- The envelope -----

  /** `String::from_utf8_lossy`. */
  type Lossy = bytes -> bytes

  ghost predicate KeepsUtf8(lossy: Lossy) {
    forall s :: IsUtf8(s) ==> lossy(s) == s
  }

  datatype ArrowPayload = ArrowPayload(schemaId: bytes, payloadType: u32, record: bytes)

  datatype Batch = Batch(id: int, payloads: seq<ArrowPayload>, headers: bytes)

  datatype StatusCode = StatusOk | Unavailable | InvalidArgument

  datatype BatchStatus = BatchStatus(batchId: int, code: StatusCode, message: bytes)

  /** A known number with another wire type is skipped like an unknown one. */
  function VisitPayload(lossy: Lossy): (ArrowPayload, Field) -> Result<ArrowPayload> {
    (out: ArrowPayload, f: Field) =>
      if f.number == 1 && f.payload.Len? then Ok(out.(schemaId := lossy(f.payload.slice)))
      else if f.number == 2 && f.payload.Varint? then Ok(out.(payloadType := f.payload.varint % 0x1_0000_0000))
      else if f.number == 3 && f.payload.Len? then Ok(out.(record := f.payload.slice))
      else Ok(out)
  }

  /** `decode_arrow_payload_generated_fast`. */
  function DecodePayload(s: bytes, lossy: Lossy): Result<ArrowPayload> {
    Visit(OtapWalk(s), ArrowPayload([], 0, []), VisitPayload(lossy))
  }

  function VisitBatch(lossy: Lossy): (Batch, Field) -> Result<Batch> {
    (out: Batch, f: Field) =>
      if f.number == 1 && f.payload.Varint? then Ok(out.(id := AsI64(f.payload.varint)))
      else if f.number == 2 && f.payload.Len? then
        var payload := DecodePayload(f.payload.slice, lossy);
        if payload.Err? then Err(payload.error) else Ok(out.(payloads := out.payloads + [payload.value]))
      else if f.number == 3 && f.payload.Len? then Ok(out.(headers := f.payload.slice))
      else Ok(out)
  }

  /** `decode_batch_arrow_records_generated_fast`. */
  function DecodeBatch(s: bytes, lossy: Lossy): Result<Batch> {
    Visit(OtapWalk(s), Batch(0, [], []), VisitBatch(lossy))
  }

  function VisitStatus(lossy: Lossy): (BatchStatus, Field) -> Result<BatchStatus> {
    (out: BatchStatus, f: Field) =>
      if f.number == 1 && f.payload.Varint? then Ok(out.(batchId := AsI64(f.payload.varint)))
      else if f.number == 2 && f.payload.Varint? then
        var code := if f.payload.varint == 0 then StatusOk
                    else if f.payload.varint == 1 then Unavailable
                    else InvalidArgument;
        Ok(out.(code := code))
      else if f.number == 3 && f.payload.Len? then Ok(out.(message := lossy(f.payload.slice)))
      else Ok(out)
  }

  /** `decode_batch_status_generated_fast`. */
  function DecodeStatus(s: bytes, lossy: Lossy): Result<BatchStatus> {
    Visit(OtapWalk(s), BatchStatus(0, StatusOk, []), VisitStatus(lossy))
  }

  lemma OtapStep(s: bytes)
    ensures |s| == 0 ==> OtapWalk(s) == Walked([], None)
    ensures |s| > 0 && OtapField(s).Err? ==> OtapWalk(s) == Walked([], Some(OtapField(s).error))
    ensures |s| > 0 && OtapField(s).Ok? ==>
      var step := OtapField(s).value;
      var rest := OtapWalk(s[step.used..]);
      OtapWalk(s) == Walked([step.field] + rest.fields, rest.stop)
  {
    hide OtapField;
  }

  /** The loop all three decoders share: read a tag at `pos`, then take or skip its value. */
  method DecodeFields<S>(data: bytes, init: S, visit: (S, Field) -> Result<S>) returns (r: Result<S>)
    ensures r == Visit(OtapWalk(data), init, visit)
  {
    hide OtapWalk, OtapPayload, Visit, DecodeVarint;
    var pos, state := 0, init;
    assert data[0..] == data;
    while pos < |data|
      invariant 0 <= pos <= |data|
      invariant Visit(OtapWalk(data[pos..]), state, visit) == Visit(OtapWalk(data), init, visit)
      decreases |data| - pos
    {
      ghost var rest := data[pos..];
      OtapStep(rest);
      if OtapField(rest).Err? {
        VisitStop(OtapField(rest).error, state, visit);
      }
      var tag :- DecodeVarintAt(data, pos);
      ghost var used := tag.1 - pos;
      assert rest[used..] == data[tag.1..];
      var payload :- OtapPayload(data[tag.1..], tag.0 % 8);
      var field := Field(tag.0 / 8 % 0x1_0000_0000, payload.0, 0);
      ghost var step := OtapField(rest).value;
      assert rest[step.used..] == data[tag.1 + payload.1..];
      VisitStep(field, OtapWalk(rest[step.used..]), state, visit);
      state :- visit(state, field);
      pos := tag.1 + payload.1;
    }
    assert data[pos..] == [];
    OtapStep(data[pos..]);
    VisitEnd(state, visit);
    return Ok(state);
  }

  // ----- The encoders -----

  type I64 = i: int | -0x8000_0000_0000_0000 <= i < 0x8000_0000_0000_0000

  function PayloadText(p: ArrowPayload): bytes {
    (if |p.schemaId| > 0 then LenText(1, p.schemaId) else [])
    + (if p.payloadType != 0 then VarintText(2, p.payloadType) else [])
    + (if |p.record| > 0 then LenText(3, p.record) else [])
  }

  function PayloadsText(payloads: seq<ArrowPayload>): bytes {
    if |payloads| == 0 then [] else LenText(2, PayloadText(payloads[0])) + PayloadsText(payloads[1..])
  }

  function IdText(id: I64): bytes {
    if id != 0 then VarintText(1, FromI64(id)) else []
  }

  function HeadersText(headers: bytes): bytes {
    if |headers| > 0 then LenText(3, headers) else []
  }

  function BatchText(id: I64, payloads: seq<ArrowPayload>, headers: bytes): bytes {
    IdText(id) + PayloadsText(payloads) + HeadersText(headers)
  }

  /** Everything in the batch fits in memory. */
  predicate FitsBatch(payloads: seq<ArrowPayload>, headers: bytes) {
    |headers| < MAX_BUFFER && forall p :: p in payloads ==> FitsPayload(p)
  }

  predicate FitsPayload(p: ArrowPayload) {
    |p.schemaId| < MAX_BUFFER && |p.record| < MAX_BUFFER && |PayloadText(p)| < MAX_BUFFER
  }

  /** `varint_field_len`. */
  function VarintTextSize(field: number, value: u64): nat {
    VarintLen(8 * field) + VarintLen(value)
  }

  /** `arrow_payload_len`. */
  function ArrowPayloadLen(p: ArrowPayload): nat
    requires |p.schemaId| < MAX_BUFFER && |p.record| < MAX_BUFFER
  {
    (if |p.schemaId| > 0 then LenTextSize(1, |p.schemaId|) else 0)
    + (if p.payloadType != 0 then VarintTextSize(2, p.payloadType) else 0)
    + (if |p.record| > 0 then LenTextSize(3, |p.record|) else 0)
  }

  /** The inner length written in front of a payload is the size of what follows it. */
  lemma PayloadSizeIsRight(p: ArrowPayload)
    requires |p.schemaId| < MAX_BUFFER && |p.record| < MAX_BUFFER
    ensures ArrowPayloadLen(p) == |PayloadText(p)|
  {
    hide LenText, VarintLen, PushVarint;
    LenTextHasItsSize(1, p.schemaId);
    LenTextHasItsSize(3, p.record);
    VarintLenIsPushed(16);
    VarintLenIsPushed(p.payloadType);
  }

  /** The sum of the payload field sizes, as the fast encoder's iterator computes it. */
  function PayloadsLen(payloads: seq<ArrowPayload>): nat
    requires forall p :: p in payloads ==> FitsPayload(p)
  {
    if |payloads| == 0 then 0
    else
      assert payloads[0] in payloads && FitsPayload(payloads[0]);
      PayloadSizeIsRight(payloads[0]);
      LenTextSize(2, ArrowPayloadLen(payloads[0])) + PayloadsLen(payloads[1..])
  }

  lemma {:induction false} PayloadsLenIsRight(payloads: seq<ArrowPayload>)
    requires forall p :: p in payloads ==> FitsPayload(p)
    ensures PayloadsLen(payloads) == |PayloadsText(payloads)|
    decreases |payloads|
  {
    hide LenText, LenTextSize, PayloadText, ArrowPayloadLen;
    if |payloads| > 0 {
      assert payloads[0] in payloads;
      PayloadSizeIsRight(payloads[0]);
      LenTextHasItsSize(2, PayloadText(payloads[0]));
      PayloadsLenIsRight(payloads[1..]);
    }
  }

  /** `encode_arrow_payload_into` and `manual_encode_arrow_payload`. */
  method EncodeArrowPayloadInto(buf: bytes, p: ArrowPayload) returns (r: bytes)
    ensures r == buf + PayloadText(p)
  {
    hide LenText, VarintText;
    r := buf;
    if |p.schemaId| > 0 {
      r := r + LenText(1, p.schemaId);
    }
    if p.payloadType != 0 {
      r := r + VarintText(2, p.payloadType);
    }
    if |p.record| > 0 {
      r := r + LenText(3, p.record);
    }
  }

  lemma PayloadsTail(payloads: seq<ArrowPayload>, i: nat)
    requires i < |payloads|
    ensures PayloadsText(payloads[i..]) == LenText(2, PayloadText(payloads[i])) + PayloadsText(payloads[i + 1..])
  {
    hide LenText, PayloadText;
    assert payloads[i..][1..] == payloads[i + 1..];
  }

  /**
    * `encode_batch_arrow_records_generated_fast`: every length prefix is written before the bytes it counts,
    * and the capacity reserved up front is exactly what is written.
    */
  method EncodeBatchFast(
    buf: bytes, id: I64, payloads: seq<ArrowPayload>, headers: bytes) returns (r: bytes, reserved: nat)
    requires FitsBatch(payloads, headers)
    ensures r == buf + BatchText(id, payloads, headers)
    ensures reserved == |BatchText(id, payloads, headers)|
  {
    hide PayloadText, PayloadsText, PayloadsLen, ArrowPayloadLen, PushVarint, VarintLen;
    var idLen := if id != 0 then VarintTextSize(1, FromI64(id)) else 0;
    var headersLen := if |headers| == 0 then 0 else LenTextSize(3, |headers|);
    VarintLenIsPushed(8);
    VarintLenIsPushed(FromI64(id));
    LenTextHasItsSize(3, headers);
    PayloadsLenIsRight(payloads);
    reserved := idLen + PayloadsLen(payloads) + headersLen;
    r := buf;
    if id != 0 {
      r := r + VarintText(1, FromI64(id));
    }
    ghost var start := r;
    assert payloads[0..] == payloads;
    for i := 0 to |payloads|
      invariant r + PayloadsText(payloads[i..]) == start + PayloadsText(payloads)
    {
      var p := payloads[i];
      assert p in payloads;
      PayloadsTail(payloads, i);
      PayloadSizeIsRight(p);
      ghost var before := r;
      var innerLen := ArrowPayloadLen(p);
      r := r + TagText(2, 2);
      r := r + PushVarint(innerLen);
      r := EncodeArrowPayloadInto(r, p);
      assert r == before + LenText(2, PayloadText(p));
      assert before + (LenText(2, PayloadText(p)) + PayloadsText(payloads[i + 1..]))
        == r + PayloadsText(payloads[i + 1..]);
    }
    NoPayloads(payloads[|payloads|..]);
    assert r == start + PayloadsText(payloads);
    if |headers| > 0 {
      r := r + LenText(3, headers);
    }
  }

  lemma NoPayloads(payloads: seq<ArrowPayload>)
    requires |payloads| == 0
    ensures PayloadsText(payloads) == []
  {
  }

  /** `manual_encode_batch_arrow_records`: builds each payload in a buffer of its own and measures it. */
  method EncodeBatchNaive(buf: bytes, id: I64, payloads: seq<ArrowPayload>, headers: bytes) returns (r: bytes)
    ensures r == buf + BatchText(id, payloads, headers)
  {
    hide PayloadText, PayloadsText, PushVarint;
    r := buf;
    if id != 0 {
      r := r + VarintText(1, FromI64(id));
    }
    ghost var start := r;
    assert payloads[0..] == payloads;
    for i := 0 to |payloads|
      invariant r + PayloadsText(payloads[i..]) == start + PayloadsText(payloads)
    {
      PayloadsTail(payloads, i);
      ghost var before := r;
      var sub := EncodeArrowPayloadInto([], payloads[i]);
      assert sub == PayloadText(payloads[i]);
      r := r + TagText(2, 2);
      r := r + PushVarint(|sub|);
      r := r + sub;
      assert r == before + LenText(2, sub);
      assert before + (LenText(2, sub) + PayloadsText(payloads[i + 1..])) == r + PayloadsText(payloads[i + 1..]);
    }
    NoPayloads(payloads[|payloads|..]);
    assert r == start + PayloadsText(payloads);
    if |headers| > 0 {
      r := r + LenText(3, headers);
    }
  }

  // ----- Round trips -----

  ghost predicate IsOtapField(t: bytes, field: number, payload: Payload) {
    && |t| > 0 && !payload.Group?
    && forall rest :: OtapField(t + rest) == Ok(Step(Field(field, payload, 0), |t|))
  }

  lemma OtapTagReads(field: number, wireType: nat, rest: bytes)
    requires wireType < 8
    ensures var r := OtapPayload(rest, wireType);
            OtapField(TagText(field, wireType) + rest) ==
              if r.Err? then Err(r.error)
              else Ok(Step(Field(field, r.value.0, 0), |TagText(field, wireType)| + r.value.1))
  {
    hide PushVarint, DecodeVarint, OtapPayload;
    var key: u64 := 8 * field + wireType;
    DecodeVarintExact(key, rest);
    assert (PushVarint(key) + rest)[|PushVarint(key)|..] == rest;
  }

  lemma VarintTextOtap(field: number, value: u64)
    ensures Survives(value) ==> IsOtapField(VarintText(field, value), field, Varint(value))
    ensures !Survives(value) ==> forall rest :: OtapField(VarintText(field, value) + rest) == Err(VarintOverflow)
    ensures |VarintText(field, value)| > 0
  {
    hide PushVarint, DecodeVarint, OtapField, Survives;
    forall rest
      ensures OtapField(VarintText(field, value) + rest) ==
        if Survives(value) then Ok(Step(Field(field, Varint(value), 0), |VarintText(field, value)|))
        else Err(VarintOverflow)
    {
      assert VarintText(field, value) + rest == TagText(field, 0) + (PushVarint(value) + rest);
      OtapTagReads(field, 0, PushVarint(value) + rest);
      DecodeVarintExact(value, rest);
    }
  }

  lemma LenTextOtap(field: number, data: buffer)
    ensures IsOtapField(LenText(field, data), field, Len(data))
  {
    hide PushVarint, DecodeVarint, OtapField;
    var prefix := PushVarint(|data|);
    forall rest
      ensures OtapField(LenText(field, data) + rest) == Ok(Step(Field(field, Len(data), 0), |LenText(field, data)|))
    {
      assert LenText(field, data) + rest == TagText(field, 2) + (prefix + (data + rest));
      OtapTagReads(field, 2, prefix + (data + rest));
      DecodeVarintExact(|data|, data + rest);
      assert (prefix + (data + rest))[|prefix|..|prefix| + |data|] == data;
    }
  }

  /** Decoding a field and what follows visits the field and goes on. */
  lemma OtapVisits<S>(t: bytes, rest: bytes, field: number, payload: Payload, state: S, visit: (S, Field) -> Result<S>)
    requires IsOtapField(t, field, payload)
    ensures var v := visit(state, Field(field, payload, 0));
            Visit(OtapWalk(t + rest), state, visit)
            == if v.Err? then Err(v.error) else Visit(OtapWalk(rest), v.value, visit)
  {
    hide OtapField, OtapWalk, Visit;
    OtapStep(t + rest);
    assert (t + rest)[|t|..] == rest;
    VisitStep(Field(field, payload, 0), OtapWalk(rest), state, visit);
  }

  lemma FixedTextsOtap(field: number, v: u64, w: u32)
    ensures IsOtapField(Fixed64Text(field, v), field, Fixed64(v))
    ensures IsOtapField(Fixed32Text(field, w), field, Fixed32(w))
  {
    hide PushVarint, DecodeVarint, OtapField, LittleEndian, ToLittleEndian;
    var long, short := ToLittleEndian(v, 8), ToLittleEndian(w, 4);
    assert Pow(256, 8) == 0x1_0000_0000_0000_0000 && Pow(256, 4) == 0x1_0000_0000;
    LittleEndianRoundTrip(v, 8);
    LittleEndianRoundTrip(w, 4);
    forall rest
      ensures OtapField(Fixed64Text(field, v) + rest) == Ok(Step(Field(field, Fixed64(v), 0), |Fixed64Text(field, v)|))
    {
      assert Fixed64Text(field, v) + rest == TagText(field, 1) + (long + rest);
      OtapTagReads(field, 1, long + rest);
      assert (long + rest)[..8] == long;
    }
    forall rest
      ensures OtapField(Fixed32Text(field, w) + rest) == Ok(Step(Field(field, Fixed32(w), 0), |Fixed32Text(field, w)|))
    {
      assert Fixed32Text(field, w) + rest == TagText(field, 5) + (short + rest);
      OtapTagReads(field, 5, short + rest);
      assert (short + rest)[..4] == short;
    }
  }

  /** A field in front of a message changes nothing. */
  ghost predicate IsSkipped(t: bytes, lossy: Lossy) {
    forall s :: DecodeBatch(t + s, lossy) == DecodeBatch(s, lossy)
      && DecodePayload(t + s, lossy) == DecodePayload(s, lossy)
                && DecodeStatus(t + s, lossy) == DecodeStatus(s, lossy)
  }

  lemma SkippedField(t: bytes, field: number, payload: Payload, lossy: Lossy)
    requires IsOtapField(t, field, payload) && (field > 3 || payload.Fixed64? || payload.Fixed32?)
    ensures IsSkipped(t, lossy)
  {
    hide IsOtapField, OtapWalk, Visit;
    forall s
      ensures DecodeBatch(t + s, lossy) == DecodeBatch(s, lossy)
        && DecodePayload(t + s, lossy) == DecodePayload(s, lossy)
              && DecodeStatus(t + s, lossy) == DecodeStatus(s, lossy)
    {
      OtapVisits(t, s, field, payload, Batch(0, [], []), VisitBatch(lossy));
      OtapVisits(t, s, field, payload, ArrowPayload([], 0, []), VisitPayload(lossy));
      OtapVisits(t, s, field, payload, BatchStatus(0, StatusOk, []), VisitStatus(lossy));
    }
  }

  /** The three decoders skip fixed-width fields of any number, and fields of any type that they do not know. */
  lemma UnknownFieldsAreSkipped(field: number, v: u64, w: u32, data: buffer, lossy: Lossy)
    ensures IsSkipped(Fixed64Text(field, v), lossy) && IsSkipped(Fixed32Text(field, w), lossy)
    ensures field > 3 && Survives(v) ==> IsSkipped(VarintText(field, v), lossy)
    ensures field > 3 ==> IsSkipped(LenText(field, data), lossy)
  {
    hide IsOtapField, IsSkipped, Survives;
    FixedTextsOtap(field, v, w);
    SkippedField(Fixed64Text(field, v), field, Fixed64(v), lossy);
    SkippedField(Fixed32Text(field, w), field, Fixed32(w), lossy);
    VarintTextOtap(field, v);
    LenTextOtap(field, data);
    if field > 3 {
      SkippedField(LenText(field, data), field, Len(data), lossy);
      if Survives(v) {
        SkippedField(VarintText(field, v), field, Varint(v), lossy);
      }
    }
  }

  lemma OtapEnds<S>(rest: bytes, state: S, visit: (S, Field) -> Result<S>)
    requires |rest| == 0
    ensures Visit(OtapWalk(rest), state, visit) == Ok(state)
  {
  }

  lemma PayloadRoundTrip(p: ArrowPayload, lossy: Lossy)
    requires FitsPayload(p) && IsUtf8(p.schemaId) && KeepsUtf8(lossy)
    ensures DecodePayload(PayloadText(p), lossy) == Ok(p)
  {
    hide IsOtapField, OtapWalk, Visit, LenText, VarintText, IsUtf8;
    var a := if |p.schemaId| > 0 then LenText(1, p.schemaId) else [];
    var b := if p.payloadType != 0 then VarintText(2, p.payloadType) else [];
    var c := if |p.record| > 0 then LenText(3, p.record) else [];
    var visit := VisitPayload(lossy);
    var first := ArrowPayload(p.schemaId, 0, []);
    var second := first.(payloadType := p.payloadType);
    assert PayloadText(p) == a + (b + c);
    if |p.schemaId| > 0 {
      LenTextOtap(1, p.schemaId);
      OtapVisits(a, b + c, 1, Len(p.schemaId), ArrowPayload([], 0, []), visit);
    } else {
      assert a + (b + c) == b + c && p.schemaId == [];
    }
    assert Visit(OtapWalk(b + c), first, visit) == DecodePayload(PayloadText(p), lossy);
    if p.payloadType != 0 {
      VarintTextOtap(2, p.payloadType);
      OtapVisits(b, c, 2, Varint(p.payloadType), first, visit);
    } else {
      assert b + c == c;
    }
    assert Visit(OtapWalk(c), second, visit) == DecodePayload(PayloadText(p), lossy);
    if |p.record| > 0 {
      assert c + [] == c;
      LenTextOtap(3, p.record);
      OtapVisits(c, [], 3, Len(p.record), second, visit);
      OtapEnds([], p, visit);
    } else {
      assert p.record == [];
      OtapEnds(c, p, visit);
    }
  }

  lemma {:induction false} PayloadsRoundTrip(payloads: seq<ArrowPayload>, rest: bytes, out: Batch, lossy: Lossy)
    requires forall p :: p in payloads ==> FitsPayload(p) && IsUtf8(p.schemaId)
    requires KeepsUtf8(lossy)
    ensures Visit(OtapWalk(PayloadsText(payloads) + rest), out, VisitBatch(lossy))
         == Visit(OtapWalk(rest), out.(payloads := out.payloads + payloads), VisitBatch(lossy))
    decreases |payloads|
  {
    hide IsOtapField, OtapWalk, Visit, LenText, PayloadText, IsUtf8, DecodePayload, KeepsUtf8;
    if |payloads| == 0 {
      assert PayloadsText(payloads) + rest == rest;
      assert out.payloads + payloads == out.payloads;
    } else {
      var p, tail := payloads[0], payloads[1..];
      assert p in payloads;
      var text: buffer := PayloadText(p);
      PayloadRoundTrip(p, lossy);
      LenTextOtap(2, text);
      assert PayloadsText(payloads) + rest == LenText(2, text) + (PayloadsText(tail) + rest);
      OtapVisits(LenText(2, text), PayloadsText(tail) + rest, 2, Len(text), out, VisitBatch(lossy));
      PayloadsRoundTrip(tail, rest, out.(payloads := out.payloads + [p]), lossy);
      assert out.payloads + [p] + tail == out.payloads + payloads;
    }
  }

  /** The batch ids that come back: all but the negative ones from -2^63 + 2^57 up. */
  predicate IdSurvives(id: I64) {
    id >= 0 || id < -0x7E00_0000_0000_0000
  }

  lemma IdSurvivesExact(id: I64)
    ensures Survives(FromI64(id)) <==> IdSurvives(id)
  {
  }

  /**
    * Decoding an encoded batch returns the same id, payloads in order and headers exactly when the id
    * survives the ninth-byte check; any other id makes the decoder refuse the batch.
    */
  lemma BatchRoundTrip(id: I64, payloads: seq<ArrowPayload>, headers: bytes, lossy: Lossy)
    requires FitsBatch(payloads, headers) && KeepsUtf8(lossy)
    requires forall p :: p in payloads ==> IsUtf8(p.schemaId)
    ensures IdSurvives(id) ==> DecodeBatch(BatchText(id, payloads, headers), lossy) == Ok(Batch(id, payloads, headers))
    ensures !IdSurvives(id) ==> DecodeBatch(BatchText(id, payloads, headers), lossy) == Err(VarintOverflow)
  {
    hide IsOtapField, OtapWalk, OtapField, Visit, LenText, VarintText, PayloadsText, IsUtf8, Survives, IdSurvives,
      KeepsUtf8, FitsPayload, DecodePayload;
    var empty, visit := Batch(0, [], []), VisitBatch(lossy);
    var s := BatchText(id, payloads, headers);
    var rest := PayloadsText(payloads) + HeadersText(headers);
    assert s == IdText(id) + rest;
    IdSurvivesExact(id);
    if id != 0 {
      var raw := FromI64(id);
      VarintTextOtap(1, raw);
      if !Survives(raw) {
        IdRefused(s, raw, rest, lossy);
        return;
      }
      OtapVisits(IdText(id), rest, 1, Varint(raw), empty, visit);
      assert AsI64(raw) == id;
      assert visit(empty, Field(1, Varint(raw), 0)) == Ok(Batch(id, [], []));
    } else {
      ZeroSurvives();
      assert IdText(id) + rest == rest;
    }
    assert Visit(OtapWalk(rest), Batch(id, [], []), visit) == DecodeBatch(s, lossy);
    PayloadsRoundTrip(payloads, HeadersText(headers), Batch(id, [], []), lossy);
    assert [] + payloads == payloads;
    var full := Batch(id, payloads, []);
    if |headers| > 0 {
      LenTextOtap(3, headers);
      assert LenText(3, headers) + [] == LenText(3, headers);
      OtapVisits(LenText(3, headers), [], 3, Len(headers), full, visit);
      OtapEnds([], Batch(id, payloads, headers), visit);
    } else {
      assert headers == [];
      OtapEnds(HeadersText(headers), full, visit);
    }
  }

  lemma ZeroSurvives()
    ensures IdSurvives(0)
  {
  }

  lemma IdRefused(s: bytes, raw: u64, rest: bytes, lossy: Lossy)
    requires s == VarintText(1, raw) + rest && |VarintText(1, raw)| > 0
    requires OtapField(s) == Err(VarintOverflow)
    ensures DecodeBatch(s, lossy) == Err(VarintOverflow)
  {
    hide OtapField, VarintText, Visit;
    OtapStep(s);
    VisitStop(VarintOverflow, Batch(0, [], []), VisitBatch(lossy));
  }

  /** A batch numbered -1 is written but never read back. */
  lemma MinusOneIsRefused(lossy: Lossy)
    requires KeepsUtf8(lossy)
    ensures DecodeBatch(BatchText(-1, [], []), lossy) == Err(VarintOverflow)
  {
    hide DecodeBatch, BatchText;
    BatchRoundTrip(-1, [], [], lossy);
  }

  // ----- Where the two varint readers part -----

  /** The next `n` bytes are all continued. */
  predicate AllContinued(s: bytes, n: nat) {
    n <= |s| && forall i :: 0 <= i < n ==> s[i] >= 128
  }

  /**
    * Behind `index` bytes: a varint that ends within nine bytes reads the same. Behind nine continued bytes, a
    * ninth payload above 1 is refused here at once, and the tenth byte is cut to one bit instead of checked.
    */
  predicate AgreeFrom(s: bytes, index: nat)
    requires index <= 8
  {
    var tenth := 9 - index;
    AllContinued(s, tenth) ==>
      if s[tenth - 1] % 128 > 1 then |s| > tenth && s[tenth] > 1
      else |s| == tenth || s[tenth] <= 1 || s[tenth] >= 128
  }

  lemma LastBytes(s: bytes)
    ensures DecodeFrom(s, 9) == ReadFrom(s, 9) <==> |s| == 0 || s[0] <= 1 || s[0] >= 128
    ensures |s| == 0 ==> ReadFrom(s, 9) == Err(TruncatedVarint)
    ensures |s| > 0 && s[0] > 1 ==> ReadFrom(s, 9) == Err(VarintOverflow)
    ensures |s| > 0 && s[0] <= 1 ==> ReadFrom(s, 9).Ok?
  {
    hide Room;
  }

  lemma ReadContinues(s: bytes, index: nat)
    requires index < 9
    ensures |s| == 0 ==> ReadFrom(s, index) == Err(TruncatedVarint) == DecodeFrom(s, index)
    ensures |s| > 0 && s[0] < 128 ==> ReadFrom(s, index) == DecodeFrom(s, index)
    ensures |s| > 0 && s[0] >= 128 && (index < 8 || s[0] % 128 <= 1) ==>
      (DecodeFrom(s, index) == ReadFrom(s, index) <==> DecodeFrom(s[1..], index + 1) == ReadFrom(s[1..], index + 1))
    ensures |s| > 0 && s[0] >= 128 && index == 8 && s[0] % 128 > 1 ==>
      (DecodeFrom(s, index) == ReadFrom(s, index) <==> ReadFrom(s[1..], 9) == Err(VarintOverflow))
  {
    hide DecodeFrom;
    if |s| == 0 {
      OtapFails(s, index);
    } else {
      DecodeFromStep(s, index);
      ReadFromStep(s, index);
    }
  }

  lemma AgreeStep(s: bytes, index: nat)
    requires index < 8 && |s| > 0 && s[0] >= 128
    ensures AgreeFrom(s, index) <==> AgreeFrom(s[1..], index + 1)
  {
    var rest, tenth := s[1..], 9 - index;
    assert forall i :: 0 < i < |s| ==> s[i] == rest[i - 1];
    assert AllContinued(s, tenth) <==> AllContinued(rest, tenth - 1);
  }

  lemma {:induction false} ReadersAgreeFrom(s: bytes, index: nat)
    requires index <= 8
    ensures DecodeFrom(s, index) == ReadFrom(s, index) <==> AgreeFrom(s, index)
    decreases 8 - index
  {
    hide DecodeFrom, ReadFrom;
    ReadContinues(s, index);
    if |s| > 0 && s[0] >= 128 {
      if index == 8 {
        LastBytes(s[1..]);
      } else {
        ReadersAgreeFrom(s[1..], index + 1);
        AgreeStep(s, index);
      }
    }
  }

  /** On which byte strings `decode_varint` and the reader of the projection give the same result, errors included. */
  lemma ReadersAgreeExactly(s: bytes)
    ensures DecodeVarint(s) == ReadVarint(s) <==> AgreeFrom(s, 0)
  {
    hide DecodeFrom, ReadFrom, AgreeFrom;
    ReadersAgreeFrom(s, 0);
  }

  /** `decode_varint` lets a tenth byte of 2 through, which overflows 64 bits; the projection's reader refuses it. */
  lemma TenthByteUnchecked()
    ensures var s := [0x80, 0x80, 0x80, 0x80, 0x80, 0x80, 0x80, 0x80, 0x80, 0x02];
            DecodeVarint(s) == Ok(Read(0, 10)) && ReadVarint(s) == Err(VarintOverflow)
  {
    OverlongZero(9);
    assert Continued(9) == [0x80, 0x80, 0x80, 0x80, 0x80, 0x80, 0x80, 0x80, 0x80, 0x02];
  }

  function Continued(n: nat): bytes {
    if n == 0 then [0x02] else [0x80] + Continued(n - 1)
  }

  lemma {:induction false} OverlongZero(n: nat)
    requires n <= 9
    ensures DecodeFrom(Continued(n), 9 - n) == Ok(Read(0, n + 1))
      && ReadFrom(Continued(n), 9 - n) == Err(VarintOverflow)
    decreases n
  {
    hide DecodeFrom;
    DecodeFromStep(Continued(n), 9 - n);
    if n > 0 {
      OverlongZero(n - 1);
      assert Continued(n)[1..] == Continued(n - 1);
      ReadFromStep(Continued(n), 9 - n);
    }
  }

  function CodeValue(code: StatusCode): nat {
    match code
    case StatusOk => 0
    case Unavailable => 1
    case InvalidArgument => 2
  }

  /** A status with its message in front, as the codec benchmark builds one. */
  function StatusText(status: BatchStatus): bytes
    requires -0x8000_0000_0000_0000 <= status.batchId < 0x8000_0000_0000_0000
  {
    LenText(3, status.message) + (VarintText(1, FromI64(status.batchId)) + VarintText(2, CodeValue(status.code)))
  }

  /** A status comes back whole exactly when its batch id survives. */
  lemma StatusRoundTrip(status: BatchStatus, lossy: Lossy)
    requires -0x8000_0000_0000_0000 <= status.batchId < 0x8000_0000_0000_0000
    requires |status.message| < MAX_BUFFER && IsUtf8(status.message) && KeepsUtf8(lossy)
    ensures DecodeStatus(StatusText(status), lossy) ==
      if IdSurvives(status.batchId) then Ok(status) else Err(VarintOverflow)
  {
    hide IsOtapField, OtapWalk, OtapField, Visit, LenText, VarintText, IsUtf8, Survives, IdSurvives;
    var visit, raw, code := VisitStatus(lossy), FromI64(status.batchId), CodeValue(status.code);
    var a, b, c := LenText(3, status.message), VarintText(1, raw), VarintText(2, code);
    var first := BatchStatus(0, StatusOk, status.message);
    IdSurvivesExact(status.batchId);
    LenTextOtap(3, status.message);
    OtapVisits(a, b + c, 3, Len(status.message), BatchStatus(0, StatusOk, []), visit);
    VarintTextOtap(1, raw);
    if Survives(raw) {
      OtapVisits(b, c, 1, Varint(raw), first, visit);
      assert AsI64(raw) == status.batchId;
      assert visit(first, Field(1, Varint(raw), 0)) == Ok(first.(batchId := status.batchId));
      SmallSurvives(code);
      VarintTextOtap(2, code);
      assert c + [] == c;
      OtapVisits(c, [], 2, Varint(code), first.(batchId := status.batchId), visit);
      assert visit(first.(batchId := status.batchId), Field(2, Varint(code), 0)) == Ok(status);
      OtapEnds([], status, visit);
    } else {
      OtapStep(b + c);
      VisitStop(VarintOverflow, first, visit);
    }
  }

  lemma SmallSurvives(value: u64)
    ensures value < 3 ==> Survives(value)
  {
  }
}

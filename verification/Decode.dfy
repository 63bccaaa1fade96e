/** The last-value-wins decoders that the field walk drives. */
module Decode {
  import opened Bytes
  import opened Options
  import opened Wire
  import opened Walk
  import opened Utf8

  /** A decoded `AnyValue`; arrays and key-value lists stay raw until they are rendered. */
  datatype WireAny =
    | StringValue(text: bytes)
    | BoolValue(flag: bool)
    | IntValue(int64: int)
    | DoubleValue(bits: u64)
    | BytesValue(raw: bytes)
    | ArrayRaw(rawItems: bytes)
    | KvListRaw(rawPairs: bytes)

  /** `require_utf8`. */
  function RequireUtf8(s: bytes): Result<bytes> {
    if IsUtf8(s) then Ok(s) else Err(InvalidUtf8)
  }

  // ----- AnyValue -----

  function VisitAny(out: Option<WireAny>, f: Field): Result<Option<WireAny>> {
    match f.number
    case 1 =>
      if !f.payload.Len? then Err(WrongWireType)
      else
        var text :- RequireUtf8(f.payload.slice);
        Ok(Some(StringValue(text)))
    case 2 => if f.payload.Varint? then Ok(Some(BoolValue(f.payload.varint != 0))) else Err(WrongWireType)
    case 3 => if f.payload.Varint? then Ok(Some(IntValue(AsI64(f.payload.varint)))) else Err(WrongWireType)
    case 4 => if f.payload.Fixed64? then Ok(Some(DoubleValue(f.payload.fixed64))) else Err(WrongWireType)
    case 5 => if f.payload.Len? then Ok(Some(ArrayRaw(f.payload.slice))) else Err(WrongWireType)
    case 6 => if f.payload.Len? then Ok(Some(KvListRaw(f.payload.slice))) else Err(WrongWireType)
    case 7 => if f.payload.Len? then Ok(Some(BytesValue(f.payload.slice))) else Err(WrongWireType)
    case _ => Ok(out)
  }

  /** `decode_any_value_wire`. */
  function DecodeAny(s: bytes): Result<Option<WireAny>> {
    ForEach(s, None, VisitAny)
  }

  // ----- KeyValue -----

  datatype KeyAndValue = KeyAndValue(key: bytes, value: Option<WireAny>)

  /** An empty later value leaves the earlier one in place. */
  function VisitKeyValue(out: KeyAndValue, f: Field): Result<KeyAndValue> {
    match f.number
    case 1 => if f.payload.Len? then Ok(out.(key := f.payload.slice)) else Err(WrongWireType)
    case 2 =>
      if !f.payload.Len? then Err(WrongWireType)
      else
        var decoded :- DecodeAny(f.payload.slice);
        Ok(if decoded.Some? then out.(value := decoded) else out)
    case _ => Ok(out)
  }

  function Pair(kv: KeyAndValue): Option<(bytes, WireAny)> {
    if kv.value.Some? then Some((kv.key, kv.value.value)) else None
  }

  /** `decode_key_value_wire`, the reference decoder. */
  function DecodeKeyValue(s: bytes): Result<Option<(bytes, WireAny)>> {
    var kv :- ForEach(s, KeyAndValue([], None), VisitKeyValue);
    Ok(Pair(kv))
  }

  // ----- InstrumentationScope -----

  datatype ScopeFields = ScopeFields(name: Option<bytes>, version: Option<bytes>)

  function VisitScope(out: ScopeFields, f: Field): Result<ScopeFields> {
    match f.number
    case 1 =>
      if !f.payload.Len? then Err(WrongWireType)
      else
        var name :- RequireUtf8(f.payload.slice);
        Ok(out.(name := Some(name)))
    case 2 =>
      if !f.payload.Len? then Err(WrongWireType)
      else
        var version :- RequireUtf8(f.payload.slice);
        Ok(out.(version := Some(version)))
    case _ => Ok(out)
  }

  /** `merge_scope_wire`. */
  function MergeScope(s: bytes, scope: ScopeFields): Result<ScopeFields> {
    ForEach(s, scope, VisitScope)
  }

  // ----- LogRecord -----

  /** `LogRecordFields` together with the `attr_ranges` vector the decoder fills beside it. */
  datatype Record = Record(
    time: u64,
    observed: u64,
    severityNumber: int,
    severityText: Option<bytes>,
    body: Option<WireAny>,
    traceId: Option<bytes>,
    spanId: Option<bytes>,
    flags: int,
    attrRanges: seq<(nat, nat)>)

  const EMPTY_RECORD := Record(0, 0, 0, None, None, None, None, 0, [])

  function NonEmpty(s: bytes): Option<bytes> {
    if |s| == 0 then None else Some(s)
  }

  function VisitRecord(out: Record, f: Field): Result<Record> {
    match f.number
    case 1 => if f.payload.Fixed64? then Ok(out.(time := f.payload.fixed64)) else Err(WrongWireType)
    case 2 => if f.payload.Varint? then Ok(out.(severityNumber := AsI32(f.payload.varint))) else Err(WrongWireType)
    case 3 =>
      if !f.payload.Len? then Err(WrongWireType)
      else if |f.payload.slice| == 0 then Ok(out.(severityText := None))
      else
        var text :- RequireUtf8(f.payload.slice);
        Ok(out.(severityText := Some(text)))
    case 5 =>
      if !f.payload.Len? then Err(WrongWireType)
      else
        var decoded :- DecodeAny(f.payload.slice);
        Ok(if decoded.Some? then out.(body := decoded) else out)
    case 6 =>
      if f.payload.Len? then Ok(out.(attrRanges := out.attrRanges + [(f.at, |f.payload.slice|)]))
      else Err(WrongWireType)
    case 7 => if f.payload.Varint? then Ok(out) else Err(WrongWireType)
    case 8 => if f.payload.Fixed32? then Ok(out.(flags := f.payload.fixed32)) else Err(WrongWireType)
    case 9 => if f.payload.Len? then Ok(out.(traceId := NonEmpty(f.payload.slice))) else Err(WrongWireType)
    case 10 => if f.payload.Len? then Ok(out.(spanId := NonEmpty(f.payload.slice))) else Err(WrongWireType)
    case 11 => if f.payload.Fixed64? then Ok(out.(observed := f.payload.fixed64)) else Err(WrongWireType)
    case 12 =>
      if !f.payload.Len? then Err(WrongWireType)
      else if |f.payload.slice| == 0 then Ok(out)
      else
        var _ :- RequireUtf8(f.payload.slice);
        Ok(out)
    case _ => Ok(out)
  }

  /** `decode_log_record_fields`. */
  function DecodeRecord(s: bytes): Result<Record> {
    ForEach(s, EMPTY_RECORD, VisitRecord)
  }

  /** `decode_log_record_fields` as the source runs it: the field loop with the visiting closure. */
  method DecodeLogRecordFields(logRecord: bytes) returns (r: Result<Record>)
    ensures r == DecodeRecord(logRecord)
  {
    r := ForEachField(logRecord, EMPTY_RECORD, VisitRecord);
  }

  // ----- What a decoded value says about the message -----

  /** One of the seven fields of `AnyValue`. */
  predicate IsAnyField(f: Field) {
    1 <= f.number <= 7 && !f.payload.Group?
  }

  /** `value` is what the field says: its number gives the kind, its payload the content. */
  ghost predicate Says(f: Field, value: WireAny) {
    match f.number
    case 1 => f.payload.Len? && IsUtf8(f.payload.slice) && value == StringValue(f.payload.slice)
    case 2 => f.payload.Varint? && value == BoolValue(f.payload.varint != 0)
    case 3 => f.payload.Varint? && value.IntValue?
      && IsTwosComplement(value.int64, f.payload.varint, 0x1_0000_0000_0000_0000)
    case 4 => f.payload.Fixed64? && value == DoubleValue(f.payload.fixed64)
    case 5 => f.payload.Len? && value == ArrayRaw(f.payload.slice)
    case 6 => f.payload.Len? && value == KvListRaw(f.payload.slice)
    case 7 => f.payload.Len? && value == BytesValue(f.payload.slice)
    case _ => false
  }

  /** `i` is the signed number whose bits are the low bits of `v`. */
  ghost predicate IsTwosComplement(i: int, v: nat, modulus: nat) {
    0 <= 2 * i + modulus < 2 * modulus && exists k: int :: v == i + k * modulus
  }

  lemma AsI64Is(v: u64)
    ensures IsTwosComplement(AsI64(v), v, 0x1_0000_0000_0000_0000)
  {
    var k := if v < 0x8000_0000_0000_0000 then 0 else 1;
    assert v == AsI64(v) + k * 0x1_0000_0000_0000_0000;
  }

  lemma AsI32Is(v: u64)
    ensures IsTwosComplement(AsI32(v), v, 0x1_0000_0000)
  {
    var k := v / 0x1_0000_0000 + if v % 0x1_0000_0000 < 0x8000_0000 then 0 else 1;
    assert v == AsI32(v) + k * 0x1_0000_0000;
  }

  lemma VisitAnySays(out: Option<WireAny>, f: Field)
    requires !f.payload.Group?
    ensures IsAnyField(f) ==>
      if VisitAny(out, f).Ok? then VisitAny(out, f).value.Some? && Says(f, VisitAny(out, f).value.value)
      else forall value :: !Says(f, value)
    ensures !IsAnyField(f) ==> VisitAny(out, f) == Ok(out)
  {
    hide IsUtf8, IsTwosComplement;
    if f.number == 3 && f.payload.Varint? {
      AsI64Is(f.payload.varint);
    }
  }

  /** No field is missing its value, that is, has another wire type or text that is not UTF-8. */
  ghost predicate AllSay(fields: seq<Field>) {
    forall i :: 0 <= i < |fields| && IsAnyField(fields[i]) ==> exists value :: Says(fields[i], value)
  }

  ghost predicate IsLastKnown(fields: seq<Field>, k: nat) {
    k < |fields| && IsAnyField(fields[k]) && forall i :: k < i < |fields| ==> !IsAnyField(fields[i])
  }

  /** Visiting succeeds exactly when every known field says a value, and then the last one counts. */
  lemma {:induction false} LastSays(fields: seq<Field>, out: Option<WireAny>)
    ensures Fold(fields, out, VisitAny).Ok? <==> AllSay(fields)
    ensures AllSay(fields) && (forall i :: 0 <= i < |fields| ==> !IsAnyField(fields[i])) ==>
      Fold(fields, out, VisitAny).value == out
    ensures forall k: nat :: AllSay(fields) && IsLastKnown(fields, k) ==>
      var value := Fold(fields, out, VisitAny).value;
      value.Some? && Says(fields[k], value.value)
    decreases |fields|
  {
    hide Says, VisitAny;
    if |fields| > 0 {
      var f, rest := fields[0], fields[1..];
      assert forall i :: 0 < i < |fields| ==> fields[i] == rest[i - 1];
      assert AllSay(fields) <==> (IsAnyField(f) ==> exists value :: Says(f, value)) && AllSay(rest) by {
        if AllSay(fields) {
          forall i | 0 <= i < |rest| && IsAnyField(rest[i]) ensures exists value :: Says(rest[i], value) {
            assert fields[i + 1] == rest[i];
          }
        }
      }
      if f.payload.Group? {
        LastSays(rest, out);
      } else {
        assert forall k: nat :: k > 0 ==> (IsLastKnown(fields, k) <==> IsLastKnown(rest, k - 1));
        VisitAnySays(out, f);
        if VisitAny(out, f).Ok? {
          LastSays(rest, VisitAny(out, f).value);
        }
      }
    }
  }

  /**
    * A value message decodes exactly when it is framed and every known field says a value; the last known field is the
    * value, and without one there is none.
    */
  lemma AnyIsLastKnown(s: bytes)
    ensures DecodeAny(s).Ok? <==> Fields(s).stop.None? && AllSay(Fields(s).fields)
    ensures DecodeAny(s).Ok? && (forall f :: f in Fields(s).fields ==> !IsAnyField(f)) ==> DecodeAny(s).value == None
    ensures forall k: nat :: DecodeAny(s).Ok? && IsLastKnown(Fields(s).fields, k) ==>
      DecodeAny(s).value.Some? && Says(Fields(s).fields[k], DecodeAny(s).value.value)
  {
    hide WalkFrom, Fold, Says, AllSay, IsLastKnown;
    LastSays(Fields(s).fields, None);
  }

  // ----- What a decoded record says about the message -----

  /** The payload of the last field `number` that the visitor saw. */
  function Last(fields: seq<Field>, number: nat): Option<Payload> {
    if |fields| == 0 then None
    else
      var f := fields[|fields| - 1];
      if f.number == number && !f.payload.Group? then Some(f.payload) else Last(fields[..|fields| - 1], number)
  }

  /** The last body that decodes to a value. */
  function LastBody(fields: seq<Field>): Option<WireAny> {
    if |fields| == 0 then None
    else
      var f := fields[|fields| - 1];
      if f.number == 5 && f.payload.Len? && DecodeAny(f.payload.slice).Ok? && DecodeAny(f.payload.slice).value.Some?
      then DecodeAny(f.payload.slice).value
      else LastBody(fields[..|fields| - 1])
  }

  /** Offset and length of every attribute payload, in wire order. */
  function AttrRanges(fields: seq<Field>): seq<(nat, nat)> {
    if |fields| == 0 then []
    else
      var f := fields[|fields| - 1];
      AttrRanges(fields[..|fields| - 1]) +
      if f.number == 6 && f.payload.Len? then [(f.at, |f.payload.slice|)] else []
  }

  function LastFixed64(fields: seq<Field>, number: nat): u64 {
    var last := Last(fields, number);
    if last.Some? && last.value.Fixed64? then last.value.fixed64 else 0
  }

  function LastSlice(fields: seq<Field>, number: nat): Option<bytes> {
    var last := Last(fields, number);
    if last.Some? && last.value.Len? then NonEmpty(last.value.slice) else None
  }

  function LastSeverity(fields: seq<Field>): int {
    var last := Last(fields, 2);
    if last.Some? && last.value.Varint? then AsI32(last.value.varint) else 0
  }

  function LastFlags(fields: seq<Field>): int {
    var last := Last(fields, 8);
    if last.Some? && last.value.Fixed32? then last.value.fixed32 else 0
  }

  /** Each member read off the fields on its own: scalars from the last occurrence, ranges from all of them. */
  function RecordOf(fields: seq<Field>): Record {
    Record(
      LastFixed64(fields, 1), LastFixed64(fields, 11), LastSeverity(fields), LastSlice(fields, 3), LastBody(fields),
      LastSlice(fields, 9), LastSlice(fields, 10), LastFlags(fields), AttrRanges(fields))
  }

  /** A field the record decoder does not object to. */
  predicate GoodRecordField(f: Field) {
    f.payload.Group? ||
    match f.number
    case 1 => f.payload.Fixed64?
    case 2 => f.payload.Varint?
    case 3 => f.payload.Len? && IsUtf8(f.payload.slice)
    case 5 => f.payload.Len? && DecodeAny(f.payload.slice).Ok?
    case 6 => f.payload.Len?
    case 7 => f.payload.Varint?
    case 8 => f.payload.Fixed32?
    case 9 => f.payload.Len?
    case 10 => f.payload.Len?
    case 11 => f.payload.Fixed64?
    case 12 => f.payload.Len? && IsUtf8(f.payload.slice)
    case _ => true
  }

  lemma FoldSnoc<S>(fields: seq<Field>, f: Field, state: S, visit: (S, Field) -> Result<S>)
    ensures Fold(fields + [f], state, visit) ==
      if Fold(fields, state, visit).Err? || f.payload.Group? then Fold(fields, state, visit)
      else visit(Fold(fields, state, visit).value, f)
  {
    FoldConcat(fields, [f], state, visit);
    assert [f][1..] == [];
  }

  lemma VisitRecordStep(before: seq<Field>, f: Field)
    requires !f.payload.Group?
    ensures VisitRecord(RecordOf(before), f) == Ok(RecordOf(before + [f])) || !GoodRecordField(f)
    ensures VisitRecord(RecordOf(before), f).Ok? <==> GoodRecordField(f)
  {
    hide DecodeAny, IsUtf8;
    EmptyIsUtf8();
    assert f.payload.Len? && |f.payload.slice| == 0 ==> f.payload.slice == [];
    var after := before + [f];
    assert after[..|before|] == before;
    assert AttrRanges(after)
           == AttrRanges(before) + if f.number == 6 && f.payload.Len? then [(f.at, |f.payload.slice|)] else [];
    assert f.number != 6 ==> AttrRanges(after) == AttrRanges(before);
  }

  lemma EmptyIsUtf8()
    ensures IsUtf8([])
  {
  }

  lemma RecordOfSkipsGroup(before: seq<Field>, f: Field)
    requires f.payload.Group?
    ensures RecordOf(before + [f]) == RecordOf(before)
  {
    hide DecodeAny;
    assert (before + [f])[..|before|] == before;
  }

  lemma {:induction false} FoldRecord(fields: seq<Field>)
    ensures Fold(fields, EMPTY_RECORD, VisitRecord).Ok? <==> forall f :: f in fields ==> GoodRecordField(f)
    ensures Fold(fields, EMPTY_RECORD, VisitRecord).Ok? ==>
      Fold(fields, EMPTY_RECORD, VisitRecord).value == RecordOf(fields)
    decreases |fields|
  {
    hide Fold, GoodRecordField, VisitRecord, RecordOf;
    if |fields| == 0 {
      FoldNoRecord();
      assert fields == [];
    } else {
      var before, f := fields[..|fields| - 1], fields[|fields| - 1];
      assert fields == before + [f];
      FoldRecord(before);
      FoldSnoc(before, f, EMPTY_RECORD, VisitRecord);
      if f.payload.Group? {
        RecordOfSkipsGroup(before, f);
        GroupIsGood(f);
      } else {
        VisitRecordStep(before, f);
      }
    }
  }

  lemma FoldNoRecord()
    ensures Fold([], EMPTY_RECORD, VisitRecord) == Ok(RecordOf([]))
  {
  }

  lemma GroupIsGood(f: Field)
    requires f.payload.Group?
    ensures GoodRecordField(f)
  {
  }

  /**
    * Decoding succeeds exactly when the message is framed and every field is good, and then each scalar is
    * the last occurrence, the body the last non-empty value and the ranges all the attributes in order.
    */
  lemma RecordLastWins(s: bytes)
    ensures DecodeRecord(s).Ok? <==> Fields(s).stop.None? && forall f :: f in Fields(s).fields ==> GoodRecordField(f)
    ensures DecodeRecord(s).Ok? ==> DecodeRecord(s).value == RecordOf(Fields(s).fields)
    ensures DecodeRecord(s).Ok? && Last(Fields(s).fields, 2).Some? && Last(Fields(s).fields, 2).value.Varint? ==>
      IsTwosComplement(DecodeRecord(s).value.severityNumber, Last(Fields(s).fields, 2).value.varint, 0x1_0000_0000)
  {
    hide Fold, WalkFrom, GoodRecordField, Last, AsI32, IsTwosComplement;
    FoldRecord(Fields(s).fields);
    var last := Last(Fields(s).fields, 2);
    if last.Some? && last.value.Varint? {
      AsI32Is(last.value.varint);
    }
  }

  // ----- What decoded pairs and scopes say about the message -----

  function LastText(fields: seq<Field>, number: nat): Option<bytes> {
    var last := Last(fields, number);
    if last.Some? && last.value.Len? then Some(last.value.slice) else None
  }

  /** The last value of a pair that is not empty. */
  function LastValue(fields: seq<Field>): Option<WireAny> {
    if |fields| == 0 then None
    else
      var f := fields[|fields| - 1];
      if f.number == 2 && f.payload.Len? && DecodeAny(f.payload.slice).Ok? && DecodeAny(f.payload.slice).value.Some?
      then DecodeAny(f.payload.slice).value
      else LastValue(fields[..|fields| - 1])
  }

  /** The key is that of the last key field; a pair without one has the empty key. */
  function LastKey(fields: seq<Field>): bytes {
    if LastText(fields, 1).Some? then LastText(fields, 1).value else []
  }

  predicate GoodPairField(f: Field) {
    f.payload.Group? ||
    match f.number
    case 1 => f.payload.Len?
    case 2 => f.payload.Len? && DecodeAny(f.payload.slice).Ok?
    case _ => true
  }

  lemma LastTextSnoc(before: seq<Field>, f: Field, number: nat)
    ensures LastText(before + [f], number) ==
      if f.number != number || f.payload.Group? then LastText(before, number)
      else if f.payload.Len? then Some(f.payload.slice)
      else None
    ensures LastValue(before + [f]) ==
      if f.number == 2 && f.payload.Len? && DecodeAny(f.payload.slice).Ok? && DecodeAny(f.payload.slice).value.Some?
      then DecodeAny(f.payload.slice).value
      else LastValue(before)
  {
    hide DecodeAny;
    assert (before + [f])[..|before|] == before;
  }

  lemma {:induction false} FoldPair(fields: seq<Field>)
    ensures var r := Fold(fields, KeyAndValue([], None), VisitKeyValue);
            && (r.Ok? <==> forall f :: f in fields ==> GoodPairField(f))
            && (r.Ok? ==> r.value == KeyAndValue(LastKey(fields), LastValue(fields)))
    decreases |fields|
  {
    hide Fold, DecodeAny, LastText, LastValue;
    if |fields| == 0 {
      assert fields == [];
      NothingLast();
      FoldNothing(KeyAndValue([], None), VisitKeyValue);
    } else {
      var before, f := fields[..|fields| - 1], fields[|fields| - 1];
      assert fields == before + [f];
      assert f in fields && forall g :: g in before ==> g in fields;
      FoldPair(before);
      FoldSnoc(before, f, KeyAndValue([], None), VisitKeyValue);
      LastTextSnoc(before, f, 1);
    }
  }

  lemma FoldNothing<S>(state: S, visit: (S, Field) -> Result<S>)
    ensures Fold([], state, visit) == Ok(state)
  {
  }

  lemma NothingLast()
    ensures LastText([], 1) == None && LastText([], 2) == None && LastValue([]) == None
  {
  }

  /**
    * A pair has the key of its last key field and the last value that is not empty; without a value there is no pair.
    */
  lemma PairLastWins(s: bytes)
    ensures DecodeKeyValue(s).Ok? <==> Fields(s).stop.None? && forall f :: f in Fields(s).fields ==> GoodPairField(f)
    ensures DecodeKeyValue(s).Ok? ==>
      match LastValue(Fields(s).fields)
      case None => DecodeKeyValue(s).value == None
      case Some(value) => DecodeKeyValue(s).value == Some((LastKey(Fields(s).fields), value))
  {
    hide Fold, WalkFrom, GoodPairField, LastKey, LastValue;
    FoldPair(Fields(s).fields);
  }

  predicate GoodScopeField(f: Field) {
    f.payload.Group? || (f.number in {1, 2} ==> f.payload.Len? && IsUtf8(f.payload.slice))
  }

  function Later(last: Option<bytes>, before: Option<bytes>): Option<bytes> {
    if last.Some? then last else before
  }

  lemma {:induction false} FoldScope(fields: seq<Field>, scope: ScopeFields)
    ensures var r := Fold(fields, scope, VisitScope);
            && (r.Ok? <==> forall f :: f in fields ==> GoodScopeField(f))
            && (r.Ok? ==>
                r.value == ScopeFields(Later(LastText(fields, 1), scope.name),
                  Later(LastText(fields, 2), scope.version)))
    decreases |fields|
  {
    hide Fold, IsUtf8, LastText;
    if |fields| == 0 {
      assert fields == [];
      NothingLast();
      FoldNothing(scope, VisitScope);
    } else {
      var before, f := fields[..|fields| - 1], fields[|fields| - 1];
      assert fields == before + [f];
      assert f in fields && forall g :: g in before ==> g in fields;
      FoldScope(before, scope);
      FoldSnoc(before, f, scope, VisitScope);
      LastTextSnoc(before, f, 1);
      LastTextSnoc(before, f, 2);
    }
  }

  /** Merging a scope message takes its last name and its last version, and keeps what it does not mention. */
  lemma ScopeLastWins(s: bytes, scope: ScopeFields)
    ensures var fields, r := Fields(s).fields, MergeScope(s, scope);
            && (r.Ok? <==> Fields(s).stop.None? && forall f :: f in fields ==> GoodScopeField(f))
            && (r.Ok? ==>
                r.value == ScopeFields(Later(LastText(fields, 1), scope.name),
                  Later(LastText(fields, 2), scope.version)))
  {
    hide Fold, WalkFrom, GoodScopeField, LastText, Later;
    FoldScope(Fields(s).fields, scope);
  }

  // ----- Attribute ranges -----

  /** The attribute payloads themselves. */
  function AttrPayloads(fields: seq<Field>): seq<bytes> {
    if |fields| == 0 then []
    else
      var f := fields[|fields| - 1];
      AttrPayloads(fields[..|fields| - 1]) +
      if f.number == 6 && f.payload.Len? then [f.payload.slice] else []
  }

  ghost predicate Slices(s: bytes, ranges: seq<(nat, nat)>, payloads: seq<bytes>) {
    |ranges| == |payloads| &&
    forall i :: 0 <= i < |ranges| ==>
      ranges[i].0 + ranges[i].1 <= |s| && s[ranges[i].0..ranges[i].0 + ranges[i].1] == payloads[i]
  }

  ghost predicate OrderedAndDisjoint(ranges: seq<(nat, nat)>) {
    forall i, j :: 0 <= i < j < |ranges| ==> ranges[i].0 + ranges[i].1 <= ranges[j].0
  }

  ghost predicate Laid(fields: seq<Field>) {
    forall i, j :: 0 <= i < j < |fields| ==> fields[i].at + PayloadSize(fields[i].payload) <= fields[j].at
  }

  lemma {:induction false} RangesSlice(s: bytes, fields: seq<Field>)
    requires forall f :: f in fields ==> InPlace(s, f, 0)
    ensures Slices(s, AttrRanges(fields), AttrPayloads(fields))
    decreases |fields|
  {
    if |fields| > 0 {
      var before, f := fields[..|fields| - 1], fields[|fields| - 1];
      RangesSlice(s, before);
      assert f in fields && InPlace(s, f, 0);
    }
  }

  lemma {:induction false} RangesEndBefore(fields: seq<Field>, limit: nat)
    requires forall i :: 0 <= i < |fields| ==> fields[i].at + PayloadSize(fields[i].payload) <= limit
    ensures forall i :: 0 <= i < |AttrRanges(fields)| ==> AttrRanges(fields)[i].0 + AttrRanges(fields)[i].1 <= limit
    decreases |fields|
  {
    if |fields| > 0 {
      RangesEndBefore(fields[..|fields| - 1], limit);
    }
  }

  lemma {:induction false} RangesOrdered(fields: seq<Field>)
    requires Laid(fields)
    ensures OrderedAndDisjoint(AttrRanges(fields))
    decreases |fields|
  {
    if |fields| > 0 {
      var before := fields[..|fields| - 1];
      RangesOrdered(before);
      RangesEndBefore(before, fields[|fields| - 1].at);
    }
  }

  /** The recorded ranges are in bounds, ordered and disjoint, and slice out exactly the attribute payloads. */
  lemma RangesSliceAttributes(s: bytes)
    requires DecodeRecord(s).Ok?
    ensures Slices(s, DecodeRecord(s).value.attrRanges, AttrPayloads(Fields(s).fields))
    ensures OrderedAndDisjoint(DecodeRecord(s).value.attrRanges)
  {
    hide WalkFrom, DecodeRecord, GoodRecordField;
    RecordLastWins(s);
    WalkInPlace(s, 0);
    RangesSlice(s, Fields(s).fields);
    RangesOrdered(Fields(s).fields);
  }

  // ----- Merging -----

  function Shifted(ranges: seq<(nat, nat)>, shift: nat): (r: seq<(nat, nat)>)
    ensures |r| == |ranges|
    ensures forall i :: 0 <= i < |r| ==> r[i] == (ranges[i].0 + shift, ranges[i].1)
  {
    seq(|ranges|, i requires 0 <= i < |ranges| => (ranges[i].0 + shift, ranges[i].1))
  }

  predicate Has(fields: seq<Field>, number: nat) {
    Last(fields, number).Some?
  }

  /** `b` after `a`: what `b` mentions wins, an empty body does not, and the ranges of `b` move behind `a`. */
  function Merged(a: Record, b: Record, mentioned: seq<Field>, shift: nat): Record {
    Record(
      if Has(mentioned, 1) then b.time else a.time,
      if Has(mentioned, 11) then b.observed else a.observed,
      if Has(mentioned, 2) then b.severityNumber else a.severityNumber,
      if Has(mentioned, 3) then b.severityText else a.severityText,
      if b.body.Some? then b.body else a.body,
      if Has(mentioned, 9) then b.traceId else a.traceId,
      if Has(mentioned, 10) then b.spanId else a.spanId,
      if Has(mentioned, 8) then b.flags else a.flags,
      a.attrRanges + Shifted(b.attrRanges, shift))
  }

  lemma {:induction false} LastConcat(a: seq<Field>, b: seq<Field>, shift: nat, number: nat)
    ensures Last(a + MovedAll(b, shift), number) == if Has(b, number) then Last(b, number) else Last(a, number)
    decreases |b|
  {
    if |b| == 0 {
      assert a + MovedAll(b, shift) == a;
    } else {
      var before := b[..|b| - 1];
      assert (a + MovedAll(b, shift))[..|a| + |before|] == a + MovedAll(before, shift);
      LastConcat(a, before, shift, number);
    }
  }

  lemma {:induction false} BodyAndRangesConcat(a: seq<Field>, b: seq<Field>, shift: nat)
    ensures LastBody(a + MovedAll(b, shift)) == if LastBody(b).Some? then LastBody(b) else LastBody(a)
    ensures AttrRanges(a + MovedAll(b, shift)) == AttrRanges(a) + Shifted(AttrRanges(b), shift)
    decreases |b|
  {
    hide DecodeAny;
    if |b| == 0 {
      assert a + MovedAll(b, shift) == a;
    } else {
      var before := b[..|b| - 1];
      assert (a + MovedAll(b, shift))[..|a| + |before|] == a + MovedAll(before, shift);
      BodyAndRangesConcat(a, before, shift);
    }
  }

  lemma MergedRecord(a: seq<Field>, b: seq<Field>, shift: nat)
    ensures RecordOf(a + MovedAll(b, shift)) == Merged(RecordOf(a), RecordOf(b), b, shift)
  {
    hide Last, LastBody, AttrRanges;
    LastConcat(a, b, shift, 1);
    LastConcat(a, b, shift, 2);
    LastConcat(a, b, shift, 3);
    LastConcat(a, b, shift, 8);
    LastConcat(a, b, shift, 9);
    LastConcat(a, b, shift, 10);
    LastConcat(a, b, shift, 11);
    BodyAndRangesConcat(a, b, shift);
  }

  lemma GoodFieldsMoved(b: seq<Field>, shift: nat)
    ensures (forall f :: f in MovedAll(b, shift) ==> GoodRecordField(f)) <==>
      (forall f :: f in b ==> GoodRecordField(f))
  {
    hide DecodeAny, IsUtf8;
    var moved := MovedAll(b, shift);
    forall i | 0 <= i < |b| ensures GoodRecordField(moved[i]) <==> GoodRecordField(b[i]) {
      assert moved[i] == Moved(b[i], shift);
    }
    if forall f :: f in moved ==> GoodRecordField(f) {
      forall f | f in b ensures GoodRecordField(f) {
        var i :| 0 <= i < |b| && b[i] == f;
        assert moved[i] in moved;
      }
    }
  }

  /** Decoding a log record is a merge over concatenation. */
  lemma RecordConcat(a: bytes, b: bytes)
    requires DecodeRecord(a).Ok?
    ensures DecodeRecord(a + b).Ok? <==> DecodeRecord(b).Ok?
    ensures DecodeRecord(b).Ok? ==>
      DecodeRecord(a + b) == Ok(Merged(DecodeRecord(a).value, DecodeRecord(b).value, Fields(b).fields, |a|))
  {
    hide DecodeRecord, WalkFrom, GoodRecordField, RecordOf, Merged;
    RecordLastWins(a);
    RecordLastWins(b);
    RecordLastWins(a + b);
    WalkConcat(a, b, 0);
    WalkMoved(b, 0, |a|);
    var fa, fb := Fields(a).fields, Fields(b).fields;
    GoodFieldsMoved(fb, |a|);
    assert forall f :: f in Fields(a + b).fields <==> f in fa || f in MovedAll(fb, |a|);
    MergedRecord(fa, fb, |a|);
  }
}

/** `decode_kv_inline`: the closure-free decoder that production runs in place of the reference one. */
module Inline {
  import opened Bytes
  import opened Options
  import opened Varint
  import opened Wire
  import opened Walk
  import opened Decode

  /** The wire type each decoder insists on for the numbers it knows. */
  type Expected = nat -> Option<nat>

  function ExpectedAny(number: nat): Option<nat> {
    match number
    case 1 => Some(2)
    case 2 => Some(0)
    case 3 => Some(0)
    case 4 => Some(1)
    case 5 => Some(2)
    case 6 => Some(2)
    case 7 => Some(2)
    case _ => None
  }

  function ExpectedKeyValue(number: nat): Option<nat> {
    if number == 1 || number == 2 then Some(2) else None
  }

  /** `(tag >> 3) as u32`: the number is cut to 32 bits and never range-checked. */
  function InlineNumber(tag: u64): nat {
    tag / 8 % 0x1_0000_0000
  }

  /** One turn of the inline loops: a known number with another wire type fails before its value is read. */
  function InlineField(s: bytes, base: nat, expected: Expected): (r: Result<Step>)
    ensures r.Ok? ==> 1 <= r.value.used <= |s|
  {
    var tag :- ReadVarint(s);
    var number, wireType := InlineNumber(tag.value), tag.value % 8;
    if expected(number).Some? && expected(number).value != wireType then Err(WrongWireType)
    else
      var token :- ReadPayload(s[tag.used..], wireType, number, tag.used);
      match token
      case Scalar(_, payload, used) => Ok(Step(Field(number, payload, base + used - PayloadSize(payload)), used))
      case Start(_, used) =>
        var n :- GroupBody(s[used..], number, 1);
        Ok(Step(Field(number, Group, base + used + n), used + n))
      case End(_, _) => Err(UnexpectedEndGroup)
  }

  function InlineWalk(s: bytes, base: nat, expected: Expected): Walked
    decreases |s|
  {
    if |s| == 0 then Walked([], None)
    else
      match InlineField(s, base, expected)
      case Err(e) => Walked([], Some(e))
      case Ok(step) =>
        var rest := InlineWalk(s[step.used..], base + step.used, expected);
        Walked([step.field] + rest.fields, rest.stop)
  }

  /** `decode_any_value_inline`. */
  function InlineAny(s: bytes): Result<Option<WireAny>> {
    Visit(InlineWalk(s, 0, ExpectedAny), None, VisitAny)
  }

  function VisitKeyValueInline(out: KeyAndValue, f: Field): Result<KeyAndValue> {
    match f.number
    case 1 => if f.payload.Len? then Ok(out.(key := f.payload.slice)) else Err(WrongWireType)
    case 2 =>
      if !f.payload.Len? then Err(WrongWireType)
      else
        var decoded :- InlineAny(f.payload.slice);
        Ok(if decoded.Some? then out.(value := decoded) else out)
    case _ => Ok(out)
  }

  /** `decode_kv_inline`. */
  function InlineKeyValue(s: bytes): Result<Option<(bytes, WireAny)>> {
    var kv :- Visit(InlineWalk(s, 0, ExpectedKeyValue), KeyAndValue([], None), VisitKeyValueInline);
    Ok(Pair(kv))
  }

  // ----- The loops -----

  lemma InlineStep(s: bytes, base: nat, expected: Expected)
    ensures |s| == 0 ==> InlineWalk(s, base, expected) == Walked([], None)
    ensures |s| > 0 && InlineField(s, base, expected).Err? ==>
      InlineWalk(s, base, expected) == Walked([], Some(InlineField(s, base, expected).error))
    ensures |s| > 0 && InlineField(s, base, expected).Ok? ==>
      var step := InlineField(s, base, expected).value;
      var rest := InlineWalk(s[step.used..], base + step.used, expected);
      InlineWalk(s, base, expected) == Walked([step.field] + rest.fields, rest.stop)
  {
    hide InlineField;
  }

  method DecodeAnyValueInline(input: bytes) returns (r: Result<Option<WireAny>>)
    ensures r == InlineAny(input)
  {
    hide InlineField, InlineWalk, Visit, VisitAny;
    var rest, pos: nat, out := input, 0, None;
    while |rest| > 0
      invariant Visit(InlineWalk(rest, pos, ExpectedAny), out, VisitAny) == InlineAny(input)
      decreases |rest|
    {
      InlineStep(rest, pos, ExpectedAny);
      var step := InlineField(rest, pos, ExpectedAny);
      if step.Err? {
        VisitStop(step.error, out, VisitAny);
        return Err(step.error);
      }
      var Step(field, used) := step.value;
      VisitStep(field, InlineWalk(rest[used..], pos + used, ExpectedAny), out, VisitAny);
      if !field.payload.Group? {
        out :- VisitAny(out, field);
      }
      rest, pos := rest[used..], pos + used;
    }
    InlineStep(rest, pos, ExpectedAny);
    VisitEnd(out, VisitAny);
    return Ok(out);
  }

  method DecodeKvInline(input: bytes) returns (r: Result<Option<(bytes, WireAny)>>)
    ensures r == InlineKeyValue(input)
  {
    hide InlineField, InlineWalk, Visit, InlineAny;
    var rest, pos: nat, key, value := input, 0, [], None;
    ghost var whole := Visit(InlineWalk(input, 0, ExpectedKeyValue), KeyAndValue([], None), VisitKeyValueInline);
    while |rest| > 0
      invariant Visit(InlineWalk(rest, pos, ExpectedKeyValue), KeyAndValue(key, value), VisitKeyValueInline) == whole
      decreases |rest|
    {
      InlineStep(rest, pos, ExpectedKeyValue);
      var step := InlineField(rest, pos, ExpectedKeyValue);
      if step.Err? {
        VisitStop(step.error, KeyAndValue(key, value), VisitKeyValueInline);
        return Err(step.error);
      }
      var Step(field, used) := step.value;
      VisitStep(
        field, InlineWalk(rest[used..], pos + used, ExpectedKeyValue), KeyAndValue(key, value), VisitKeyValueInline);
      match field.payload {
        case Group =>
        case Len(slice) =>
          if field.number == 1 {
            key := slice;
          } else if field.number == 2 {
            var decoded :- DecodeAnyValueInline(slice);
            if decoded.Some? {
              value := decoded;
            }
          }
        case _ =>
          if field.number == 1 || field.number == 2 {
            return Err(WrongWireType);
          }
      }
      rest, pos := rest[used..], pos + used;
    }
    InlineStep(rest, pos, ExpectedKeyValue);
    VisitEnd(KeyAndValue(key, value), VisitKeyValueInline);
    return Ok(Pair(KeyAndValue(key, value)));
  }

  // ----- Where the two walks agree -----

  function WireTypeOf(payload: Payload): nat {
    match payload
    case Varint(_) => 0
    case Fixed64(_) => 1
    case Len(_) => 2
    case Group => 3
    case Fixed32(_) => 5
  }

  /** No known number, and in particular no group, has an unexpected wire type. */
  predicate WellTyped(fields: seq<Field>, expected: Expected) {
    forall f :: f in fields && expected(f.number).Some? ==> expected(f.number).value == WireTypeOf(f.payload)
  }

  /** The full field number of every tag the inline loop reads lies in the protobuf range. */
  predicate NumbersInRange(s: bytes, expected: Expected)
    decreases |s|
  {
    |s| == 0 || ReadVarint(s).Err? ||
    (1 <= ReadVarint(s).value.value / 8 <= 0x1FFF_FFFF &&
     (InlineField(s, 0, expected).Err? || NumbersInRange(s[InlineField(s, 0, expected).value.used..], expected)))
  }

  lemma InlineFieldVsNext(s: bytes, base: nat, expected: Expected)
    requires |s| > 0
    ensures NextField(s, base).Ok? ==>
      var f := NextField(s, base).value.field;
      if expected(f.number).Some? && expected(f.number).value != WireTypeOf(f.payload)
      then InlineField(s, base, expected).Err?
      else InlineField(s, base, expected) == NextField(s, base)
    ensures InlineField(s, base, expected).Ok? ==>
      ReadVarint(s).Ok? &&
      if 1 <= ReadVarint(s).value.value / 8 <= MAX_FIELD_NUMBER
      then NextField(s, base) == InlineField(s, base, expected)
      else NextField(s, base).Err?
    ensures InlineField(s, base, expected).Ok? ==>
      var f := InlineField(s, base, expected).value.field;
      expected(f.number).Some? ==> expected(f.number).value == WireTypeOf(f.payload)
  {
    hide ReadVarint, GroupBody, LittleEndian;
  }

  /**
    * On a framed message the inline walk is the strict one exactly when every known field is well typed; else it
    * stops.
    */
  lemma {:induction false} StrictToInline(s: bytes, base: nat, expected: Expected)
    requires WalkFrom(s, base).stop.None?
    ensures WellTyped(WalkFrom(s, base).fields, expected) ==> InlineWalk(s, base, expected) == WalkFrom(s, base)
    ensures !WellTyped(WalkFrom(s, base).fields, expected) ==> InlineWalk(s, base, expected).stop.Some?
    decreases |s|
  {
    hide InlineField, InlineWalk, NextField, WalkFrom;
    WalkStep(s, base);
    InlineStep(s, base, expected);
    if |s| > 0 {
      InlineFieldVsNext(s, base, expected);
      var step := NextField(s, base).value;
      var rest := WalkFrom(s[step.used..], base + step.used).fields;
      assert WalkFrom(s, base).fields == [step.field] + rest;
      StrictToInline(s[step.used..], base + step.used, expected);
    }
  }

  lemma InlineFieldMoved(s: bytes, base: nat, expected: Expected)
    ensures InlineField(s, base, expected).Ok? <==> InlineField(s, 0, expected).Ok?
    ensures InlineField(s, base, expected).Ok? ==>
      InlineField(s, base, expected).value.used == InlineField(s, 0, expected).value.used
  {
    hide ReadVarint, GroupBody, ReadPayload;
  }

  /** If the inline walk ends well, the strict one agrees exactly when every number was in range; else it stops. */
  lemma {:induction false} InlineToStrict(s: bytes, base: nat, expected: Expected)
    requires InlineWalk(s, base, expected).stop.None?
    ensures NumbersInRange(s, expected) ==> WalkFrom(s, base) == InlineWalk(s, base, expected)
    ensures !NumbersInRange(s, expected) ==> WalkFrom(s, base).stop.Some?
    ensures WellTyped(InlineWalk(s, base, expected).fields, expected)
    decreases |s|
  {
    hide InlineField, InlineWalk, NextField, WalkFrom, ReadVarint;
    WalkStep(s, base);
    InlineStep(s, base, expected);
    if |s| > 0 {
      InlineFieldVsNext(s, base, expected);
      InlineFieldMoved(s, base, expected);
      var step := InlineField(s, base, expected).value;
      InlineToStrict(s[step.used..], base + step.used, expected);
    }
  }

  // ----- AnyValue -----

  /** No group has a number from 1 to `last`. */
  predicate NoKnownGroup(fields: seq<Field>, last: nat) {
    forall f :: f in fields && f.payload.Group? ==> !(1 <= f.number <= last)
  }

  lemma {:induction false} FoldAnyIsTyped(fields: seq<Field>, out: Option<WireAny>)
    requires Fold(fields, out, VisitAny).Ok?
    ensures NoKnownGroup(fields, 7) <==> WellTyped(fields, ExpectedAny)
    decreases |fields|
  {
    if |fields| > 0 {
      assert fields == [fields[0]] + fields[1..];
      if fields[0].payload.Group? {
        FoldAnyIsTyped(fields[1..], out);
      } else {
        FoldAnyIsTyped(fields[1..], VisitAny(out, fields[0]).value);
      }
    }
  }

  /** Where the reference decoder succeeds, the inline one agrees exactly if no group carries a known number. */
  lemma AnyFromReference(s: bytes)
    requires DecodeAny(s).Ok?
    ensures InlineAny(s) == DecodeAny(s) <==> NoKnownGroup(Fields(s).fields, 7)
    ensures InlineAny(s) == DecodeAny(s) || InlineAny(s).Err?
  {
    hide WalkFrom, InlineWalk, Fold, WellTyped, NoKnownGroup;
    FoldAnyIsTyped(Fields(s).fields, None);
    StrictToInline(s, 0, ExpectedAny);
  }

  /** Where the inline decoder succeeds, the reference one agrees exactly if all field numbers were in range. */
  lemma AnyFromInline(s: bytes)
    requires InlineAny(s).Ok?
    ensures DecodeAny(s) == InlineAny(s) <==> NumbersInRange(s, ExpectedAny)
    ensures DecodeAny(s) == InlineAny(s) || DecodeAny(s).Err?
  {
    hide WalkFrom, InlineWalk, Fold, WellTyped, NumbersInRange;
    InlineToStrict(s, 0, ExpectedAny);
  }

  // ----- KeyValue -----

  predicate ValuesPlain(fields: seq<Field>) {
    forall f :: f in fields && f.number == 2 && f.payload.Len? ==>
      NoKnownGroup(Fields(f.payload.slice).fields, 7)
  }

  /** No group with number 1 or 2 in the pair, and none with a number from 1 to 7 in its values. */
  predicate PlainPair(fields: seq<Field>) {
    NoKnownGroup(fields, 2) && ValuesPlain(fields)
  }

  predicate ValuesInRange(fields: seq<Field>) {
    forall f :: f in fields && f.number == 2 && f.payload.Len? ==> NumbersInRange(f.payload.slice, ExpectedAny)
  }

  /**
    * Where the reference visitor succeeds, the inline one does so exactly on values free of known groups, with the
    * same state.
    */
  lemma {:induction false} FoldPairFromReference(fields: seq<Field>, out: KeyAndValue)
    requires Fold(fields, out, VisitKeyValue).Ok?
    ensures WellTyped(fields, ExpectedKeyValue) <==> NoKnownGroup(fields, 2)
    ensures if ValuesPlain(fields) then Fold(fields, out, VisitKeyValueInline) == Fold(fields, out, VisitKeyValue)
            else Fold(fields, out, VisitKeyValueInline).Err?
    decreases |fields|
  {
    hide DecodeAny, InlineAny, WalkFrom;
    if |fields| > 0 {
      var f, rest := fields[0], fields[1..];
      assert fields == [f] + rest;
      if f.payload.Group? {
        FoldPairFromReference(rest, out);
      } else {
        if f.number == 2 {
          AnyFromReference(f.payload.slice);
        }
        FoldPairFromReference(rest, VisitKeyValue(out, f).value);
      }
    }
  }

  lemma {:induction false} FoldPairFromInline(fields: seq<Field>, out: KeyAndValue)
    requires Fold(fields, out, VisitKeyValueInline).Ok?
    ensures if ValuesInRange(fields) then Fold(fields, out, VisitKeyValue) == Fold(fields, out, VisitKeyValueInline)
            else Fold(fields, out, VisitKeyValue).Err?
    decreases |fields|
  {
    hide DecodeAny, InlineAny, NumbersInRange;
    if |fields| > 0 {
      var f, rest := fields[0], fields[1..];
      assert fields == [f] + rest;
      if f.payload.Group? {
        FoldPairFromInline(rest, out);
      } else {
        if f.number == 2 {
          AnyFromInline(f.payload.slice);
        }
        FoldPairFromInline(rest, VisitKeyValueInline(out, f).value);
      }
    }
  }

  /** Wherever the reference decoder succeeds, the inline one agrees exactly when no group carries a known number. */
  lemma InlineFollowsReference(s: bytes)
    requires DecodeKeyValue(s).Ok?
    ensures InlineKeyValue(s) == DecodeKeyValue(s) <==> PlainPair(Fields(s).fields)
  {
    hide WalkFrom, InlineWalk, Fold, WellTyped, NoKnownGroup, ValuesPlain;
    StrictToInline(s, 0, ExpectedKeyValue);
    FoldPairFromReference(Fields(s).fields, KeyAndValue([], None));
  }

  /** Wherever the inline decoder succeeds, the reference one agrees exactly when every field number was in range. */
  lemma ReferenceFollowsInline(s: bytes)
    requires InlineKeyValue(s).Ok?
    ensures DecodeKeyValue(s) == InlineKeyValue(s)
      <==> NumbersInRange(s, ExpectedKeyValue) && ValuesInRange(InlineWalk(s, 0, ExpectedKeyValue).fields)
  {
    hide WalkFrom, InlineWalk, Fold, WellTyped, NumbersInRange, ValuesInRange;
    InlineToStrict(s, 0, ExpectedKeyValue);
    FoldPairFromInline(InlineWalk(s, 0, ExpectedKeyValue).fields, KeyAndValue([], None));
  }

  /** A group that carries the number of the key is skipped by the reference decoder and refused by the inline one. */
  lemma KnownGroupDiffers()
    ensures DecodeKeyValue([0x0b, 0x0c]) == Ok(None) && InlineKeyValue([0x0b, 0x0c]) == Err(WrongWireType)
  {
    hide ReadVarint, GroupBody, ReadToken, NextField;
    var s: bytes := [0x0b, 0x0c];
    OneGroup();
    assert s[2..] == [];
    WalkStep(s, 0);
    WalkStep([], 2);
    assert Fields(s) == Walked([Field(1, Group, 2)], None);
    InlineStep(s, 0, ExpectedKeyValue);
  }

  lemma OneGroup()
    ensures ReadVarint([0x0b, 0x0c]) == Ok(Read(0x0b, 1))
    ensures NextField([0x0b, 0x0c], 0) == Ok(Step(Field(1, Group, 2), 2))
  {
    var s: bytes := [0x0b, 0x0c];
    assert ReadVarint(s) == Ok(Read(0x0b, 1)) && ReadVarint([0x0c]) == Ok(Read(0x0c, 1));
    assert s[1..] == [0x0c] && [0x0c][1..] == [];
    assert ReadToken([0x0c]) == Ok(End(1, 1));
    assert GroupBody([0x0c], 1, 1) == Ok(1);
  }

  /** A field whose number is zero is refused by the reference decoder and skipped by the inline one. */
  lemma NumberZeroDiffers()
    ensures DecodeKeyValue([0x00, 0x00]) == Err(FieldNumberZero) && InlineKeyValue([0x00, 0x00]) == Ok(None)
  {
    var s: bytes := [0x00, 0x00];
    assert ReadVarint(s) == Ok(Read(0, 1)) && ReadVarint([0x00]) == Ok(Read(0, 1));
    assert s[1..] == [0x00] && s[2..] == [];
    WalkStep(s, 0);
    var field := Field(0, Varint(0), 2);
    assert InlineField(s, 0, ExpectedKeyValue) == Ok(Step(field, 2));
    InlineStep(s, 0, ExpectedKeyValue);
    InlineStep([], 2, ExpectedKeyValue);
    VisitStep(field, Walked([], None), KeyAndValue([], None), VisitKeyValueInline);
    VisitEnd(KeyAndValue([], None), VisitKeyValueInline);
  }

  /** A number beyond the range is refused by the reference decoder and taken modulo 2^32 by the inline one. */
  lemma WrappedNumberDiffers(number: nat, data: bytes)
    requires 0x1FFF_FFFF < number < 0x2000_0000_0000_0000 && number % 0x1_0000_0000 == 7
    requires |data| < 0x8000_0000_0000_0000
    ensures var s := PushVarint(8 * number + 2) + PushVarint(|data|) + data;
            DecodeAny(s) == Err(FieldNumberOutOfRange) && InlineAny(s) == Ok(Some(BytesValue(data)))
  {
    hide PushVarint, InlineField, NextField;
    var s := PushVarint(8 * number + 2) + PushVarint(|data|) + data;
    WrappedReads(number, data);
    WalkStep(s, 0);
    VisitStop<Option<WireAny>>(FieldNumberOutOfRange, None, VisitAny);
    var field := Field(7, Len(data), |s| - |data|);
    InlineStep(s, 0, ExpectedAny);
    assert s[|s|..] == [];
    InlineStep([], |s|, ExpectedAny);
    VisitStep(field, Walked([], None), None, VisitAny);
    VisitEnd(Some(BytesValue(data)), VisitAny);
  }

  lemma WrappedReads(number: nat, data: bytes)
    requires 0x1FFF_FFFF < number < 0x2000_0000_0000_0000 && number % 0x1_0000_0000 == 7
    requires |data| < 0x8000_0000_0000_0000
    ensures var s := PushVarint(8 * number + 2) + PushVarint(|data|) + data;
            && |s| > 0 && NextField(s, 0) == Err(FieldNumberOutOfRange)
            && InlineField(s, 0, ExpectedAny) == Ok(Step(Field(7, Len(data), |s| - |data|), |s|))
  {
    hide PushVarint, ReadVarint, GroupBody, ReadPayload, InlineNumber;
    var key, rest := PushVarint(8 * number + 2), PushVarint(|data|) + data;
    var s := PushVarint(8 * number + 2) + PushVarint(|data|) + data;
    assert s == key + rest && s[|key|..] == rest;
    WrappedKey(number);
    ReadUndoesPush(8 * number + 2, rest);
    LenIsRead(data, 7, |key|);
  }

  lemma WrappedKey(number: nat)
    requires 0x1FFF_FFFF < number < 0x2000_0000_0000_0000 && number % 0x1_0000_0000 == 7
    ensures var tag: u64 := 8 * number + 2;
            tag / 8 == number && tag % 8 == 2 && InlineNumber(tag) == 7
  {
  }

  lemma LenIsRead(data: bytes, number: nat, keyLen: nat)
    requires |data| < 0x8000_0000_0000_0000
    ensures var t := PushVarint(|data|) + data;
            ReadPayload(t, 2, number, keyLen) == Ok(Scalar(number, Len(data), keyLen + |t|))
  {
    hide PushVarint, ReadVarint;
    var size := PushVarint(|data|);
    ReadUndoesPush(|data|, data);
    assert (size + data)[|size|..|size| + |data|] == data;
  }

  // ----- What a value decoded inline is -----

  /** The last known field is the value here too. */
  lemma InlineAnyIsLastKnown(s: bytes)
    ensures var w := InlineWalk(s, 0, ExpectedAny);
            && (InlineAny(s).Ok? <==> w.stop.None? && AllSay(w.fields))
            && (InlineAny(s).Ok? && (forall f :: f in w.fields ==> !IsAnyField(f)) ==> InlineAny(s).value == None)
            && (forall k: nat :: InlineAny(s).Ok? && IsLastKnown(w.fields, k) ==>
                  InlineAny(s).value.Some? && Says(w.fields[k], InlineAny(s).value.value))
  {
    hide InlineWalk, Fold, Says, AllSay, IsLastKnown;
    LastSays(InlineWalk(s, 0, ExpectedAny).fields, None);
  }
}

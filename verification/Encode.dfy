/** The protobuf field writers, and how the field walk reads each of them back. */
module Encode {
  import opened Bytes
  import opened Options
  import opened Varint
  import opened Wire
  import opened Walk

  /** Rust allocates at most `isize::MAX` bytes. */
  const MAX_BUFFER := 0x8000_0000_0000_0000

  type buffer = s: bytes | |s| < MAX_BUFFER

  /** A field number as the protos use them. */
  type number = n: int | 1 <= n <= MAX_FIELD_NUMBER witness 1

  /** `encode_tag`. */
  function TagText(field: number, wireType: nat): bytes {
    PushVarint(8 * field + wireType)
  }

  /** `encode_varint_field`. */
  function VarintText(field: number, value: u64): bytes {
    TagText(field, 0) + PushVarint(value)
  }

  /** `encode_fixed64`. */
  function Fixed64Text(field: number, value: u64): bytes {
    TagText(field, 1) + ToLittleEndian(value, 8)
  }

  /** `encode_fixed32`. */
  function Fixed32Text(field: number, value: u32): bytes {
    TagText(field, 5) + ToLittleEndian(value, 4)
  }

  /** `encode_bytes_field`. */
  function LenText(field: number, data: bytes): bytes {
    TagText(field, 2) + PushVarint(|data|) + data
  }

  /** `bytes_field_size`, computed before the bytes exist. */
  function LenTextSize(field: number, size: nat): nat
    requires size < MAX_BUFFER
  {
    VarintLen(8 * field + 2) + VarintLen(size) + size
  }

  lemma LenTextHasItsSize(field: number, data: buffer)
    ensures |LenText(field, data)| == LenTextSize(field, |data|)
  {
    VarintLenIsPushed(8 * field + 2);
    VarintLenIsPushed(|data|);
  }

  lemma TagReads(field: number, wireType: nat, rest: bytes)
    requires wireType < 8
    ensures var s := TagText(field, wireType) + rest;
            ReadToken(s) == ReadPayload(rest, wireType, field, |TagText(field, wireType)|)
  {
    hide PushVarint, ReadVarint, ReadPayload;
    var key: u64 := 8 * field + wireType;
    ReadUndoesPush(key, rest);
    assert (PushVarint(key) + rest)[|PushVarint(key)|..] == rest;
    assert key / 8 == field && key % 8 == wireType;
  }

  /** `s` is the text of exactly one field. */
  ghost predicate IsField(s: bytes, field: number, payload: Payload) {
    !payload.Group? && forall rest :: ReadToken(s + rest) == Ok(Scalar(field, payload, |s|))
  }

  lemma VarintTextReads(field: number, value: u64)
    ensures IsField(VarintText(field, value), field, Varint(value))
  {
    hide ReadVarint, PushVarint, ReadToken;
    forall rest
      ensures ReadToken(VarintText(field, value) + rest) == Ok(Scalar(field, Varint(value), |VarintText(field, value)|))
    {
      assert VarintText(field, value) + rest == TagText(field, 0) + (PushVarint(value) + rest);
      TagReads(field, 0, PushVarint(value) + rest);
      ReadUndoesPush(value, rest);
    }
  }

  lemma Fixed64TextReads(field: number, value: u64)
    ensures IsField(Fixed64Text(field, value), field, Fixed64(value))
  {
    hide ReadVarint, PushVarint, ReadToken, LittleEndian, ToLittleEndian;
    var word := ToLittleEndian(value, 8);
    assert Pow(256, 8) == 0x1_0000_0000_0000_0000;
    LittleEndianRoundTrip(value, 8);
    forall rest
      ensures ReadToken(Fixed64Text(field, value) + rest)
              == Ok(Scalar(field, Fixed64(value), |Fixed64Text(field, value)|))
    {
      assert Fixed64Text(field, value) + rest == TagText(field, 1) + (word + rest);
      TagReads(field, 1, word + rest);
      assert (word + rest)[..8] == word;
    }
  }

  lemma Fixed32TextReads(field: number, value: u32)
    ensures IsField(Fixed32Text(field, value), field, Fixed32(value))
  {
    hide ReadVarint, PushVarint, ReadToken, LittleEndian, ToLittleEndian;
    var word := ToLittleEndian(value, 4);
    assert Pow(256, 4) == 0x1_0000_0000;
    LittleEndianRoundTrip(value, 4);
    forall rest
      ensures ReadToken(Fixed32Text(field, value) + rest)
              == Ok(Scalar(field, Fixed32(value), |Fixed32Text(field, value)|))
    {
      assert Fixed32Text(field, value) + rest == TagText(field, 5) + (word + rest);
      TagReads(field, 5, word + rest);
      assert (word + rest)[..4] == word;
    }
  }

  lemma LenTextReads(field: number, data: buffer)
    ensures IsField(LenText(field, data), field, Len(data))
  {
    hide ReadVarint, PushVarint, ReadToken;
    var prefix := PushVarint(|data|);
    forall rest ensures ReadToken(LenText(field, data) + rest) == Ok(Scalar(field, Len(data), |LenText(field, data)|)) {
      assert LenText(field, data) + rest == TagText(field, 2) + (prefix + (data + rest));
      TagReads(field, 2, prefix + (data + rest));
      ReadUndoesPush(|data|, data + rest);
      assert (prefix + (data + rest))[|prefix|..|prefix| + |data|] == data;
    }
  }

  /** The walk of one field's text is that field. */
  lemma FieldWalks(s: bytes, field: number, payload: Payload, base: nat)
    requires IsField(s, field, payload)
    ensures 0 < |s| && PayloadSize(payload) <= |s|
    ensures WalkFrom(s, base) == Walked([Field(field, payload, base + |s| - PayloadSize(payload))], None)
  {
    hide ReadToken;
    assert s + [] == s;
    assert ReadToken(s + []) == Ok(Scalar(field, payload, |s|));
    assert NextField(s, base) == Ok(Step(Field(field, payload, base + |s| - PayloadSize(payload)), |s|));
    assert s[|s|..] == [];
  }

  /** Appending one field to a message visits that field next. */
  lemma AppendField<S>(s: bytes, t: bytes, field: number, payload: Payload, state: S, visit: (S, Field) -> Result<S>)
    requires Fields(s).stop.None? && ForEach(s, state, visit).Ok?
    requires IsField(t, field, payload)
    ensures PayloadSize(payload) <= |t|
    ensures Fields(s + t).stop.None?
    ensures var at := |s| + |t| - PayloadSize(payload);
            && Fields(s + t).fields == Fields(s).fields + [Field(field, payload, at)]
            && ForEach(s + t, state, visit) == visit(ForEach(s, state, visit).value, Field(field, payload, at))
  {
    hide WalkFrom, ReadToken, Visit;
    FieldWalks(t, field, payload, |s|);
    WalkConcat(s, t, 0);
    ForEachConcat(s, t, state, visit);
    OneFieldVisited(Field(field, payload, |s| + |t| - PayloadSize(payload)), ForEach(s, state, visit).value, visit);
  }

  lemma OneFieldVisited<S>(f: Field, state: S, visit: (S, Field) -> Result<S>)
    requires !f.payload.Group?
    ensures Visit(Walked([f], None), state, visit) == visit(state, f)
  {
    assert [f] + [] == [f];
    VisitStep(f, Walked([], None), state, visit);
    if visit(state, f).Ok? {
      VisitEnd(visit(state, f).value, visit);
    }
  }
}

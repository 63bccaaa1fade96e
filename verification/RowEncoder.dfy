/** The generated fast row encoder, and the decoder that undoes it. */
module RowEncoder {
  import opened Bytes
  import opened Options
  import opened Varint
  import opened Wire
  import opened Walk
  import opened Utf8
  import opened Encode
  import opened Decode
  import opened Preflight
  import opened Inline
  import opened Request
  import Json

  /** One cell of an attribute column; text cells are valid UTF-8, as Rust strings are. */
  datatype Cell =
    | NullCell
    | IntCell(i: int)
    | UIntCell(u: u64)
    | FloatCell(bits: u64)
    | BoolCell(flag: bool)
    | StrCell(text: buffer)
    | BytesCell(raw: buffer)

  datatype Column = Column(name: buffer, cell: Cell)

  /** A row after column resolution: what the encoder is about to write. */
  datatype LogRow = LogRow(
    timestamp: Option<u64>,
    severityNumber: u64,
    severityText: buffer,
    body: buffer,
    attributes: seq<Column>,
    flags: Option<u32>,
    traceId: Option<buffer>,
    spanId: Option<buffer>,
    observed: u64)

  // ----- Attributes -----

  predicate ValidCell(cell: Cell) {
    match cell
    case IntCell(i) => -0x8000_0000_0000_0000 <= i < 0x8000_0000_0000_0000
    case StrCell(text) => IsUtf8(text)
    case _ => true
  }

  /** The value a cell stands for; nulls and unsigned values beyond `i64` are not written. */
  function CellValue(cell: Cell): Option<WireAny> {
    match cell
    case NullCell => None
    case IntCell(i) => Some(IntValue(i))
    case UIntCell(u) => if u < 0x8000_0000_0000_0000 then Some(IntValue(u)) else None
    case FloatCell(bits) => Some(DoubleValue(bits))
    case BoolCell(flag) => Some(BoolValue(flag))
    case StrCell(text) => Some(StringValue(text))
    case BytesCell(raw) => Some(BytesValue(raw))
  }

  /** The `AnyValue` message of a value that is written. */
  function AnyText(cell: Cell): bytes
    requires ValidCell(cell) && CellValue(cell).Some?
  {
    match cell
    case IntCell(i) => VarintText(3, FromI64(i))
    case UIntCell(u) => VarintText(3, u)
    case FloatCell(bits) => Fixed64Text(4, bits)
    case BoolCell(flag) => VarintText(2, if flag then 1 else 0)
    case StrCell(text) => LenText(1, text)
    case BytesCell(raw) => LenText(7, raw)
  }

  function PairText(column: Column): bytes
    requires ValidCell(column.cell) && CellValue(column.cell).Some?
  {
    LenText(1, column.name) + LenText(2, AnyText(column.cell))
  }

  /** What the attribute loop appends for one column. */
  function ColumnText(column: Column): bytes
    requires ValidCell(column.cell)
  {
    if CellValue(column.cell).None? then [] else LenText(6, PairText(column))
  }

  /** `anyvalue_inner`, as the branches of `encode_col_attr` compute it. */
  function AnySize(cell: Cell): nat
    requires ValidCell(cell) && CellValue(cell).Some?
  {
    match cell
    case IntCell(i) => 1 + VarintLen(FromI64(i))
    case UIntCell(u) => 1 + VarintLen(u)
    case FloatCell(_) => 1 + 8
    case BoolCell(_) => 1 + 1
    case StrCell(text) => if |text| <= 125 then 2 + |text| else LenTextSize(1, |text|)
    case BytesCell(raw) => LenTextSize(7, |raw|)
  }

  lemma SmallTag(field: number, wireType: nat)
    requires 8 * field + wireType < 128
    ensures |TagText(field, wireType)| == 1
  {
  }

  lemma AnySizeIsRight(cell: Cell)
    requires ValidCell(cell) && CellValue(cell).Some?
    ensures AnySize(cell) == |AnyText(cell)|
  {
    hide IsUtf8, PushVarint, VarintLen;
    match cell
    case IntCell(i) =>
      SmallTag(3, 0);
      VarintLenIsPushed(FromI64(i));
    case UIntCell(u) =>
      SmallTag(3, 0);
      VarintLenIsPushed(u);
    case FloatCell(_) =>
      SmallTag(4, 1);
    case BoolCell(flag) =>
      SmallTag(2, 0);
      SmallVarint(if flag then 1 else 0);
    case StrCell(text) =>
      LenTextHasItsSize(1, text);
      SmallTag(1, 2);
      if |text| <= 125 {
        SmallVarint(|text|);
      }
    case BytesCell(raw) =>
      LenTextHasItsSize(7, raw);
  }

  lemma SmallVarint(value: nat)
    requires value < 128
    ensures |PushVarint(value)| == 1
  {
  }

  /** `kv_inner`: with the short-string shortcut it is the key cost plus 4 plus the text. */
  function PairSize(column: Column): nat
    requires ValidCell(column.cell) && CellValue(column.cell).Some?
    requires AnySize(column.cell) < MAX_BUFFER
  {
    var keyCost := LenTextSize(1, |column.name|);
    if column.cell.StrCell? && |column.cell.text| <= 125 then keyCost + 4 + |column.cell.text|
    else keyCost + LenTextSize(2, AnySize(column.cell))
  }

  lemma PairSizeIsRight(column: Column)
    requires ValidCell(column.cell) && CellValue(column.cell).Some?
    requires |AnyText(column.cell)| < MAX_BUFFER
    ensures AnySize(column.cell) < MAX_BUFFER
    ensures PairSize(column) == |PairText(column)|
  {
    hide IsUtf8, AnyText, AnySize, VarintLen;
    AnySizeIsRight(column.cell);
    LenTextHasItsSize(1, column.name);
    LenTextHasItsSize(2, AnyText(column.cell));
    ShortStrings(column.cell);
  }

  lemma ShortStrings(cell: Cell)
    ensures cell.StrCell? && |cell.text| <= 125 && ValidCell(cell) ==> AnySize(cell) == 2 + |cell.text| <= 127
    ensures forall size: u64 :: size <= 127 ==> VarintLen(size) == 1
  {
    hide IsUtf8;
  }

  /** The messages of one column fit in memory. */
  predicate Fits(column: Column)
    requires ValidCell(column.cell)
  {
    CellValue(column.cell).Some? ==>
      |AnyText(column.cell)| < MAX_BUFFER && |PairText(column)| < MAX_BUFFER
  }

  /** `encode_col_attr`: both length prefixes are written from the precomputed sizes. */
  method EncodeColAttr(buf: bytes, column: Column) returns (r: bytes)
    requires ValidCell(column.cell) && Fits(column)
    ensures r == buf + ColumnText(column)
  {
    hide IsUtf8, AnySize, PairSize, PushVarint, AnyText;
    if CellValue(column.cell).None? {
      return buf;
    }
    AnySizeIsRight(column.cell);
    PairSizeIsRight(column);
    r := buf + TagText(6, 2);
    r := r + PushVarint(PairSize(column));
    r := r + LenText(1, column.name);
    r := r + TagText(2, 2);
    r := r + PushVarint(AnySize(column.cell));
    r := r + AnyText(column.cell);
    Regrouped(buf, TagText(6, 2), PushVarint(PairSize(column)), LenText(1, column.name), TagText(2, 2),
              PushVarint(AnySize(column.cell)), AnyText(column.cell));
  }

  lemma Regrouped(buf: bytes, a: bytes, b: bytes, c: bytes, d: bytes, e: bytes, f: bytes)
    ensures buf + a + b + c + d + e + f == buf + (a + b + (c + (d + e + f)))
  {
  }

  // ----- Attributes decode back -----

  lemma NothingWalked<S>(state: S, visit: (S, Field) -> Result<S>)
    ensures Fields([]) == Walked([], None)
    ensures ForEach([], state, visit) == Ok(state)
  {
  }

  lemma OneField<S>(t: bytes, field: number, payload: Payload, state: S, visit: (S, Field) -> Result<S>)
    requires IsField(t, field, payload)
    ensures PayloadSize(payload) <= |t|
    ensures var f := Field(field, payload, |t| - PayloadSize(payload));
            Fields(t) == Walked([f], None) && ForEach(t, state, visit) == visit(state, f)
  {
    hide WalkFrom, IsField;
    NothingWalked(state, visit);
    AppendField([], t, field, payload, state, visit);
    assert [] + t == t;
  }

  lemma AnyTextReads(cell: Cell) returns (field: number, payload: Payload)
    requires ValidCell(cell) && CellValue(cell).Some? && |AnyText(cell)| < MAX_BUFFER
    ensures IsField(AnyText(cell), field, payload)
    ensures forall at :: VisitAny(None, Field(field, payload, at)) == Ok(CellValue(cell))
    ensures forall at :: FitField(Field(field, payload, at), AnyValue)
  {
    hide IsUtf8, IsField, Fit;
    match cell
    case IntCell(i) =>
      field, payload := 3, Varint(FromI64(i));
      VarintTextReads(3, FromI64(i));
    case UIntCell(u) =>
      field, payload := 3, Varint(u);
      VarintTextReads(3, u);
    case FloatCell(bits) =>
      field, payload := 4, Fixed64(bits);
      Fixed64TextReads(4, bits);
    case BoolCell(flag) =>
      field, payload := 2, Varint(if flag then 1 else 0);
      VarintTextReads(2, if flag then 1 else 0);
    case StrCell(text) =>
      field, payload := 1, Len(text);
      LenTextReads(1, text);
    case BytesCell(raw) =>
      field, payload := 7, Len(raw);
      LenTextReads(7, raw);
  }

  lemma AnyTextDecodes(cell: Cell)
    requires ValidCell(cell) && CellValue(cell).Some? && |AnyText(cell)| < MAX_BUFFER
    ensures DecodeAny(AnyText(cell)) == Ok(CellValue(cell))
    ensures Fit(AnyText(cell), AnyValue)
  {
    hide AnyText, CellValue, ValidCell, IsField, VisitAny, WalkFrom, FitField, ForEach;
    var field, payload := AnyTextReads(cell);
    OneField(AnyText(cell), field, payload, None, VisitAny);
  }

  /** Both pair decoders return the column's name and value, and the preflight accepts the pair. */
  lemma PairTextDecodes(column: Column)
    requires ValidCell(column.cell) && CellValue(column.cell).Some? && Fits(column)
    ensures DecodeKeyValue(PairText(column)) == Ok(Some((column.name, CellValue(column.cell).value)))
    ensures InlineKeyValue(PairText(column)) == Ok(Some((column.name, CellValue(column.cell).value)))
    ensures Fit(PairText(column), KeyValue)
  {
    hide AnyText, CellValue, ValidCell, IsField, WalkFrom, ForEach, DecodeAny, InlineKeyValue, LenText, Fit;
    var any: buffer := AnyText(column.cell);
    var key, value := LenText(1, column.name), LenText(2, any);
    LenTextReads(1, column.name);
    LenTextReads(2, any);
    AnyTextDecodes(column.cell);
    OneField(key, 1, Len(column.name), KeyAndValue([], None), VisitKeyValue);
    AppendField(key, value, 2, Len(any), KeyAndValue([], None), VisitKeyValue);
    PairIsFit(column, Fields(PairText(column)).fields, any);
    InlineOnFitPairs(PairText(column));
  }

  lemma PairIsFit(column: Column, fields: seq<Field>, any: bytes)
    requires ValidCell(column.cell) && CellValue(column.cell).Some?
    requires Fields(PairText(column)) == Walked(fields, None) && |fields| == 2
    requires fields[0].number == 1 && fields[0].payload == Len(column.name)
    requires fields[1].number == 2 && fields[1].payload == Len(any) && Fit(any, AnyValue)
    ensures Fit(PairText(column), KeyValue)
  {
    hide WalkFrom, AnyText, CellValue, ValidCell, LenText;
  }

  // ----- Rows -----

  predicate ValidRow(row: LogRow) {
    && IsUtf8(row.severityText)
    && IsUtf8(row.body)
    && |LenText(1, row.body)| < MAX_BUFFER
    && (row.traceId.Some? ==> |row.traceId.value| == 16)
    && (row.spanId.Some? ==> |row.spanId.value| == 8)
    && forall c :: c in row.attributes ==> ValidCell(c.cell) && Fits(c) && IsUtf8(c.name)
  }

  function ColumnsText(columns: seq<Column>): bytes
    requires forall c :: c in columns ==> ValidCell(c.cell)
  {
    if |columns| == 0 then []
    else ColumnsText(columns[..|columns| - 1]) + ColumnText(columns[|columns| - 1])
  }

  function TimePart(row: LogRow): bytes {
    if row.timestamp.Some? then Fixed64Text(1, row.timestamp.value) else []
  }

  function SeverityNumberPart(row: LogRow): bytes {
    if row.severityNumber > 0 then VarintText(2, row.severityNumber) else []
  }

  function SeverityTextPart(row: LogRow): bytes {
    if |row.severityText| > 0 then LenText(3, row.severityText) else []
  }

  function BodyPart(row: LogRow): bytes {
    if |row.body| > 0 then LenText(5, LenText(1, row.body)) else []
  }

  function FlagsPart(row: LogRow): bytes {
    if row.flags.Some? then Fixed32Text(8, row.flags.value) else []
  }

  function TracePart(row: LogRow): bytes {
    if row.traceId.Some? then LenText(9, row.traceId.value) else []
  }

  function SpanPart(row: LogRow): bytes {
    if row.spanId.Some? then LenText(10, row.spanId.value) else []
  }

  function HeadText(row: LogRow): bytes {
    TimePart(row) + SeverityNumberPart(row) + SeverityTextPart(row) + BodyPart(row)
  }

  /** The encoded log record. */
  function RowText(row: LogRow): bytes
    requires ValidRow(row)
  {
    HeadText(row) + ColumnsText(row.attributes)
    + FlagsPart(row) + TracePart(row) + SpanPart(row) + Fixed64Text(11, row.observed)
  }

  /** The body field: the inner length is computed before the inner field is written. */
  method EncodeBody(buf: bytes, row: LogRow) returns (r: bytes)
    requires |row.body| > 0 && |LenText(1, row.body)| < MAX_BUFFER
    ensures r == buf + BodyPart(row)
  {
    hide TagText, PushVarint, VarintLen;
    var anyvalueInnerSize := LenTextSize(1, |row.body|);
    LenTextHasItsSize(1, row.body);
    r := buf + TagText(5, 2);
    r := r + PushVarint(anyvalueInnerSize);
    r := r + LenText(1, row.body);
  }

  /** The fields in front of the attributes. */
  method EncodeHead(buf: bytes, row: LogRow) returns (r: bytes)
    requires |LenText(1, row.body)| < MAX_BUFFER
    ensures r == buf + HeadText(row)
  {
    hide LenText, VarintText, Fixed64Text;
    r := buf;
    if row.timestamp.Some? {
      r := r + Fixed64Text(1, row.timestamp.value);
    }
    assert r == buf + TimePart(row);
    if row.severityNumber > 0 {
      r := r + VarintText(2, row.severityNumber);
    }
    assert r == buf + TimePart(row) + SeverityNumberPart(row);
    if |row.severityText| > 0 {
      r := r + LenText(3, row.severityText);
    }
    assert r == buf + TimePart(row) + SeverityNumberPart(row) + SeverityTextPart(row);
    if |row.body| > 0 {
      r := EncodeBody(r, row);
    }
    assert r == buf + TimePart(row) + SeverityNumberPart(row) + SeverityTextPart(row) + BodyPart(row);
    Joined(buf, TimePart(row), SeverityNumberPart(row), SeverityTextPart(row), BodyPart(row), []);
  }

  /** `encode_row_as_log_record_fast_v1`, appending field after field to `buf`. */
  method EncodeRow(buf: bytes, row: LogRow) returns (r: bytes)
    requires ValidRow(row)
    ensures r == buf + RowText(row)
  {
    hide IsUtf8, HeadText, ColumnsText, FlagsPart, TracePart, SpanPart, LenText, Fixed64Text, ValidCell, Fits;
    r := EncodeHead(buf, row);
    r := EncodeAttributes(r, row.attributes);
    assert r == buf + (HeadText(row) + ColumnsText(row.attributes));
    r := EncodeTail(r, row);
    Joined(buf, HeadText(row) + ColumnsText(row.attributes), FlagsPart(row), TracePart(row), SpanPart(row),
           Fixed64Text(11, row.observed));
  }

  /** The fields behind the attributes. */
  method EncodeTail(buf: bytes, row: LogRow) returns (r: bytes)
    ensures r == buf + FlagsPart(row) + TracePart(row) + SpanPart(row) + Fixed64Text(11, row.observed)
  {
    hide LenText, Fixed64Text, Fixed32Text;
    r := buf;
    if row.flags.Some? {
      r := r + Fixed32Text(8, row.flags.value);
    }
    assert r == buf + FlagsPart(row);
    if row.traceId.Some? {
      r := r + LenText(9, row.traceId.value);
    }
    assert r == buf + FlagsPart(row) + TracePart(row);
    if row.spanId.Some? {
      r := r + LenText(10, row.spanId.value);
    }
    assert r == buf + FlagsPart(row) + TracePart(row) + SpanPart(row);
    r := r + Fixed64Text(11, row.observed);
  }

  lemma Joined(buf: bytes, a: bytes, b: bytes, c: bytes, d: bytes, e: bytes)
    ensures buf + a + b + c + d + e == buf + (a + b + c + d + e)
    ensures buf + a + b + c + d == buf + (a + b + c + d)
  {
  }

  /** The loop over the attribute columns. */
  method EncodeAttributes(buf: bytes, columns: seq<Column>) returns (r: bytes)
    requires forall c :: c in columns ==> ValidCell(c.cell) && Fits(c)
    ensures r == buf + ColumnsText(columns)
  {
    hide ColumnText, ValidCell, Fits;
    r := buf;
    for i := 0 to |columns|
      invariant r == buf + ColumnsText(columns[..i])
    {
      assert columns[i] in columns;
      assert columns[..i + 1][..i] == columns[..i];
      r := EncodeColAttr(r, columns[i]);
    }
    assert columns[..|columns|] == columns;
  }

  // ----- Rows decode back -----

  /** The record a row stands for. */
  function RowRecord(row: LogRow, ranges: seq<(nat, nat)>): Record {
    Record(
      if row.timestamp.Some? then row.timestamp.value else 0,
      row.observed,
      AsI32(row.severityNumber),
      NonEmpty(row.severityText),
      if |row.body| > 0 then Some(StringValue(row.body)) else None,
      row.traceId,
      row.spanId,
      if row.flags.Some? then row.flags.value else 0,
      ranges)
  }

  /** The pairs the row writes, one for each column that has a value. */
  function PairTexts(columns: seq<Column>): seq<bytes>
    requires forall c :: c in columns ==> ValidCell(c.cell)
  {
    if |columns| == 0 then []
    else
      var c := columns[|columns| - 1];
      PairTexts(columns[..|columns| - 1]) + if CellValue(c.cell).Some? then [PairText(c)] else []
  }

  /** `s` decodes to `record`, up to the ranges, with the given attribute payloads, and passes the preflight. */
  ghost predicate Holds(s: bytes, record: Record, payloads: seq<bytes>) {
    && Fields(s).stop.None?
    && DecodeRecord(s).Ok?
    && DecodeRecord(s).value == record.(attrRanges := DecodeRecord(s).value.attrRanges)
    && AttrPayloads(Fields(s).fields) == payloads
    && forall f :: f in Fields(s).fields ==> FitField(f, LogRecord)
  }

  lemma HoldsNothing()
    ensures Holds([], EMPTY_RECORD, [])
  {
    NothingWalked(EMPTY_RECORD, VisitRecord);
  }

  /** One more field: the record changes as the visitor says, and an attribute is one more payload. */
  lemma HoldsExtends(
    s: bytes, record: Record, payloads: seq<bytes>, t: bytes, field: number, payload: Payload, next: Record)
    requires Holds(s, record, payloads) && IsField(t, field, payload)
    requires forall r: Record, at :: r == record.(attrRanges := r.attrRanges) ==>
      var v := VisitRecord(r, Field(field, payload, at));
      v.Ok? && v.value == next.(attrRanges := v.value.attrRanges)
    requires forall at :: FitField(Field(field, payload, at), LogRecord)
    ensures Holds(s + t, next, if field == 6 && payload.Len? then payloads + [payload.slice] else payloads)
  {
    hide WalkFrom, IsField, FitField, VisitRecord, ForEach;
    AppendField(s, t, field, payload, EMPTY_RECORD, VisitRecord);
    var f := Field(field, payload, |s| + |t| - PayloadSize(payload));
    assert (Fields(s).fields + [f])[..|Fields(s).fields|] == Fields(s).fields;
  }

  lemma HoldsSame(s: bytes, t: bytes, record: Record, payloads: seq<bytes>)
    requires Holds(s, record, payloads) && |t| == 0
    ensures Holds(s + t, record, payloads)
  {
    assert s + t == s;
  }

  lemma HoldsTimes(s: bytes, record: Record, payloads: seq<bytes>, value: u64)
    requires Holds(s, record, payloads)
    ensures Holds(s + Fixed64Text(1, value), record.(time := value), payloads)
    ensures Holds(s + Fixed64Text(11, value), record.(observed := value), payloads)
  {
    hide Holds, IsField, DecodeAny, IsUtf8, Fit;
    Fixed64TextReads(1, value);
    HoldsExtends(s, record, payloads, Fixed64Text(1, value), 1, Fixed64(value), record.(time := value));
    Fixed64TextReads(11, value);
    HoldsExtends(s, record, payloads, Fixed64Text(11, value), 11, Fixed64(value), record.(observed := value));
  }

  lemma HoldsSeverityNumber(s: bytes, record: Record, payloads: seq<bytes>, value: u64)
    requires Holds(s, record, payloads)
    ensures Holds(s + VarintText(2, value), record.(severityNumber := AsI32(value)), payloads)
  {
    hide Holds, IsField, DecodeAny, IsUtf8, Fit;
    VarintTextReads(2, value);
    HoldsExtends(s, record, payloads, VarintText(2, value), 2, Varint(value), record.(severityNumber := AsI32(value)));
  }

  lemma HoldsFlags(s: bytes, record: Record, payloads: seq<bytes>, value: u32)
    requires Holds(s, record, payloads)
    ensures Holds(s + Fixed32Text(8, value), record.(flags := value), payloads)
  {
    hide Holds, IsField, DecodeAny, IsUtf8, Fit;
    Fixed32TextReads(8, value);
    HoldsExtends(s, record, payloads, Fixed32Text(8, value), 8, Fixed32(value), record.(flags := value));
  }

  lemma HoldsSlices(s: bytes, record: Record, payloads: seq<bytes>, data: buffer)
    requires Holds(s, record, payloads) && |data| > 0
    ensures IsUtf8(data) ==> Holds(s + LenText(3, data), record.(severityText := Some(data)), payloads)
    ensures Holds(s + LenText(9, data), record.(traceId := Some(data)), payloads)
    ensures Holds(s + LenText(10, data), record.(spanId := Some(data)), payloads)
  {
    hide Holds, IsField, DecodeAny, IsUtf8, Fit, LenText;
    LenTextReads(3, data);
    LenTextReads(9, data);
    LenTextReads(10, data);
    if IsUtf8(data) {
      HoldsExtends(s, record, payloads, LenText(3, data), 3, Len(data), record.(severityText := Some(data)));
    }
    HoldsExtends(s, record, payloads, LenText(9, data), 9, Len(data), record.(traceId := Some(data)));
    HoldsExtends(s, record, payloads, LenText(10, data), 10, Len(data), record.(spanId := Some(data)));
  }

  lemma HoldsBody(s: bytes, record: Record, payloads: seq<bytes>, body: buffer)
    requires Holds(s, record, payloads) && IsUtf8(body) && |LenText(1, body)| < MAX_BUFFER
    ensures Holds(s + LenText(5, LenText(1, body)), record.(body := Some(StringValue(body))), payloads)
  {
    hide Holds, IsField, DecodeAny, IsUtf8, Fit, LenText;
    var any: buffer := LenText(1, body);
    StringDecodes(body);
    LenTextReads(5, any);
    HoldsExtends(s, record, payloads, LenText(5, any), 5, Len(any), record.(body := Some(StringValue(body))));
  }

  lemma StringDecodes(body: buffer)
    requires IsUtf8(body) && |LenText(1, body)| < MAX_BUFFER
    ensures DecodeAny(LenText(1, body)) == Ok(Some(StringValue(body)))
    ensures Fit(LenText(1, body), AnyValue)
  {
    hide IsUtf8, DecodeAny, Fit, LenText;
    AnyTextDecodes(StrCell(body));
  }

  lemma HoldsAttribute(s: bytes, record: Record, payloads: seq<bytes>, column: Column)
    requires Holds(s, record, payloads) && ValidCell(column.cell) && Fits(column) && CellValue(column.cell).Some?
    ensures Holds(s + ColumnText(column), record, payloads + [PairText(column)])
  {
    hide Holds, IsField, IsUtf8, Fit, FitField, LenText, AnyText, PairText, CellValue, ValidCell, VisitRecord, Fields,
      AttrPayloads;
    var pair: buffer := PairText(column);
    PairTextDecodes(column);
    AttributeVisited(pair);
    LenTextReads(6, pair);
    HoldsExtends(s, record, payloads, LenText(6, pair), 6, Len(pair), record);
  }

  lemma AttributeVisited(pair: bytes)
    ensures forall r, at ::
      VisitRecord(r, Field(6, Len(pair), at)) == Ok(r.(attrRanges := r.attrRanges + [(at, |pair|)]))
    ensures Fit(pair, KeyValue) ==> forall at :: FitField(Field(6, Len(pair), at), LogRecord)
  {
    hide DecodeAny, Fit, IsUtf8;
  }

  lemma {:induction false} HoldsAttributes(s: bytes, record: Record, payloads: seq<bytes>, columns: seq<Column>)
    requires Holds(s, record, payloads)
    requires forall c :: c in columns ==> ValidCell(c.cell) && Fits(c)
    ensures Holds(s + ColumnsText(columns), record, payloads + PairTexts(columns))
    decreases |columns|
  {
    hide Holds, ValidCell, Fits, CellValue, PairText;
    if |columns| == 0 {
      assert s + ColumnsText(columns) == s;
      assert payloads + PairTexts(columns) == payloads;
    } else {
      var before, c := columns[..|columns| - 1], columns[|columns| - 1];
      assert c in columns;
      HoldsAttributes(s, record, payloads, before);
      var t := s + ColumnsText(before);
      assert s + ColumnsText(columns) == t + ColumnText(c);
      if CellValue(c.cell).Some? {
        HoldsAttribute(t, record, payloads + PairTexts(before), c);
        assert payloads + PairTexts(columns) == payloads + PairTexts(before) + [PairText(c)];
      } else {
        HoldsSame(t, ColumnText(c), record, payloads + PairTexts(before));
        assert payloads + PairTexts(columns) == payloads + PairTexts(before);
      }
    }
  }

  function HeadRecord(row: LogRow): Record {
    EMPTY_RECORD.(
      time := if row.timestamp.Some? then row.timestamp.value else 0,
      severityNumber := AsI32(row.severityNumber),
      severityText := NonEmpty(row.severityText),
      body := if |row.body| > 0 then Some(StringValue(row.body)) else None)
  }

  lemma HoldsHead(row: LogRow)
    requires ValidRow(row)
    ensures Holds(HeadText(row), HeadRecord(row), [])
  {
    hide Holds, IsUtf8, LenText, VarintText, Fixed64Text;
    HoldsNothing();
    var s, r := [], EMPTY_RECORD;
    if row.timestamp.Some? {
      HoldsTimes(s, r, [], row.timestamp.value);
      r := r.(time := row.timestamp.value);
    } else {
      HoldsSame(s, TimePart(row), r, []);
    }
    s := s + TimePart(row);
    if row.severityNumber > 0 {
      HoldsSeverityNumber(s, r, [], row.severityNumber);
      r := r.(severityNumber := AsI32(row.severityNumber));
    } else {
      HoldsSame(s, SeverityNumberPart(row), r, []);
    }
    s := s + SeverityNumberPart(row);
    if |row.severityText| > 0 {
      HoldsSlices(s, r, [], row.severityText);
      r := r.(severityText := Some(row.severityText));
    } else {
      HoldsSame(s, SeverityTextPart(row), r, []);
    }
    s := s + SeverityTextPart(row);
    if |row.body| > 0 {
      HoldsBody(s, r, [], row.body);
      r := r.(body := Some(StringValue(row.body)));
    } else {
      HoldsSame(s, BodyPart(row), r, []);
    }
    s := s + BodyPart(row);
    assert s == HeadText(row);
    assert r == HeadRecord(row);
  }

  lemma HoldsRow(row: LogRow)
    requires ValidRow(row)
    ensures Holds(RowText(row), RowRecord(row, []), PairTexts(row.attributes))
  {
    hide Holds, IsUtf8, LenText, Fixed32Text, Fixed64Text, ColumnsText, HeadText, PairTexts, ValidCell, Fits;
    HoldsHead(row);
    HoldsAttributes(HeadText(row), HeadRecord(row), [], row.attributes);
    var s, r, p := HeadText(row) + ColumnsText(row.attributes), HeadRecord(row), PairTexts(row.attributes);
    assert [] + p == p;
    if row.flags.Some? {
      HoldsFlags(s, r, p, row.flags.value);
      r := r.(flags := row.flags.value);
    } else {
      HoldsSame(s, FlagsPart(row), r, p);
    }
    s := s + FlagsPart(row);
    if row.traceId.Some? {
      HoldsSlices(s, r, p, row.traceId.value);
      r := r.(traceId := row.traceId);
    } else {
      HoldsSame(s, TracePart(row), r, p);
    }
    s := s + TracePart(row);
    if row.spanId.Some? {
      HoldsSlices(s, r, p, row.spanId.value);
      r := r.(spanId := row.spanId);
    } else {
      HoldsSame(s, SpanPart(row), r, p);
    }
    s := s + SpanPart(row);
    HoldsTimes(s, r, p, row.observed);
    assert r.(observed := row.observed) == RowRecord(row, []);
  }

  /** The attributes a row stands for: name and value of every column that has one. */
  function RowAttrs(columns: seq<Column>): seq<Attr<WireAny>> {
    if |columns| == 0 then []
    else
      var c := columns[|columns| - 1];
      RowAttrs(columns[..|columns| - 1])
      + if CellValue(c.cell).Some? then [Attr(c.name, CellValue(c.cell).value)] else []
  }

  /** Those attributes as columns receive them. */
  function WrittenAttrs(attrs: seq<Attr<WireAny>>): (r: seq<Attr<Written>>)
    ensures |r| == |attrs|
  {
    seq(|attrs|, i requires 0 <= i < |attrs| => Attr(attrs[i].key, WriteScalar(attrs[i].value)))
  }

  predicate AllScalar(attrs: seq<Attr<WireAny>>) {
    forall i :: 0 <= i < |attrs| ==> Json.IsScalar(attrs[i].value)
  }

  lemma {:induction false} RowAttrsAreScalar(columns: seq<Column>)
    ensures AllScalar(RowAttrs(columns))
    decreases |columns|
  {
    if |columns| > 0 {
      RowAttrsAreScalar(columns[..|columns| - 1]);
    }
  }

  lemma {:induction false} ScalarsWritten(attrs: seq<Attr<WireAny>>, out: Output)
    requires AllScalar(attrs)
    ensures WriteAll(attrs, out) == Ok(WrittenAttrs(attrs))
    decreases |attrs|
  {
    if |attrs| > 0 {
      ScalarsWritten(attrs[1..], out);
      assert WrittenAttrs(attrs) == [Attr(attrs[0].key, WriteScalar(attrs[0].value))] + WrittenAttrs(attrs[1..]);
    }
  }

  lemma {:induction false} DecodeAttrsSnoc(
    s: bytes, ranges: seq<(nat, nat)>, last: (nat, nat), attrs: seq<Attr<Written>>, decode: KvDecoder, out: Output)
    requires forall i :: 0 <= i < |ranges| ==> ranges[i].0 + ranges[i].1 <= |s|
    requires last.0 + last.1 <= |s|
    ensures var r := DecodeAttrs(s, ranges, attrs, decode, out);
            DecodeAttrs(s, ranges + [last], attrs, decode, out) ==
              if r.Err? then r else WriteAttr(r.value, s[last.0..last.0 + last.1], decode, out)
    decreases |ranges|
  {
    hide WriteAttr;
    if |ranges| == 0 {
      assert (ranges + [last])[1..] == [];
    } else {
      assert (ranges + [last])[1..] == ranges[1..] + [last];
      var next := WriteAttr(attrs, s[ranges[0].0..ranges[0].0 + ranges[0].1], decode, out);
      if next.Ok? {
        DecodeAttrsSnoc(s, ranges[1..], last, next.value, decode, out);
      }
    }
  }

  lemma CellIsScalar(cell: Cell)
    ensures CellValue(cell).Some? ==> Json.IsScalar(CellValue(cell).value)
  {
  }

  lemma AttrDecodes(attrs: seq<Attr<Written>>, column: Column, out: Output)
    requires ValidCell(column.cell) && Fits(column) && IsUtf8(column.name) && CellValue(column.cell).Some?
    ensures WriteAttr(attrs, PairText(column), InlineKeyValue, out)
            == Ok(attrs + [Attr(column.name, WriteScalar(CellValue(column.cell).value))])
  {
    hide InlineKeyValue, IsUtf8, PairText, ValidCell, Fits, CellValue;
    PairTextDecodes(column);
    CellIsScalar(column.cell);
  }

  lemma LastColumn(before: seq<Column>, c: Column)
    requires forall d :: d in before + [c] ==> ValidCell(d.cell)
    ensures ValidCell(c.cell) && forall d :: d in before ==> ValidCell(d.cell)
    ensures CellValue(c.cell).Some? ==>
      && PairTexts(before + [c]) == PairTexts(before) + [PairText(c)]
      && RowAttrs(before + [c]) == RowAttrs(before) + [Attr(c.name, CellValue(c.cell).value)]
    ensures CellValue(c.cell).None? ==>
      PairTexts(before + [c]) == PairTexts(before) && RowAttrs(before + [c]) == RowAttrs(before)
  {
    hide ValidCell, CellValue, PairText;
    assert c in before + [c];
    assert forall d :: d in before ==> d in before + [c];
    assert (before + [c])[..|before|] == before;
  }

  lemma WrittenSnoc(attrs: seq<Attr<WireAny>>, attr: Attr<WireAny>)
    ensures WrittenAttrs(attrs + [attr]) == WrittenAttrs(attrs) + [Attr(attr.key, WriteScalar(attr.value))]
  {
  }

  lemma {:induction false} RowAttrsDecode(s: bytes, ranges: seq<(nat, nat)>, columns: seq<Column>, out: Output)
    requires forall c :: c in columns ==> ValidCell(c.cell) && Fits(c) && IsUtf8(c.name)
    requires Slices(s, ranges, PairTexts(columns))
    ensures DecodeAttrs(s, ranges, [], InlineKeyValue, out) == Ok(WrittenAttrs(RowAttrs(columns)))
    decreases |columns|
  {
    hide InlineKeyValue, IsUtf8, PairText, ValidCell, Fits, CellValue, PairTexts, RowAttrs, WriteAttr, DecodeAttrs,
      WrittenAttrs;
    if |columns| == 0 {
      NoAttrsDecode(s, ranges, columns, out);
    } else {
      var before, c := columns[..|columns| - 1], columns[|columns| - 1];
      assert columns == before + [c];
      LastColumn(before, c);
      if CellValue(c.cell).Some? {
        var front, last := ranges[..|ranges| - 1], ranges[|ranges| - 1];
        assert ranges == front + [last];
        RowAttrsDecode(s, front, before, out);
        DecodeAttrsSnoc(s, front, last, [], InlineKeyValue, out);
        AttrDecodes(WrittenAttrs(RowAttrs(before)), c, out);
        WrittenSnoc(RowAttrs(before), Attr(c.name, CellValue(c.cell).value));
      } else {
        RowAttrsDecode(s, ranges, before, out);
      }
    }
  }

  lemma NoAttrsDecode(s: bytes, ranges: seq<(nat, nat)>, columns: seq<Column>, out: Output)
    requires |columns| == 0 && Slices(s, ranges, PairTexts(columns))
    ensures DecodeAttrs(s, ranges, [], InlineKeyValue, out) == Ok(WrittenAttrs(RowAttrs(columns)))
  {
  }

  /** The body as its column receives it. */
  function RowBody(row: LogRow): Option<bytes> {
    if |row.body| > 0 then Some(row.body) else None
  }

  /** The row that a receiver writes for `row`. */
  function Received(row: LogRow, scope: ScopeFields, resourceAttrs: seq<Attr<WireAny>>): Row
    requires ValidRow(row)
  {
    var ranges := if DecodeRecord(RowText(row)).Ok? then DecodeRecord(RowText(row)).value.attrRanges else [];
    Row(RowRecord(row, ranges), RowBody(row), scope, WrittenAttrs(RowAttrs(row.attributes)),
      WrittenAttrs(resourceAttrs))
  }

  /**
    * Every row the fast encoder writes passes the preflight and decodes, through the production path, to the
    * same record and the same attributes in order; the severity survives exactly when it is below 2^31.
    */
  lemma RowRoundTrip(row: LogRow, rows: seq<Row>, scope: ScopeFields, resourceAttrs: seq<Attr<WireAny>>, out: Output)
    requires ValidRow(row) && AllScalar(resourceAttrs)
    ensures Scan(RowText(row), LogRecord).Ok?
    ensures DecodeRow(rows, RowText(row), scope, resourceAttrs, InlineKeyValue, out)
            == Ok(rows + [Received(row, scope, resourceAttrs)])
    ensures Slices(RowText(row), Received(row, scope, resourceAttrs).record.attrRanges, PairTexts(row.attributes))
    ensures RowRecord(row, []).severityNumber == row.severityNumber <==> row.severityNumber < 0x8000_0000
  {
    hide RowText, Scan, FitField, InlineKeyValue, DecodeRecord, DecodeAttrs, IsUtf8, WalkFrom, PairTexts, RowAttrs,
         ValidCell, Fits, AttrPayloads, WrittenAttrs, WriteAll;
    HoldsRow(row);
    ScanExact(RowText(row), LogRecord);
    RangesSliceAttributes(RowText(row));
    RowAttrsDecode(RowText(row), DecodeRecord(RowText(row)).value.attrRanges, row.attributes, out);
    ScalarsWritten(resourceAttrs, out);
    assert WriteBody(RowRecord(row, []).body, out) == Ok(RowBody(row));
  }
}

/** The projected decoder over a whole request, and what the preflight promises it. */
module Request {
  import opened Bytes
  import opened Options
  import opened Walk
  import opened Utf8
  import opened Decode
  import opened Preflight
  import opened Inline
  import Json

  type KvDecoder = bytes -> Result<Option<(bytes, WireAny)>>

  datatype Attr<+T> = Attr(key: bytes, value: T)

  /** What a column receives: a scalar as it is, or text, which is hex digits for bytes and JSON for a list. */
  datatype Written = AsIs(value: WireAny) | Rendered(text: bytes)

  /** The JSON writer for lists, and the formatter of doubles. */
  datatype Output = Output(json: WireAny -> Result<bytes>, format: Json.DoubleFormat)

  /** The writer that production runs. */
  function Production(format: Json.DoubleFormat): Output {
    Output((value: WireAny) => Json.WriteAny(value, 0, format), format)
  }

  /** One row as `decode_log_record_wire` writes it to the column builder. */
  datatype Row = Row(
    record: Record,
    body: Option<bytes>,
    scope: ScopeFields,
    attrs: seq<Attr<Written>>,
    resourceAttrs: seq<Attr<Written>>)

  /** The closure of a generated `for_each_*` visitor: payloads of field `number` go to `inner`, others pass by. */
  function OnLen<S>(number: nat, inner: (S, bytes) -> Result<S>): (S, Field) -> Result<S> {
    (state: S, f: Field) =>
      if f.number != number then Ok(state)
      else if f.payload.Len? then inner(state, f.payload.slice)
      else Err(WrongWireType)
  }

  function ForEachLen<S>(s: bytes, number: nat, state: S, inner: (S, bytes) -> Result<S>): Result<S> {
    ForEach(s, state, OnLen(number, inner))
  }

  /** Decodes one attribute and validates its key behind `prefix`; a pair without a value is dropped. */
  function AddAttr(
    attrs: seq<Attr<WireAny>>, attr: bytes, prefix: bytes, decode: KvDecoder): Result<seq<Attr<WireAny>>>
  {
    var pair :- decode(attr);
    if pair.None? then Ok(attrs)
    else
      var key :- RequireUtf8(prefix + pair.value.0);
      Ok(attrs + [Attr(key, pair.value.1)])
  }

  /** `collect_resource_attrs`. */
  function CollectResource(attrs: seq<Attr<WireAny>>, resource: bytes, prefix: bytes, decode: KvDecoder)
    : Result<seq<Attr<WireAny>>>
  {
    ForEachLen(resource, 1, attrs, (acc: seq<Attr<WireAny>>, attr: bytes) => AddAttr(acc, attr, prefix, decode))
  }

  function WriteScalar(value: WireAny): Written {
    match value
    case BytesValue(raw) => Rendered(Json.HexText(raw))
    case _ => AsIs(value)
  }

  /** `write_wire_any`: a list becomes JSON text, which can fail. */
  function Write(value: WireAny, out: Output): Result<Written> {
    if Json.IsScalar(value) then Ok(WriteScalar(value))
    else
      var text :- out.json(value);
      Ok(Rendered(text))
  }

  /** `write_wire_any_as_string`. */
  function WriteAsString(value: WireAny, out: Output): Result<bytes> {
    match value
    case StringValue(text) => Ok(text)
    case BoolValue(flag) => Ok(if flag then Json.TRUE_TEXT else Json.FALSE_TEXT)
    case IntValue(i) => Ok(Json.Decimal(i))
    case DoubleValue(bits) => Ok(DoubleString(bits, out.format))
    case BytesValue(raw) => Ok(Json.HexText(raw))
    case ArrayRaw(_) => out.json(value)
    case KvListRaw(_) => out.json(value)
  }

  /** `ryu` on any double. */
  function DoubleString(bits: u64, format: Json.DoubleFormat): bytes {
    if Json.IsFinite(bits) then format(bits)
    else if Json.IsNan(bits) then Json.NAN_TEXT
    else if bits < 0x8000_0000_0000_0000 then Json.INF_TEXT
    else Json.NEG_INF_TEXT
  }

  function WriteBody(body: Option<WireAny>, out: Output): Result<Option<bytes>> {
    if body.None? then Ok(None)
    else
      var text :- WriteAsString(body.value, out);
      Ok(Some(text))
  }

  /** Decodes, validates and writes one attribute of a record. */
  function WriteAttr(
    attrs: seq<Attr<Written>>, attr: bytes, decode: KvDecoder, out: Output): Result<seq<Attr<Written>>>
  {
    var pair :- decode(attr);
    if pair.None? then Ok(attrs)
    else
      var key :- RequireUtf8(pair.value.0);
      var written :- Write(pair.value.1, out);
      Ok(attrs + [Attr(key, written)])
  }

  /** The attributes of the resource, written again for every row. */
  function WriteAll(attrs: seq<Attr<WireAny>>, out: Output): Result<seq<Attr<Written>>> {
    if |attrs| == 0 then Ok([])
    else
      var head :- Write(attrs[0].value, out);
      var rest :- WriteAll(attrs[1..], out);
      Ok([Attr(attrs[0].key, head)] + rest)
  }

  /** Decodes and writes the recorded attribute slices of one record, in order. */
  function DecodeAttrs(s: bytes, ranges: seq<(nat, nat)>, attrs: seq<Attr<Written>>, decode: KvDecoder, out: Output)
    : Result<seq<Attr<Written>>>
    requires forall i :: 0 <= i < |ranges| ==> ranges[i].0 + ranges[i].1 <= |s|
    decreases |ranges|
  {
    if |ranges| == 0 then Ok(attrs)
    else
      var next :- WriteAttr(attrs, s[ranges[0].0..ranges[0].0 + ranges[0].1], decode, out);
      DecodeAttrs(s, ranges[1..], next, decode, out)
  }

  /** `decode_log_record_wire`: the body is written first, then the attributes, then those of the resource. */
  function DecodeRow(
    rows: seq<Row>, s: bytes, scope: ScopeFields, resourceAttrs: seq<Attr<WireAny>>, decode: KvDecoder, out: Output)
    : Result<seq<Row>>
  {
    var record :- DecodeRecord(s);
    RangesSliceAttributes(s);
    var body :- WriteBody(record.body, out);
    var attrs :- DecodeAttrs(s, record.attrRanges, [], decode, out);
    var shared :- WriteAll(resourceAttrs, out);
    Ok(rows + [Row(record, body, scope, attrs, shared)])
  }

  /** `decode_scope_logs_wire`: all scopes first, then the records. */
  function DecodeScopeLogs(rows: seq<Row>, s: bytes, resourceAttrs: seq<Attr<WireAny>>, decode: KvDecoder, out: Output)
    : Result<seq<Row>>
  {
    var scope :- ForEachLen(s, 1, ScopeFields(None, None), (acc: ScopeFields, scope: bytes) => MergeScope(scope, acc));
    ForEachLen(s, 2, rows, (acc: seq<Row>, record: bytes) => DecodeRow(acc, record, scope, resourceAttrs, decode, out))
  }

  /** `decode_resource_logs_wire`: all resources first, then the scopes. */
  function DecodeResourceLogs(
    rows: seq<Row>, s: bytes, prefix: bytes, decode: KvDecoder, out: Output): Result<seq<Row>>
  {
    var attrs :-
      ForEachLen(s, 1, [],
        (acc: seq<Attr<WireAny>>, resource: bytes) => CollectResource(acc, resource, prefix, decode));
    ForEachLen(s, 2, rows, (acc: seq<Row>, scopeLogs: bytes) => DecodeScopeLogs(acc, scopeLogs, attrs, decode, out))
  }

  /** `decode_projected_otlp_logs_inner`, up to what the column builder does with the written values. */
  function DecodeRequest(body: bytes, prefix: bytes, decode: KvDecoder, out: Output): Result<seq<Row>> {
    if |body| == 0 then Ok([])
    else ForEachLen(body, 1, [], (acc: seq<Row>, logs: bytes) => DecodeResourceLogs(acc, logs, prefix, decode, out))
  }

  // ----- What the builder stores -----

  /** The cells of the fixed columns; trace and span ids are still bytes here. */
  datatype Stored = Stored(
    timestamp: Option<int>,
    observed: Option<int>,
    severityText: Option<bytes>,
    severityNumber: Option<int>,
    flags: Option<int>,
    scopeName: Option<bytes>,
    scopeVersion: Option<bytes>)

  /** `i64::try_from`, and greater than 0. */
  function Positive(v: u64): Option<int> {
    if 0 < v < 0x8000_0000_0000_0000 then Some(v) else None
  }

  function Filled(text: Option<bytes>): Option<bytes> {
    if text.Some? && |text.value| > 0 then text else None
  }

  /**
    * What `decode_log_record_wire` writes of the record and its scope: a record without a time gets the observed one.
    */
  function Store(row: Row): Stored {
    var record := row.record;
    Stored(
      Positive(if record.time > 0 then record.time else record.observed), Positive(record.observed),
      record.severityText, if record.severityNumber > 0 then Some(record.severityNumber) else None,
      if record.flags > 0 then Some(record.flags) else None, Filled(row.scope.name), Filled(row.scope.version))
  }

  // ----- Failing only on text -----

  predicate OnlyUtf8<T>(r: Result<T>) {
    r.Ok? || r.error == InvalidUtf8
  }

  lemma {:induction false} FoldOnlyUtf8<S(!new)>(fields: seq<Field>, state: S, visit: (S, Field) -> Result<S>)
    requires forall f, st: S :: f in fields && !f.payload.Group? ==> OnlyUtf8(visit(st, f))
    ensures OnlyUtf8(Fold(fields, state, visit))
    decreases |fields|
  {
    if |fields| > 0 {
      assert fields[0] in fields;
      assert forall f :: f in fields[1..] ==> f in fields;
      if fields[0].payload.Group? {
        FoldOnlyUtf8(fields[1..], state, visit);
      } else if visit(state, fields[0]).Ok? {
        FoldOnlyUtf8(fields[1..], visit(state, fields[0]).value, visit);
      }
    }
  }

  lemma FitFields(s: bytes, message: MessageKind)
    requires Fit(s, message)
    ensures Fields(s).stop.None?
    ensures forall f :: f in Fields(s).fields ==> FitField(f, message)
  {
    hide WalkFrom, FitField;
  }

  lemma FitAny(s: bytes)
    requires Fit(s, AnyValue)
    ensures OnlyUtf8(DecodeAny(s))
    ensures WellTyped(Fields(s).fields, ExpectedAny)
  {
    hide WalkFrom, Fold, Fit;
    FitFields(s, AnyValue);
    FoldOnlyUtf8(Fields(s).fields, None, VisitAny);
  }

  lemma FitValue(f: Field)
    requires FitField(f, KeyValue) && f.number == 2
    ensures f.payload.Len? && Fit(f.payload.slice, AnyValue)
  {
  }

  lemma FitKeyValue(s: bytes)
    requires Fit(s, KeyValue)
    ensures OnlyUtf8(DecodeKeyValue(s))
    ensures WellTyped(Fields(s).fields, ExpectedKeyValue)
  {
    hide WalkFrom, Fold, Fit, DecodeAny;
    FitFields(s, KeyValue);
    forall f, out | f in Fields(s).fields && !f.payload.Group? ensures OnlyUtf8(VisitKeyValue(out, f)) {
      if f.number == 2 {
        FitValue(f);
        FitAny(f.payload.slice);
      }
    }
    FoldOnlyUtf8(Fields(s).fields, KeyAndValue([], None), VisitKeyValue);
  }

  lemma FitScope(s: bytes, scope: ScopeFields)
    requires Fit(s, InstrumentationScope)
    ensures OnlyUtf8(MergeScope(s, scope))
  {
    hide WalkFrom, Fold, Fit;
    FitFields(s, InstrumentationScope);
    FoldOnlyUtf8(Fields(s).fields, scope, VisitScope);
  }

  lemma FitBody(f: Field)
    requires FitField(f, LogRecord) && f.number == 5
    ensures f.payload.Len? && Fit(f.payload.slice, AnyValue)
  {
  }

  lemma FitRecord(s: bytes)
    requires Fit(s, LogRecord)
    ensures OnlyUtf8(DecodeRecord(s))
  {
    hide WalkFrom, Fold, Fit, DecodeAny;
    FitFields(s, LogRecord);
    forall f, out | f in Fields(s).fields && !f.payload.Group? ensures OnlyUtf8(VisitRecord(out, f)) {
      if f.number == 5 {
        FitBody(f);
        FitAny(f.payload.slice);
      }
    }
    FoldOnlyUtf8(Fields(s).fields, EMPTY_RECORD, VisitRecord);
  }

  lemma {:induction false} FoldAgrees<S(!new)>(
    fields: seq<Field>, state: S, v: (S, Field) -> Result<S>, w: (S, Field) -> Result<S>)
    requires forall f, st: S :: f in fields && !f.payload.Group? ==> v(st, f) == w(st, f)
    ensures Fold(fields, state, v) == Fold(fields, state, w)
    decreases |fields|
  {
    if |fields| > 0 {
      assert fields[0] in fields;
      assert forall f :: f in fields[1..] ==> f in fields;
      if fields[0].payload.Group? {
        FoldAgrees(fields[1..], state, v, w);
      } else if v(state, fields[0]).Ok? {
        FoldAgrees(fields[1..], v(state, fields[0]).value, v, w);
      }
    }
  }

  /** Two sub-decoders that do the same on fit children and, if `calm`, fail on them only for text. */
  ghost predicate Alike<S(!new)>(
    v: (S, bytes) -> Result<S>, w: (S, bytes) -> Result<S>, child: MessageKind, calm: bool)
  {
    forall st: S, t: bytes :: Fit(t, child) ==> v(st, t) == w(st, t) && (calm ==> OnlyUtf8(v(st, t)))
  }

  /** The JSON writer fails only for text. */
  ghost predicate Calm(out: Output) {
    forall value :: OnlyUtf8(out.json(value))
  }

  /** The generated visitor of a field that the table descends into hands out fit sub-messages only. */
  lemma FitForEachLen<S(!new)>(
    s: bytes, message: MessageKind, number: nat, child: MessageKind, state: S,
    v: (S, bytes) -> Result<S>, w: (S, bytes) -> Result<S>, calm: bool)
    requires Fit(s, message) && LookupField(message, number) == Into(child)
    requires Alike(v, w, child, calm)
    ensures calm ==> OnlyUtf8(ForEachLen(s, number, state, v))
    ensures ForEachLen(s, number, state, v) == ForEachLen(s, number, state, w)
  {
    hide WalkFrom, Fold, Fit;
    FitFields(s, message);
    var visitV, visitW := OnLen(number, v), OnLen(number, w);
    forall f, st: S | f in Fields(s).fields && !f.payload.Group?
      ensures (calm ==> OnlyUtf8(visitV(st, f))) && visitV(st, f) == visitW(st, f)
    {
      if f.number == number {
        FitChild(f, message, child);
      }
    }
    if calm {
      FoldOnlyUtf8(Fields(s).fields, state, visitV);
    }
    FoldAgrees(Fields(s).fields, state, visitV, visitW);
  }

  lemma FitChild(f: Field, message: MessageKind, child: MessageKind)
    requires FitField(f, message) && LookupField(message, f.number) == Into(child)
    ensures f.payload.Len? && Fit(f.payload.slice, child)
  {
    hide Fit;
  }

  /** Two pair decoders that do the same on fit pairs, and fail on them only for text. */
  ghost predicate AlikePairs(d: KvDecoder, e: KvDecoder) {
    forall kv :: Fit(kv, KeyValue) ==> d(kv) == e(kv) && OnlyUtf8(d(kv))
  }

  lemma FitCollect(attrs: seq<Attr<WireAny>>, resource: bytes, prefix: bytes, d: KvDecoder, e: KvDecoder)
    requires Fit(resource, Resource) && AlikePairs(d, e)
    ensures OnlyUtf8(CollectResource(attrs, resource, prefix, d))
    ensures CollectResource(attrs, resource, prefix, d) == CollectResource(attrs, resource, prefix, e)
  {
    hide ForEachLen, Fit, IsUtf8;
    var v := (acc: seq<Attr<WireAny>>, attr: bytes) => AddAttr(acc, attr, prefix, d);
    var w := (acc: seq<Attr<WireAny>>, attr: bytes) => AddAttr(acc, attr, prefix, e);
    FitForEachLen(resource, Resource, 1, KeyValue, attrs, v, w, true);
  }

  lemma CalmWrites(value: WireAny, out: Output)
    requires Calm(out)
    ensures OnlyUtf8(Write(value, out)) && OnlyUtf8(WriteAsString(value, out))
  {
    assert OnlyUtf8(out.json(value));
  }

  lemma {:induction false} CalmWritesAll(attrs: seq<Attr<WireAny>>, out: Output)
    requires Calm(out)
    ensures OnlyUtf8(WriteAll(attrs, out))
    decreases |attrs|
  {
    hide Calm, Write;
    if |attrs| > 0 {
      CalmWrites(attrs[0].value, out);
      CalmWritesAll(attrs[1..], out);
    }
  }

  lemma FitAttr(attrs: seq<Attr<Written>>, attr: bytes, d: KvDecoder, e: KvDecoder, out: Output)
    requires Fit(attr, KeyValue) && AlikePairs(d, e)
    ensures Calm(out) ==> OnlyUtf8(WriteAttr(attrs, attr, d, out))
    ensures WriteAttr(attrs, attr, d, out) == WriteAttr(attrs, attr, e, out)
  {
    hide Fit, IsUtf8, Write, Calm;
    if Calm(out) && d(attr).Ok? && d(attr).value.Some? {
      CalmWrites(d(attr).value.value.1, out);
    }
  }

  lemma {:induction false} FitAttrs(
    s: bytes, ranges: seq<(nat, nat)>, attrs: seq<Attr<Written>>, d: KvDecoder, e: KvDecoder, out: Output)
    requires forall i :: 0 <= i < |ranges| ==> ranges[i].0 + ranges[i].1 <= |s|
    requires forall i :: 0 <= i < |ranges| ==> Fit(s[ranges[i].0..ranges[i].0 + ranges[i].1], KeyValue)
    requires AlikePairs(d, e)
    ensures Calm(out) ==> OnlyUtf8(DecodeAttrs(s, ranges, attrs, d, out))
    ensures DecodeAttrs(s, ranges, attrs, d, out) == DecodeAttrs(s, ranges, attrs, e, out)
    decreases |ranges|
  {
    hide Fit, AlikePairs, WriteAttr, Calm;
    if |ranges| > 0 {
      var slice := s[ranges[0].0..ranges[0].0 + ranges[0].1];
      assert Fit(slice, KeyValue);
      FitAttr(attrs, slice, d, e, out);
      if WriteAttr(attrs, slice, d, out).Ok? {
        FitAttrs(s, ranges[1..], WriteAttr(attrs, slice, d, out).value, d, e, out);
      }
    }
  }

  lemma {:induction false} FitPayloads(fields: seq<Field>)
    requires forall f :: f in fields ==> FitField(f, LogRecord)
    ensures forall i :: 0 <= i < |AttrPayloads(fields)| ==> Fit(AttrPayloads(fields)[i], KeyValue)
    decreases |fields|
  {
    hide Fit;
    if |fields| > 0 {
      FitPayloads(fields[..|fields| - 1]);
      var f := fields[|fields| - 1];
      if f.number == 6 && f.payload.Len? {
        FitChild(f, LogRecord, KeyValue);
      }
    }
  }

  lemma FitRow(
    rows: seq<Row>, s: bytes, scope: ScopeFields, resourceAttrs: seq<Attr<WireAny>>, d: KvDecoder, e: KvDecoder,
    out: Output)
    requires Fit(s, LogRecord) && AlikePairs(d, e)
    ensures Calm(out) ==> OnlyUtf8(DecodeRow(rows, s, scope, resourceAttrs, d, out))
    ensures DecodeRow(rows, s, scope, resourceAttrs, d, out) == DecodeRow(rows, s, scope, resourceAttrs, e, out)
  {
    hide WalkFrom, Fit, FitField, DecodeRecord, DecodeAttrs, WriteAsString, WriteAll, Calm, AlikePairs;
    FitRecord(s);
    if DecodeRecord(s).Ok? {
      RangesSliceAttributes(s);
      FitFields(s, LogRecord);
      FitPayloads(Fields(s).fields);
      FitAttrs(s, DecodeRecord(s).value.attrRanges, [], d, e, out);
      if Calm(out) {
        CalmWritesAll(resourceAttrs, out);
        if DecodeRecord(s).value.body.Some? {
          CalmWrites(DecodeRecord(s).value.body.value, out);
        }
      }
    }
  }

  lemma FitScopeLogs(
    rows: seq<Row>, s: bytes, resourceAttrs: seq<Attr<WireAny>>, d: KvDecoder, e: KvDecoder, out: Output)
    requires Fit(s, ScopeLogs) && AlikePairs(d, e)
    ensures Calm(out) ==> OnlyUtf8(DecodeScopeLogs(rows, s, resourceAttrs, d, out))
    ensures DecodeScopeLogs(rows, s, resourceAttrs, d, out) == DecodeScopeLogs(rows, s, resourceAttrs, e, out)
  {
    hide ForEachLen, Fit, MergeScope, DecodeRow, Calm, AlikePairs;
    var merge := (acc: ScopeFields, scope: bytes) => MergeScope(scope, acc);
    forall st: ScopeFields, t: bytes | Fit(t, InstrumentationScope) ensures OnlyUtf8(merge(st, t)) {
      FitScope(t, st);
    }
    FitForEachLen(s, ScopeLogs, 1, InstrumentationScope, ScopeFields(None, None), merge, merge, true);
    var scopes := ForEachLen(s, 1, ScopeFields(None, None), merge);
    if scopes.Ok? {
      var v := (acc: seq<Row>, record: bytes) => DecodeRow(acc, record, scopes.value, resourceAttrs, d, out);
      var w := (acc: seq<Row>, record: bytes) => DecodeRow(acc, record, scopes.value, resourceAttrs, e, out);
      forall st: seq<Row>, t: bytes | Fit(t, LogRecord)
        ensures v(st, t) == w(st, t) && (Calm(out) ==> OnlyUtf8(v(st, t)))
      {
        FitRow(st, t, scopes.value, resourceAttrs, d, e, out);
      }
      FitForEachLen(s, ScopeLogs, 2, LogRecord, rows, v, w, Calm(out));
    }
  }

  lemma FitResourceLogs(rows: seq<Row>, s: bytes, prefix: bytes, d: KvDecoder, e: KvDecoder, out: Output)
    requires Fit(s, ResourceLogs) && AlikePairs(d, e)
    ensures Calm(out) ==> OnlyUtf8(DecodeResourceLogs(rows, s, prefix, d, out))
    ensures DecodeResourceLogs(rows, s, prefix, d, out) == DecodeResourceLogs(rows, s, prefix, e, out)
  {
    hide ForEachLen, Fit, CollectResource, DecodeScopeLogs, Calm, AlikePairs;
    var collectD := (acc: seq<Attr<WireAny>>, resource: bytes) => CollectResource(acc, resource, prefix, d);
    var collectE := (acc: seq<Attr<WireAny>>, resource: bytes) => CollectResource(acc, resource, prefix, e);
    forall st: seq<Attr<WireAny>>, t: bytes | Fit(t, Resource)
      ensures collectD(st, t) == collectE(st, t) && OnlyUtf8(collectD(st, t))
    {
      FitCollect(st, t, prefix, d, e);
    }
    FitForEachLen(s, ResourceLogs, 1, Resource, [], collectD, collectE, true);
    var attrs := ForEachLen(s, 1, [], collectD);
    if attrs.Ok? {
      var v := (acc: seq<Row>, scopeLogs: bytes) => DecodeScopeLogs(acc, scopeLogs, attrs.value, d, out);
      var w := (acc: seq<Row>, scopeLogs: bytes) => DecodeScopeLogs(acc, scopeLogs, attrs.value, e, out);
      forall st: seq<Row>, t: bytes | Fit(t, ScopeLogs)
        ensures v(st, t) == w(st, t) && (Calm(out) ==> OnlyUtf8(v(st, t)))
      {
        FitScopeLogs(st, t, attrs.value, d, e, out);
      }
      FitForEachLen(s, ResourceLogs, 2, ScopeLogs, rows, v, w, Calm(out));
    }
  }

  lemma FitRequest(body: bytes, prefix: bytes, d: KvDecoder, e: KvDecoder, out: Output)
    requires Fit(body, ExportLogsServiceRequest) && AlikePairs(d, e)
    ensures Calm(out) ==> OnlyUtf8(DecodeRequest(body, prefix, d, out))
    ensures DecodeRequest(body, prefix, d, out) == DecodeRequest(body, prefix, e, out)
  {
    hide ForEachLen, Fit, DecodeResourceLogs, Calm, AlikePairs;
    var v := (acc: seq<Row>, t: bytes) => DecodeResourceLogs(acc, t, prefix, d, out);
    var w := (acc: seq<Row>, t: bytes) => DecodeResourceLogs(acc, t, prefix, e, out);
    forall st: seq<Row>, t: bytes | Fit(t, ResourceLogs)
      ensures v(st, t) == w(st, t) && (Calm(out) ==> OnlyUtf8(v(st, t)))
    {
      FitResourceLogs(st, t, prefix, d, e, out);
    }
    FitForEachLen(body, ExportLogsServiceRequest, 1, ResourceLogs, [], v, w, Calm(out));
  }

  /** On a pair the preflight accepts, the inline decoder is the reference decoder, errors included. */
  lemma InlineOnFitPairs(kv: bytes)
    requires Fit(kv, KeyValue)
    ensures InlineKeyValue(kv) == DecodeKeyValue(kv)
  {
    hide WalkFrom, InlineWalk, Fold, Fit, WellTyped, FitField;
    FitKeyValue(kv);
    FitFields(kv, KeyValue);
    StrictToInline(kv, 0, ExpectedKeyValue);
    FoldInlineOnFit(Fields(kv).fields, KeyAndValue([], None));
  }

  lemma InlineOnFitValues(s: bytes)
    requires Fit(s, AnyValue)
    ensures InlineAny(s) == DecodeAny(s)
  {
    hide WalkFrom, InlineWalk, Fold, Fit, WellTyped;
    FitAny(s);
    FitFields(s, AnyValue);
    StrictToInline(s, 0, ExpectedAny);
  }

  lemma {:induction false} FoldInlineOnFit(fields: seq<Field>, out: KeyAndValue)
    requires forall f :: f in fields ==> FitField(f, KeyValue)
    ensures Fold(fields, out, VisitKeyValueInline) == Fold(fields, out, VisitKeyValue)
    decreases |fields|
  {
    hide Fit, DecodeAny, InlineAny;
    if |fields| > 0 {
      var f := fields[0];
      assert forall g :: g in fields[1..] ==> g in fields;
      if f.payload.Group? {
        FoldInlineOnFit(fields[1..], out);
      } else {
        if f.number == 2 {
          FitValue(f);
          InlineOnFitValues(f.payload.slice);
        }
        if VisitKeyValue(out, f).Ok? {
          FoldInlineOnFit(fields[1..], VisitKeyValue(out, f).value);
        }
      }
    }
  }

  /**
    * If the preflight accepts a request, the inline and the reference pair decoders lead to the same rows or the
    * same error, and visitors and pair decoders fail only on text that is not UTF-8: with a JSON writer that fails
    * on nothing else, neither does the decode.
    */
  lemma PreflightIsSound(body: bytes, prefix: bytes, out: Output)
    requires Scan(body, ExportLogsServiceRequest).Ok?
    ensures DecodeRequest(body, prefix, InlineKeyValue, out) == DecodeRequest(body, prefix, DecodeKeyValue, out)
    ensures Calm(out) ==> OnlyUtf8(DecodeRequest(body, prefix, InlineKeyValue, out))
  {
    hide Scan, Fit, DecodeRequest, InlineKeyValue, DecodeKeyValue, Calm;
    ScanExact(body, ExportLogsServiceRequest);
    forall kv | Fit(kv, KeyValue) ensures InlineKeyValue(kv) == DecodeKeyValue(kv) && OnlyUtf8(InlineKeyValue(kv)) {
      FitKeyValue(kv);
      InlineOnFitPairs(kv);
    }
    FitRequest(body, prefix, InlineKeyValue, DecodeKeyValue, out);
  }
}

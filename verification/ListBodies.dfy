/** Requests of one record whose body is an array or a key-value list, which the preflight does not look into. */
module ListBodies {
  import opened Bytes
  import opened Options
  import opened Varint
  import opened Wire
  import opened Walk
  import opened Encode
  import opened Decode
  import opened Preflight
  import opened Inline
  import opened Request
  import opened Faults
  import Json

  /** Space for the headers of the enclosing messages. */
  type small = s: bytes | |s| < MAX_BUFFER - 200

  lemma HeaderIsShort(field: number, data: buffer)
    ensures |LenText(field, data)| <= |data| + 20
  {
    hide LenText;
    LenTextHasItsSize(field, data);
  }

  /** The field of `AnyValue` that holds an array or a key-value list. */
  function ListField(keyed: bool): number {
    if keyed then 6 else 5
  }

  function ListValue(keyed: bool, raw: bytes): WireAny {
    if keyed then KvListRaw(raw) else ArrayRaw(raw)
  }

  function ListBody(keyed: bool, raw: small): (r: buffer)
    ensures |r| <= |raw| + 20
  {
    HeaderIsShort(ListField(keyed), raw);
    LenText(ListField(keyed), raw)
  }

  function ListRecord(keyed: bool, raw: small): (r: buffer)
    ensures |r| <= |raw| + 40
  {
    HeaderIsShort(5, ListBody(keyed, raw));
    LenText(5, ListBody(keyed, raw))
  }

  function ListScopeLogs(keyed: bool, raw: small): (r: buffer)
    ensures |r| <= |raw| + 60
  {
    HeaderIsShort(2, ListRecord(keyed, raw));
    LenText(2, ListRecord(keyed, raw))
  }

  function ListResourceLogs(keyed: bool, raw: small): (r: buffer)
    ensures |r| <= |raw| + 80
  {
    HeaderIsShort(2, ListScopeLogs(keyed, raw));
    LenText(2, ListScopeLogs(keyed, raw))
  }

  function ListRequest(keyed: bool, raw: small): bytes {
    LenText(1, ListResourceLogs(keyed, raw))
  }

  // ----- Messages of one field -----

  lemma OneLen(field: number, data: buffer)
    ensures exists at :: Fields(LenText(field, data)) == Walked([Field(field, Len(data), at)], None)
  {
    hide WalkFrom, IsField, LenText;
    LenTextReads(field, data);
    FieldWalks(LenText(field, data), field, Len(data), 0);
  }

  lemma OneLenFits(field: number, data: buffer, message: MessageKind)
    requires forall at :: FitField(Field(field, Len(data), at), message)
    ensures Fit(LenText(field, data), message)
  {
    hide WalkFrom, FitField, LenText;
    OneLen(field, data);
  }

  lemma OneLenEvents(field: number, data: buffer, number: nat, events: bytes -> seq<Event>)
    ensures LenEvents(LenText(field, data), number, events) == if field == number then events(data) else []
  {
    hide WalkFrom, LenText;
    OneLen(field, data);
    var at :| Fields(LenText(field, data)) == Walked([Field(field, Len(data), at)], None);
    var f := Field(field, Len(data), at);
    assert [f][1..] == [];
    assert FieldsEvents([f], number, events) == FieldEvents(f, number, events) + [];
  }

  lemma OneLenVisited<S>(field: number, data: buffer, number: nat, state: S, inner: (S, bytes) -> Result<S>)
    ensures ForEachLen(LenText(field, data), number, state, inner)
            == if field == number then inner(state, data) else Ok(state)
  {
    hide WalkFrom, LenText;
    OneLen(field, data);
    var at :| Fields(LenText(field, data)) == Walked([Field(field, Len(data), at)], None);
    OneFieldVisited(Field(field, Len(data), at), state, OnLen(number, inner));
  }

  // ----- The preflight accepts them all -----

  lemma AnyListFits(keyed: bool, raw: small, at: nat)
    ensures FitField(Field(ListField(keyed), Len(raw), at), AnyValue)
  {
  }

  lemma ChildFits(number: nat, child: MessageKind, message: MessageKind, data: bytes, at: nat)
    requires LookupField(message, number) == Into(child) && Fit(data, child)
    ensures FitField(Field(number, Len(data), at), message)
  {
    hide Fit;
  }

  lemma ListRequestFits(keyed: bool, raw: small)
    ensures Fit(ListRequest(keyed, raw), ExportLogsServiceRequest)
    ensures Fit(ListRecord(keyed, raw), LogRecord)
  {
    hide Fit, FitField, LenText;
    forall at: nat ensures FitField(Field(ListField(keyed), Len(raw), at), AnyValue) {
      AnyListFits(keyed, raw, at);
    }
    OneLenFits(ListField(keyed), raw, AnyValue);
    forall at: nat ensures FitField(Field(5, Len(ListBody(keyed, raw)), at), LogRecord) {
      ChildFits(5, AnyValue, LogRecord, ListBody(keyed, raw), at);
    }
    OneLenFits(5, ListBody(keyed, raw), LogRecord);
    forall at: nat ensures FitField(Field(2, Len(ListRecord(keyed, raw)), at), ScopeLogs) {
      ChildFits(2, LogRecord, ScopeLogs, ListRecord(keyed, raw), at);
    }
    OneLenFits(2, ListRecord(keyed, raw), ScopeLogs);
    forall at: nat ensures FitField(Field(2, Len(ListScopeLogs(keyed, raw)), at), ResourceLogs) {
      ChildFits(2, ScopeLogs, ResourceLogs, ListScopeLogs(keyed, raw), at);
    }
    OneLenFits(2, ListScopeLogs(keyed, raw), ResourceLogs);
    forall at: nat ensures FitField(Field(1, Len(ListResourceLogs(keyed, raw)), at), ExportLogsServiceRequest) {
      ChildFits(1, ResourceLogs, ExportLogsServiceRequest, ListResourceLogs(keyed, raw), at);
    }
    OneLenFits(1, ListResourceLogs(keyed, raw), ExportLogsServiceRequest);
  }

  // ----- They hand over the list, and nothing else -----

  lemma BodyDecodes(keyed: bool, raw: small)
    ensures DecodeAny(ListBody(keyed, raw)) == Ok(Some(ListValue(keyed, raw)))
  {
    hide WalkFrom, LenText;
    OneLen(ListField(keyed), raw);
    var at :| Fields(LenText(ListField(keyed), raw)) == Walked([Field(ListField(keyed), Len(raw), at)], None);
    OneFieldVisited(Field(ListField(keyed), Len(raw), at), None, VisitAny);
  }

  lemma RecordDecodes(keyed: bool, raw: small)
    ensures DecodeRecord(ListRecord(keyed, raw)) == Ok(EMPTY_RECORD.(body := Some(ListValue(keyed, raw))))
  {
    hide WalkFrom, LenText, DecodeAny;
    OneLen(5, ListBody(keyed, raw));
    var at :| Fields(LenText(5, ListBody(keyed, raw))) == Walked([Field(5, Len(ListBody(keyed, raw)), at)], None);
    BodyDecodes(keyed, raw);
    OneFieldVisited(Field(5, Len(ListBody(keyed, raw)), at), EMPTY_RECORD, VisitRecord);
  }

  lemma ListRecordEvents(keyed: bool, raw: small)
    ensures RowEvents(ListRecord(keyed, raw), [], InlineKeyValue) == [Handed(ListValue(keyed, raw))]
  {
    hide DecodeRecord, InlineKeyValue, ListRecord;
    RecordDecodes(keyed, raw);
    RangesSliceAttributes(ListRecord(keyed, raw));
    assert BodyEvents(Some(ListValue(keyed, raw))) + AttrsEvents(ListRecord(keyed, raw), [],
      InlineKeyValue) + SharedEvents([])
        == [Handed(ListValue(keyed, raw))];
  }

  lemma ListScopeLogsEvents(keyed: bool, raw: small)
    ensures ScopeLogsEvents(ListScopeLogs(keyed, raw), [], InlineKeyValue) == [Handed(ListValue(keyed, raw))]
  {
    hide LenText, ForEachLen, LenEvents, RowEvents, InlineKeyValue, MergeScope, ListRecord;
    var merge := (acc: ScopeFields, scope: bytes) => MergeScope(scope, acc);
    OneLenVisited(2, ListRecord(keyed, raw), 1, ScopeFields(None, None), merge);
    OneLenEvents(2, ListRecord(keyed, raw), 2, (record: bytes) => RowEvents(record, [], InlineKeyValue));
    ListRecordEvents(keyed, raw);
  }

  lemma ListResourceLogsEvents(keyed: bool, raw: small, prefix: bytes)
    ensures ResourceLogsEvents(ListResourceLogs(keyed, raw), prefix, InlineKeyValue) == [Handed(ListValue(keyed, raw))]
  {
    hide LenText, ForEachLen, LenEvents, ScopeLogsEvents, InlineKeyValue, CollectResource, ListScopeLogs;
    var collect := (acc: seq<Attr<WireAny>>, resource: bytes) => CollectResource(acc, resource, prefix, InlineKeyValue);
    OneLenVisited(2, ListScopeLogs(keyed, raw), 1, [], collect);
    OneLenEvents(2, ListScopeLogs(keyed, raw), 2, (scopeLogs: bytes) => ScopeLogsEvents(scopeLogs, [], InlineKeyValue));
    ListScopeLogsEvents(keyed, raw);
  }

  lemma ListRequestEvents(keyed: bool, raw: small, prefix: bytes)
    ensures RequestEvents(ListRequest(keyed, raw), prefix, InlineKeyValue) == [Handed(ListValue(keyed, raw))]
  {
    hide LenText, LenEvents, ResourceLogsEvents, InlineKeyValue, ListResourceLogs;
    OneLenEvents(1, ListResourceLogs(keyed, raw), 1, (logs: bytes) => ResourceLogsEvents(logs, prefix, InlineKeyValue));
    ListResourceLogsEvents(keyed, raw, prefix);
    NotEmpty(ListResourceLogs(keyed, raw));
  }

  lemma NotEmpty(data: buffer)
    ensures |LenText(1, data)| > 0
  {
  }

  /** Whatever bytes such a list holds, the preflight accepts it; the decode fails exactly as the JSON writer does. */
  lemma ListBodyIsNotScanned(keyed: bool, raw: small, prefix: bytes, format: Json.DoubleFormat)
    ensures Scan(ListRequest(keyed, raw), ExportLogsServiceRequest).Ok?
    ensures FaultOf(DecodeRequest(ListRequest(keyed, raw), prefix, InlineKeyValue, Production(format)))
            == FaultOf(Json.WriteAny(ListValue(keyed, raw), 0, format))
  {
    hide Scan, Fit, DecodeRequest, RequestEvents, InlineKeyValue, Json.WriteAny, ListRequest, FirstFault;
    ListRequestFits(keyed, raw);
    ScanExact(ListRequest(keyed, raw), ExportLogsServiceRequest);
    ListRequestEvents(keyed, raw, prefix);
    DecodeFailsAtFirstFault(ListRequest(keyed, raw), prefix, InlineKeyValue, Production(format));
    FirstFaultOne(Handed(ListValue(keyed, raw)), Production(format).json);
  }

  /** One byte is enough: an array value that is a cut-off varint passes the preflight and breaks the decode. */
  lemma BrokenArrayPasses(prefix: bytes, format: Json.DoubleFormat)
    ensures Scan(ListRequest(false, [0xFF]), ExportLogsServiceRequest).Ok?
    ensures DecodeRequest(ListRequest(false, [0xFF]), prefix, InlineKeyValue, Production(format))
      == Err(TruncatedVarint)
  {
    hide Scan, DecodeRequest, ListRequest, InlineKeyValue;
    ListBodyIsNotScanned(false, [0xFF], prefix, format);
    BrokenArray(format);
  }

  lemma BrokenArray(format: Json.DoubleFormat)
    ensures Json.WriteAny(ArrayRaw([0xFF]), 0, format) == Err(TruncatedVarint)
  {
    var s: bytes := [0xFF];
    assert s[1..] == [];
    assert ReadVarint(s) == Err(TruncatedVarint);
    WalkStep(s, 0);
    assert Fields(s) == Walked([], Some(TruncatedVarint));
  }
}

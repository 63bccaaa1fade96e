/** What the preflight takes, field by field of the OTLP logs protos, said without its table. */
module Schema {
  import opened Bytes
  import opened Options
  import opened Wire
  import opened Walk
  import opened Encode
  import opened Preflight

  /** The wire types of the protos' scalars and strings, and sub-messages. */
  datatype ProtoType = VarintType | Fixed64Type | Fixed32Type | BytesType | MessageType(message: MessageKind)

  predicate IsRefused(r: Result<()>) {
    r == Err(WrongWireType)
  }

  predicate Judged(r: Result<()>, good: bool) {
    if good then r.Ok? else IsRefused(r)
  }

  /** The field is taken with any payload of its type, a fit one if that is a message, and refused in any other form. */
  ghost predicate Takes(message: MessageKind, field: number, t: ProtoType) {
    && (forall v: u64 :: Judged(Scan(VarintText(field, v), message), t.VarintType?))
    && (forall v: u64 :: Judged(Scan(Fixed64Text(field, v), message), t.Fixed64Type?))
    && (forall v: u32 :: Judged(Scan(Fixed32Text(field, v), message), t.Fixed32Type?))
    && (forall data: buffer ::
          var r := Scan(LenText(field, data), message);
          if t.MessageType? then r == Scan(data, t.message) else Judged(r, t.BytesType?))
    && (forall s: bytes :: IsGroup(s, field) ==> IsRefused(Scan(s, message)))
  }

  /** `s` is one group with that number. */
  ghost predicate IsGroup(s: bytes, field: nat) {
    var w := Fields(s);
    w.stop.None? && |w.fields| == 1 && w.fields[0].number == field && w.fields[0].payload.Group?
  }

  /** A field that the message does not have is taken in every form. */
  ghost predicate Passes(message: MessageKind, field: number) {
    && (forall v: u64 :: Scan(VarintText(field, v), message).Ok?)
    && (forall v: u64 :: Scan(Fixed64Text(field, v), message).Ok?)
    && (forall v: u32 :: Scan(Fixed32Text(field, v), message).Ok?)
    && (forall data: buffer :: Scan(LenText(field, data), message).Ok?)
    && (forall s: bytes :: IsGroup(s, field) ==> Scan(s, message).Ok?)
  }

  // ----- A message of one field -----

  lemma OneVerdict(s: bytes, f: Field, message: MessageKind)
    requires Fields(s) == Walked([f], None)
    ensures Scan(s, message) == CheckField(f, message)
  {
    hide WalkFrom, CheckField, LastAction, Verdict;
    assert [f] + [] == [f];
    VerdictStep(f, Walked([], None), message);
    VerdictEnds(message);
    NeverUnsupported([f], message);
    var r := CheckField(f, message);
    assert r.Ok? ==> r.value == ();
  }

  lemma FieldVerdict(s: bytes, field: number, payload: Payload, message: MessageKind)
    requires IsField(s, field, payload)
    ensures exists at :: Scan(s, message) == CheckField(Field(field, payload, at), message)
  {
    hide WalkFrom, CheckField, Scan, IsField;
    FieldWalks(s, field, payload, 0);
    OneVerdict(s, Fields(s).fields[0], message);
  }

  lemma ScalarVerdicts(message: MessageKind, field: number, v: u64, w: u32)
    ensures exists at :: Scan(VarintText(field, v), message) == CheckField(Field(field, Varint(v), at), message)
    ensures exists at :: Scan(Fixed64Text(field, v), message) == CheckField(Field(field, Fixed64(v), at), message)
    ensures exists at :: Scan(Fixed32Text(field, w), message) == CheckField(Field(field, Fixed32(w), at), message)
  {
    hide Scan, CheckField, IsField, VarintText, Fixed64Text, Fixed32Text;
    VarintTextReads(field, v);
    Fixed64TextReads(field, v);
    Fixed32TextReads(field, w);
    FieldVerdict(VarintText(field, v), field, Varint(v), message);
    FieldVerdict(Fixed64Text(field, v), field, Fixed64(v), message);
    FieldVerdict(Fixed32Text(field, w), field, Fixed32(w), message);
  }

  lemma LenVerdict(message: MessageKind, field: number, data: buffer)
    ensures exists at :: Scan(LenText(field, data), message) == CheckField(Field(field, Len(data), at), message)
  {
    hide Scan, CheckField, IsField, LenText;
    LenTextReads(field, data);
    FieldVerdict(LenText(field, data), field, Len(data), message);
  }

  // ----- From the table to the texts -----

  function KindFor(t: ProtoType): WireKind {
    match t
    case VarintType => VarintKind
    case Fixed64Type => Fixed64Kind
    case Fixed32Type => Fixed32Kind
    case BytesType => LenKind
    case MessageType(_) => LenKind
  }

  function ChildFor(t: ProtoType): Option<MessageKind> {
    if t.MessageType? then Some(t.message) else None
  }

  lemma Listed(message: MessageKind, field: number, t: ProtoType)
    requires var rule := LookupField(message, field);
             rule.Some? && rule.value.wire == KindFor(t) && rule.value.child == ChildFor(t)
    ensures Takes(message, field, t)
  {
    hide Scan, VarintText, Fixed64Text, Fixed32Text, LenText, WalkFrom, LookupField;
    forall v: u64 ensures Judged(Scan(VarintText(field, v), message), t.VarintType?)
                          && Judged(Scan(Fixed64Text(field, v), message), t.Fixed64Type?)
    {
      ScalarVerdicts(message, field, v, 0);
    }
    forall v: u32 ensures Judged(Scan(Fixed32Text(field, v), message), t.Fixed32Type?) {
      ScalarVerdicts(message, field, 0, v);
    }
    forall data: buffer
      ensures var r := Scan(LenText(field, data), message);
              if t.MessageType? then r == Scan(data, t.message) else Judged(r, t.BytesType?)
    {
      LenVerdict(message, field, data);
    }
    forall s: bytes | IsGroup(s, field) ensures IsRefused(Scan(s, message)) {
      assert Fields(s) == Walked([Fields(s).fields[0]], None);
      OneVerdict(s, Fields(s).fields[0], message);
    }
  }

  lemma Unlisted(message: MessageKind, field: number)
    requires LookupField(message, field).None?
    ensures Passes(message, field)
  {
    hide Scan, VarintText, Fixed64Text, Fixed32Text, LenText, WalkFrom, LookupField;
    forall v: u64 ensures Scan(VarintText(field, v), message).Ok? && Scan(Fixed64Text(field, v), message).Ok? {
      ScalarVerdicts(message, field, v, 0);
    }
    forall v: u32 ensures Scan(Fixed32Text(field, v), message).Ok? {
      ScalarVerdicts(message, field, 0, v);
    }
    forall data: buffer ensures Scan(LenText(field, data), message).Ok? {
      LenVerdict(message, field, data);
    }
    forall s: bytes | IsGroup(s, field) ensures Scan(s, message).Ok? {
      assert Fields(s) == Walked([Fields(s).fields[0]], None);
      OneVerdict(s, Fields(s).fields[0], message);
    }
  }

  // ----- The protos -----

  /** `ExportLogsServiceRequest`, `ResourceLogs`, `Resource`, `ScopeLogs` and `InstrumentationScope`. */
  lemma EnvelopeFields()
    ensures Takes(ExportLogsServiceRequest, 1, MessageType(ResourceLogs))
    ensures Takes(ResourceLogs, 1, MessageType(Resource))
    ensures Takes(ResourceLogs, 2, MessageType(ScopeLogs))
    ensures Takes(ResourceLogs, 3, BytesType)
    ensures Takes(Resource, 1, MessageType(KeyValue))
    ensures Takes(Resource, 2, VarintType)
    ensures Takes(Resource, 3, BytesType)
    ensures Takes(ScopeLogs, 1, MessageType(InstrumentationScope))
    ensures Takes(ScopeLogs, 2, MessageType(LogRecord))
    ensures Takes(ScopeLogs, 3, BytesType)
    ensures Takes(InstrumentationScope, 1, BytesType)
    ensures Takes(InstrumentationScope, 2, BytesType)
    ensures Takes(InstrumentationScope, 3, BytesType)
    ensures Takes(InstrumentationScope, 4, VarintType)
  {
    hide Takes;
    Listed(ExportLogsServiceRequest, 1, MessageType(ResourceLogs));
    Listed(ResourceLogs, 1, MessageType(Resource));
    Listed(ResourceLogs, 2, MessageType(ScopeLogs));
    Listed(ResourceLogs, 3, BytesType);
    Listed(Resource, 1, MessageType(KeyValue));
    Listed(Resource, 2, VarintType);
    Listed(Resource, 3, BytesType);
    Listed(ScopeLogs, 1, MessageType(InstrumentationScope));
    Listed(ScopeLogs, 2, MessageType(LogRecord));
    Listed(ScopeLogs, 3, BytesType);
    Listed(InstrumentationScope, 1, BytesType);
    Listed(InstrumentationScope, 2, BytesType);
    Listed(InstrumentationScope, 3, BytesType);
    Listed(InstrumentationScope, 4, VarintType);
  }

  /** `LogRecord`. */
  lemma RecordFields()
    ensures Takes(LogRecord, 1, Fixed64Type)
    ensures Takes(LogRecord, 2, VarintType)
    ensures Takes(LogRecord, 3, BytesType)
    ensures Takes(LogRecord, 5, MessageType(AnyValue))
    ensures Takes(LogRecord, 6, MessageType(KeyValue))
    ensures Takes(LogRecord, 7, VarintType)
    ensures Takes(LogRecord, 8, Fixed32Type)
    ensures Takes(LogRecord, 9, BytesType)
    ensures Takes(LogRecord, 10, BytesType)
    ensures Takes(LogRecord, 11, Fixed64Type)
    ensures Takes(LogRecord, 12, BytesType)
  {
    hide Takes;
    Listed(LogRecord, 1, Fixed64Type);
    Listed(LogRecord, 2, VarintType);
    Listed(LogRecord, 3, BytesType);
    Listed(LogRecord, 5, MessageType(AnyValue));
    Listed(LogRecord, 6, MessageType(KeyValue));
    Listed(LogRecord, 7, VarintType);
    Listed(LogRecord, 8, Fixed32Type);
    Listed(LogRecord, 9, BytesType);
    Listed(LogRecord, 10, BytesType);
    Listed(LogRecord, 11, Fixed64Type);
    Listed(LogRecord, 12, BytesType);
  }

  /** `KeyValue`, `AnyValue` and the two lists, which are not looked into where they are values. */
  lemma ValueFields()
    ensures Takes(KeyValue, 1, BytesType)
    ensures Takes(KeyValue, 2, MessageType(AnyValue))
    ensures Takes(AnyValue, 1, BytesType)
    ensures Takes(AnyValue, 2, VarintType)
    ensures Takes(AnyValue, 3, VarintType)
    ensures Takes(AnyValue, 4, Fixed64Type)
    ensures Takes(AnyValue, 5, BytesType)
    ensures Takes(AnyValue, 6, BytesType)
    ensures Takes(AnyValue, 7, BytesType)
    ensures Takes(ArrayValue, 1, MessageType(AnyValue))
    ensures Takes(KeyValueList, 1, MessageType(KeyValue))
  {
    hide Takes;
    Listed(KeyValue, 1, BytesType);
    Listed(KeyValue, 2, MessageType(AnyValue));
    Listed(AnyValue, 1, BytesType);
    Listed(AnyValue, 2, VarintType);
    Listed(AnyValue, 3, VarintType);
    Listed(AnyValue, 4, Fixed64Type);
    Listed(AnyValue, 5, BytesType);
    Listed(AnyValue, 6, BytesType);
    Listed(AnyValue, 7, BytesType);
    Listed(ArrayValue, 1, MessageType(AnyValue));
    Listed(KeyValueList, 1, MessageType(KeyValue));
  }

  /** The numbers that the protos give to fields of a message. */
  function Numbers(message: MessageKind): set<int> {
    match message
    case ExportLogsServiceRequest => {1}
    case ResourceLogs => {1, 2, 3}
    case Resource => {1, 2, 3}
    case ScopeLogs => {1, 2, 3}
    case InstrumentationScope => {1, 2, 3, 4}
    case LogRecord => {1, 2, 3, 5, 6, 7, 8, 9, 10, 11, 12}
    case KeyValue => {1, 2}
    case AnyValue => {1, 2, 3, 4, 5, 6, 7}
    case ArrayValue => {1}
    case KeyValueList => {1}
  }

  lemma OtherFieldsPass(message: MessageKind, field: number)
    requires field !in Numbers(message)
    ensures Passes(message, field)
  {
    hide Passes;
    Unlisted(message, field);
  }

  // ----- Whole messages -----

  ghost function Texts(parts: seq<bytes>): bytes {
    if |parts| == 0 then [] else parts[0] + Texts(parts[1..])
  }

  /** A message put together from fields is taken exactly when each of them is. */
  lemma {:induction false} FieldByField(parts: seq<bytes>, message: MessageKind)
    requires forall i :: 0 <= i < |parts| ==> Fields(parts[i]).stop.None?
    ensures Scan(Texts(parts), message).Ok? <==> forall i :: 0 <= i < |parts| ==> Scan(parts[i], message).Ok?
    decreases |parts|
  {
    hide Scan, WalkFrom;
    if |parts| == 0 {
      EmptyIsTaken(message);
    } else {
      FieldByField(parts[1..], message);
      if Scan(parts[0], message).Ok? {
        ScanConcat(parts[0], Texts(parts[1..]), message);
      } else {
        RefusedAtFront(parts[0], Texts(parts[1..]), message);
      }
    }
  }

  lemma EmptyIsTaken(message: MessageKind)
    ensures Scan([], message).Ok?
  {
  }

  lemma RefusedAtFront(a: bytes, b: bytes, message: MessageKind)
    requires Fields(a).stop.None? && Scan(a, message).Err?
    ensures Scan(a + b, message).Err?
  {
    hide Scan, WalkFrom, FitField;
    ScanExact(a, message);
    ScanExact(a + b, message);
    WalkConcat(a, b, 0);
    var f :| f in Fields(a).fields && !FitField(f, message);
    assert f in Fields(a + b).fields;
  }
}

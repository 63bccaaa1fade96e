/** What can still go wrong behind the preflight: the values that the decode hands to the JSON writer. */
module Faults {
  import opened Bytes
  import opened Options
  import opened Walk
  import opened Utf8
  import opened Decode
  import opened Preflight
  import opened Inline
  import opened Request
  import Json

  /** One thing that the decode does and that can fail: it hands a value to a column, or it stops by itself. */
  datatype Event = Handed(value: WireAny) | Broken(error: Error)

  type Writer = WireAny -> Result<bytes>

  function FaultOf<T>(r: Result<T>): Option<Error> {
    match r
    case Ok(_) => None
    case Err(e) => Some(e)
  }

  /** Scalars are never refused. */
  function EventFault(e: Event, json: Writer): Option<Error> {
    match e
    case Handed(value) => if Json.IsScalar(value) then None else FaultOf(json(value))
    case Broken(error) => Some(error)
  }

  function FirstFault(events: seq<Event>, json: Writer): Option<Error> {
    if |events| == 0 then None
    else if EventFault(events[0], json).Some? then EventFault(events[0], json)
    else FirstFault(events[1..], json)
  }

  lemma {:induction false} FirstFaultConcat(a: seq<Event>, b: seq<Event>, json: Writer)
    ensures FirstFault(a + b, json) == if FirstFault(a, json).Some? then FirstFault(a, json) else FirstFault(b, json)
    decreases |a|
  {
    hide EventFault;
    if |a| == 0 {
      assert a + b == b;
    } else {
      assert (a + b)[1..] == a[1..] + b;
      FirstFaultConcat(a[1..], b, json);
    }
  }

  lemma FirstFaultOne(e: Event, json: Writer)
    ensures FirstFault([e], json) == EventFault(e, json)
    ensures FirstFault([], json) == None
  {
    hide EventFault;
  }

  // ----- The events of a request, in order -----

  function AttrEvents(attr: bytes, decode: KvDecoder): seq<Event> {
    match decode(attr)
    case Err(e) => [Broken(e)]
    case Ok(None) => []
    case Ok(Some(pair)) => if IsUtf8(pair.0) then [Handed(pair.1)] else [Broken(InvalidUtf8)]
  }

  function AttrsEvents(s: bytes, ranges: seq<(nat, nat)>, decode: KvDecoder): seq<Event>
    requires forall i :: 0 <= i < |ranges| ==> ranges[i].0 + ranges[i].1 <= |s|
    decreases |ranges|
  {
    if |ranges| == 0 then []
    else AttrEvents(s[ranges[0].0..ranges[0].0 + ranges[0].1], decode) + AttrsEvents(s, ranges[1..], decode)
  }

  function BodyEvents(body: Option<WireAny>): seq<Event> {
    if body.None? then [] else [Handed(body.value)]
  }

  function SharedEvents(attrs: seq<Attr<WireAny>>): seq<Event> {
    if |attrs| == 0 then [] else [Handed(attrs[0].value)] + SharedEvents(attrs[1..])
  }

  function RowEvents(s: bytes, resourceAttrs: seq<Attr<WireAny>>, decode: KvDecoder): seq<Event> {
    match DecodeRecord(s)
    case Err(e) => [Broken(e)]
    case Ok(record) =>
      RangesSliceAttributes(s);
      BodyEvents(record.body) + AttrsEvents(s, record.attrRanges, decode) + SharedEvents(resourceAttrs)
  }

  function FieldEvents(f: Field, number: nat, events: bytes -> seq<Event>): seq<Event> {
    if f.payload.Group? || f.number != number then []
    else if f.payload.Len? then events(f.payload.slice)
    else [Broken(WrongWireType)]
  }

  function FieldsEvents(fields: seq<Field>, number: nat, events: bytes -> seq<Event>): seq<Event> {
    if |fields| == 0 then [] else FieldEvents(fields[0], number, events) + FieldsEvents(fields[1..], number, events)
  }

  /** What a generated visitor does: the events of each payload, then the reason why the walk stopped. */
  function LenEvents(s: bytes, number: nat, events: bytes -> seq<Event>): seq<Event> {
    FieldsEvents(Fields(s).fields, number, events)
    + if Fields(s).stop.Some? then [Broken(Fields(s).stop.value)] else []
  }

  function ScopeLogsEvents(s: bytes, resourceAttrs: seq<Attr<WireAny>>, decode: KvDecoder): seq<Event> {
    match ForEachLen(s, 1, ScopeFields(None, None), (acc: ScopeFields, scope: bytes) => MergeScope(scope, acc))
    case Err(e) => [Broken(e)]
    case Ok(_) => LenEvents(s, 2, (record: bytes) => RowEvents(record, resourceAttrs, decode))
  }

  function ResourceLogsEvents(s: bytes, prefix: bytes, decode: KvDecoder): seq<Event> {
    match ForEachLen(s, 1, [],
      (acc: seq<Attr<WireAny>>, resource: bytes) => CollectResource(acc, resource, prefix, decode))
    case Err(e) => [Broken(e)]
    case Ok(attrs) => LenEvents(s, 2, (scopeLogs: bytes) => ScopeLogsEvents(scopeLogs, attrs, decode))
  }

  function RequestEvents(body: bytes, prefix: bytes, decode: KvDecoder): seq<Event> {
    if |body| == 0 then [] else LenEvents(body, 1, (logs: bytes) => ResourceLogsEvents(logs, prefix, decode))
  }

  // ----- The decode fails at the first fault -----

  lemma WriteFaults(value: WireAny, out: Output)
    ensures FaultOf(Write(value, out)) == EventFault(Handed(value), out.json)
    ensures FaultOf(WriteAsString(value, out)) == EventFault(Handed(value), out.json)
  {
  }

  lemma AttrFaults(attrs: seq<Attr<Written>>, attr: bytes, decode: KvDecoder, out: Output)
    ensures FaultOf(WriteAttr(attrs, attr, decode, out)) == FirstFault(AttrEvents(attr, decode), out.json)
  {
    hide IsUtf8, Write, EventFault, FirstFault;
    match decode(attr)
    case Err(e) => BrokenFault(e, out.json);
    case Ok(None) => NoFault(out.json);
    case Ok(Some(pair)) =>
      BrokenFault(InvalidUtf8, out.json);
      WriteFaults(pair.1, out);
      FirstFaultOne(Handed(pair.1), out.json);
  }

  lemma NoFault(json: Writer)
    ensures FirstFault([], json) == None
  {
  }

  lemma BrokenFault(e: Error, json: Writer)
    ensures FirstFault([Broken(e)], json) == Some(e)
  {
  }

  lemma {:induction false} AttrsFault(
    s: bytes, ranges: seq<(nat, nat)>, attrs: seq<Attr<Written>>, decode: KvDecoder, out: Output)
    requires forall i :: 0 <= i < |ranges| ==> ranges[i].0 + ranges[i].1 <= |s|
    ensures FaultOf(DecodeAttrs(s, ranges, attrs, decode, out)) == FirstFault(AttrsEvents(s, ranges, decode), out.json)
    decreases |ranges|
  {
    hide WriteAttr, AttrEvents, FirstFault;
    if |ranges| == 0 {
      NoFault(out.json);
    } else {
      var slice := s[ranges[0].0..ranges[0].0 + ranges[0].1];
      AttrFaults(attrs, slice, decode, out);
      FirstFaultConcat(AttrEvents(slice, decode), AttrsEvents(s, ranges[1..], decode), out.json);
      if WriteAttr(attrs, slice, decode, out).Ok? {
        AttrsFault(s, ranges[1..], WriteAttr(attrs, slice, decode, out).value, decode, out);
      }
    }
  }

  lemma {:induction false} SharedFaults(attrs: seq<Attr<WireAny>>, out: Output)
    ensures FaultOf(WriteAll(attrs, out)) == FirstFault(SharedEvents(attrs), out.json)
    decreases |attrs|
  {
    hide Write, EventFault, FirstFault;
    if |attrs| == 0 {
      NoFault(out.json);
    } else {
      WriteFaults(attrs[0].value, out);
      SharedFaults(attrs[1..], out);
      FirstFaultOne(Handed(attrs[0].value), out.json);
      FirstFaultConcat([Handed(attrs[0].value)], SharedEvents(attrs[1..]), out.json);
    }
  }

  lemma BodyFaults(body: Option<WireAny>, out: Output)
    ensures FaultOf(WriteBody(body, out)) == FirstFault(BodyEvents(body), out.json)
  {
    hide WriteAsString, EventFault, FirstFault;
    if body.None? {
      NoFault(out.json);
    } else {
      WriteFaults(body.value, out);
      FirstFaultOne(Handed(body.value), out.json);
    }
  }

  lemma RowFaults(
    rows: seq<Row>, s: bytes, scope: ScopeFields, resourceAttrs: seq<Attr<WireAny>>, decode: KvDecoder, out: Output)
    ensures FaultOf(DecodeRow(rows, s, scope, resourceAttrs, decode, out))
            == FirstFault(RowEvents(s, resourceAttrs, decode), out.json)
  {
    hide DecodeRecord, DecodeAttrs, WriteBody, WriteAll, FirstFault, AttrsEvents, BodyEvents, SharedEvents;
    match DecodeRecord(s)
    case Err(e) => BrokenFault(e, out.json);
    case Ok(record) =>
      RangesSliceAttributes(s);
      var a, b, c := BodyEvents(record.body), AttrsEvents(s, record.attrRanges, decode), SharedEvents(resourceAttrs);
      BodyFaults(record.body, out);
      AttrsFault(s, record.attrRanges, [], decode, out);
      SharedFaults(resourceAttrs, out);
      FirstFaultConcat(a, b, out.json);
      FirstFaultConcat(a + b, c, out.json);
  }

  lemma {:induction false} FieldsFaults<S(!new)>(
    fields: seq<Field>, number: nat, state: S, inner: (S, bytes) -> Result<S>, events: bytes -> seq<Event>,
    json: Writer)
    requires forall st: S, t: bytes :: FaultOf(inner(st, t)) == FirstFault(events(t), json)
    ensures FaultOf(Fold(fields, state, OnLen(number, inner))) == FirstFault(FieldsEvents(fields, number, events), json)
    decreases |fields|
  {
    hide FirstFault;
    if |fields| == 0 {
      NoFault(json);
    } else {
      var f, rest := fields[0], fields[1..];
      FirstFaultConcat(FieldEvents(f, number, events), FieldsEvents(rest, number, events), json);
      NoFault(json);
      if f.payload.Group? || f.number != number {
        FieldsFaults(rest, number, state, inner, events, json);
      } else if f.payload.Len? {
        var next := inner(state, f.payload.slice);
        assert FaultOf(next) == FirstFault(events(f.payload.slice), json);
        if next.Ok? {
          FieldsFaults(rest, number, next.value, inner, events, json);
        }
      } else {
        BrokenFault(WrongWireType, json);
      }
    }
  }

  lemma LenFaults<S(!new)>(
    s: bytes, number: nat, state: S, inner: (S, bytes) -> Result<S>, events: bytes -> seq<Event>, json: Writer)
    requires forall st: S, t: bytes :: FaultOf(inner(st, t)) == FirstFault(events(t), json)
    ensures FaultOf(ForEachLen(s, number, state, inner)) == FirstFault(LenEvents(s, number, events), json)
  {
    hide WalkFrom, Fold, FieldsEvents, FirstFault;
    var w := Fields(s);
    FieldsFaults(w.fields, number, state, inner, events, json);
    FirstFaultConcat(
      FieldsEvents(w.fields, number, events), if w.stop.Some? then [Broken(w.stop.value)] else [], json);
    NoFault(json);
    if w.stop.Some? {
      BrokenFault(w.stop.value, json);
    }
  }

  lemma ScopeLogsFaults(
    rows: seq<Row>, s: bytes, resourceAttrs: seq<Attr<WireAny>>, decode: KvDecoder, out: Output)
    ensures FaultOf(DecodeScopeLogs(rows, s, resourceAttrs, decode, out))
            == FirstFault(ScopeLogsEvents(s, resourceAttrs, decode), out.json)
  {
    hide ForEachLen, LenEvents, FirstFault, MergeScope, DecodeRow, RowEvents;
    var merge := (acc: ScopeFields, scope: bytes) => MergeScope(scope, acc);
    match ForEachLen(s, 1, ScopeFields(None, None), merge)
    case Err(e) => BrokenFault(e, out.json);
    case Ok(scope) =>
      var inner := (acc: seq<Row>, record: bytes) => DecodeRow(acc, record, scope, resourceAttrs, decode, out);
      var events := (record: bytes) => RowEvents(record, resourceAttrs, decode);
      forall st: seq<Row>, t: bytes ensures FaultOf(inner(st, t)) == FirstFault(events(t), out.json) {
        RowFaults(st, t, scope, resourceAttrs, decode, out);
      }
      LenFaults(s, 2, rows, inner, events, out.json);
  }

  lemma ResourceLogsFaults(rows: seq<Row>, s: bytes, prefix: bytes, decode: KvDecoder, out: Output)
    ensures FaultOf(DecodeResourceLogs(rows, s, prefix, decode, out))
            == FirstFault(ResourceLogsEvents(s, prefix, decode), out.json)
  {
    hide ForEachLen, LenEvents, FirstFault, CollectResource, DecodeScopeLogs, ScopeLogsEvents;
    var collect := (acc: seq<Attr<WireAny>>, resource: bytes) => CollectResource(acc, resource, prefix, decode);
    match ForEachLen(s, 1, [], collect)
    case Err(e) => BrokenFault(e, out.json);
    case Ok(attrs) =>
      var inner := (acc: seq<Row>, scopeLogs: bytes) => DecodeScopeLogs(acc, scopeLogs, attrs, decode, out);
      var events := (scopeLogs: bytes) => ScopeLogsEvents(scopeLogs, attrs, decode);
      forall st: seq<Row>, t: bytes ensures FaultOf(inner(st, t)) == FirstFault(events(t), out.json) {
        ScopeLogsFaults(st, t, attrs, decode, out);
      }
      LenFaults(s, 2, rows, inner, events, out.json);
  }

  /** On any bytes the decode succeeds without a fault among the events, and fails with the first one otherwise. */
  lemma DecodeFailsAtFirstFault(body: bytes, prefix: bytes, decode: KvDecoder, out: Output)
    ensures FaultOf(DecodeRequest(body, prefix, decode, out))
      == FirstFault(RequestEvents(body, prefix, decode), out.json)
  {
    hide ForEachLen, LenEvents, FirstFault, DecodeResourceLogs, ResourceLogsEvents;
    if |body| == 0 {
      NoFault(out.json);
    } else {
      var inner := (acc: seq<Row>, logs: bytes) => DecodeResourceLogs(acc, logs, prefix, decode, out);
      var events := (logs: bytes) => ResourceLogsEvents(logs, prefix, decode);
      forall st: seq<Row>, t: bytes ensures FaultOf(inner(st, t)) == FirstFault(events(t), out.json) {
        ResourceLogsFaults(st, t, prefix, decode, out);
      }
      LenFaults(body, 1, [], inner, events, out.json);
    }
  }

  // ----- Behind the preflight -----

  /** The JSON writer takes the value. */
  predicate IsTaken(value: WireAny) {
    Json.IsScalar(value) || (Json.Reach(value) <= 65 && Json.TreeOf(value).Ok?)
  }

  /** It refuses the value for its framing, a wire type or its depth. */
  predicate IsRefused(value: WireAny) {
    !Json.IsScalar(value)
    && (Json.Reach(value) > 65
        || (Json.TreeOf(value).Err? && Json.TreeOf(value).error != InvalidUtf8))
  }

  lemma WriterFaults(value: WireAny, format: Json.DoubleFormat)
    ensures var fault := EventFault(Handed(value), Production(format).json);
            && (fault.None? <==> IsTaken(value))
            && (fault.Some? && fault.value != InvalidUtf8 <==> IsRefused(value))
  {
    hide Json.WriteAny, Json.Reach, Json.TreeOf, Json.Render;
    Json.WriteAnyExact(value, 0, format);
  }

  /** The events up to `i` went well, and event `i` hands over a value that is refused. */
  ghost predicate RefusedAt(events: seq<Event>, i: int) {
    && 0 <= i < |events| && events[i].Handed? && IsRefused(events[i].value)
    && forall j :: 0 <= j < i ==> events[j].Handed? && IsTaken(events[j].value)
  }

  /** Ignoring what the writer refuses, the first fault is invalid text. */
  ghost predicate BreaksOnText(events: seq<Event>) {
    forall i :: 0 <= i < |events| && events[i].Broken? && (forall j :: 0 <= j < i ==> events[j].Handed?) ==>
      events[i].error == InvalidUtf8
  }

  function Silent(): Writer {
    (value: WireAny) => Ok([])
  }

  lemma {:induction false} SilentFaults(events: seq<Event>)
    requires FirstFault(events, Silent()).Some? ==> FirstFault(events, Silent()).value == InvalidUtf8
    ensures BreaksOnText(events)
    decreases |events|
  {
    if |events| > 0 && events[0].Handed? {
      SilentFaults(events[1..]);
      forall i | 0 <= i < |events| && events[i].Broken? && (forall j :: 0 <= j < i ==> events[j].Handed?)
        ensures events[i].error == InvalidUtf8
      {
        assert events[1..][i - 1] == events[i];
        assert forall j :: 0 <= j < i - 1 ==> events[1..][j] == events[j + 1];
      }
    }
  }

  lemma {:induction false} FirstFaultExactly(events: seq<Event>, format: Json.DoubleFormat)
    requires BreaksOnText(events)
    ensures var fault := FirstFault(events, Production(format).json);
            && (fault.None? <==> forall i :: 0 <= i < |events| ==> events[i].Handed? && IsTaken(events[i].value))
            && (fault.Some? && fault.value != InvalidUtf8 <==> exists i :: RefusedAt(events, i))
    decreases |events|
  {
    hide Production, IsTaken, IsRefused;
    if |events| > 0 {
      var e, rest := events[0], events[1..];
      if e.Broken? {
        assert forall i :: RefusedAt(events, i) ==> i == 0;
      } else {
        WriterFaults(e.value, format);
        RestBreaksOnText(events);
        FirstFaultExactly(rest, format);
        RefusedShifts(events);
        assert forall i :: 0 < i < |events| ==> events[i] == rest[i - 1];
      }
    }
  }

  lemma RestBreaksOnText(events: seq<Event>)
    requires |events| > 0 && events[0].Handed? && BreaksOnText(events)
    ensures BreaksOnText(events[1..])
  {
    var rest := events[1..];
    forall i | 0 <= i < |rest| && rest[i].Broken? && (forall j :: 0 <= j < i ==> rest[j].Handed?)
      ensures rest[i].error == InvalidUtf8
    {
      assert rest[i] == events[i + 1];
      assert forall j :: 0 < j < i + 1 ==> events[j] == rest[j - 1];
    }
  }

  lemma RefusedShifts(events: seq<Event>)
    requires |events| > 0 && events[0].Handed?
    ensures (exists i :: RefusedAt(events, i)) <==>
            IsRefused(events[0].value) || (IsTaken(events[0].value) && exists i :: RefusedAt(events[1..], i))
  {
    hide IsTaken, IsRefused;
    var rest := events[1..];
    if i :| RefusedAt(events, i) {
      if i > 0 {
        assert rest[i - 1] == events[i];
        assert forall j :: 0 <= j < i - 1 ==> rest[j] == events[j + 1];
        assert RefusedAt(rest, i - 1);
      }
    }
    if IsRefused(events[0].value) {
      assert RefusedAt(events, 0);
    }
    if IsTaken(events[0].value) && exists i :: RefusedAt(rest, i) {
      var i :| RefusedAt(rest, i);
      assert events[i + 1] == rest[i];
      assert forall j :: 0 < j < i + 1 ==> events[j] == rest[j - 1];
      assert RefusedAt(events, i + 1);
    }
  }

  /**
    * Behind an accepting preflight the production decode succeeds exactly when every value that it hands over is
    * taken, and fails on something else than text exactly when it hands over, after nothing but values that are taken,
    * a list whose framing, wire types or depth the JSON writer refuses.
    */
  lemma PreflightLeavesLists(body: bytes, prefix: bytes, format: Json.DoubleFormat)
    requires Scan(body, ExportLogsServiceRequest).Ok?
    ensures var r := DecodeRequest(body, prefix, InlineKeyValue, Production(format));
            var events := RequestEvents(body, prefix, InlineKeyValue);
            && (r.Ok? <==> forall i :: 0 <= i < |events| ==> events[i].Handed? && IsTaken(events[i].value))
            && (!OnlyUtf8(r) <==> exists i :: RefusedAt(events, i))
  {
    hide Scan, DecodeRequest, RequestEvents, InlineKeyValue, FirstFault, Production, IsTaken, RefusedAt;
    var events := RequestEvents(body, prefix, InlineKeyValue);
    var silent := Output(Silent(), format);
    SilentIsCalm(format);
    PreflightIsSound(body, prefix, silent);
    DecodeFailsAtFirstFault(body, prefix, InlineKeyValue, silent);
    SilentFaults(events);
    DecodeFailsAtFirstFault(body, prefix, InlineKeyValue, Production(format));
    FirstFaultExactly(events, format);
  }

  lemma SilentIsCalm(format: Json.DoubleFormat)
    ensures Calm(Output(Silent(), format))
  {
  }
}

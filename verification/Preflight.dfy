/** `classify_projection_support`: the preflight scan driven by the field table. */
module Preflight {
  import opened Bytes
  import opened Options
  import opened Wire
  import opened Walk

  datatype WireKind = VarintKind | Fixed64Kind | LenKind | GroupKind | Fixed32Kind

  datatype Action = Project | Descend | Ignore | Unsupported

  datatype MessageKind =
    | ExportLogsServiceRequest
    | ResourceLogs
    | Resource
    | ScopeLogs
    | InstrumentationScope
    | LogRecord
    | KeyValue
    | AnyValue
    | ArrayValue
    | KeyValueList

  datatype FieldRule = FieldRule(wire: WireKind, action: Action, child: Option<MessageKind>)

  function KindOf(payload: Payload): WireKind {
    match payload
    case Varint(_) => VarintKind
    case Fixed64(_) => Fixed64Kind
    case Len(_) => LenKind
    case Group => GroupKind
    case Fixed32(_) => Fixed32Kind
  }

  function Into(child: MessageKind): Option<FieldRule> {
    Some(FieldRule(LenKind, Descend, Some(child)))
  }

  function Leaf(wire: WireKind, action: Action): Option<FieldRule> {
    Some(FieldRule(wire, action, None))
  }

  /** `lookup_field` over the tables generated from the vendored protos. */
  function LookupField(message: MessageKind, number: nat): Option<FieldRule> {
    match message
    case ExportLogsServiceRequest =>
      if number == 1 then Into(ResourceLogs) else None
    case ResourceLogs =>
      (match number
       case 1 => Into(Resource)
       case 2 => Into(ScopeLogs)
       case 3 => Leaf(LenKind, Ignore)
       case _ => None)
    case Resource =>
      (match number
       case 1 => Into(KeyValue)
       case 2 => Leaf(VarintKind, Ignore)
       case 3 => Leaf(LenKind, Ignore)
       case _ => None)
    case ScopeLogs =>
      (match number
       case 1 => Into(InstrumentationScope)
       case 2 => Into(LogRecord)
       case 3 => Leaf(LenKind, Ignore)
       case _ => None)
    case InstrumentationScope =>
      (match number
       case 1 => Leaf(LenKind, Project)
       case 2 => Leaf(LenKind, Project)
       case 3 => Leaf(LenKind, Ignore)
       case 4 => Leaf(VarintKind, Ignore)
       case _ => None)
    case LogRecord =>
      (match number
       case 1 => Leaf(Fixed64Kind, Project)
       case 2 => Leaf(VarintKind, Project)
       case 3 => Leaf(LenKind, Project)
       case 5 => Into(AnyValue)
       case 6 => Into(KeyValue)
       case 7 => Leaf(VarintKind, Ignore)
       case 8 => Leaf(Fixed32Kind, Project)
       case 9 => Leaf(LenKind, Project)
       case 10 => Leaf(LenKind, Project)
       case 11 => Leaf(Fixed64Kind, Project)
       case 12 => Leaf(LenKind, Ignore)
       case _ => None)
    case KeyValue =>
      (match number
       case 1 => Leaf(LenKind, Project)
       case 2 => Into(AnyValue)
       case _ => None)
    case AnyValue =>
      (match number
       case 1 => Leaf(LenKind, Project)
       case 2 => Leaf(VarintKind, Project)
       case 3 => Leaf(VarintKind, Project)
       case 4 => Leaf(Fixed64Kind, Project)
       case 5 => Leaf(LenKind, Project)
       case 6 => Leaf(LenKind, Project)
       case 7 => Leaf(LenKind, Project)
       case _ => None)
    case ArrayValue =>
      if number == 1 then Into(AnyValue) else None
    case KeyValueList =>
      if number == 1 then Into(KeyValue) else None
  }

  /** How many message scans can be open at once below and including a message of this kind. */
  function Height(message: MessageKind): nat {
    match message
    case ExportLogsServiceRequest => 6
    case ResourceLogs => 5
    case ScopeLogs => 4
    case Resource => 3
    case LogRecord => 3
    case KeyValueList => 3
    case KeyValue => 2
    case ArrayValue => 2
    case InstrumentationScope => 1
    case AnyValue => 1
  }

  lemma ChildIsLower(message: MessageKind, number: nat)
    requires LookupField(message, number).Some? && LookupField(message, number).value.child.Some?
    ensures Height(LookupField(message, number).value.child.value) < Height(message)
    ensures LookupField(message, number).value.wire == LenKind
  {
  }

  // ----- What the scan computes -----

  /** One field against its table entry; a sub-message is scanned before anything behind it is read. */
  function CheckField(field: Field, message: MessageKind): Result<()>
    decreases Height(message), 0, 0
  {
    match LookupField(message, field.number)
    case None => Ok(())
    case Some(rule) =>
      if KindOf(field.payload) != rule.wire then Err(WrongWireType)
      else if rule.child.Some? then
        ChildIsLower(message, field.number);
        Scan(field.payload.slice, rule.child.value)
      else Ok(())
  }

  function CheckAll(fields: seq<Field>, message: MessageKind): Result<()>
    decreases Height(message), 1, |fields|
  {
    if |fields| == 0 then Ok(())
    else
      var _ :- CheckField(fields[0], message);
      CheckAll(fields[1..], message)
  }

  /** The table action of the last known field, which is what `final_oneof` holds. */
  function LastAction(fields: seq<Field>, message: MessageKind): Option<Action> {
    if |fields| == 0 then None
    else
      var last := LookupField(message, fields[|fields| - 1].number);
      if last.Some? then Some(last.value.action) else LastAction(fields[..|fields| - 1], message)
  }

  /** Checks the fields in wire order up to the first fault, be it in a field or in the framing. */
  function Verdict(w: Walked, message: MessageKind): Result<()>
    decreases Height(message), 2, 0
  {
    var _ :- CheckAll(w.fields, message);
    if w.stop.Some? then Err(w.stop.value) else Ok(())
  }

  function Scan(s: bytes, message: MessageKind): Result<()>
    decreases Height(message), 3, 0
  {
    var _ :- Verdict(Fields(s), message);
    if message.AnyValue? && LastAction(Fields(s).fields, message) == Some(Unsupported) then Err(UnsupportedValue)
    else Ok(())
  }

  // ----- The loop form -----

  lemma VerdictStep(field: Field, rest: Walked, message: MessageKind)
    ensures Verdict(Walked([field] + rest.fields, rest.stop), message) ==
      if CheckField(field, message).Err? then CheckField(field, message) else Verdict(rest, message)
  {
    hide CheckField;
    assert ([field] + rest.fields)[1..] == rest.fields;
  }

  lemma VerdictEnds(message: MessageKind)
    ensures Verdict(Walked([], None), message) == Ok(())
    ensures forall e :: Verdict(Walked([], Some(e)), message) == Err(e)
  {
  }

  lemma LastActionStep(seen: seq<Field>, field: Field, message: MessageKind)
    ensures var rule := LookupField(message, field.number);
            LastAction(seen + [field], message) ==
              if rule.Some? then Some(rule.value.action) else LastAction(seen, message)
  {
    assert (seen + [field])[..|seen|] == seen;
  }

  /** `scan_message`, and `scan_any_value` for the one message kind with an own loop. */
  method ScanMessage(input: bytes, message: MessageKind) returns (r: Result<()>)
    ensures r == Scan(input, message)
    decreases Height(message)
  {
    hide NextField, WalkFrom, CheckField, CheckAll, Verdict, LastAction;
    if message.AnyValue? {
      r := ScanAnyValue(input);
      return;
    }
    var rest, pos: nat := input, 0;
    VerdictEnds(message);
    while |rest| > 0
      invariant Verdict(WalkFrom(rest, pos), message) == Verdict(Fields(input), message)
      decreases |rest|
    {
      WalkStep(rest, pos);
      var step :- ReadField(rest, pos);
      var next := rest[step.used..];
      VerdictStep(step.field, WalkFrom(next, pos + step.used), message);
      CheckFieldCases(step.field, message);
      var rule := LookupField(message, step.field.number);
      if step.field.payload.Len? && rule.Some? {
        if rule.value.wire != LenKind {
          return Err(WrongWireType);
        }
        if rule.value.child.Some? {
          ChildIsLower(message, step.field.number);
          var _ :- ScanMessage(step.field.payload.slice, rule.value.child.value);
        }
      }
      if rule.Some? && KindOf(step.field.payload) != rule.value.wire {
        return Err(WrongWireType);
      }
      rest, pos := next, pos + step.used;
    }
    WalkStep(rest, pos);
    return Ok(());
  }

  lemma CheckFieldCases(field: Field, message: MessageKind)
    ensures var rule := LookupField(message, field.number);
      && (rule.None? ==> CheckField(field, message) == Ok(()))
      && (rule.Some? && KindOf(field.payload) != rule.value.wire ==> CheckField(field, message) == Err(WrongWireType))
      && (rule.Some? && KindOf(field.payload) == rule.value.wire && rule.value.child.None? ==>
        CheckField(field, message) == Ok(()))
      && (rule.Some? && KindOf(field.payload) == rule.value.wire && rule.value.child.Some? ==>
            field.payload.Len? && CheckField(field, message) == Scan(field.payload.slice, rule.value.child.value))
  {
    hide Scan;
    if LookupField(message, field.number).Some? && LookupField(message, field.number).value.child.Some? {
      ChildIsLower(message, field.number);
    }
  }

  method ScanAnyValue(input: bytes) returns (r: Result<()>)
    ensures r == Scan(input, AnyValue)
    decreases 0
  {
    hide NextField, WalkFrom, CheckField, CheckAll, Verdict, LastAction;
    var rest, pos: nat, finalOneof := input, 0, None;
    ghost var seen := [];
    VerdictEnds(AnyValue);
    LastActionNone();
    while |rest| > 0
      invariant Verdict(WalkFrom(rest, pos), AnyValue) == Verdict(Fields(input), AnyValue)
      invariant seen + WalkFrom(rest, pos).fields == Fields(input).fields
      invariant finalOneof == LastAction(seen, AnyValue)
      decreases |rest|
    {
      WalkStep(rest, pos);
      var step :- ReadField(rest, pos);
      var next := rest[step.used..];
      VerdictStep(step.field, WalkFrom(next, pos + step.used), AnyValue);
      CheckFieldCases(step.field, AnyValue);
      LastActionStep(seen, step.field, AnyValue);
      var rule := LookupField(AnyValue, step.field.number);
      if rule.Some? {
        if KindOf(step.field.payload) != rule.value.wire {
          return Err(WrongWireType);
        }
        finalOneof := Some(rule.value.action);
      }
      seen := seen + [step.field];
      rest, pos := next, pos + step.used;
    }
    WalkStep(rest, pos);
    assert seen == Fields(input).fields;
    if finalOneof == Some(Unsupported) {
      return Err(UnsupportedValue);
    }
    return Ok(());
  }

  lemma LastActionNone()
    ensures LastAction([], AnyValue) == None
  {
  }

  /** `classify_projection_support`. */
  method ClassifyProjectionSupport(input: bytes) returns (r: Result<()>)
    ensures r == Scan(input, ExportLogsServiceRequest)
  {
    r := ScanMessage(input, ExportLogsServiceRequest);
  }

  // ----- What acceptance means -----

  /**
    * A message is fit: it is framed from end to end, and every known field has its wire kind and, if it has one, a
    * fit child.
    */
  ghost predicate Fit(s: bytes, message: MessageKind)
    decreases Height(message), 1
  {
    Fields(s).stop.None? && forall f :: f in Fields(s).fields ==> FitField(f, message)
  }

  ghost predicate FitField(field: Field, message: MessageKind)
    decreases Height(message), 0
  {
    var rule := LookupField(message, field.number);
    rule.Some? ==>
      && KindOf(field.payload) == rule.value.wire
      && (rule.value.child.Some? ==>
            (ChildIsLower(message, field.number); Fit(field.payload.slice, rule.value.child.value)))
  }

  /** No table entry says Unsupported, so the preflight never sends a request to the fallback decoder. */
  lemma {:induction false} NeverUnsupported(fields: seq<Field>, message: MessageKind)
    ensures LastAction(fields, message) != Some(Unsupported)
    decreases |fields|
  {
    if |fields| > 0 {
      NeverUnsupported(fields[..|fields| - 1], message);
    }
  }

  lemma {:induction false} CheckAllExact(fields: seq<Field>, message: MessageKind)
    ensures CheckAll(fields, message).Ok? <==> forall f :: f in fields ==> FitField(f, message)
    decreases Height(message), 1, |fields|
  {
    hide Scan, Fit;
    if |fields| > 0 {
      CheckFieldExact(fields[0], message);
      CheckAllExact(fields[1..], message);
      assert fields == [fields[0]] + fields[1..];
    }
  }

  lemma {:induction false} CheckFieldExact(field: Field, message: MessageKind)
    ensures CheckField(field, message).Ok? <==> FitField(field, message)
    decreases Height(message), 0, 0
  {
    hide Scan, Fit;
    CheckFieldCases(field, message);
    var rule := LookupField(message, field.number);
    if rule.Some? && rule.value.child.Some? && KindOf(field.payload) == rule.value.wire {
      ChildIsLower(message, field.number);
      ScanExact(field.payload.slice, rule.value.child.value);
    }
  }

  /** The scan accepts exactly the fit messages. */
  lemma {:induction false} ScanExact(s: bytes, message: MessageKind)
    ensures Scan(s, message).Ok? <==> Fit(s, message)
    decreases Height(message), 2, 0
  {
    hide CheckAll, WalkFrom, LastAction, FitField;
    CheckAllExact(Fields(s).fields, message);
    NeverUnsupported(Fields(s).fields, message);
  }

  /** If it accepts `a`, it accepts `a` followed by `b` exactly when it accepts `b`. */
  lemma ScanConcat(a: bytes, b: bytes, message: MessageKind)
    requires Scan(a, message).Ok?
    ensures Scan(a + b, message).Ok? <==> Scan(b, message).Ok?
  {
    hide Scan, WalkFrom, FitField;
    ScanExact(a, message);
    ScanExact(b, message);
    ScanExact(a + b, message);
    WalkConcat(a, b, 0);
    WalkMoved(b, 0, |a|);
    var fb, moved := Fields(b).fields, WalkFrom(b, |a|).fields;
    assert moved == MovedAll(fb, |a|);
    forall i | 0 <= i < |fb| ensures FitField(moved[i], message) <==> FitField(fb[i], message) {
      FitFieldMoved(fb[i], |a|, message);
    }
    assert forall f :: f in Fields(a + b).fields <==> f in Fields(a).fields || f in moved;
  }

  lemma FitFieldMoved(field: Field, shift: nat, message: MessageKind)
    ensures FitField(Moved(field, shift), message) <==> FitField(field, message)
  {
    hide Fit;
  }

  // ----- How deep the scan recurses -----

  /** The largest number of message scans open at once while `s` is scanned. */
  ghost function Depth(s: bytes, message: MessageKind): nat
    decreases Height(message), 1, 0
  {
    1 + DeepestChild(Fields(s).fields, message)
  }

  ghost function DeepestChild(fields: seq<Field>, message: MessageKind): nat
    decreases Height(message), 0, |fields|
  {
    if |fields| == 0 then 0
    else
      var rule := LookupField(message, fields[0].number);
      var others := DeepestChild(fields[1..], message);
      if fields[0].payload.Len? && rule.Some? && rule.value.child.Some? then
        ChildIsLower(message, fields[0].number);
        Max(Depth(fields[0].payload.slice, rule.value.child.value), others)
      else others
  }

  lemma {:induction false} DepthBounded(s: bytes, message: MessageKind)
    ensures Depth(s, message) <= Height(message) <= 6
    decreases Height(message), 1, 0
  {
    hide WalkFrom;
    DeepestChildBounded(Fields(s).fields, message);
  }

  lemma {:induction false} DeepestChildBounded(fields: seq<Field>, message: MessageKind)
    ensures DeepestChild(fields, message) < Height(message)
    decreases Height(message), 0, |fields|
  {
    hide WalkFrom;
    if |fields| > 0 {
      DeepestChildBounded(fields[1..], message);
      var rule := LookupField(message, fields[0].number);
      if fields[0].payload.Len? && rule.Some? && rule.value.child.Some? {
        ChildIsLower(message, fields[0].number);
        DepthBounded(fields[0].payload.slice, rule.value.child.value);
      }
    }
  }
}

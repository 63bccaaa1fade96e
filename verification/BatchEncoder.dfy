/** The OTLP sink's batch encoder: rows grouped by resource and scope into one export request. */
module BatchEncoder {
  import opened Bytes
  import opened Options
  import opened Wire
  import opened Walk
  import opened Utf8
  import opened Encode
  import opened Decode
  import opened Preflight
  import opened Inline
  import opened Request
  import opened RowEncoder
  import opened Messages

  datatype ScopeKey = ScopeKey(name: Option<buffer>, version: Option<buffer>)

  /** A row with the values of its resource columns and its scope. */
  datatype SinkRow = SinkRow(record: LogRow, resource: seq<Cell>, scope: ScopeKey)

  datatype Group = Group(resource: seq<Cell>, scope: ScopeKey, members: seq<LogRow>)

  /** What a batch brings along: attributes of every resource, the resource columns, and the crate version. */
  datatype Setting = Setting(statics: seq<Column>, names: seq<buffer>, version: buffer)

  const SCOPE_NAME: buffer := [0x66, 0x66]

  // ----- The request of some groups -----

  function ResourceColumns(env: Setting, resource: seq<Cell>): seq<Column>
    requires |resource| == |env.names|
  {
    env.statics + seq(|resource|, i requires 0 <= i < |resource| => Column(env.names[i], resource[i]))
  }

  /** Cells whose pairs can be written. */
  predicate Writable(columns: seq<Column>) {
    forall c :: c in columns ==> ValidCell(c.cell) && Fits(c) && IsUtf8(c.name)
  }

  function PairParts(columns: seq<Column>): seq<Part>
    requires Writable(columns)
  {
    if |columns| == 0 then []
    else
      var front, c := columns[..|columns| - 1], columns[|columns| - 1];
      assert c in columns;
      PairParts(front) + if CellValue(c.cell).Some? then [Part(1, PairText(c))] else []
  }

  function NameOf(scope: ScopeKey): buffer {
    if scope.name.Some? then scope.name.value else SCOPE_NAME
  }

  function VersionOf(env: Setting, scope: ScopeKey): buffer {
    if scope.version.Some? then scope.version.value else env.version
  }

  function ScopeText(env: Setting, scope: ScopeKey): bytes {
    LenText(1, NameOf(scope)) + LenText(2, VersionOf(env, scope))
  }

  // ----- Resources decode back -----

  function Prefixed(attrs: seq<Attr<WireAny>>, prefix: bytes): (r: seq<Attr<WireAny>>)
    ensures |r| == |attrs|
  {
    seq(|attrs|, i requires 0 <= i < |attrs| => Attr(prefix + attrs[i].key, attrs[i].value))
  }

  lemma ResourceAttrDecodes(attrs: seq<Attr<WireAny>>, column: Column, prefix: bytes)
    requires ValidCell(column.cell) && Fits(column) && IsUtf8(column.name) && CellValue(column.cell).Some?
      && IsUtf8(prefix)
    ensures AddAttr(attrs, PairText(column), prefix, InlineKeyValue)
            == Ok(attrs + [Attr(prefix + column.name, CellValue(column.cell).value)])
  {
    hide InlineKeyValue, IsUtf8, PairText, ValidCell, Fits, CellValue;
    PairTextDecodes(column);
    Utf8Concat(prefix, column.name);
  }

  function Collector(prefix: bytes): (seq<Attr<WireAny>>, bytes) -> Result<seq<Attr<WireAny>>> {
    (acc: seq<Attr<WireAny>>, attr: bytes) => AddAttr(acc, attr, prefix, InlineKeyValue)
  }

  lemma PrefixedSnoc(attrs: seq<Attr<WireAny>>, attr: Attr<WireAny>, prefix: bytes)
    ensures Prefixed(attrs + [attr], prefix) == Prefixed(attrs, prefix) + [Attr(prefix + attr.key, attr.value)]
  {
  }

  lemma {:induction false} ResourceFolds(columns: seq<Column>, prefix: bytes)
    requires Writable(columns) && IsUtf8(prefix)
    ensures FoldParts(PairParts(columns), 1, [], Collector(prefix)) == Ok(Prefixed(RowAttrs(columns), prefix))
    decreases |columns|
  {
    hide AddAttr, IsUtf8, ValidCell, PairText, AnyText, CellValue, FoldParts;
    if |columns| == 0 {
      NoPartsFold(PairParts(columns), 1, [], Collector(prefix));
    } else {
      var front, c := columns[..|columns| - 1], columns[|columns| - 1];
      assert c in columns;
      ResourceFolds(front, prefix);
      if CellValue(c.cell).Some? {
        var part := Part(1, PairText(c));
        FoldPartsConcat(PairParts(front), [part], 1, [], Collector(prefix));
        FoldOnePart(part, 1, Prefixed(RowAttrs(front), prefix), Collector(prefix));
        ResourceAttrDecodes(Prefixed(RowAttrs(front), prefix), c, prefix);
        PrefixedSnoc(RowAttrs(front), Attr(c.name, CellValue(c.cell).value), prefix);
      } else {
        assert PairParts(columns) == PairParts(front);
        assert RowAttrs(columns) == RowAttrs(front);
      }
    }
  }

  lemma NoPartsFold<S>(parts: seq<Part>, number: nat, state: S, inner: (S, bytes) -> Result<S>)
    requires |parts| == 0
    ensures FoldParts(parts, number, state, inner) == Ok(state)
  {
  }

  /** The resource message decodes to the attributes of its columns, behind the prefix. */
  lemma ResourceDecodes(columns: seq<Column>, prefix: bytes)
    requires Writable(columns) && IsUtf8(prefix)
    ensures CollectResource([], PartsText(PairParts(columns)), prefix, InlineKeyValue)
      == Ok(Prefixed(RowAttrs(columns), prefix))
  {
    hide ForEachLen, PartsText, PairParts, FoldParts, IsUtf8, Writable;
    ResourceFolds(columns, prefix);
    ForEachPart(PairParts(columns), 1, [], Collector(prefix));
  }

  lemma {:induction false} PairPartsFit(columns: seq<Column>)
    requires Writable(columns)
    ensures forall i :: 0 <= i < |PairParts(columns)| ==>
      PairParts(columns)[i].field == 1 && Fit(PairParts(columns)[i].data, KeyValue)
    decreases |columns|
  {
    hide Fit, IsUtf8, ValidCell, Fits, PairText, CellValue;
    if |columns| > 0 {
      var c := columns[|columns| - 1];
      assert c in columns;
      PairPartsFit(columns[..|columns| - 1]);
      if CellValue(c.cell).Some? {
        PairTextDecodes(c);
      }
    }
  }

  lemma ResourceFits(columns: seq<Column>)
    requires Writable(columns)
    ensures Fit(PartsText(PairParts(columns)), Resource)
  {
    hide Fit, PairParts, Writable, PartsText;
    PairPartsFit(columns);
    FitParts(PairParts(columns), Resource);
  }

  // ----- Scopes decode back -----

  lemma ScopeDecodes(env: Setting, scope: ScopeKey)
    requires IsUtf8(NameOf(scope)) && IsUtf8(VersionOf(env, scope))
    ensures MergeScope(ScopeText(env, scope), ScopeFields(None, None))
            == Ok(ScopeFields(Some(NameOf(scope)), Some(VersionOf(env, scope))))
    ensures Fit(ScopeText(env, scope), InstrumentationScope)
  {
    hide IsUtf8, WalkFrom, LenText, IsField, ForEach;
    var name, version := NameOf(scope), VersionOf(env, scope);
    LenTextReads(1, name);
    LenTextReads(2, version);
    OneField(LenText(1, name), 1, Len(name), ScopeFields(None, None), VisitScope);
    AppendField(LenText(1, name), LenText(2, version), 2, Len(version), ScopeFields(None, None), VisitScope);
  }

  // ----- Groups -----

  function RecordParts(members: seq<LogRow>): (r: seq<Part>)
    requires forall i :: 0 <= i < |members| ==> ValidRow(members[i]) && |RowText(members[i])| < MAX_BUFFER
    ensures |r| == |members|
  {
    seq(|members|, i requires 0 <= i < |members| => Part(2, RowText(members[i])))
  }

  /** The rows of a group and its resource can be written. */
  ghost predicate ValidGroup(env: Setting, g: Group) {
    && |g.resource| == |env.names| && Writable(ResourceColumns(env, g.resource))
    && IsUtf8(NameOf(g.scope)) && IsUtf8(VersionOf(env, g.scope))
    && forall i :: 0 <= i < |g.members| ==> ValidRow(g.members[i]) && |RowText(g.members[i])| < MAX_BUFFER
  }

  function ScopeLogsParts(env: Setting, g: Group): seq<Part>
    requires ValidGroup(env, g) && |ScopeText(env, g.scope)| < MAX_BUFFER
  {
    [Part(1, ScopeText(env, g.scope))] + RecordParts(g.members)
  }

  function ScopeLogsText(env: Setting, g: Group): bytes
    requires ValidGroup(env, g) && |ScopeText(env, g.scope)| < MAX_BUFFER
  {
    PartsText(ScopeLogsParts(env, g))
  }

  function ResourceText(env: Setting, g: Group): bytes
    requires ValidGroup(env, g)
  {
    PartsText(PairParts(ResourceColumns(env, g.resource)))
  }

  /** Its messages fit in memory. */
  ghost predicate FitsGroup(env: Setting, g: Group)
    requires ValidGroup(env, g)
  {
    && |ScopeText(env, g.scope)| < MAX_BUFFER && |ScopeLogsText(env, g)| < MAX_BUFFER
    && |ResourceText(env, g)| < MAX_BUFFER
  }

  /** A resource message is written only if it is not empty. */
  function ResourceLogsParts(env: Setting, g: Group): seq<Part>
    requires ValidGroup(env, g) && FitsGroup(env, g)
  {
    (if |ResourceText(env, g)| == 0 then [] else [Part(1, ResourceText(env, g))]) + [Part(2, ScopeLogsText(env, g))]
  }

  ghost predicate Encodable(env: Setting, g: Group) {
    ValidGroup(env, g) && FitsGroup(env, g) && |PartsText(ResourceLogsParts(env, g))| < MAX_BUFFER
  }

  function GroupText(env: Setting, g: Group): buffer
    requires Encodable(env, g)
  {
    PartsText(ResourceLogsParts(env, g))
  }

  function RequestParts(env: Setting, groups: seq<Group>): (r: seq<Part>)
    requires forall i :: 0 <= i < |groups| ==> Encodable(env, groups[i])
    ensures |r| == |groups|
  {
    seq(|groups|, i requires 0 <= i < |groups| => Part(1, GroupText(env, groups[i])))
  }

  // ----- Groups decode back -----

  function ReceivedAll(rows: seq<LogRow>, scope: ScopeFields, resourceAttrs: seq<Attr<WireAny>>): (r: seq<Row>)
    requires forall i :: 0 <= i < |rows| ==> ValidRow(rows[i])
    ensures |r| == |rows|
  {
    seq(|rows|, i requires 0 <= i < |rows| => Received(rows[i], scope, resourceAttrs))
  }

  function RecordVisitor(scope: ScopeFields, resourceAttrs: seq<Attr<WireAny>>, out: Output)
    : (seq<Row>, bytes) -> Result<seq<Row>>
  {
    (acc: seq<Row>, record: bytes) => DecodeRow(acc, record, scope, resourceAttrs, InlineKeyValue, out)
  }

  lemma RowFits(row: LogRow)
    requires ValidRow(row)
    ensures Fit(RowText(row), LogRecord)
  {
    hide RowText, ValidRow, FitField, DecodeRecord, WalkFrom, AttrPayloads;
    HoldsRow(row);
  }

  lemma {:induction false} RecordsFold(
    members: seq<LogRow>, acc: seq<Row>, scope: ScopeFields, resourceAttrs: seq<Attr<WireAny>>, out: Output)
    requires AllScalar(resourceAttrs)
    requires forall i :: 0 <= i < |members| ==> ValidRow(members[i]) && |RowText(members[i])| < MAX_BUFFER
    ensures FoldParts(RecordParts(members), 2, acc, RecordVisitor(scope, resourceAttrs, out))
            == Ok(acc + ReceivedAll(members, scope, resourceAttrs))
    decreases |members|
  {
    hide RowText, ValidRow, Received, FoldParts, AllScalar, RecordVisitor;
    var parts, visitor := RecordParts(members), RecordVisitor(scope, resourceAttrs, out);
    if |members| == 0 {
      FoldNoParts(parts, 2, acc, visitor);
      assert acc + ReceivedAll(members, scope, resourceAttrs) == acc;
    } else {
      var next := acc + [Received(members[0], scope, resourceAttrs)];
      RecordVisited(members[0], acc, scope, resourceAttrs, out);
      FoldFirstPart(parts, 2, acc, next, visitor);
      RecordsFold(members[1..], next, scope, resourceAttrs, out);
      assert parts[1..] == RecordParts(members[1..]);
      assert acc + ReceivedAll(members, scope, resourceAttrs) == next + ReceivedAll(members[1..], scope, resourceAttrs);
    }
  }

  lemma RecordVisited(
    row: LogRow, acc: seq<Row>, scope: ScopeFields, resourceAttrs: seq<Attr<WireAny>>, out: Output)
    requires AllScalar(resourceAttrs) && ValidRow(row)
    ensures RecordVisitor(scope, resourceAttrs, out)(acc, RowText(row))
            == Ok(acc + [Received(row, scope, resourceAttrs)])
  {
    hide RowText, ValidRow, Received, AllScalar, DecodeRow;
    RowRoundTrip(row, acc, scope, resourceAttrs, out);
  }

  function ReceivedScope(env: Setting, g: Group): ScopeFields {
    ScopeFields(Some(NameOf(g.scope)), Some(VersionOf(env, g.scope)))
  }

  function ScopeVisitor(): (ScopeFields, bytes) -> Result<ScopeFields> {
    (acc: ScopeFields, scope: bytes) => MergeScope(scope, acc)
  }

  lemma ScopeOfParts(env: Setting, g: Group)
    requires ValidGroup(env, g) && |ScopeText(env, g.scope)| < MAX_BUFFER
    ensures FoldParts(ScopeLogsParts(env, g), 1, ScopeFields(None, None), ScopeVisitor()) == Ok(ReceivedScope(env, g))
  {
    hide FoldParts, RowText, ValidRow, ScopeText, MergeScope, IsUtf8, Writable;
    var part := Part(1, ScopeText(env, g.scope));
    ScopeDecodes(env, g.scope);
    FoldPartsConcat([part], RecordParts(g.members), 1, ScopeFields(None, None), ScopeVisitor());
    FoldOnePart(part, 1, ScopeFields(None, None), ScopeVisitor());
    FoldPartsSkips(RecordParts(g.members), 1, ReceivedScope(env, g), ScopeVisitor());
  }

  lemma RecordsOfParts(env: Setting, g: Group, acc: seq<Row>, resourceAttrs: seq<Attr<WireAny>>, out: Output)
    requires AllScalar(resourceAttrs)
    requires ValidGroup(env, g) && |ScopeText(env, g.scope)| < MAX_BUFFER
    ensures FoldParts(ScopeLogsParts(env, g), 2, acc, RecordVisitor(ReceivedScope(env, g), resourceAttrs, out))
            == Ok(acc + ReceivedAll(g.members, ReceivedScope(env, g), resourceAttrs))
  {
    hide FoldParts, RowText, ValidRow, ScopeText, IsUtf8, Writable;
    var part := Part(1, ScopeText(env, g.scope));
    var visit := RecordVisitor(ReceivedScope(env, g), resourceAttrs, out);
    FoldPartsConcat([part], RecordParts(g.members), 2, acc, visit);
    FoldPartsSkips([part], 2, acc, visit);
    RecordsFold(g.members, acc, ReceivedScope(env, g), resourceAttrs, out);
  }

  lemma ScopeLogsDecode(env: Setting, g: Group, acc: seq<Row>, resourceAttrs: seq<Attr<WireAny>>, out: Output)
    requires AllScalar(resourceAttrs)
    requires ValidGroup(env, g) && |ScopeText(env, g.scope)| < MAX_BUFFER
    ensures DecodeScopeLogs(acc, ScopeLogsText(env, g), resourceAttrs, InlineKeyValue, out)
            == Ok(acc + ReceivedAll(g.members, ReceivedScope(env, g), resourceAttrs))
  {
    hide FoldParts, ScopeLogsParts, PartsText, ForEachLen, ValidGroup, ScopeText, RowText, ValidRow;
    var parts := ScopeLogsParts(env, g);
    ScopeOfParts(env, g);
    ForEachPart(parts, 1, ScopeFields(None, None), ScopeVisitor());
    RecordsOfParts(env, g, acc, resourceAttrs, out);
    ForEachPart(parts, 2, acc, RecordVisitor(ReceivedScope(env, g), resourceAttrs, out));
  }

  lemma ScopeLogsFit(env: Setting, g: Group)
    requires ValidGroup(env, g) && |ScopeText(env, g.scope)| < MAX_BUFFER
    ensures Fit(ScopeLogsText(env, g), ScopeLogs)
  {
    hide Fit, RowText, ValidRow, ScopeText, IsUtf8, Writable, PartsText;
    var parts := ScopeLogsParts(env, g);
    ScopeDecodes(env, g.scope);
    forall i | 0 <= i < |g.members| ensures Fit(RowText(g.members[i]), LogRecord) {
      RowFits(g.members[i]);
    }
    forall i | 0 <= i < |parts| ensures FitField(Field(parts[i].field, Len(parts[i].data), 0), ScopeLogs) {
      if i > 0 {
        assert parts[i] == Part(2, RowText(g.members[i - 1]));
      }
    }
    FitParts(parts, ScopeLogs);
  }

  function ResourceVisitor(prefix: bytes): (seq<Attr<WireAny>>, bytes) -> Result<seq<Attr<WireAny>>> {
    (acc: seq<Attr<WireAny>>, resource: bytes) => CollectResource(acc, resource, prefix, InlineKeyValue)
  }

  function ScopeLogsVisitor(resourceAttrs: seq<Attr<WireAny>>, out: Output): (seq<Row>, bytes) -> Result<seq<Row>> {
    (acc: seq<Row>, scopeLogs: bytes) => DecodeScopeLogs(acc, scopeLogs, resourceAttrs, InlineKeyValue, out)
  }

  function ReceivedAttrs(env: Setting, g: Group, prefix: bytes): seq<Attr<WireAny>>
    requires |g.resource| == |env.names|
  {
    Prefixed(RowAttrs(ResourceColumns(env, g.resource)), prefix)
  }

  lemma NothingCollected(prefix: bytes)
    ensures CollectResource([], [], prefix, InlineKeyValue) == Ok([])
  {
    hide AddAttr;
    NothingWalked([], OnLen(1, Collector(prefix)));
  }

  lemma AttrsOfParts(env: Setting, g: Group, prefix: bytes)
    requires ValidGroup(env, g) && FitsGroup(env, g) && IsUtf8(prefix)
    ensures FoldParts(ResourceLogsParts(env, g), 1, [], ResourceVisitor(prefix)) == Ok(ReceivedAttrs(env, g, prefix))
  {
    hide FoldParts, CollectResource, IsUtf8, Writable, PairParts, PartsText, ScopeLogsText, ResourceColumns, RowAttrs,
      ScopeText;
    ResourceDecodes(ResourceColumns(env, g.resource), prefix);
    var text, scopes := ResourceText(env, g), Part(2, ScopeLogsText(env, g));
    var visit := ResourceVisitor(prefix);
    FoldPartsSkips([scopes], 1, ReceivedAttrs(env, g, prefix), visit);
    if |text| == 0 {
      NothingCollected(prefix);
      assert text == [];
      assert ResourceLogsParts(env, g) == [scopes];
    } else {
      var part := Part(1, text);
      FoldPartsConcat([part], [scopes], 1, [], visit);
      FoldOnePart(part, 1, [], visit);
    }
  }

  function ReceivedGroup(env: Setting, g: Group, prefix: bytes): seq<Row>
    requires ValidGroup(env, g)
  {
    ReceivedAll(g.members, ReceivedScope(env, g), ReceivedAttrs(env, g, prefix))
  }

  lemma ReceivedAttrsAreScalar(env: Setting, g: Group, prefix: bytes)
    requires |g.resource| == |env.names|
    ensures AllScalar(ReceivedAttrs(env, g, prefix))
  {
    hide RowAttrs, ResourceColumns;
    RowAttrsAreScalar(ResourceColumns(env, g.resource));
  }

  lemma ScopeLogsOfParts(env: Setting, g: Group, acc: seq<Row>, prefix: bytes, out: Output)
    requires ValidGroup(env, g) && FitsGroup(env, g)
    ensures FoldParts(ResourceLogsParts(env, g), 2, acc, ScopeLogsVisitor(ReceivedAttrs(env, g, prefix), out))
            == Ok(acc + ReceivedGroup(env, g, prefix))
  {
    hide FoldParts, DecodeScopeLogs, IsUtf8, Writable, PairParts, PartsText, ResourceColumns, RowAttrs, ScopeText,
      ValidRow, Received, RowText;
    var text, scopes := ResourceText(env, g), Part(2, ScopeLogsText(env, g));
    var visit := ScopeLogsVisitor(ReceivedAttrs(env, g, prefix), out);
    ReceivedAttrsAreScalar(env, g, prefix);
    ScopeLogsDecode(env, g, acc, ReceivedAttrs(env, g, prefix), out);
    FoldOnePart(scopes, 2, acc, visit);
    if |text| == 0 {
      assert ResourceLogsParts(env, g) == [scopes];
    } else {
      var part := Part(1, text);
      FoldPartsConcat([part], [scopes], 2, acc, visit);
      FoldPartsSkips([part], 2, acc, visit);
    }
  }

  lemma GroupDecodes(env: Setting, g: Group, acc: seq<Row>, prefix: bytes, out: Output)
    requires Encodable(env, g) && IsUtf8(prefix)
    ensures DecodeResourceLogs(acc, GroupText(env, g), prefix, InlineKeyValue, out)
            == Ok(acc + ReceivedGroup(env, g, prefix))
  {
    hide FoldParts, ResourceLogsParts, PartsText, ForEachLen, IsUtf8, ValidGroup, FitsGroup, ReceivedGroup,
      ReceivedAttrs;
    var parts := ResourceLogsParts(env, g);
    GroupParts(env, g);
    AttrsOfParts(env, g, prefix);
    ForEachPart(parts, 1, [], ResourceVisitor(prefix));
    ScopeLogsOfParts(env, g, acc, prefix, out);
    ForEachPart(parts, 2, acc, ScopeLogsVisitor(ReceivedAttrs(env, g, prefix), out));
  }

  lemma GroupParts(env: Setting, g: Group)
    requires ValidGroup(env, g)
    ensures |g.resource| == |env.names|
  {
  }

  lemma GroupFits(env: Setting, g: Group)
    requires Encodable(env, g)
    ensures Fit(GroupText(env, g), ResourceLogs)
  {
    hide Fit, PartsText, IsUtf8, Writable, PairParts, ScopeText, RowText, ValidRow, ResourceColumns, ScopeLogsParts;
    ScopeLogsFit(env, g);
    ResourceFits(ResourceColumns(env, g.resource));
    FitParts(ResourceLogsParts(env, g), ResourceLogs);
  }

  function ReceivedGroups(env: Setting, groups: seq<Group>, prefix: bytes): seq<Row>
    requires forall i :: 0 <= i < |groups| ==> Encodable(env, groups[i])
  {
    if |groups| == 0 then []
    else
      EncodableIsValid(env, groups[0]);
      ReceivedGroup(env, groups[0], prefix) + ReceivedGroups(env, groups[1..], prefix)
  }

  function GroupVisitor(prefix: bytes, out: Output): (seq<Row>, bytes) -> Result<seq<Row>> {
    (acc: seq<Row>, logs: bytes) => DecodeResourceLogs(acc, logs, prefix, InlineKeyValue, out)
  }

  lemma {:induction false} GroupsFold(env: Setting, groups: seq<Group>, acc: seq<Row>, prefix: bytes, out: Output)
    requires IsUtf8(prefix) && forall i :: 0 <= i < |groups| ==> Encodable(env, groups[i])
    ensures FoldParts(RequestParts(env, groups), 1, acc, GroupVisitor(prefix, out))
            == Ok(acc + ReceivedGroups(env, groups, prefix))
    decreases |groups|
  {
    hide GroupText, Encodable, ReceivedGroup, IsUtf8, DecodeResourceLogs;
    if |groups| == 0 {
      assert acc + ReceivedGroups(env, groups, prefix) == acc;
    } else {
      var g := groups[0];
      EncodableIsValid(env, g);
      GroupDecodes(env, g, acc, prefix, out);
      GroupsFold(env, groups[1..], acc + ReceivedGroup(env, g, prefix), prefix, out);
      assert RequestParts(env, groups)[1..] == RequestParts(env, groups[1..]);
      assert acc + ReceivedGroups(env, groups, prefix)
          == acc + ReceivedGroup(env, g, prefix) + ReceivedGroups(env, groups[1..], prefix);
    }
  }

  lemma EncodableIsValid(env: Setting, g: Group)
    requires Encodable(env, g)
    ensures ValidGroup(env, g)
  {
  }

  /** A request passes the preflight and decodes to the rows of its groups, with their scopes and resources. */
  lemma RequestDecodes(env: Setting, groups: seq<Group>, prefix: bytes, out: Output)
    requires IsUtf8(prefix) && forall i :: 0 <= i < |groups| ==> Encodable(env, groups[i])
    ensures Scan(PartsText(RequestParts(env, groups)), ExportLogsServiceRequest).Ok?
    ensures DecodeRequest(PartsText(RequestParts(env, groups)), prefix, InlineKeyValue, out)
            == Ok(ReceivedGroups(env, groups, prefix))
  {
    hide FoldParts, Encodable, GroupText, ForEachLen, IsUtf8, Scan, Fit, ReceivedGroup;
    var parts := RequestParts(env, groups);
    GroupsFold(env, groups, [], prefix, out);
    ForEachPart(parts, 1, [], GroupVisitor(prefix, out));
    if |groups| == 0 {
      assert PartsText(parts) == [];
    } else {
      NotEmpty(parts);
    }
    forall i | 0 <= i < |parts|
      ensures FitField(Field(parts[i].field, Len(parts[i].data), 0), ExportLogsServiceRequest)
    {
      GroupFits(env, groups[i]);
    }
    FitParts(parts, ExportLogsServiceRequest);
    ScanExact(PartsText(parts), ExportLogsServiceRequest);
    assert [] + ReceivedGroups(env, groups, prefix) == ReceivedGroups(env, groups, prefix);
  }

  lemma NotEmpty(parts: seq<Part>)
    requires |parts| > 0
    ensures |PartsText(parts)| > 0
  {
  }
}

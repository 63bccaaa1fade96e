/** Arrays and key-value lists of scalars, from the wire to the JSON text of a row. */
module WrittenLists {
  import opened Bytes
  import opened Options
  import opened Wire
  import opened Walk
  import opened Utf8
  import opened Encode
  import opened Decode
  import opened Preflight
  import opened Inline
  import opened Request
  import opened RowEncoder
  import opened Messages
  import opened Json
  import opened JsonText
  import opened ListBodies

  // ----- The list on the wire -----

  /** An element is the pair of a column, or just its value. */
  function ItemText(keyed: bool, column: Column): bytes
    requires ValidCell(column.cell) && CellValue(column.cell).Some?
  {
    if keyed then PairText(column) else AnyText(column.cell)
  }

  ghost predicate IsItem(keyed: bool, c: Column) {
    ValidCell(c.cell) && CellValue(c.cell).Some? && Fits(c) && IsUtf8(c.name) && |ItemText(keyed, c)| < MAX_BUFFER
  }

  ghost predicate AreItems(keyed: bool, columns: seq<Column>) {
    forall i :: 0 <= i < |columns| ==> IsItem(keyed, columns[i])
  }

  ghost function ItemParts(keyed: bool, columns: seq<Column>): (r: seq<Part>)
    requires AreItems(keyed, columns)
    ensures |r| == |columns|
  {
    seq(|columns|, i requires 0 <= i < |columns| => Part(1, ItemText(keyed, columns[i])))
  }

  // ----- What the writer makes of it -----

  function ItemElement(keyed: bool, column: Column): Element
    requires CellValue(column.cell).Some?
  {
    IsLeaf(column.cell);
    Element(if keyed then column.name else [], Leaf(CellValue(column.cell).value))
  }

  lemma IsLeaf(cell: Cell)
    requires CellValue(cell).Some?
    ensures IsScalar(CellValue(cell).value)
  {
  }

  lemma PairIsRead(column: Column)
    requires IsItem(true, column)
    ensures JsonPair(PairText(column)) == Ok(KeyAndValue(column.name, CellValue(column.cell)))
  {
    hide AnyText, CellValue, ValidCell, IsField, WalkFrom, ForEach, DecodeAny, LenText, IsUtf8;
    var any: buffer := AnyText(column.cell);
    var key, value := LenText(1, column.name), LenText(2, any);
    LenTextReads(1, column.name);
    LenTextReads(2, any);
    AnyTextDecodes(column.cell);
    OneField(key, 1, Len(column.name), KeyAndValue([], None), VisitJsonPair);
    AppendField(key, value, 2, Len(any), KeyAndValue([], None), VisitJsonPair);
  }

  lemma ItemIsRead(keyed: bool, column: Column, f: Field, size: nat)
    requires IsItem(keyed, column) && f.payload == Len(ItemText(keyed, column)) && |f.payload.slice| < size
    ensures ElementTree(f, keyed, size) == Ok(ItemElement(keyed, column))
  {
    hide AnyText, PairText, CellValue, ValidCell, DecodeAny, JsonPair;
    IsLeaf(column.cell);
    if keyed {
      PairIsRead(column);
    } else {
      AnyTextDecodes(column.cell);
    }
    ScalarTree(CellValue(column.cell).value);
  }

  lemma ScalarTree(value: WireAny)
    requires IsScalar(value)
    ensures TreeOf(value) == Ok(Leaf(value)) && Reach(value) == 1
  {
  }

  ghost function ItemElements(keyed: bool, columns: seq<Column>): (r: seq<Element>)
    requires AreItems(keyed, columns)
    ensures |r| == |columns|
  {
    seq(|columns|, i requires 0 <= i < |columns| => ItemElement(keyed, columns[i]))
  }

  lemma {:induction false} ItemsAreRead(keyed: bool, columns: seq<Column>, fields: seq<Field>, size: nat)
    requires AreItems(keyed, columns) && Shows(fields, ItemParts(keyed, columns)) && Smaller(fields, size)
    ensures TreesOf(fields, keyed, size) == Ok(ItemElements(keyed, columns))
    decreases |columns|
  {
    hide ItemText, ItemElement, ElementTree, ValidCell, CellValue, Fits, IsUtf8;
    if |columns| > 0 {
      assert fields[0] in fields;
      assert Smaller(fields[1..], size);
      assert Shows(fields[1..], ItemParts(keyed, columns[1..]));
      ItemIsRead(keyed, columns[0], fields[0], size);
      ItemsAreRead(keyed, columns[1..], fields[1..], size);
      assert [ItemElement(keyed, columns[0])] + ItemElements(keyed, columns[1..]) == ItemElements(keyed, columns);
    }
  }

  lemma {:induction false} ItemsAreFlat(elements: seq<Element>)
    requires forall i :: 0 <= i < |elements| ==> elements[i].tree.Leaf?
    ensures MaxHeight(elements) <= 1
    decreases |elements|
  {
    if |elements| > 0 {
      ItemsAreFlat(elements[1..]);
    }
  }

  /** The list is written as the rendering of its elements. */
  lemma ListIsWritten(keyed: bool, columns: seq<Column>, format: DoubleFormat)
    requires AreItems(keyed, columns)
    ensures WriteAny(ListValue(keyed, PartsText(ItemParts(keyed, columns))), 0, format)
            == Ok(Render(List(keyed, ItemElements(keyed, columns)), format))
  {
    hide AreItems, WriteAny, Render, TreesOf, WalkFrom, PartsText, Shows, Smaller, Reach, Json.Height;
    var raw := PartsText(ItemParts(keyed, columns));
    PartsTextWalks(ItemParts(keyed, columns));
    WalkSmaller(raw);
    ItemsAreRead(keyed, columns, Fields(raw).fields, |raw|);
    var value := ListValue(keyed, raw);
    assert TreeOf(value) == Ok(List(keyed, ItemElements(keyed, columns)));
    WriteAnyExact(value, 0, format);
    ReachIsHeight(value);
    FlatHeight(keyed, ItemElements(keyed, columns));
  }

  lemma FlatHeight(keyed: bool, elements: seq<Element>)
    requires forall i :: 0 <= i < |elements| ==> elements[i].tree.Leaf?
    ensures Json.Height(List(keyed, elements)) <= 2
  {
    hide MaxHeight;
    ItemsAreFlat(elements);
  }

  // ----- What the text stands for -----

  /** The JSON value stands for the cell. */
  ghost predicate MeansCell(v: Value, cell: Cell, format: DoubleFormat) {
    match cell
    case NullCell => false
    case IntCell(i) => v.Number? && IntegerOf(v.text) == Some(i)
    case UIntCell(u) => v.Number? && IntegerOf(v.text) == Some(u)
    case FloatCell(bits) => MeansScalar(v, DoubleValue(bits), format)
    case BoolCell(flag) => v == JsonText.Bool(flag)
    case StrCell(text) => v == String(text)
    case BytesCell(raw) => v.String? && BytesOf(v.chars) == Some(raw)
  }

  /** An element stands for its column: an object with exactly the members k and v, or the value alone. */
  ghost predicate MeansItem(v: Value, keyed: bool, column: Column, format: DoubleFormat) {
    if keyed then
      && v.Object? && |v.members| == 2 && v.members[0] == Member([0x6B], String(column.name))
      && v.members[1].name == [0x76] && MeansCell(v.members[1].value, column.cell, format)
    else MeansCell(v, column.cell, format)
  }

  /** `text` is a JSON array of exactly these elements, in their order. */
  ghost predicate IsArrayOf(text: bytes, keyed: bool, columns: seq<Column>, format: DoubleFormat) {
    var parsed := ParseValue(text);
    && parsed.Some? && parsed.value.used == |text| && parsed.value.value.Items?
    && |parsed.value.value.items| == |columns|
    && forall i :: 0 <= i < |columns| ==> MeansItem(parsed.value.value.items[i], keyed, columns[i], format)
  }

  lemma ItemMeans(v: Value, keyed: bool, column: Column, format: DoubleFormat)
    requires CellValue(column.cell).Some? && MeansElement(v, keyed, ItemElement(keyed, column), format)
    ensures MeansItem(v, keyed, column, format)
  {
    hide IntegerOf, BytesOf;
    IsLeaf(column.cell);
  }

  lemma {:induction false} ItemsMean(
    items: seq<Value>, keyed: bool, elements: seq<Element>, format: DoubleFormat, i: nat)
    requires MeansAll(items, keyed, elements, format) && i < |elements|
    ensures |items| == |elements| && MeansElement(items[i], keyed, elements[i], format)
    decreases |elements|
  {
    hide MeansElement;
    if i > 0 {
      ItemsMean(items[1..], keyed, elements[1..], format, i - 1);
    }
  }

  lemma RenderedListMeans(keyed: bool, columns: seq<Column>, format: DoubleFormat)
    requires AreItems(keyed, columns) && FormatsNumbers(format)
    ensures IsArrayOf(Render(List(keyed, ItemElements(keyed, columns)), format), keyed, columns, format)
  {
    hide ParseValue, Render, MeansAll, MeansItem, MeansElement, FormatsNumbers, ItemElement, ItemText, ValidCell, Fits;
    var elements := ItemElements(keyed, columns);
    var text := Render(List(keyed, elements), format);
    RenderRoundTrip(List(keyed, elements), [], format);
    assert text + [] == text;
    var items := ParseValue(text).value.value.items;
    ItemsCount(items, keyed, elements, format);
    forall i | 0 <= i < |columns| ensures MeansItem(items[i], keyed, columns[i], format) {
      ItemsMean(items, keyed, elements, format, i);
      ItemMeans(items[i], keyed, columns[i], format);
    }
  }

  lemma ItemsCount(items: seq<Value>, keyed: bool, elements: seq<Element>, format: DoubleFormat)
    requires MeansAll(items, keyed, elements, format)
    ensures |items| == |elements|
  {
  }

  // ----- The row -----

  lemma ListRowDecodes(keyed: bool, raw: small, prefix: bytes, format: DoubleFormat, text: bytes)
    requires WriteAny(ListValue(keyed, raw), 0, format) == Ok(text)
    ensures var r := DecodeRequest(ListRequest(keyed, raw), prefix, InlineKeyValue, Production(format));
            r.Ok? && |r.value| == 1 && r.value[0].body == Some(text) && r.value[0].attrs == []
  {
    hide LenText, ForEachLen, InlineKeyValue, MergeScope, CollectResource, WriteAny, ListRecord, ListScopeLogs,
      ListResourceLogs, DecodeRecord;
    var out := Production(format);
    RecordDecodes(keyed, raw);
    RangesSliceAttributes(ListRecord(keyed, raw));
    assert DecodeRow([], ListRecord(keyed, raw), ScopeFields(None, None), [], InlineKeyValue, out)
        == Ok([] + [Row(EMPTY_RECORD.(body := Some(ListValue(keyed, raw))), Some(text), ScopeFields(None, None), [],
          [])]);
    ScopeLogsDecode(keyed, raw, out);
    ResourceLogsDecode(keyed, raw, prefix, out);
    OneLenVisited(1, ListResourceLogs(keyed, raw), 1, [],
      (acc: seq<Row>, logs: bytes) => DecodeResourceLogs(acc, logs, prefix, InlineKeyValue, out));
    NotEmpty(ListResourceLogs(keyed, raw));
  }

  lemma ScopeLogsDecode(keyed: bool, raw: small, out: Output)
    ensures DecodeScopeLogs([], ListScopeLogs(keyed, raw), [], InlineKeyValue, out)
            == DecodeRow([], ListRecord(keyed, raw), ScopeFields(None, None), [], InlineKeyValue, out)
  {
    hide LenText, ForEachLen, InlineKeyValue, MergeScope, DecodeRow, ListRecord;
    var merge := (acc: ScopeFields, scope: bytes) => MergeScope(scope, acc);
    OneLenVisited(2, ListRecord(keyed, raw), 1, ScopeFields(None, None), merge);
    OneLenVisited(2, ListRecord(keyed, raw), 2, [],
      (acc: seq<Row>, record: bytes) => DecodeRow(acc, record, ScopeFields(None, None), [], InlineKeyValue, out));
  }

  lemma ResourceLogsDecode(keyed: bool, raw: small, prefix: bytes, out: Output)
    ensures DecodeResourceLogs([], ListResourceLogs(keyed, raw), prefix, InlineKeyValue, out)
            == DecodeScopeLogs([], ListScopeLogs(keyed, raw), [], InlineKeyValue, out)
  {
    hide LenText, ForEachLen, InlineKeyValue, CollectResource, DecodeScopeLogs, ListScopeLogs;
    var collect := (acc: seq<Attr<WireAny>>, resource: bytes) => CollectResource(acc, resource, prefix, InlineKeyValue);
    OneLenVisited(2, ListScopeLogs(keyed, raw), 1, [], collect);
    OneLenVisited(2, ListScopeLogs(keyed, raw), 2, [],
      (acc: seq<Row>, scopeLogs: bytes) => DecodeScopeLogs(acc, scopeLogs, [], InlineKeyValue, out));
  }

  /**
    * A body that is a list of scalars, or of keys and scalars, passes the preflight and arrives as the JSON array of
    * exactly those values, or of objects with exactly those k and v, in their order.
    */
  lemma ListBodyArrives(keyed: bool, columns: seq<Column>, prefix: bytes, format: DoubleFormat)
    requires AreItems(keyed, columns) && FormatsNumbers(format)
    requires |PartsText(ItemParts(keyed, columns))| < MAX_BUFFER - 200
    ensures var request := ListRequest(keyed, PartsText(ItemParts(keyed, columns)));
            var r := DecodeRequest(request, prefix, InlineKeyValue, Production(format));
            && Scan(request, ExportLogsServiceRequest).Ok?
            && r.Ok? && |r.value| == 1 && r.value[0].body.Some?
            && IsArrayOf(r.value[0].body.value, keyed, columns, format)
  {
    hide AreItems, FormatsNumbers, PartsText, Scan, DecodeRequest, InlineKeyValue, Render, IsArrayOf, ListRequest,
      WriteAny;
    var raw: small := PartsText(ItemParts(keyed, columns));
    ListBodyIsNotScanned(keyed, raw, prefix, format);
    ListIsWritten(keyed, columns, format);
    RenderedListMeans(keyed, columns, format);
    ListRowDecodes(keyed, raw, prefix, format, Render(List(keyed, ItemElements(keyed, columns)), format));
  }

  // ----- Scalar bodies -----

  /** The text of a body stands for the scalar, as text: no quotes, no escapes. */
  ghost predicate MeansBody(text: bytes, value: Scalar, format: DoubleFormat) {
    match value
    case StringValue(t) => text == t
    case BoolValue(flag) => text == if flag then [0x74, 0x72, 0x75, 0x65] else [0x66, 0x61, 0x6C, 0x73, 0x65]
    case IntValue(i) => IntegerOf(text) == Some(i)
    case DoubleValue(bits) =>
      var magnitude := bits % 0x8000_0000_0000_0000;
      if magnitude < 0x7FF0_0000_0000_0000 then text == format(bits)
      else if magnitude > 0x7FF0_0000_0000_0000 then text == [0x4E, 0x61, 0x4E]
      else text == if bits == magnitude then [0x69, 0x6E, 0x66] else [0x2D, 0x69, 0x6E, 0x66]
    case BytesValue(raw) => BytesOf(text) == Some(raw)
  }

  /** A scalar body is always written, as the text that stands for it. */
  lemma ScalarBodyIsWritten(value: Scalar, out: Output)
    ensures var r := WriteAsString(value, out);
            r.Ok? && MeansBody(r.value, value, out.format)
  {
    hide IntegerOf, Decimal, BytesOf, HexText;
    match value
    case IntValue(i) => DecimalBack(i);
    case BytesValue(raw) => HexBack(raw);
    case DoubleValue(bits) => DoubleRanges(bits);
    case _ =>
  }

  /**
    * A list is written by the JSON writer, as a body and as an attribute, and fails with it; bytes become hex digits.
    */
  lemma ListsAreRendered(value: WireAny, out: Output)
    ensures !IsScalar(value) ==> WriteAsString(value, out) == out.json(value)
    ensures !IsScalar(value) ==>
      match out.json(value)
      case Ok(text) => Write(value, out) == Ok(Rendered(text))
      case Err(e) => Write(value, out) == Err(e)
    ensures IsScalar(value) && !value.BytesValue? ==> Write(value, out) == Ok(AsIs(value))
    ensures value.BytesValue? ==>
      Write(value, out).Ok? && Write(value, out).value.Rendered?
      && BytesOf(Write(value, out).value.text) == Some(value.raw)
  {
    hide BytesOf, HexText;
    if value.BytesValue? {
      HexBack(value.raw);
    }
  }
}

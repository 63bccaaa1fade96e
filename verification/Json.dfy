/** The depth-limited writer that renders an `AnyValue` as JSON text. */
module Json {
  import opened Bytes
  import opened Options
  import opened Walk
  import opened Utf8
  import opened Decode

  const MAX_ANY_VALUE_DEPTH := 64

  const QUOTE: u8 := 0x22
  const BACKSLASH: u8 := 0x5C
  const COMMA: u8 := 0x2C
  const OPEN_BRACKET: u8 := 0x5B
  const CLOSE_BRACKET: u8 := 0x5D
  const OPEN_BRACE: u8 := 0x7B
  const CLOSE_BRACE: u8 := 0x7D
  const COLON: u8 := 0x3A

  const NULL_TEXT: bytes := [0x6E, 0x75, 0x6C, 0x6C]
  const TRUE_TEXT: bytes := [0x74, 0x72, 0x75, 0x65]
  const FALSE_TEXT: bytes := [0x66, 0x61, 0x6C, 0x73, 0x65]
  const NAN_TEXT: bytes := [0x4E, 0x61, 0x4E]
  const INF_TEXT: bytes := [0x69, 0x6E, 0x66]
  const NEG_INF_TEXT: bytes := [0x2D, 0x69, 0x6E, 0x66]
  const KEY_OPENING: bytes := [OPEN_BRACE, QUOTE, 0x6B, QUOTE, COLON, QUOTE]
  const VALUE_OPENING: bytes := [QUOTE, COMMA, QUOTE, 0x76, QUOTE, COLON]

  /** `ryu::Buffer::format` on finite doubles, given by their bits. */
  type DoubleFormat = u64 -> bytes

  // ----- Leaves -----

  function HexDigit(nibble: nat): u8
    requires nibble < 16
  {
    if nibble < 10 then 0x30 + nibble else 0x57 + nibble
  }

  /** What `write_json_escaped_bytes` emits for one byte. */
  function EscapeByte(b: u8): bytes {
    if b == QUOTE then [BACKSLASH, QUOTE]
    else if b == BACKSLASH then [BACKSLASH, BACKSLASH]
    else if b == 0x0A then [BACKSLASH, 0x6E]
    else if b == 0x0D then [BACKSLASH, 0x72]
    else if b == 0x09 then [BACKSLASH, 0x74]
    else if b == 0x08 then [BACKSLASH, 0x62]
    else if b == 0x0C then [BACKSLASH, 0x66]
    else if b < 0x20 then [BACKSLASH, 0x75, 0x30, 0x30, HexDigit(b / 16), HexDigit(b % 16)]
    else [b]
  }

  function Escape(s: bytes): bytes {
    if |s| == 0 then [] else EscapeByte(s[0]) + Escape(s[1..])
  }

  method WriteJsonEscapedBytes(out: bytes, value: bytes) returns (r: bytes)
    ensures r == out + Escape(value)
  {
    hide EscapeByte, Escape;
    r := out;
    assert value[0..] == value;
    for i := 0 to |value|
      invariant r + Escape(value[i..]) == out + Escape(value)
    {
      EscapeStep(r, value, i);
      r := r + EscapeByte(value[i]);
    }
    EscapeEnds(value[|value|..]);
  }

  lemma EscapeStep(out: bytes, value: bytes, i: nat)
    requires i < |value|
    ensures out + Escape(value[i..]) == out + EscapeByte(value[i]) + Escape(value[i + 1..])
  {
    hide EscapeByte;
    assert value[i..][1..] == value[i + 1..];
  }

  lemma EscapeEnds(s: bytes)
    requires |s| == 0
    ensures Escape(s) == []
  {
  }

  /** `write_hex_to_buf`. */
  function HexText(s: bytes): bytes {
    if |s| == 0 then [] else [HexDigit(s[0] / 16), HexDigit(s[0] % 16)] + HexText(s[1..])
  }

  function Digits(n: nat): (s: bytes)
    ensures |s| >= 1
  {
    if n < 10 then [0x30 + n] else Digits(n / 10) + [0x30 + n % 10]
  }

  /** `itoa`: the decimal form of an integer. */
  function Decimal(i: int): bytes {
    if i < 0 then [0x2D] + Digits(-i) else Digits(i)
  }

  function Quoted(body: bytes): bytes {
    [QUOTE] + body + [QUOTE]
  }

  predicate IsFinite(bits: u64) {
    bits / 0x10_0000_0000_0000 % 0x800 != 0x7FF
  }

  predicate IsNan(bits: u64) {
    !IsFinite(bits) && bits % 0x10_0000_0000_0000 != 0
  }

  /** A finite double is a number; the others become strings. */
  function DoubleText(bits: u64, format: DoubleFormat): bytes {
    if IsFinite(bits) then format(bits)
    else if IsNan(bits) then Quoted(NAN_TEXT)
    else if bits < 0x8000_0000_0000_0000 then Quoted(INF_TEXT)
    else Quoted(NEG_INF_TEXT)
  }

  predicate IsScalar(value: WireAny) {
    !value.ArrayRaw? && !value.KvListRaw?
  }

  function ScalarText(value: WireAny, format: DoubleFormat): bytes
    requires IsScalar(value)
  {
    match value
    case StringValue(text) => Quoted(Escape(text))
    case BoolValue(flag) => if flag then TRUE_TEXT else FALSE_TEXT
    case IntValue(i) => Decimal(i)
    case DoubleValue(bits) => DoubleText(bits, format)
    case BytesValue(raw) => Quoted(HexText(raw))
  }

  // ----- The writer -----

  function Levels(depth: nat): nat {
    if depth > MAX_ANY_VALUE_DEPTH then 0 else MAX_ANY_VALUE_DEPTH + 1 - depth
  }

  /** The pair visitor of the JSON writer: the key is validated, and an empty later value erases the earlier one. */
  function VisitJsonPair(out: KeyAndValue, f: Field): Result<KeyAndValue> {
    match f.number
    case 1 =>
      if !f.payload.Len? then Err(WrongWireType)
      else
        var key :- RequireUtf8(f.payload.slice);
        Ok(out.(key := key))
    case 2 =>
      if !f.payload.Len? then Err(WrongWireType)
      else
        var value :- DecodeAny(f.payload.slice);
        Ok(out.(value := value))
    case _ => Ok(out)
  }

  function JsonPair(kv: bytes): Result<KeyAndValue> {
    ForEach(kv, KeyAndValue([], None), VisitJsonPair)
  }

  predicate GoodJsonField(f: Field) {
    f.payload.Group? ||
    match f.number
    case 1 => f.payload.Len? && IsUtf8(f.payload.slice)
    case 2 => f.payload.Len? && DecodeAny(f.payload.slice).Ok?
    case _ => true
  }

  /** The value of the last value field, even if it is empty. */
  function LastWritten(fields: seq<Field>): Option<WireAny> {
    var last := LastText(fields, 2);
    if last.Some? && DecodeAny(last.value).Ok? then DecodeAny(last.value).value else None
  }

  lemma {:induction false} FoldJsonPair(fields: seq<Field>)
    ensures var r := Fold(fields, KeyAndValue([], None), VisitJsonPair);
            && (r.Ok? <==> forall f :: f in fields ==> GoodJsonField(f))
            && (r.Ok? ==> r.value == KeyAndValue(LastKey(fields), LastWritten(fields)))
    decreases |fields|
  {
    hide Fold, DecodeAny, IsUtf8, LastText;
    if |fields| == 0 {
      assert fields == [];
      NothingLast();
      FoldNothing(KeyAndValue([], None), VisitJsonPair);
    } else {
      var before, f := fields[..|fields| - 1], fields[|fields| - 1];
      assert fields == before + [f];
      assert f in fields && forall g :: g in before ==> g in fields;
      FoldJsonPair(before);
      FoldSnoc(before, f, KeyAndValue([], None), VisitJsonPair);
      LastTextSnoc(before, f, 1);
      LastTextSnoc(before, f, 2);
    }
  }

  /** A pair in a list has the last key and the last value, which erases earlier ones even if it is empty. */
  lemma JsonPairLastWins(kv: bytes)
    ensures JsonPair(kv).Ok? <==> Fields(kv).stop.None? && forall f :: f in Fields(kv).fields ==> GoodJsonField(f)
    ensures JsonPair(kv).Ok? ==>
      JsonPair(kv).value == KeyAndValue(LastKey(Fields(kv).fields), LastWritten(Fields(kv).fields))
  {
    hide Fold, WalkFrom, GoodJsonField, LastKey, LastWritten;
    FoldJsonPair(Fields(kv).fields);
  }

  function WriteOptional(value: Option<WireAny>, depth: nat, format: DoubleFormat): Result<bytes>
    requires depth <= MAX_ANY_VALUE_DEPTH
    decreases Levels(depth), 0, 0
  {
    if value.None? then Ok(NULL_TEXT) else WriteAny(value.value, depth + 1, format)
  }

  /** What one field of an `ArrayValue` or, if `pairs`, of a `KeyValueList` adds: nothing unless its number is 1. */
  function WriteElement(f: Field, depth: nat, pairs: bool, format: DoubleFormat): Result<bytes>
    requires depth <= MAX_ANY_VALUE_DEPTH && f.number == 1
    decreases Levels(depth), 1, 0
  {
    if !f.payload.Len? then Err(WrongWireType)
    else if pairs then
      var kv :- JsonPair(f.payload.slice);
      var text :- WriteOptional(kv.value, depth, format);
      Ok(KEY_OPENING + Escape(kv.key) + VALUE_OPENING + text + [CLOSE_BRACE])
    else
      var value :- DecodeAny(f.payload.slice);
      WriteOptional(value, depth, format)
  }

  function Separator(first: bool): bytes {
    if first then [] else [COMMA]
  }

  predicate IsElement(f: Field) {
    f.number == 1 && !f.payload.Group?
  }

  function WriteElements(fields: seq<Field>, depth: nat, pairs: bool, first: bool, format: DoubleFormat): Result<bytes>
    requires depth <= MAX_ANY_VALUE_DEPTH
    decreases Levels(depth), 2, |fields|
  {
    if |fields| == 0 then Ok([])
    else if !IsElement(fields[0]) then WriteElements(fields[1..], depth, pairs, first, format)
    else
      var text :- WriteElement(fields[0], depth, pairs, format);
      var rest :- WriteElements(fields[1..], depth, pairs, false, format);
      Ok(Separator(first) + text + rest)
  }

  /** The elements of what was walked, then the reason the walk stopped. */
  function WriteWalked(w: Walked, depth: nat, pairs: bool, first: bool, format: DoubleFormat): Result<bytes>
    requires depth <= MAX_ANY_VALUE_DEPTH
    decreases Levels(depth), 3, 0
  {
    var text :- WriteElements(w.fields, depth, pairs, first, format);
    if w.stop.Some? then Err(w.stop.value) else Ok(text)
  }

  /** `write_array_value_json` and `write_kvlist_value_json`: both print a JSON array. */
  function WriteList(s: bytes, depth: nat, pairs: bool, format: DoubleFormat): Result<bytes>
    requires depth <= MAX_ANY_VALUE_DEPTH
    decreases Levels(depth), 4, 0
  {
    var text :- WriteWalked(Fields(s), depth, pairs, true, format);
    Ok([OPEN_BRACKET] + text + [CLOSE_BRACKET])
  }

  /** `write_wire_any_json_depth`. */
  function WriteAny(value: WireAny, depth: nat, format: DoubleFormat): Result<bytes>
    decreases Levels(depth), 5, 0
  {
    if depth > MAX_ANY_VALUE_DEPTH then Err(DepthExceeded)
    else
      match value
      case ArrayRaw(raw) => WriteList(raw, depth, false, format)
      case KvListRaw(raw) => WriteList(raw, depth, true, format)
      case _ => Ok(ScalarText(value, format))
  }

  // ----- The value behind the bytes -----

  type Scalar = v: WireAny | IsScalar(v) witness BoolValue(false)

  /** A fully decoded `AnyValue`; an empty one is `Absent`, and an array is a list whose keys do not count. */
  datatype Tree =
    | Absent
    | Leaf(value: Scalar)
    | List(keyed: bool, elements: seq<Element>)

  datatype Element = Element(key: bytes, tree: Tree)

  function RawSize(value: WireAny): nat {
    match value
    case ArrayRaw(raw) => |raw|
    case KvListRaw(raw) => |raw|
    case _ => 0
  }

  function OptionSize(value: Option<WireAny>): nat {
    if value.None? then 0 else RawSize(value.value)
  }

  ghost predicate Smaller(fields: seq<Field>, size: nat) {
    forall f :: f in fields && f.payload.Len? ==> |f.payload.slice| < size
  }

  lemma WalkSmaller(s: bytes)
    ensures Smaller(Fields(s).fields, |s|)
  {
    hide WalkFrom;
    WalkInPlace(s, 0);
    forall f | f in Fields(s).fields && f.payload.Len? ensures |f.payload.slice| < |s| {
      assert InPlace(s, f, 0);
    }
  }

  lemma {:induction false} FoldAnySmaller(fields: seq<Field>, out: Option<WireAny>, size: nat)
    requires Smaller(fields, size) && OptionSize(out) <= size
    requires Fold(fields, out, VisitAny).Ok?
    ensures OptionSize(Fold(fields, out, VisitAny).value) <= size
    decreases |fields|
  {
    if |fields| > 0 {
      assert fields[0] in fields;
      assert Smaller(fields[1..], size);
      FoldAnySmaller(fields[1..], if fields[0].payload.Group? then out else VisitAny(out, fields[0]).value, size);
    }
  }

  lemma DecodeAnySmaller(s: bytes)
    requires DecodeAny(s).Ok?
    ensures OptionSize(DecodeAny(s).value) <= |s|
  {
    hide WalkFrom, Fold, Smaller;
    WalkSmaller(s);
    FoldAnySmaller(Fields(s).fields, None, |s|);
  }

  lemma {:induction false} FoldPairSmaller(fields: seq<Field>, out: KeyAndValue, size: nat)
    requires Smaller(fields, size) && OptionSize(out.value) <= size
    requires Fold(fields, out, VisitJsonPair).Ok?
    ensures OptionSize(Fold(fields, out, VisitJsonPair).value.value) <= size
    decreases |fields|
  {
    hide DecodeAny;
    if |fields| > 0 {
      assert fields[0] in fields;
      assert Smaller(fields[1..], size);
      if fields[0].payload.Group? {
        FoldPairSmaller(fields[1..], out, size);
      } else {
        if fields[0].number == 2 {
          DecodeAnySmaller(fields[0].payload.slice);
        }
        FoldPairSmaller(fields[1..], VisitJsonPair(out, fields[0]).value, size);
      }
    }
  }

  lemma JsonPairSmaller(kv: bytes)
    requires JsonPair(kv).Ok?
    ensures OptionSize(JsonPair(kv).value.value) <= |kv|
  {
    hide WalkFrom, Fold, Smaller;
    WalkSmaller(kv);
    FoldPairSmaller(Fields(kv).fields, KeyAndValue([], None), |kv|);
  }

  function OptionalTree(value: Option<WireAny>): Result<Tree>
    decreases OptionSize(value), 4, 0
  {
    if value.None? then Ok(Absent) else TreeOf(value.value)
  }

  /** The elements named by `fields`, each with its key; array elements have an empty one. */
  function TreesOf(fields: seq<Field>, pairs: bool, ghost size: nat): Result<seq<Element>>
    requires Smaller(fields, size)
    decreases size, 2, |fields|
  {
    if |fields| == 0 then Ok([])
    else
      assert fields[0] in fields;
      assert Smaller(fields[1..], size);
      if !IsElement(fields[0]) then TreesOf(fields[1..], pairs, size)
      else
        var head :- ElementTree(fields[0], pairs, size);
        var rest :- TreesOf(fields[1..], pairs, size);
        Ok([head] + rest)
  }

  function ElementTree(f: Field, pairs: bool, ghost size: nat): Result<Element>
    requires f.payload.Len? ==> |f.payload.slice| < size
    decreases size, 1, 0
  {
    if !f.payload.Len? then Err(WrongWireType)
    else if pairs then
      var kv :- JsonPair(f.payload.slice);
      JsonPairSmaller(f.payload.slice);
      var tree :- OptionalTree(kv.value);
      Ok(Element(kv.key, tree))
    else
      var value :- DecodeAny(f.payload.slice);
      DecodeAnySmaller(f.payload.slice);
      var tree :- OptionalTree(value);
      Ok(Element([], tree))
  }

  function ListTrees(s: bytes, pairs: bool): Result<seq<Element>>
    decreases |s|, 2, |Fields(s).fields| + 1
  {
    WalkSmaller(s);
    var trees :- TreesOf(Fields(s).fields, pairs, |s|);
    if Fields(s).stop.Some? then Err(Fields(s).stop.value) else Ok(trees)
  }

  /** Decodes a value all the way down, with no limit on its depth. */
  function TreeOf(value: WireAny): Result<Tree>
    decreases RawSize(value), 3, 0
  {
    match value
    case ArrayRaw(raw) =>
      var elements :- ListTrees(raw, false);
      Ok(List(false, elements))
    case KvListRaw(raw) =>
      var elements :- ListTrees(raw, true);
      Ok(List(true, elements))
    case _ => Ok(Leaf(value))
  }

  // ----- The text of a value -----

  function Render(tree: Tree, format: DoubleFormat): bytes
    decreases tree, 1
  {
    match tree
    case Absent => NULL_TEXT
    case Leaf(value) => ScalarText(value, format)
    case List(keyed, elements) => [OPEN_BRACKET] + RenderElements(elements, keyed, true, format) + [CLOSE_BRACKET]
  }

  function RenderElement(e: Element, keyed: bool, format: DoubleFormat): bytes
    decreases e, 1
  {
    var text := Render(e.tree, format);
    if keyed then KEY_OPENING + Escape(e.key) + VALUE_OPENING + text + [CLOSE_BRACE] else text
  }

  function RenderElements(elements: seq<Element>, keyed: bool, first: bool, format: DoubleFormat): bytes
    decreases elements, 0
  {
    if |elements| == 0 then []
    else
      Separator(first) + RenderElement(elements[0], keyed, format)
      + RenderElements(elements[1..], keyed, false, format)
  }

  /** Values on the longest chain from here down; `Absent` is not a value. */
  function Height(tree: Tree): nat
    decreases tree, 1
  {
    match tree
    case Absent => 0
    case Leaf(_) => 1
    case List(_, elements) => 1 + MaxHeight(elements)
  }

  function MaxHeight(elements: seq<Element>): nat
    decreases elements, 0
  {
    if |elements| == 0 then 0 else Higher(Height(elements[0].tree), MaxHeight(elements[1..]))
  }

  function Higher(a: nat, b: nat): nat {
    if a < b then b else a
  }

  // ----- How deep the writer goes -----

  /** Values on the longest chain that is entered before the first fault in document order. */
  function Reach(value: WireAny): nat
    decreases RawSize(value), 3, 0
  {
    match value
    case ArrayRaw(raw) => 1 + ListReach(raw, false)
    case KvListRaw(raw) => 1 + ListReach(raw, true)
    case _ => 1
  }

  function OptionalReach(value: Option<WireAny>): nat
    decreases OptionSize(value), 4, 0
  {
    if value.None? then 0 else Reach(value.value)
  }

  function ElementReach(f: Field, pairs: bool, ghost size: nat): nat
    requires f.payload.Len? ==> |f.payload.slice| < size
    decreases size, 1, 0
  {
    if !f.payload.Len? then 0
    else if pairs then
      if JsonPair(f.payload.slice).Err? then 0
      else
        JsonPairSmaller(f.payload.slice);
        OptionalReach(JsonPair(f.payload.slice).value.value)
    else if DecodeAny(f.payload.slice).Err? then 0
    else
      DecodeAnySmaller(f.payload.slice);
      OptionalReach(DecodeAny(f.payload.slice).value)
  }

  /** Nothing behind a faulty element is entered. */
  function ElementsReach(fields: seq<Field>, pairs: bool, ghost size: nat): nat
    requires Smaller(fields, size)
    decreases size, 2, |fields|
  {
    if |fields| == 0 then 0
    else
      assert fields[0] in fields;
      assert Smaller(fields[1..], size);
      if !IsElement(fields[0]) then ElementsReach(fields[1..], pairs, size)
      else if ElementTree(fields[0], pairs, size).Err? then ElementReach(fields[0], pairs, size)
      else Higher(ElementReach(fields[0], pairs, size), ElementsReach(fields[1..], pairs, size))
  }

  function ListReach(s: bytes, pairs: bool): nat
    decreases |s|, 2, |Fields(s).fields| + 1
  {
    WalkSmaller(s);
    ElementsReach(Fields(s).fields, pairs, |s|)
  }

  lemma {:induction false} OptionalReachIsHeight(value: Option<WireAny>)
    requires OptionalTree(value).Ok?
    ensures OptionalReach(value) == Height(OptionalTree(value).value)
    decreases OptionSize(value), 4, 0
  {
    hide TreeOf, Reach;
    if value.Some? {
      ReachIsHeight(value.value);
      SomeHeight(value.value);
    }
  }

  lemma SomeHeight(value: WireAny)
    ensures OptionalTree(Some(value)) == TreeOf(value)
  {
    hide TreeOf;
  }

  lemma {:induction false} ElementReachIsHeight(f: Field, pairs: bool, size: nat)
    requires f.payload.Len? ==> |f.payload.slice| < size
    requires ElementTree(f, pairs, size).Ok?
    ensures ElementReach(f, pairs, size) == Height(ElementTree(f, pairs, size).value.tree)
    decreases size, 1, 0
  {
    hide OptionalTree, OptionalReach, JsonPair, DecodeAny, Height;
    if pairs {
      JsonPairSmaller(f.payload.slice);
      OptionalReachIsHeight(JsonPair(f.payload.slice).value.value);
    } else {
      DecodeAnySmaller(f.payload.slice);
      OptionalReachIsHeight(DecodeAny(f.payload.slice).value);
    }
  }

  lemma {:induction false} ElementsReachIsHeight(fields: seq<Field>, pairs: bool, size: nat)
    requires Smaller(fields, size) && TreesOf(fields, pairs, size).Ok?
    ensures ElementsReach(fields, pairs, size) == MaxHeight(TreesOf(fields, pairs, size).value)
    decreases size, 2, |fields|
  {
    hide ElementTree, ElementReach, Height;
    if |fields| > 0 {
      assert fields[0] in fields;
      assert Smaller(fields[1..], size);
      ElementsReachIsHeight(fields[1..], pairs, size);
      if IsElement(fields[0]) {
        ElementReachIsHeight(fields[0], pairs, size);
        var head, rest := ElementTree(fields[0], pairs, size).value, TreesOf(fields[1..], pairs, size).value;
        assert ([head] + rest)[1..] == rest;
      }
    }
  }

  /** Without a fault that is the height of the decoded value. */
  lemma {:induction false} ReachIsHeight(value: WireAny)
    requires TreeOf(value).Ok?
    ensures Reach(value) == Height(TreeOf(value).value)
    decreases RawSize(value), 3, 0
  {
    hide TreesOf, ElementsReach, MaxHeight, WalkFrom;
    match value
    case ArrayRaw(raw) =>
      WalkSmaller(raw);
      ElementsReachIsHeight(Fields(raw).fields, false, |raw|);
    case KvListRaw(raw) =>
      WalkSmaller(raw);
      ElementsReachIsHeight(Fields(raw).fields, true, |raw|);
    case _ =>
  }

  // ----- What the writer writes -----

  /** The depth error if `reach` levels from `depth` on are too many, and the outcome itself otherwise. */
  function Limited(outcome: Result<bytes>, reach: nat, depth: nat): Result<bytes> {
    if depth + reach <= 65 then outcome else Err(DepthExceeded)
  }

  function TreeText(tree: Result<Tree>, format: DoubleFormat): Result<bytes> {
    match tree
    case Ok(t) => Ok(Render(t, format))
    case Err(e) => Err(e)
  }

  function ElementText(element: Result<Element>, keyed: bool, format: DoubleFormat): Result<bytes> {
    match element
    case Ok(e) => Ok(RenderElement(e, keyed, format))
    case Err(e) => Err(e)
  }

  function ElementsText(elements: Result<seq<Element>>, keyed: bool, first: bool, format: DoubleFormat): Result<bytes> {
    match elements
    case Ok(es) => Ok(RenderElements(es, keyed, first, format))
    case Err(e) => Err(e)
  }

  lemma {:induction false} WriteOptionalExact(value: Option<WireAny>, depth: nat, format: DoubleFormat)
    requires depth <= MAX_ANY_VALUE_DEPTH
    ensures WriteOptional(value, depth, format)
            == Limited(TreeText(OptionalTree(value), format), OptionalReach(value), depth + 1)
    decreases OptionSize(value), 4, 0
  {
    hide WriteAny, TreeOf, Reach;
    if value.Some? {
      WriteAnyExact(value.value, depth + 1, format);
    }
  }

  lemma {:induction false} WriteElementExact(f: Field, depth: nat, pairs: bool, size: nat, format: DoubleFormat)
    requires depth <= MAX_ANY_VALUE_DEPTH && f.number == 1
    requires f.payload.Len? ==> |f.payload.slice| < size
    ensures WriteElement(f, depth, pairs, format)
            == Limited(ElementText(ElementTree(f, pairs, size), pairs, format), ElementReach(f, pairs, size), depth + 1)
    decreases size, 1, 0
  {
    hide WriteOptional, OptionalTree, OptionalReach, JsonPair, DecodeAny, Render;
    if f.payload.Len? {
      if pairs {
        if JsonPair(f.payload.slice).Ok? {
          JsonPairSmaller(f.payload.slice);
          WriteOptionalExact(JsonPair(f.payload.slice).value.value, depth, format);
        }
      } else if DecodeAny(f.payload.slice).Ok? {
        DecodeAnySmaller(f.payload.slice);
        WriteOptionalExact(DecodeAny(f.payload.slice).value, depth, format);
      }
    }
  }

  lemma {:induction false} WriteElementsExact(
    fields: seq<Field>, depth: nat, pairs: bool, first: bool, size: nat, format: DoubleFormat)
    requires depth <= MAX_ANY_VALUE_DEPTH && Smaller(fields, size)
    ensures var text := ElementsText(TreesOf(fields, pairs, size), pairs, first, format);
            WriteElements(fields, depth, pairs, first, format)
              == Limited(text, ElementsReach(fields, pairs, size), depth + 1)
    decreases size, 2, |fields|
  {
    hide WriteElement, ElementTree, ElementReach, RenderElement;
    if |fields| > 0 {
      assert fields[0] in fields;
      assert Smaller(fields[1..], size);
      if !IsElement(fields[0]) {
        WriteElementsExact(fields[1..], depth, pairs, first, size, format);
      } else {
        WriteElementExact(fields[0], depth, pairs, size, format);
        WriteElementsExact(fields[1..], depth, pairs, false, size, format);
        var head, rest := ElementTree(fields[0], pairs, size), TreesOf(fields[1..], pairs, size);
        if head.Ok? && rest.Ok? {
          assert ([head.value] + rest.value)[1..] == rest.value;
        }
      }
    }
  }

  /** Behind the elements a framing fault of the list is reported. */
  lemma {:induction false} WriteListExact(s: bytes, depth: nat, pairs: bool, format: DoubleFormat)
    requires depth <= MAX_ANY_VALUE_DEPTH
    ensures WriteList(s, depth, pairs, format) == Limited(ListText(s, pairs, format), 1 + ListReach(s, pairs), depth)
    decreases |s|, 2, |Fields(s).fields| + 1
  {
    hide WalkFrom, WriteElements, TreesOf, RenderElements, ElementsReach;
    WalkSmaller(s);
    WriteElementsExact(Fields(s).fields, depth, pairs, true, |s|, format);
  }

  function ListText(s: bytes, pairs: bool, format: DoubleFormat): Result<bytes> {
    match ListTrees(s, pairs)
    case Ok(es) => Ok(Render(List(pairs, es), format))
    case Err(e) => Err(e)
  }

  /**
    * On every input: the writer reports the depth when a chain of more than 64 enclosing lists, counted from
    * `depth`, is entered before the first fault; otherwise it reports that fault, or writes the text of the value.
    */
  lemma {:induction false} WriteAnyExact(value: WireAny, depth: nat, format: DoubleFormat)
    ensures WriteAny(value, depth, format) == Limited(TreeText(TreeOf(value), format), Reach(value), depth)
    decreases RawSize(value), 3, 0
  {
    hide WriteList, ListTrees, ListReach, RenderElements, ScalarText;
    if depth <= MAX_ANY_VALUE_DEPTH {
      match value
      case ArrayRaw(raw) =>
        WriteListExact(raw, depth, false, format);
      case KvListRaw(raw) =>
        WriteListExact(raw, depth, true, format);
      case _ =>
    }
  }

  // ----- The writer as it runs, appending to `out` -----

  function Appended(out: bytes, r: Result<bytes>): Result<bytes> {
    match r
    case Ok(text) => Ok(out + text)
    case Err(e) => Err(e)
  }

  lemma AppendedTwice(out: bytes, text: bytes, r: Result<bytes>)
    ensures Appended(out + text, r) == Appended(out, Appended(text, r))
  {
    if r.Ok? {
      assert out + text + r.value == out + (text + r.value);
    }
  }

  lemma WalkedStep(field: Field, rest: Walked, depth: nat, pairs: bool, first: bool, format: DoubleFormat)
    requires depth <= MAX_ANY_VALUE_DEPTH
    ensures WriteWalked(Walked([field] + rest.fields, rest.stop), depth, pairs, first, format) ==
      if !IsElement(field) then WriteWalked(rest, depth, pairs, first, format)
      else if WriteElement(field, depth, pairs, format).Err? then WriteElement(field, depth, pairs, format)
      else Appended(
        Separator(first) + WriteElement(field, depth, pairs, format).value,
        WriteWalked(rest, depth, pairs, false, format))
  {
    hide WriteElement;
    assert ([field] + rest.fields)[1..] == rest.fields;
  }

  lemma WalkedEnds(depth: nat, pairs: bool, first: bool, format: DoubleFormat)
    requires depth <= MAX_ANY_VALUE_DEPTH
    ensures WriteWalked(Walked([], None), depth, pairs, first, format) == Ok([])
    ensures forall e :: WriteWalked(Walked([], Some(e)), depth, pairs, first, format) == Err(e)
  {
  }

  /** `write_wire_any_json_depth`. */
  method WriteWireAnyJsonDepth(value: WireAny, out: bytes, depth: nat, format: DoubleFormat) returns (r: Result<bytes>)
    ensures r == Appended(out, WriteAny(value, depth, format))
    decreases Levels(depth), 3
  {
    hide WriteList, ScalarText;
    if depth > MAX_ANY_VALUE_DEPTH {
      return Err(DepthExceeded);
    }
    match value {
      case ArrayRaw(raw) =>
        r := WriteListJson(raw, out, depth, false, format);
      case KvListRaw(raw) =>
        r := WriteListJson(raw, out, depth, true, format);
      case _ =>
        return Ok(out + ScalarText(value, format));
    }
  }

  /** `write_array_value_json` and, with `pairs`, `write_kvlist_value_json`: one loop with a `first` flag. */
  method WriteListJson(raw: bytes, out: bytes, depth: nat, pairs: bool, format: DoubleFormat) returns (r: Result<bytes>)
    requires depth <= MAX_ANY_VALUE_DEPTH
    ensures r == Appended(out, WriteList(raw, depth, pairs, format))
    decreases Levels(depth), 2
  {
    hide WalkFrom, NextField, WriteWalked, WriteElement;
    var text, first, rest, pos: nat := out + [OPEN_BRACKET], true, raw, 0;
    ghost var whole := Appended(out + [OPEN_BRACKET], WriteWalked(Fields(raw), depth, pairs, true, format));
    while |rest| > 0
      invariant Appended(text, WriteWalked(WalkFrom(rest, pos), depth, pairs, first, format)) == whole
      decreases |rest|
    {
      WalkStep(rest, pos);
      WalkedEnds(depth, pairs, first, format);
      var step :- ReadField(rest, pos);
      var next := rest[step.used..];
      ghost var after := WalkFrom(next, pos + step.used);
      WalkedStep(step.field, after, depth, pairs, first, format);
      if IsElement(step.field) {
        ghost var before, separator := text, Separator(first);
        if !first {
          text := text + [COMMA];
        }
        assert text == before + separator;
        text :- WriteElementJson(step.field, text, depth, pairs, format);
        ghost var element := WriteElement(step.field, depth, pairs, format).value;
        assert text == before + (separator + element);
        AppendedTwice(before, separator + element, WriteWalked(after, depth, pairs, false, format));
        first := false;
      }
      rest, pos := next, pos + step.used;
    }
    WalkStep(rest, pos);
    WalkedEnds(depth, pairs, first, format);
    ghost var elements := WriteWalked(Fields(raw), depth, pairs, true, format).value;
    assert text == text + [] == out + [OPEN_BRACKET] + elements;
    assert text + [CLOSE_BRACKET] == out + ([OPEN_BRACKET] + elements + [CLOSE_BRACKET]);
    return Ok(text + [CLOSE_BRACKET]);
  }

  /** The body of both loops: an array element, or `write_key_value_json`. */
  method WriteElementJson(
    f: Field, out: bytes, depth: nat, pairs: bool, format: DoubleFormat) returns (r: Result<bytes>)
    requires depth <= MAX_ANY_VALUE_DEPTH && f.number == 1
    ensures r == Appended(out, WriteElement(f, depth, pairs, format))
    decreases Levels(depth), 1
  {
    hide WriteAny, JsonPair, DecodeAny;
    if !f.payload.Len? {
      return Err(WrongWireType);
    }
    if pairs {
      var kv :- JsonPair(f.payload.slice);
      var text := out + KEY_OPENING;
      text := WriteJsonEscapedBytes(text, kv.key);
      text := text + VALUE_OPENING;
      ghost var front := text;
      assert front == out + (KEY_OPENING + Escape(kv.key) + VALUE_OPENING);
      if kv.value.Some? {
        text :- WriteWireAnyJsonDepth(kv.value.value, text, depth + 1, format);
      } else {
        text := text + NULL_TEXT;
      }
      ghost var written := WriteOptional(kv.value, depth, format).value;
      assert text == front + written;
      assert text + [CLOSE_BRACE] == out + (KEY_OPENING + Escape(kv.key) + VALUE_OPENING + written + [CLOSE_BRACE]);
      return Ok(text + [CLOSE_BRACE]);
    } else {
      var value :- DecodeAny(f.payload.slice);
      if value.Some? {
        r := WriteWireAnyJsonDepth(value.value, out, depth + 1, format);
      } else {
        return Ok(out + NULL_TEXT);
      }
    }
  }

  /**
    * `write_wire_any_json`: the text is appended exactly when the value decodes and nests at most 64 lists around any
    * value.
    */
  method WriteWireAnyJson(value: WireAny, out: bytes, format: DoubleFormat) returns (r: Result<bytes>)
    ensures r.Ok? <==> TreeOf(value).Ok? && Height(TreeOf(value).value) <= 65
    ensures r.Ok? ==> r.value == out + Render(TreeOf(value).value, format)
  {
    hide WriteAny, TreeOf, Render, Height, Reach;
    WriteAnyExact(value, 0, format);
    if TreeOf(value).Ok? {
      ReachIsHeight(value);
    }
    r := WriteWireAnyJsonDepth(value, out, 0, format);
  }
}

/** The JSON text of a decoded value is well-formed UTF-8, as the string columns that receive it need. */
module JsonUtf8 {
  import opened Bytes
  import opened Options
  import opened Walk
  import opened Utf8
  import opened Decode
  import opened Json

  predicate IsAscii(s: bytes) {
    forall i :: 0 <= i < |s| ==> s[i] < 0x80
  }

  lemma AsciiInFront(a: bytes, b: bytes)
    requires IsAscii(a)
    ensures IsUtf8(a + b) <==> IsUtf8(b)
  {
    AsciiIsUtf8(a);
    Utf8Concat(a, b);
  }

  lemma Join(a: bytes, b: bytes)
    requires IsUtf8(a) && IsUtf8(b)
    ensures IsUtf8(a + b)
  {
    Utf8Concat(a, b);
  }

  // ----- Escaping -----

  lemma EscapeByteIsAscii(b: u8)
    requires b < 0x80
    ensures IsAscii(EscapeByte(b))
  {
  }

  lemma {:induction false} EscapeConcat(a: bytes, b: bytes)
    ensures Escape(a + b) == Escape(a) + Escape(b)
    decreases |a|
  {
    if |a| == 0 {
      assert a + b == b;
    } else {
      assert (a + b)[1..] == a[1..] + b;
      EscapeConcat(a[1..], b);
    }
  }

  lemma {:induction false} HighBytesStay(s: bytes)
    requires forall i :: 0 <= i < |s| ==> s[i] >= 0x80
    ensures Escape(s) == s
    decreases |s|
  {
    if |s| > 0 {
      HighBytesStay(s[1..]);
      assert s == [s[0]] + s[1..];
    }
  }

  lemma LongCharIsHigh(s: bytes)
    requires CharLen(s) > 1
    ensures forall i :: 0 <= i < CharLen(s) ==> s[i] >= 0x80
    ensures IsUtf8(s[..CharLen(s)])
  {
    var c := s[..CharLen(s)];
    assert CharLen(c) == CharLen(s);
    assert c[CharLen(c)..] == [];
  }

  /** Escaping works on bytes and still never breaks a character. */
  lemma {:induction false} EscapeKeepsUtf8(s: bytes)
    requires IsUtf8(s)
    ensures IsUtf8(Escape(s))
    decreases |s|
  {
    hide CharLen, EscapeByte, Escape;
    if |s| == 0 {
      EscapeNothing();
    } else {
      var n := CharLen(s);
      var c, rest := s[..n], s[n..];
      assert s == c + rest;
      EscapeConcat(c, rest);
      EscapeKeepsUtf8(rest);
      if n == 1 {
        OneByteChar(s);
        AsciiInFront(Escape(c), Escape(rest));
      } else {
        LongCharIsHigh(s);
        HighBytesStay(c);
        Join(c, Escape(rest));
      }
    }
  }

  lemma EscapeNothing()
    ensures Escape([]) == [] && IsUtf8([])
  {
  }

  lemma OneByteChar(s: bytes)
    requires CharLen(s) == 1
    ensures IsAscii(Escape(s[..1]))
  {
    EscapeByteIsAscii(s[0]);
    assert s[..1][1..] == [];
    assert Escape(s[..1]) == EscapeByte(s[0]);
  }

  // ----- Decoded values -----

  predicate Utf8Value(value: WireAny) {
    value.StringValue? ==> IsUtf8(value.text)
  }

  predicate Utf8Option(value: Option<WireAny>) {
    value.Some? ==> Utf8Value(value.value)
  }

  lemma {:induction false} FoldAnyUtf8(fields: seq<Field>, out: Option<WireAny>)
    requires Utf8Option(out) && Fold(fields, out, VisitAny).Ok?
    ensures Utf8Option(Fold(fields, out, VisitAny).value)
    decreases |fields|
  {
    hide IsUtf8;
    if |fields| > 0 {
      FoldAnyUtf8(fields[1..], if fields[0].payload.Group? then out else VisitAny(out, fields[0]).value);
    }
  }

  lemma DecodeAnyUtf8(s: bytes)
    requires DecodeAny(s).Ok?
    ensures Utf8Option(DecodeAny(s).value)
  {
    hide WalkFrom, Fold, IsUtf8;
    FoldAnyUtf8(Fields(s).fields, None);
  }

  predicate Utf8Pair(kv: KeyAndValue) {
    IsUtf8(kv.key) && Utf8Option(kv.value)
  }

  lemma {:induction false} FoldPairUtf8(fields: seq<Field>, out: KeyAndValue)
    requires Utf8Pair(out) && Fold(fields, out, VisitJsonPair).Ok?
    ensures Utf8Pair(Fold(fields, out, VisitJsonPair).value)
    decreases |fields|
  {
    hide DecodeAny, IsUtf8;
    if |fields| > 0 {
      if fields[0].payload.Group? {
        FoldPairUtf8(fields[1..], out);
      } else {
        if fields[0].number == 2 {
          DecodeAnyUtf8(fields[0].payload.slice);
        }
        FoldPairUtf8(fields[1..], VisitJsonPair(out, fields[0]).value);
      }
    }
  }

  lemma JsonPairUtf8(kv: bytes)
    requires JsonPair(kv).Ok?
    ensures Utf8Pair(JsonPair(kv).value)
  {
    hide WalkFrom, Fold;
    FoldPairUtf8(Fields(kv).fields, KeyAndValue([], None));
  }

  // ----- Trees -----

  predicate Utf8Tree(tree: Tree)
    decreases tree, 1
  {
    match tree
    case Absent => true
    case Leaf(value) => Utf8Value(value)
    case List(_, elements) => Utf8Elements(elements)
  }

  predicate Utf8Elements(elements: seq<Element>)
    decreases elements, 0
  {
    |elements| == 0 || (IsUtf8(elements[0].key) && Utf8Tree(elements[0].tree) && Utf8Elements(elements[1..]))
  }

  lemma {:induction false} OptionalTreeUtf8(value: Option<WireAny>)
    requires Utf8Option(value) && OptionalTree(value).Ok?
    ensures Utf8Tree(OptionalTree(value).value)
    decreases OptionSize(value), 4, 0
  {
    hide TreeOf, IsUtf8;
    if value.Some? {
      TreeOfUtf8(value.value);
    }
  }

  lemma {:induction false} ElementTreeUtf8(f: Field, pairs: bool, size: nat)
    requires f.payload.Len? ==> |f.payload.slice| < size
    requires ElementTree(f, pairs, size).Ok?
    ensures IsUtf8(ElementTree(f, pairs, size).value.key) && Utf8Tree(ElementTree(f, pairs, size).value.tree)
    decreases size, 1, 0
  {
    hide OptionalTree, JsonPair, DecodeAny, Utf8Tree;
    if pairs {
      JsonPairUtf8(f.payload.slice);
      JsonPairSmaller(f.payload.slice);
      OptionalTreeUtf8(JsonPair(f.payload.slice).value.value);
    } else {
      DecodeAnyUtf8(f.payload.slice);
      DecodeAnySmaller(f.payload.slice);
      OptionalTreeUtf8(DecodeAny(f.payload.slice).value);
    }
  }

  lemma {:induction false} TreesOfUtf8(fields: seq<Field>, pairs: bool, size: nat)
    requires Smaller(fields, size) && TreesOf(fields, pairs, size).Ok?
    ensures Utf8Elements(TreesOf(fields, pairs, size).value)
    decreases size, 2, |fields|
  {
    hide ElementTree, IsUtf8, Utf8Tree;
    if |fields| > 0 {
      assert fields[0] in fields;
      assert Smaller(fields[1..], size);
      TreesOfUtf8(fields[1..], pairs, size);
      if IsElement(fields[0]) {
        ElementTreeUtf8(fields[0], pairs, size);
        var head, rest := ElementTree(fields[0], pairs, size).value, TreesOf(fields[1..], pairs, size).value;
        assert ([head] + rest)[1..] == rest;
      }
    }
  }

  /** Decoding checks every string and every key on the way down. */
  lemma {:induction false} TreeOfUtf8(value: WireAny)
    requires Utf8Value(value) && TreeOf(value).Ok?
    ensures Utf8Tree(TreeOf(value).value)
    decreases RawSize(value), 3, 0
  {
    hide TreesOf, WalkFrom, IsUtf8, Utf8Elements;
    match value
    case ArrayRaw(raw) =>
      WalkSmaller(raw);
      TreesOfUtf8(Fields(raw).fields, false, |raw|);
    case KvListRaw(raw) =>
      WalkSmaller(raw);
      TreesOfUtf8(Fields(raw).fields, true, |raw|);
    case _ =>
  }

  // ----- Texts -----

  ghost predicate FormatsAscii(format: DoubleFormat) {
    forall bits: u64 :: IsAscii(format(bits))
  }

  lemma {:induction false} HexTextIsAscii(s: bytes)
    ensures IsAscii(HexText(s))
    decreases |s|
  {
    if |s| > 0 {
      HexTextIsAscii(s[1..]);
    }
  }

  lemma {:induction false} DigitsAreAscii(n: nat)
    ensures IsAscii(Digits(n))
  {
    if n >= 10 {
      DigitsAreAscii(n / 10);
    }
  }

  lemma QuotedUtf8(s: bytes)
    requires IsUtf8(s)
    ensures IsUtf8(Quoted(s))
  {
    AsciiIsUtf8([QUOTE]);
    Join([QUOTE], s);
    Join([QUOTE] + s, [QUOTE]);
  }

  lemma ScalarUtf8(value: Scalar, format: DoubleFormat)
    requires Utf8Value(value) && FormatsAscii(format)
    ensures IsUtf8(ScalarText(value, format))
  {
    hide IsUtf8, Quoted, Escape, HexText, Digits;
    match value
    case StringValue(text) =>
      EscapeKeepsUtf8(text);
      QuotedUtf8(Escape(text));
    case BoolValue(flag) => AsciiIsUtf8(if flag then TRUE_TEXT else FALSE_TEXT);
    case IntValue(i) =>
      DigitsAreAscii(if i < 0 then -i else i);
      AsciiIsUtf8(Decimal(i));
    case DoubleValue(bits) =>
      AsciiIsUtf8(format(bits));
      AsciiIsUtf8(NAN_TEXT);
      AsciiIsUtf8(INF_TEXT);
      AsciiIsUtf8(NEG_INF_TEXT);
      QuotedUtf8(NAN_TEXT);
      QuotedUtf8(INF_TEXT);
      QuotedUtf8(NEG_INF_TEXT);
    case BytesValue(raw) =>
      HexTextIsAscii(raw);
      AsciiIsUtf8(HexText(raw));
      QuotedUtf8(HexText(raw));
  }

  lemma PairUtf8(key: bytes, text: bytes)
    requires IsUtf8(key) && IsUtf8(text)
    ensures IsUtf8(KEY_OPENING + Escape(key) + VALUE_OPENING + text + [CLOSE_BRACE])
  {
    hide IsUtf8, Escape;
    EscapeKeepsUtf8(key);
    AsciiIsUtf8(KEY_OPENING);
    AsciiIsUtf8(VALUE_OPENING);
    AsciiIsUtf8([CLOSE_BRACE]);
    Join(KEY_OPENING, Escape(key));
    Join(KEY_OPENING + Escape(key), VALUE_OPENING);
    Join(KEY_OPENING + Escape(key) + VALUE_OPENING, text);
    Join(KEY_OPENING + Escape(key) + VALUE_OPENING + text, [CLOSE_BRACE]);
  }

  lemma {:induction false} RenderElementsUtf8(elements: seq<Element>, keyed: bool, first: bool, format: DoubleFormat)
    requires Utf8Elements(elements) && FormatsAscii(format)
    ensures IsUtf8(RenderElements(elements, keyed, first, format))
    decreases elements, 0
  {
    hide IsUtf8, Render, Utf8Tree;
    if |elements| == 0 {
      AsciiIsUtf8([]);
    } else {
      var e, rest := elements[0], RenderElements(elements[1..], keyed, false, format);
      RenderUtf8(e.tree, format);
      PairUtf8(e.key, Render(e.tree, format));
      RenderElementsUtf8(elements[1..], keyed, false, format);
      var text := RenderElement(e, keyed, format);
      AsciiIsUtf8(Separator(first));
      Join(Separator(first), text);
      Join(Separator(first) + text, rest);
    }
  }

  lemma {:induction false} RenderUtf8(tree: Tree, format: DoubleFormat)
    requires Utf8Tree(tree) && FormatsAscii(format)
    ensures IsUtf8(Render(tree, format))
    decreases tree, 1
  {
    hide IsUtf8, RenderElements, Utf8Elements;
    match tree
    case Absent => AsciiIsUtf8(NULL_TEXT);
    case Leaf(value) => ScalarUtf8(value, format);
    case List(keyed, elements) =>
      RenderElementsUtf8(elements, keyed, true, format);
      var text := RenderElements(elements, keyed, true, format);
      AsciiIsUtf8([OPEN_BRACKET]);
      AsciiIsUtf8([CLOSE_BRACKET]);
      Join([OPEN_BRACKET], text);
      Join([OPEN_BRACKET] + text, [CLOSE_BRACKET]);
  }

  /** Whatever the writer writes for a decoded value is UTF-8, at any depth and whatever bytes arrive. */
  lemma WrittenJsonIsUtf8(s: bytes, depth: nat, format: DoubleFormat)
    requires FormatsAscii(format) && DecodeAny(s).Ok? && DecodeAny(s).value.Some?
    requires WriteAny(DecodeAny(s).value.value, depth, format).Ok?
    ensures IsUtf8(WriteAny(DecodeAny(s).value.value, depth, format).value)
  {
    hide IsUtf8, WriteAny, TreeOf, DecodeAny, Render, Utf8Tree;
    var value := DecodeAny(s).value.value;
    DecodeAnyUtf8(s);
    WrittenTree(value, depth, format);
    TreeOfUtf8(value);
    RenderUtf8(TreeOf(value).value, format);
  }

  lemma WrittenTree(value: WireAny, depth: nat, format: DoubleFormat)
    requires WriteAny(value, depth, format).Ok?
    ensures TreeOf(value).Ok? && WriteAny(value, depth, format).value == Render(TreeOf(value).value, format)
  {
    hide WriteAny, TreeOf, Render, Height;
    WriteAnyExact(value, depth, format);
  }
}

/** The JSON grammar of RFC 8259, sections 2 to 7, as a parser, and its agreement with the writer. */
module JsonText {
  import opened Bytes
  import opened Options
  import opened Decode
  import opened Json

  datatype Value =
    | Null
    | Bool(flag: bool)
    | Number(text: bytes)
    | String(chars: bytes)
    | Items(items: seq<Value>)
    | Object(members: seq<Member>)

  datatype Member = Member(name: bytes, value: Value)

  datatype Parsed<+T> = Parsed(value: T, used: nat)

  // ----- Numbers (section 6) -----

  predicate IsDigit(b: u8) {
    0x30 <= b <= 0x39
  }

  predicate IsNumberChar(b: u8) {
    IsDigit(b) || b == 0x2D || b == 0x2B || b == 0x2E || b == 0x65 || b == 0x45
  }

  function DigitRun(s: bytes): (n: nat)
    ensures n <= |s|
    ensures forall i :: 0 <= i < n ==> IsDigit(s[i])
  {
    if |s| == 0 || !IsDigit(s[0]) then 0 else 1 + DigitRun(s[1..])
  }

  predicate IsExponent(s: bytes) {
    |s| == 0 ||
    ((s[0] == 0x65 || s[0] == 0x45) &&
     var t := if |s| > 1 && (s[1] == 0x2B || s[1] == 0x2D) then s[2..] else s[1..];
     |t| >= 1 && DigitRun(t) == |t|)
  }

  predicate IsFraction(s: bytes) {
    if |s| > 0 && s[0] == 0x2E then
      var n := DigitRun(s[1..]);
      n >= 1 && IsExponent(s[1..][n..])
    else IsExponent(s)
  }

  /** An optional minus, an integer without leading zeros, then an optional fraction and exponent. */
  predicate IsNumber(s: bytes) {
    var t := if |s| > 0 && s[0] == 0x2D then s[1..] else s;
    var n := DigitRun(t);
    n >= 1 && (t[0] == 0x30 ==> n == 1) && IsFraction(t[n..])
  }

  function NumberRun(s: bytes): (n: nat)
    ensures n <= |s|
  {
    if |s| == 0 || !IsNumberChar(s[0]) then 0 else 1 + NumberRun(s[1..])
  }

  // ----- Strings (section 7) -----

  function HexValue(b: u8): Option<nat> {
    if IsDigit(b) then Some(b - 0x30)
    else if 0x61 <= b <= 0x66 then Some(b - 0x57)
    else if 0x41 <= b <= 0x46 then Some(b - 0x37)
    else None
  }

  /** The character an escape stands for; `\u` escapes are read for the ASCII range only. */
  function ParseEscape(s: bytes): Option<Parsed<u8>> {
    if |s| == 0 then None
    else if s[0] == 0x22 || s[0] == 0x5C || s[0] == 0x2F then Some(Parsed(s[0], 1))
    else if s[0] == 0x62 then Some(Parsed(0x08, 1))
    else if s[0] == 0x66 then Some(Parsed(0x0C, 1))
    else if s[0] == 0x6E then Some(Parsed(0x0A, 1))
    else if s[0] == 0x72 then Some(Parsed(0x0D, 1))
    else if s[0] == 0x74 then Some(Parsed(0x09, 1))
    else if s[0] == 0x75 && |s| >= 5 && s[1] == 0x30 && s[2] == 0x30 then
      var high, low := HexValue(s[3]), HexValue(s[4]);
      if high.Some? && low.Some? && high.value < 8 then Some(Parsed(16 * high.value + low.value, 5)) else None
    else None
  }

  /** The characters up to the closing quote, which is consumed too. */
  function ParseChars(s: bytes): (r: Option<Parsed<bytes>>)
    ensures r.Some? ==> 1 <= r.value.used <= |s|
    decreases |s|
  {
    if |s| == 0 then None
    else if s[0] == 0x22 then Some(Parsed([], 1))
    else if s[0] == 0x5C then
      match ParseEscape(s[1..])
      case None => None
      case Some(escape) =>
        if escape.used > |s[1..]| then None
        else
          match ParseChars(s[1..][escape.used..])
          case None => None
          case Some(rest) => Some(Parsed([escape.value] + rest.value, 1 + escape.used + rest.used))
    else if s[0] < 0x20 then None
    else
      match ParseChars(s[1..])
      case None => None
      case Some(rest) => Some(Parsed([s[0]] + rest.value, 1 + rest.used))
  }

  // ----- Values (sections 3 to 5); insignificant whitespace is optional and never written -----

  predicate Begins(s: bytes, b: u8) {
    |s| > 0 && s[0] == b
  }

  function ParseValue(s: bytes): (r: Option<Parsed<Value>>)
    ensures r.Some? ==> 1 <= r.value.used <= |s|
    decreases |s|, 0
  {
    if |s| == 0 then None
    else if s[0] == 0x22 then
      match ParseChars(s[1..])
      case None => None
      case Some(chars) => Some(Parsed(String(chars.value), 1 + chars.used))
    else if s[0] == 0x5B then
      if Begins(s[1..], 0x5D) then Some(Parsed(Items([]), 2))
      else
        match ParseItems(s[1..])
        case None => None
        case Some(items) => Some(Parsed(Items(items.value), 1 + items.used))
    else if s[0] == 0x7B then
      if Begins(s[1..], 0x7D) then Some(Parsed(Object([]), 2))
      else
        match ParseMembers(s[1..])
        case None => None
        case Some(members) => Some(Parsed(Object(members.value), 1 + members.used))
    else if [0x6E, 0x75, 0x6C, 0x6C] <= s then Some(Parsed(Null, 4))
    else if [0x74, 0x72, 0x75, 0x65] <= s then Some(Parsed(Bool(true), 4))
    else if [0x66, 0x61, 0x6C, 0x73, 0x65] <= s then Some(Parsed(Bool(false), 5))
    else
      var n := NumberRun(s);
      if IsNumber(s[..n]) then Some(Parsed(Number(s[..n]), n)) else None
  }

  /** Values separated by commas, up to and including the closing bracket. */
  function ParseItems(s: bytes): (r: Option<Parsed<seq<Value>>>)
    ensures r.Some? ==> 1 <= r.value.used <= |s|
    decreases |s|, 1
  {
    match ParseValue(s)
    case None => None
    case Some(value) =>
      var t := s[value.used..];
      if Begins(t, 0x5D) then Some(Parsed([value.value], value.used + 1))
      else if Begins(t, 0x2C) then
        match ParseItems(t[1..])
        case None => None
        case Some(rest) => Some(Parsed([value.value] + rest.value, value.used + 1 + rest.used))
      else None
  }

  /** A name, a colon and a value. */
  function ParseMember(s: bytes): (r: Option<Parsed<Member>>)
    ensures r.Some? ==> 1 <= r.value.used <= |s|
    decreases |s|, 1
  {
    if !Begins(s, 0x22) then None
    else
      match ParseChars(s[1..])
      case None => None
      case Some(name) =>
        var t := s[1..][name.used..];
        if !Begins(t, 0x3A) then None
        else
          match ParseValue(t[1..])
          case None => None
          case Some(value) => Some(Parsed(Member(name.value, value.value), 2 + name.used + value.used))
  }

  function ParseMembers(s: bytes): (r: Option<Parsed<seq<Member>>>)
    ensures r.Some? ==> 1 <= r.value.used <= |s|
    decreases |s|, 2
  {
    match ParseMember(s)
    case None => None
    case Some(member) =>
      var t := s[member.used..];
      if Begins(t, 0x7D) then Some(Parsed([member.value], member.used + 1))
      else if Begins(t, 0x2C) then
        match ParseMembers(t[1..])
        case None => None
        case Some(rest) => Some(Parsed([member.value] + rest.value, member.used + 1 + rest.used))
      else None
  }

  // ----- What a decoded value means as JSON -----

  function ScalarMeaning(value: Scalar, format: DoubleFormat): Value {
    match value
    case StringValue(text) => String(text)
    case BoolValue(flag) => Bool(flag)
    case IntValue(i) => Number(Decimal(i))
    case DoubleValue(bits) =>
      if IsFinite(bits) then Number(format(bits))
      else if IsNan(bits) then String(NAN_TEXT)
      else if bits < 0x8000_0000_0000_0000 then String(INF_TEXT)
      else String(NEG_INF_TEXT)
    case BytesValue(raw) => String(HexText(raw))
  }

  const K: bytes := [0x6B]
  const V: bytes := [0x76]

  /** Lists become arrays; the pairs of a key-value list become objects with members k and v. */
  function Meaning(tree: Tree, format: DoubleFormat): Value
    decreases tree, 1
  {
    match tree
    case Absent => Null
    case Leaf(value) => ScalarMeaning(value, format)
    case List(keyed, elements) => Items(Meanings(elements, keyed, format))
  }

  function ElementMeaning(e: Element, keyed: bool, format: DoubleFormat): Value
    decreases e, 1
  {
    var value := Meaning(e.tree, format);
    if keyed then Object([Member(K, String(e.key)), Member(V, value)]) else value
  }

  function Meanings(elements: seq<Element>, keyed: bool, format: DoubleFormat): seq<Value>
    decreases elements, 0
  {
    if |elements| == 0 then []
    else [ElementMeaning(elements[0], keyed, format)] + Meanings(elements[1..], keyed, format)
  }

  // ----- The same, without the writer's formatters -----

  /** The number that decimal digits stand for. */
  function DigitsValue(s: bytes): Option<nat> {
    if |s| == 0 || !IsDigit(s[|s| - 1]) then None
    else if |s| == 1 then Some(s[0] - 0x30)
    else
      match DigitsValue(s[..|s| - 1])
      case None => None
      case Some(n) => Some(10 * n + (s[|s| - 1] - 0x30))
  }

  /** The integer that a number without fraction and exponent stands for. */
  function IntegerOf(text: bytes): Option<int> {
    var negative := |text| > 0 && text[0] == 0x2D;
    var digits := DigitsValue(if negative then text[1..] else text);
    if digits.None? then None
    else
      var n: int := digits.value;
      Some(if negative then -n else n)
  }

  /** The bytes that lower-case hex digits stand for. */
  function BytesOf(s: bytes): Option<bytes>
    decreases |s|
  {
    if |s| == 0 then Some([])
    else if |s| == 1 || 0x41 <= s[0] <= 0x46 || 0x41 <= s[1] <= 0x46 then None
    else
      match (HexValue(s[0]), HexValue(s[1]), BytesOf(s[2..]))
      case (Some(high), Some(low), Some(rest)) => Some([16 * high + low] + rest)
      case _ => None
  }

  /** The JSON value stands for the scalar: NaN and the infinities are those of IEEE 754. */
  ghost predicate MeansScalar(v: Value, value: Scalar, format: DoubleFormat) {
    match value
    case StringValue(text) => v == String(text)
    case BoolValue(flag) => v == Bool(flag)
    case IntValue(i) => v.Number? && IntegerOf(v.text) == Some(i)
    case DoubleValue(bits) =>
      var magnitude := bits % 0x8000_0000_0000_0000;
      if magnitude < 0x7FF0_0000_0000_0000 then v == Number(format(bits))
      else if magnitude > 0x7FF0_0000_0000_0000 then v == String([0x4E, 0x61, 0x4E])
      else v == String(if bits == magnitude then [0x69, 0x6E, 0x66] else [0x2D, 0x69, 0x6E, 0x66])
    case BytesValue(raw) => v.String? && BytesOf(v.chars) == Some(raw)
  }

  /** The JSON value stands for the decoded value. */
  ghost predicate Means(v: Value, tree: Tree, format: DoubleFormat)
    decreases tree, 1
  {
    match tree
    case Absent => v == Null
    case Leaf(value) => MeansScalar(v, value, format)
    case List(keyed, elements) => v.Items? && MeansAll(v.items, keyed, elements, format)
  }

  ghost predicate MeansAll(items: seq<Value>, keyed: bool, elements: seq<Element>, format: DoubleFormat)
    decreases elements, 0
  {
    && |items| == |elements|
    && (|elements| > 0 ==>
        MeansElement(items[0], keyed, elements[0], format) && MeansAll(items[1..], keyed, elements[1..], format))
  }

  /** A pair is an object with exactly the members k and v. */
  ghost predicate MeansElement(v: Value, keyed: bool, e: Element, format: DoubleFormat)
    decreases e, 1
  {
    if keyed then
      && v.Object? && |v.members| == 2
      && v.members[0] == Member([0x6B], String(e.key))
      && v.members[1].name == [0x76] && Means(v.members[1].value, e.tree, format)
    else Means(v, e.tree, format)
  }

  lemma {:induction false} DigitsBack(n: nat)
    ensures DigitsValue(Digits(n)) == Some(n)
    ensures Digits(n)[0] != 0x2D
    decreases n
  {
    if n >= 10 {
      DigitsBack(n / 10);
      var s := Digits(n);
      assert s[..|s| - 1] == Digits(n / 10) && s[|s| - 1] == 0x30 + n % 10;
    }
  }

  lemma DecimalBack(i: int)
    ensures IntegerOf(Decimal(i)) == Some(i)
  {
    hide Digits, DigitsValue;
    if i < 0 {
      DigitsBack(-i);
      assert ([0x2D] + Digits(-i))[1..] == Digits(-i);
    } else {
      DigitsBack(i);
    }
  }

  lemma {:induction false} HexBack(s: bytes)
    ensures BytesOf(HexText(s)) == Some(s)
    decreases |s|
  {
    if |s| > 0 {
      HexBack(s[1..]);
      HexDigitBack(s[0] / 16);
      HexDigitBack(s[0] % 16);
      var t := HexText(s);
      assert t[0] == HexDigit(s[0] / 16) && t[1] == HexDigit(s[0] % 16) && t[2..] == HexText(s[1..]);
      assert [s[0]] + s[1..] == s;
    }
  }

  lemma ScalarMeans(value: Scalar, format: DoubleFormat)
    ensures MeansScalar(ScalarMeaning(value, format), value, format)
  {
    hide IntegerOf, Decimal, BytesOf, HexText;
    match value
    case IntValue(i) => DecimalBack(i);
    case BytesValue(raw) => HexBack(raw);
    case DoubleValue(bits) => DoubleRanges(bits);
    case _ =>
  }

  lemma DoubleRanges(bits: u64)
    ensures var magnitude := bits % 0x8000_0000_0000_0000;
            && (IsFinite(bits) <==> magnitude < 0x7FF0_0000_0000_0000)
            && (IsNan(bits) <==> magnitude > 0x7FF0_0000_0000_0000)
            && (bits == magnitude <==> bits < 0x8000_0000_0000_0000)
  {
  }

  lemma {:induction false} TreeMeans(tree: Tree, format: DoubleFormat)
    ensures Means(Meaning(tree, format), tree, format)
    decreases tree, 1
  {
    hide MeansScalar, ScalarMeaning;
    match tree
    case Absent =>
    case Leaf(value) => ScalarMeans(value, format);
    case List(keyed, elements) => ElementsMean(elements, keyed, format);
  }

  lemma {:induction false} ElementsMean(elements: seq<Element>, keyed: bool, format: DoubleFormat)
    ensures MeansAll(Meanings(elements, keyed, format), keyed, elements, format)
    decreases elements, 0
  {
    hide Means, Meaning;
    if |elements| > 0 {
      TreeMeans(elements[0].tree, format);
      ElementsMean(elements[1..], keyed, format);
      assert Meanings(elements, keyed, format)[1..] == Meanings(elements[1..], keyed, format);
    }
  }

  /** Finite doubles are formatted as JSON numbers. */
  ghost predicate FormatsNumbers(format: DoubleFormat) {
    forall bits: u64 :: IsFinite(bits) ==> IsNumber(format(bits))
  }

  // ----- Leaves parse back -----

  lemma EscapeByteRoundTrip(b: u8, rest: bytes)
    ensures var s := EscapeByte(b) + rest;
            match ParseChars(rest)
            case None => true
            case Some(r) => ParseChars(s) == Some(Parsed([b] + r.value, |EscapeByte(b)| + r.used))
  {
    hide EscapeByte, ParseEscape;
    var s := EscapeByte(b) + rest;
    EscapeByteIs(b);
    if |EscapeByte(b)| == 1 {
      assert s[1..] == rest;
    } else {
      EscapeParses(b, rest);
      assert s[1..][|EscapeByte(b)| - 1..] == rest;
    }
  }

  lemma EscapeByteIs(b: u8)
    ensures |EscapeByte(b)| > 0
    ensures |EscapeByte(b)| == 1 ==> EscapeByte(b) == [b] && b >= 0x20 && b != QUOTE && b != BACKSLASH
    ensures |EscapeByte(b)| > 1 ==> EscapeByte(b)[0] == BACKSLASH
  {
  }

  lemma HexDigitBack(nibble: nat)
    requires nibble < 16
    ensures HexValue(HexDigit(nibble)) == Some(nibble)
  {
  }

  lemma EscapeParses(b: u8, rest: bytes)
    requires |EscapeByte(b)| > 1
    ensures ParseEscape((EscapeByte(b) + rest)[1..]) == Some(Parsed(b, |EscapeByte(b)| - 1))
  {
    hide HexDigit, HexValue;
    var t := (EscapeByte(b) + rest)[1..];
    assert t == EscapeByte(b)[1..] + rest;
    if b < 0x20 && |EscapeByte(b)| == 6 {
      HexDigitBack(b / 16);
      HexDigitBack(b % 16);
      assert t[3] == HexDigit(b / 16) && t[4] == HexDigit(b % 16);
    }
  }

  lemma {:induction false} CharsRoundTrip(chars: bytes, rest: bytes)
    ensures ParseChars(Escape(chars) + [QUOTE] + rest) == Some(Parsed(chars, |Escape(chars)| + 1))
    decreases |chars|
  {
    hide ParseEscape, EscapeByte;
    if |chars| == 0 {
      assert Escape(chars) + [QUOTE] + rest == [QUOTE] + rest;
    } else {
      CharsRoundTrip(chars[1..], rest);
      var tail := Escape(chars[1..]) + [QUOTE] + rest;
      EscapeByteRoundTrip(chars[0], tail);
      assert Escape(chars) + [QUOTE] + rest == EscapeByte(chars[0]) + tail;
      assert chars == [chars[0]] + chars[1..];
    }
  }

  lemma StringRoundTrip(chars: bytes, rest: bytes)
    ensures ParseValue(Quoted(Escape(chars)) + rest) == Some(Parsed(String(chars), |Quoted(Escape(chars))|))
  {
    hide Escape, ParseChars;
    CharsRoundTrip(chars, rest);
    assert (Quoted(Escape(chars)) + rest)[1..] == Escape(chars) + [QUOTE] + rest;
  }

  lemma {:induction false} HexNeedsNoEscape(s: bytes)
    ensures Escape(HexText(s)) == HexText(s)
    decreases |s|
  {
    if |s| > 0 {
      HexNeedsNoEscape(s[1..]);
      var h, l, rest := HexDigit(s[0] / 16), HexDigit(s[0] % 16), HexText(s[1..]);
      assert HexText(s) == [h, l] + rest;
      assert ([h, l] + rest)[1..] == [l] + rest;
      assert ([l] + rest)[1..] == rest;
      assert EscapeByte(h) == [h] && EscapeByte(l) == [l];
    }
  }

  lemma DigitRunIsNumberRun(s: bytes, n: nat)
    requires n <= |s| && forall i :: 0 <= i < n ==> IsNumberChar(s[i])
    ensures NumberRun(s) == n + NumberRun(s[n..])
    decreases n
  {
    if n > 0 {
      DigitRunIsNumberRun(s[1..], n - 1);
      assert s[1..][n - 1..] == s[n..];
    } else {
      assert s[0..] == s;
    }
  }

  lemma ExponentChars(s: bytes)
    requires IsExponent(s)
    ensures NumberRun(s) == |s|
  {
    if |s| > 0 {
      var skip := if |s| > 1 && (s[1] == 0x2B || s[1] == 0x2D) then 2 else 1;
      var t := s[skip..];
      assert forall i :: skip <= i < |s| ==> s[i] == t[i - skip];
      DigitRunIsNumberRun(s, |s|);
    }
  }

  lemma FractionChars(s: bytes)
    requires IsFraction(s)
    ensures NumberRun(s) == |s|
  {
    hide IsExponent;
    if |s| > 0 && s[0] == 0x2E {
      var n := DigitRun(s[1..]);
      ExponentChars(s[1..][n..]);
      assert s[1..][n..] == s[1 + n..];
      assert forall i :: 0 < i <= n ==> s[i] == s[1..][i - 1];
      DigitRunIsNumberRun(s, 1 + n);
    } else {
      ExponentChars(s);
    }
  }

  lemma UnsignedChars(t: bytes, n: nat)
    requires 1 <= n == DigitRun(t) && IsFraction(t[n..])
    ensures IsDigit(t[0]) && NumberRun(t) == |t|
  {
    hide IsFraction, NumberRun, DigitRun;
    FractionChars(t[n..]);
    assert forall i :: 0 <= i < n ==> IsDigit(t[i]);
    DigitRunIsNumberRun(t, n);
  }

  lemma NumberChars(s: bytes)
    requires IsNumber(s)
    ensures |s| > 0 && (IsDigit(s[0]) || s[0] == 0x2D)
    ensures NumberRun(s) == |s|
  {
    hide IsFraction, DigitRun;
    var t := if |s| > 0 && s[0] == 0x2D then s[1..] else s;
    UnsignedChars(t, DigitRun(t));
  }

  lemma {:induction false} NumberRunStops(s: bytes, rest: bytes)
    requires NumberRun(s) == |s|
    requires |rest| == 0 || !IsNumberChar(rest[0])
    ensures NumberRun(s + rest) == |s|
    decreases |s|
  {
    if |s| > 0 {
      assert (s + rest)[1..] == s[1..] + rest;
      NumberRunStops(s[1..], rest);
    } else {
      assert s + rest == rest;
    }
  }

  lemma NumberRoundTrip(text: bytes, rest: bytes)
    requires IsNumber(text)
    requires |rest| == 0 || !IsNumberChar(rest[0])
    ensures ParseValue(text + rest) == Some(Parsed(Number(text), |text|))
  {
    hide IsNumber, NumberRun;
    NumberChars(text);
    NumberRunStops(text, rest);
    assert (text + rest)[..|text|] == text;
    assert (text + rest)[0] == text[0];
  }

  lemma {:induction false} DigitsShape(n: nat)
    ensures DigitRun(Digits(n)) == |Digits(n)|
    ensures Digits(n)[0] == 0x30 ==> n == 0
    decreases n
  {
    if n >= 10 {
      DigitsShape(n / 10);
      DigitRunAppend(Digits(n / 10), 0x30 + n % 10);
    }
  }

  lemma {:induction false} DigitRunAppend(s: bytes, b: u8)
    requires DigitRun(s) == |s| && IsDigit(b)
    ensures DigitRun(s + [b]) == |s| + 1
    decreases |s|
  {
    if |s| > 0 {
      assert (s + [b])[1..] == s[1..] + [b];
      DigitRunAppend(s[1..], b);
    }
  }

  lemma DecimalIsNumber(i: int)
    ensures IsNumber(Decimal(i))
  {
    hide DigitRun;
    var n := if i < 0 then -i else i;
    DigitsShape(n);
    DigitsOfZero(n);
    var s := Decimal(i);
    if i < 0 {
      assert s[1..] == Digits(n);
    } else {
      assert IsDigit(s[0]) by {
        DigitRunFirst(s);
      }
    }
    assert Digits(n)[|Digits(n)|..] == [];
  }

  lemma DigitRunFirst(s: bytes)
    requires |s| > 0 && DigitRun(s) == |s|
    ensures IsDigit(s[0])
  {
  }

  lemma DigitsOfZero(n: nat)
    ensures n == 0 ==> |Digits(n)| == 1
  {
  }

  lemma ScalarRoundTrip(value: Scalar, rest: bytes, format: DoubleFormat)
    requires FormatsNumbers(format)
    requires |rest| == 0 || !IsNumberChar(rest[0])
    ensures ParseValue(ScalarText(value, format) + rest)
      == Some(Parsed(ScalarMeaning(value, format), |ScalarText(value, format)|))
  {
    hide ParseValue, IsNumber, Escape, HexText, Decimal, Quoted, DoubleText;
    match value
    case StringValue(text) => StringRoundTrip(text, rest);
    case BoolValue(flag) => WordRoundTrip(rest);
    case IntValue(i) =>
      DecimalIsNumber(i);
      NumberRoundTrip(Decimal(i), rest);
    case DoubleValue(bits) => DoubleRoundTrip(bits, rest, format);
    case BytesValue(raw) =>
      HexNeedsNoEscape(raw);
      StringRoundTrip(HexText(raw), rest);
  }

  lemma DoubleRoundTrip(bits: u64, rest: bytes, format: DoubleFormat)
    requires FormatsNumbers(format)
    requires |rest| == 0 || !IsNumberChar(rest[0])
    ensures var text := DoubleText(bits, format);
            ParseValue(text + rest) == Some(Parsed(ScalarMeaning(DoubleValue(bits), format), |text|))
  {
    hide ParseValue, IsNumber, Escape, Quoted, IsNumberChar;
    if IsFinite(bits) {
      NumberRoundTrip(format(bits), rest);
    } else {
      WordsNeedNoEscape();
      StringRoundTrip(NAN_TEXT, rest);
      StringRoundTrip(INF_TEXT, rest);
      StringRoundTrip(NEG_INF_TEXT, rest);
    }
  }

  lemma WordsNeedNoEscape()
    ensures Escape(NAN_TEXT) == NAN_TEXT && Escape(INF_TEXT) == INF_TEXT && Escape(NEG_INF_TEXT) == NEG_INF_TEXT
  {
    assert NAN_TEXT[1..] == [0x61, 0x4E] && [0x61, 0x4E][1..] == [0x4E] && [0x4E][1..] == [];
    assert INF_TEXT[1..] == [0x6E, 0x66] && [0x6E, 0x66][1..] == [0x66] && [0x66][1..] == [];
    assert NEG_INF_TEXT[1..] == INF_TEXT;
    assert Escape([]) == [] && Escape([0x4E]) == [0x4E] && Escape([0x61, 0x4E]) == [0x61, 0x4E];
    assert Escape([0x66]) == [0x66] && Escape([0x6E, 0x66]) == [0x6E, 0x66];
  }

  lemma WordRoundTrip(rest: bytes)
    ensures ParseValue(NULL_TEXT + rest) == Some(Parsed(Null, 4))
    ensures ParseValue(TRUE_TEXT + rest) == Some(Parsed(Bool(true), 4))
    ensures ParseValue(FALSE_TEXT + rest) == Some(Parsed(Bool(false), 5))
  {
  }

  // ----- Lists parse back -----

  lemma ScalarStarts(value: Scalar, format: DoubleFormat)
    requires FormatsNumbers(format)
    ensures |ScalarText(value, format)| > 0 && ScalarText(value, format)[0] != CLOSE_BRACKET
  {
    hide IsNumber, Escape, HexText, Digits;
    match value
    case IntValue(i) =>
      DecimalIsNumber(i);
      NumberChars(Decimal(i));
    case DoubleValue(bits) =>
      if IsFinite(bits) {
        NumberChars(format(bits));
      }
    case _ =>
  }

  lemma ElementStarts(e: Element, keyed: bool, format: DoubleFormat)
    requires FormatsNumbers(format)
    ensures |RenderElement(e, keyed, format)| > 0 && RenderElement(e, keyed, format)[0] != CLOSE_BRACKET
  {
    hide ScalarText, RenderElements, Escape, FormatsNumbers;
    match e.tree
    case Leaf(value) => ScalarStarts(value, format);
    case _ =>
  }

  lemma MemberRoundTrip(name: u8, text: bytes, value: Value, rest: bytes)
    requires 0x20 <= name && name != QUOTE && name != BACKSLASH
    requires ParseValue(text + rest) == Some(Parsed(value, |text|))
    ensures ParseMember([QUOTE, name, QUOTE, COLON] + text + rest) == Some(Parsed(Member([name], value), |text| + 4))
  {
    hide ParseValue, ParseChars;
    var s := [QUOTE, name, QUOTE, COLON] + text + rest;
    CharsRoundTrip([name], [COLON] + text + rest);
    assert [name][1..] == [];
    assert Escape([name]) == [name];
    assert s[1..] == [name] + [QUOTE] + ([COLON] + text + rest);
    assert s[1..][2..] == [COLON] + text + rest;
    assert s[1..][2..][1..] == text + rest;
  }

  lemma MembersStep(s: bytes, member: Member, n: nat)
    requires n <= |s| && ParseMember(s) == Some(Parsed(member, n))
    ensures Begins(s[n..], CLOSE_BRACE) ==> ParseMembers(s) == Some(Parsed([member], n + 1))
    ensures Begins(s[n..], COMMA) && ParseMembers(s[n..][1..]).Some? ==>
      var rest := ParseMembers(s[n..][1..]).value;
      ParseMembers(s) == Some(Parsed([member] + rest.value, n + 1 + rest.used))
  {
    hide ParseMember;
  }

  lemma ObjectStep(s: bytes)
    requires ParseMembers(s).Some? && !Begins(s, CLOSE_BRACE)
    ensures var members := ParseMembers(s).value;
            ParseValue([OPEN_BRACE] + s) == Some(Parsed(Object(members.value), 1 + members.used))
  {
    hide ParseMembers;
    assert ([OPEN_BRACE] + s)[1..] == s;
  }

  lemma FirstMember(name: u8, text: bytes, value: Value, rest: bytes)
    requires 0x20 <= name && name != QUOTE && name != BACKSLASH
    requires ParseValue(text + rest) == Some(Parsed(value, |text|))
    ensures Begins(rest, CLOSE_BRACE) ==>
      ParseMembers([QUOTE, name, QUOTE, COLON] + text + rest) == Some(Parsed([Member([name], value)], |text| + 5))
    ensures Begins(rest, COMMA) && ParseMembers(rest[1..]).Some? ==>
      var more := ParseMembers(rest[1..]).value;
      ParseMembers([QUOTE, name, QUOTE, COLON] + text + rest)
      == Some(Parsed([Member([name], value)] + more.value, |text| + 5 + more.used))
  {
    hide ParseValue, ParseMember, ParseMembers;
    var s := [QUOTE, name, QUOTE, COLON] + text + rest;
    MemberRoundTrip(name, text, value, rest);
    assert s[|text| + 4..] == rest;
    MembersStep(s, Member([name], value), |text| + 4);
  }

  /** The two members behind the opening brace, with the texts of both values given. */
  lemma TwoMembers(quoted: bytes, key: Value, text: bytes, value: Value, end: bytes)
    requires Begins(end, CLOSE_BRACE)
    requires ParseValue(text + end) == Some(Parsed(value, |text|))
    requires var second := [QUOTE, 0x76, QUOTE, COLON] + text + end;
             ParseValue(quoted + ([COMMA] + second)) == Some(Parsed(key, |quoted|))
    ensures var second := [QUOTE, 0x76, QUOTE, COLON] + text + end;
            ParseMembers([QUOTE, 0x6B, QUOTE, COLON] + quoted + ([COMMA] + second))
            == Some(Parsed([Member(K, key), Member(V, value)], |quoted| + |text| + 10))
  {
    hide ParseValue, ParseMember, ParseMembers;
    var second := [QUOTE, 0x76, QUOTE, COLON] + text + end;
    FirstMember(0x76, text, value, end);
    assert ([COMMA] + second)[1..] == second;
    FirstMember(0x6B, quoted, key, [COMMA] + second);
    assert [Member(K, key)] + [Member(V, value)] == [Member(K, key), Member(V, value)];
  }

  lemma PairLayout(body: bytes, text: bytes, rest: bytes)
    ensures KEY_OPENING + body + VALUE_OPENING + text + [CLOSE_BRACE] + rest
         == [OPEN_BRACE] + ([QUOTE, 0x6B, QUOTE, COLON] + Quoted(body)
                            + ([COMMA] + ([QUOTE, 0x76, QUOTE, COLON] + text + ([CLOSE_BRACE] + rest))))
  {
  }

  /** The object of one pair, its value text given: `"k":"..."` and `"v":...` parse to the two members. */
  lemma PairRoundTrip(key: bytes, text: bytes, value: Value, rest: bytes)
    requires ParseValue(text + ([CLOSE_BRACE] + rest)) == Some(Parsed(value, |text|))
    ensures var s := KEY_OPENING + Escape(key) + VALUE_OPENING + text + [CLOSE_BRACE];
            ParseValue(s + rest) == Some(Parsed(Object([Member(K, String(key)), Member(V, value)]), |s|))
  {
    hide ParseValue, ParseMembers, Escape;
    var end, quoted := [CLOSE_BRACE] + rest, Quoted(Escape(key));
    var second := [QUOTE, 0x76, QUOTE, COLON] + text + end;
    StringRoundTrip(key, [COMMA] + second);
    TwoMembers(quoted, String(key), text, value, end);
    ObjectStep([QUOTE, 0x6B, QUOTE, COLON] + quoted + ([COMMA] + second));
    PairLayout(Escape(key), text, rest);
  }

  lemma {:induction false} ElementRoundTrip(e: Element, keyed: bool, rest: bytes, format: DoubleFormat)
    requires FormatsNumbers(format)
    requires |rest| == 0 || !IsNumberChar(rest[0])
    ensures var text := RenderElement(e, keyed, format);
            ParseValue(text + rest) == Some(Parsed(ElementMeaning(e, keyed, format), |text|))
    decreases e, 1
  {
    hide ParseValue, Render, Meaning, FormatsNumbers, Escape;
    if keyed {
      RenderParses(e.tree, [CLOSE_BRACE] + rest, format);
      PairRoundTrip(e.key, Render(e.tree, format), Meaning(e.tree, format), rest);
    } else {
      RenderParses(e.tree, rest, format);
    }
  }

  lemma ItemsStep(s: bytes, value: Value, n: nat)
    requires n <= |s| && ParseValue(s) == Some(Parsed(value, n))
    ensures Begins(s[n..], CLOSE_BRACKET) ==> ParseItems(s) == Some(Parsed([value], n + 1))
    ensures Begins(s[n..], COMMA) && ParseItems(s[n..][1..]).Some? ==>
      var rest := ParseItems(s[n..][1..]).value;
      ParseItems(s) == Some(Parsed([value] + rest.value, n + 1 + rest.used))
  {
    hide ParseValue;
  }

  lemma {:induction false} ElementsRoundTrip(elements: seq<Element>, keyed: bool, rest: bytes, format: DoubleFormat)
    requires FormatsNumbers(format) && |elements| > 0
    ensures var text := RenderElements(elements, keyed, true, format);
            ParseItems(text + [CLOSE_BRACKET] + rest) == Some(Parsed(Meanings(elements, keyed, format), |text| + 1))
    decreases elements, 0
  {
    hide ParseValue, ParseItems, RenderElement, ElementMeaning, FormatsNumbers;
    var head, tail := RenderElement(elements[0], keyed, format), elements[1..];
    var end := [CLOSE_BRACKET] + rest;
    var s := RenderElements(elements, keyed, true, format) + [CLOSE_BRACKET] + rest;
    var value := ElementMeaning(elements[0], keyed, format);
    if |tail| == 0 {
      assert RenderElements(tail, keyed, false, format) == [];
      assert s == head + end;
      ElementRoundTrip(elements[0], keyed, end, format);
      assert s[|head|..] == end;
      ItemsStep(s, value, |head|);
      assert Meanings(elements, keyed, format) == [value];
      assert RenderElements(elements, keyed, true, format) == head;
    } else {
      CommaFirst(tail, keyed, format);
      var more := RenderElements(tail, keyed, true, format) + [CLOSE_BRACKET] + rest;
      assert s == head + ([COMMA] + more);
      ElementRoundTrip(elements[0], keyed, [COMMA] + more, format);
      assert s[|head|..] == [COMMA] + more;
      assert ([COMMA] + more)[1..] == more;
      ElementsRoundTrip(tail, keyed, rest, format);
      ItemsStep(s, value, |head|);
    }
  }

  lemma CommaFirst(elements: seq<Element>, keyed: bool, format: DoubleFormat)
    requires |elements| > 0
    ensures RenderElements(elements, keyed, false, format) == [COMMA] + RenderElements(elements, keyed, true, format)
  {
    hide RenderElement;
  }

  lemma ListStep(s: bytes)
    requires ParseItems(s).Some? && !Begins(s, CLOSE_BRACKET)
    ensures var items := ParseItems(s).value;
            ParseValue([OPEN_BRACKET] + s) == Some(Parsed(Items(items.value), 1 + items.used))
  {
    hide ParseItems;
    assert ([OPEN_BRACKET] + s)[1..] == s;
  }

  lemma EmptyList(rest: bytes)
    ensures ParseValue([OPEN_BRACKET, CLOSE_BRACKET] + rest) == Some(Parsed(Items([]), 2))
  {
    assert ([OPEN_BRACKET, CLOSE_BRACKET] + rest)[1..][0] == CLOSE_BRACKET;
  }

  /** The rendered text is JSON, stands for exactly the decoded value, and ends where it should. */
  lemma RenderRoundTrip(tree: Tree, rest: bytes, format: DoubleFormat)
    requires FormatsNumbers(format)
    requires |rest| == 0 || !IsNumberChar(rest[0])
    ensures var text := Render(tree, format);
            var parsed := ParseValue(text + rest);
            parsed.Some? && parsed.value.used == |text| && Means(parsed.value.value, tree, format)
  {
    hide ParseValue, Render, Means, Meaning, FormatsNumbers;
    RenderParses(tree, rest, format);
    TreeMeans(tree, format);
  }

  lemma {:induction false} RenderParses(tree: Tree, rest: bytes, format: DoubleFormat)
    requires FormatsNumbers(format)
    requires |rest| == 0 || !IsNumberChar(rest[0])
    ensures ParseValue(Render(tree, format) + rest) == Some(Parsed(Meaning(tree, format), |Render(tree, format)|))
    decreases tree, 1
  {
    hide ParseValue, ParseItems, ScalarText, ScalarMeaning, RenderElements, Meanings, FormatsNumbers;
    match tree
    case Absent => WordRoundTrip(rest);
    case Leaf(value) => ScalarRoundTrip(value, rest, format);
    case List(keyed, elements) =>
      var text := RenderElements(elements, keyed, true, format);
      var s := Render(tree, format) + rest;
      if |elements| == 0 {
        NoElements(elements, keyed, format);
        assert s == [OPEN_BRACKET, CLOSE_BRACKET] + rest;
        EmptyList(rest);
      } else {
        ElementsRoundTrip(elements, keyed, rest, format);
        ElementsStart(elements, keyed, format);
        assert s == [OPEN_BRACKET] + (text + [CLOSE_BRACKET] + rest);
        ListStep(text + [CLOSE_BRACKET] + rest);
      }
  }

  lemma NoElements(elements: seq<Element>, keyed: bool, format: DoubleFormat)
    requires |elements| == 0
    ensures RenderElements(elements, keyed, true, format) == [] && Meanings(elements, keyed, format) == []
  {
  }

  lemma ElementsStart(elements: seq<Element>, keyed: bool, format: DoubleFormat)
    requires FormatsNumbers(format) && |elements| > 0
    ensures var text := RenderElements(elements, keyed, true, format);
            |text| > 0 && text[0] != CLOSE_BRACKET
  {
    hide RenderElement, FormatsNumbers;
    ElementStarts(elements[0], keyed, format);
  }
}

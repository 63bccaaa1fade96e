/** Well-formed UTF-8, as section 4 of RFC 3629 defines it; `simdutf8` and `std::str` decide the same set. */
module Utf8 {
  import opened Bytes

  predicate Within(b: u8, low: u8, high: u8) {
    low <= b <= high
  }

  /** Length of the well-formed character at the front of `s`, or 0 if there is none. */
  function CharLen(s: bytes): (n: nat)
    ensures n <= |s|
  {
    if |s| == 0 then 0
    else if s[0] < 0x80 then 1
    else if |s| < 2 then 0
    else if Within(s[0], 0xC2, 0xDF) then
      if Within(s[1], 0x80, 0xBF) then 2 else 0
    else if |s| < 3 then 0
    else if Within(s[0], 0xE0, 0xEF) then
      var low := if s[0] == 0xE0 then 0xA0 else 0x80;
      var high := if s[0] == 0xED then 0x9F else 0xBF;
      if Within(s[1], low, high) && Within(s[2], 0x80, 0xBF) then 3 else 0
    else if |s| < 4 then 0
    else if Within(s[0], 0xF0, 0xF4) then
      var low := if s[0] == 0xF0 then 0x90 else 0x80;
      var high := if s[0] == 0xF4 then 0x8F else 0xBF;
      if Within(s[1], low, high) && Within(s[2], 0x80, 0xBF) && Within(s[3], 0x80, 0xBF) then 4 else 0
    else 0
  }

  predicate IsUtf8(s: bytes)
    decreases |s|
  {
    |s| == 0 || (CharLen(s) > 0 && IsUtf8(s[CharLen(s)..]))
  }

  lemma CharLenLocal(s: bytes, t: bytes)
    requires CharLen(s) > 0
    ensures CharLen(s + t) == CharLen(s)
  {
  }

  lemma {:induction false} Utf8Concat(s: bytes, t: bytes)
    requires IsUtf8(s)
    ensures IsUtf8(s + t) <==> IsUtf8(t)
    decreases |s|
  {
    if |s| == 0 {
      assert s + t == t;
    } else {
      var n := CharLen(s);
      CharLenLocal(s, t);
      assert (s + t)[n..] == s[n..] + t;
      Utf8Concat(s[n..], t);
    }
  }

  lemma {:induction false} AsciiIsUtf8(s: bytes)
    requires forall i :: 0 <= i < |s| ==> s[i] < 0x80
    ensures IsUtf8(s)
    decreases |s|
  {
    if |s| > 0 {
      AsciiIsUtf8(s[1..]);
    }
  }

  // ----- The characters -----

  /** The code points that UTF-8 encodes (section 3 of RFC 3629): up to 10FFFF, without the surrogates. */
  predicate IsScalarValue(c: nat) {
    c <= 0x10FFFF && !(0xD800 <= c <= 0xDFFF)
  }

  /** The table of section 3. */
  function CharText(c: nat): bytes
    requires IsScalarValue(c)
  {
    if c <= 0x7F then [c]
    else if c <= 0x7FF then [0xC0 + c / 0x40, 0x80 + c % 0x40]
    else if c <= 0xFFFF then [0xE0 + c / 0x1000, 0x80 + c / 0x40 % 0x40, 0x80 + c % 0x40]
    else [0xF0 + c / 0x4_0000, 0x80 + c / 0x1000 % 0x40, 0x80 + c / 0x40 % 0x40, 0x80 + c % 0x40]
  }

  ghost predicate AreChars(cs: seq<nat>) {
    forall i :: 0 <= i < |cs| ==> IsScalarValue(cs[i])
  }

  function CharsText(cs: seq<nat>): bytes
    requires forall i :: 0 <= i < |cs| ==> IsScalarValue(cs[i])
  {
    if |cs| == 0 then [] else CharText(cs[0]) + CharsText(cs[1..])
  }

  lemma CharIsRead(c: nat, rest: bytes)
    requires IsScalarValue(c)
    ensures CharLen(CharText(c) + rest) == |CharText(c)| > 0
  {
    hide CharText, CharLen;
    CharAlone(c);
    CharLenLocal(CharText(c), rest);
  }

  lemma CharAlone(c: nat)
    requires IsScalarValue(c)
    ensures CharLen(CharText(c)) == |CharText(c)| > 0
  {
    if 0x7F < c <= 0x7FF {
      assert 2 <= c / 0x40 <= 0x1F;
    } else if 0x7FF < c <= 0xFFFF {
      ThreeDigits(c);
    } else if c > 0xFFFF {
      FourDigits(c);
    }
  }

  lemma ThreeDigits(c: nat)
    requires 0x7FF < c <= 0xFFFF
    ensures var first, second := c / 0x1000, c / 0x40 % 0x40;
            && first <= 0xF && (first == 0 ==> second >= 0x20)
            && (first == 0xD && !(0xD800 <= c <= 0xDFFF) ==> second < 0x20)
  {
  }

  lemma FourDigits(c: nat)
    requires 0xFFFF < c <= 0x10FFFF
    ensures var first, second := c / 0x4_0000, c / 0x1000 % 0x40;
            first <= 4 && (first == 0 ==> second >= 0x10) && (first == 4 ==> second < 0x10)
  {
  }

  /** The code point so far, with six more bits from a continuation byte. */
  function Continue(high: int, b: u8): int {
    high * 0x40 + (b as int - 0x80)
  }

  /** The code point at the front of `s`. */
  function FrontChar(s: bytes): int
    requires CharLen(s) > 0
  {
    var first: int := s[0];
    match CharLen(s)
    case 1 => first
    case 2 => Continue(first - 0xC0, s[1])
    case 3 => Continue(Continue(first - 0xE0, s[1]), s[2])
    case _ => Continue(Continue(Continue(first - 0xF0, s[1]), s[2]), s[3])
  }

  lemma ContinueBack(high: nat, b: u8)
    requires Within(b, 0x80, 0xBF)
    ensures Continue(high, b) / 0x40 == high && 0x80 + Continue(high, b) % 0x40 == b
  {
  }

  lemma DivideTwice(c: nat)
    ensures c / 0x1000 == c / 0x40 / 0x40 && c / 0x4_0000 == c / 0x40 / 0x40 / 0x40
  {
  }

  lemma TwoBytes(first: u8, a: u8)
    requires Within(first, 0xC2, 0xDF) && Within(a, 0x80, 0xBF)
    ensures var c := Continue(first as int - 0xC0, a);
            0x7F < c <= 0x7FF && CharText(c) == [first, a]
  {
    hide Continue;
    ContinueBack(first - 0xC0, a);
  }

  lemma ThreeBytes(first: u8, a: u8, b: u8)
    requires Within(first, 0xE0, 0xEF) && Within(b, 0x80, 0xBF)
    requires Within(a, if first == 0xE0 then 0xA0 else 0x80, if first == 0xED then 0x9F else 0xBF)
    ensures var c := Continue(Continue(first as int - 0xE0, a), b);
            0x7FF < c <= 0xFFFF && IsScalarValue(c) && CharText(c) == [first, a, b]
  {
    hide Continue;
    var high := Continue(first as int - 0xE0, a);
    ContinueBack(first - 0xE0, a);
    ContinueBack(high, b);
    DivideTwice(Continue(high, b));
  }

  lemma FourBytes(first: u8, a: u8, b: u8, d: u8)
    requires Within(first, 0xF0, 0xF4) && Within(b, 0x80, 0xBF) && Within(d, 0x80, 0xBF)
    requires Within(a, if first == 0xF0 then 0x90 else 0x80, if first == 0xF4 then 0x8F else 0xBF)
    ensures var c := Continue(Continue(Continue(first as int - 0xF0, a), b), d);
            0xFFFF < c <= 0x10FFFF && CharText(c) == [first, a, b, d]
  {
    hide Continue;
    var high := Continue(first as int - 0xF0, a);
    ContinueBack(first - 0xF0, a);
    ContinueBack(high, b);
    ContinueBack(Continue(high, b), d);
    DivideTwice(Continue(Continue(high, b), d));
  }

  lemma FrontIsChar(s: bytes)
    requires CharLen(s) > 0
    ensures FrontChar(s) >= 0 && IsScalarValue(FrontChar(s)) && CharText(FrontChar(s)) == s[..CharLen(s)]
  {
    hide Continue, CharText;
    match CharLen(s)
    case 1 => OneByte(s[0]);
    case 2 => TwoBytes(s[0], s[1]);
    case 3 => ThreeBytes(s[0], s[1], s[2]);
    case _ => FourBytes(s[0], s[1], s[2], s[3]);
  }

  lemma OneByte(first: u8)
    requires first < 0x80
    ensures CharText(first) == [first]
  {
  }

  /** Well-formed UTF-8 is exactly the text of some characters. */
  lemma {:induction false} Utf8Exact(s: bytes)
    ensures IsUtf8(s) <==> exists cs :: AreChars(cs) && CharsText(cs) == s
    decreases |s|
  {
    if IsUtf8(s) {
      var cs := CharsOf(s);
    }
    if cs :| AreChars(cs) && CharsText(cs) == s {
      CharsAreUtf8(cs);
    }
  }

  lemma {:induction false} CharsOf(s: bytes) returns (cs: seq<nat>)
    requires IsUtf8(s)
    ensures AreChars(cs) && CharsText(cs) == s
    decreases |s|
  {
    hide CharLen, CharText, FrontChar;
    if |s| == 0 {
      cs := [];
    } else {
      var rest := CharsOf(s[CharLen(s)..]);
      FrontIsChar(s);
      cs := [FrontChar(s)] + rest;
      assert cs[1..] == rest;
      assert s[..CharLen(s)] + s[CharLen(s)..] == s;
    }
  }

  lemma {:induction false} CharsAreUtf8(cs: seq<nat>)
    requires AreChars(cs)
    ensures IsUtf8(CharsText(cs))
    decreases |cs|
  {
    hide CharLen, CharText;
    if |cs| > 0 {
      CharIsRead(cs[0], CharsText(cs[1..]));
      CharsAreUtf8(cs[1..]);
      assert (CharText(cs[0]) + CharsText(cs[1..]))[|CharText(cs[0])|..] == CharsText(cs[1..]);
    }
  }
}

/** Message structure: tokens, the group skipper and the field walk. */
module Wire {
  import opened Bytes
  import opened Varint

  const MAX_FIELD_NUMBER := 0x1FFF_FFFF
  const MAX_GROUP_DEPTH := 64

  datatype Payload =
    | Varint(varint: u64)
    | Fixed64(fixed64: u64)
    | Len(slice: bytes)
    | Fixed32(fixed32: u32)
    | Group

  /** One key and, unless it opens or closes a group, the value behind it. */
  datatype Token =
    | Scalar(number: nat, payload: Payload, used: nat)
    | Start(number: nat, used: nat)
    | End(number: nat, used: nat)

  /** `decode_field_number`. */
  function DecodeFieldNumber(key: u64): Result<nat> {
    if key / 8 == 0 then Err(FieldNumberZero)
    else if key / 8 > MAX_FIELD_NUMBER then Err(FieldNumberOutOfRange)
    else Ok(key / 8)
  }

  /** Reads the value of a scalar whose key, of `keyLen` bytes, sits just before `t`. */
  function ReadPayload(t: bytes, wireType: nat, number: nat, keyLen: nat): (r: Result<Token>)
    ensures r.Ok? ==> r.value.number == number && keyLen <= r.value.used <= keyLen + |t|
    ensures r.Ok? && r.value.Scalar? && r.value.payload.Len? ==>
      var n, slice := r.value.used - keyLen, r.value.payload.slice;
      |slice| < n && t[n - |slice|..n] == slice
    ensures r.Ok? && r.value.Scalar? ==> !r.value.payload.Group?
  {
    match wireType
    case 0 =>
      var v :- ReadVarint(t);
      Ok(Scalar(number, Varint(v.value), keyLen + v.used))
    case 1 =>
      if |t| < 8 then Err(TruncatedFixed64)
      else
        assert Pow(256, 8) == 0x1_0000_0000_0000_0000;
        Ok(Scalar(number, Fixed64(LittleEndian(t[..8])), keyLen + 8))
    case 2 =>
      var n :- ReadVarint(t);
      if |t| - n.used < n.value then Err(TruncatedLen)
      else Ok(Scalar(number, Len(t[n.used..n.used + n.value]), keyLen + n.used + n.value))
    case 3 => Ok(Start(number, keyLen))
    case 4 => Ok(End(number, keyLen))
    case 5 =>
      if |t| < 4 then Err(TruncatedFixed32)
      else
        assert Pow(256, 4) == 0x1_0000_0000;
        Ok(Scalar(number, Fixed32(LittleEndian(t[..4])), keyLen + 4))
    case _ => Err(BadWireType)
  }

  /** The key and value at the front of `s`, in the order every reader of the projection checks them. */
  function ReadToken(s: bytes): (r: Result<Token>)
    ensures r.Ok? ==> 1 <= r.value.used <= |s| && 1 <= r.value.number <= MAX_FIELD_NUMBER
    ensures r.Ok? && r.value.Scalar? && r.value.payload.Len? ==>
      var n, slice := r.value.used, r.value.payload.slice;
      |slice| < n && s[n - |slice|..n] == slice
    ensures r.Ok? && r.value.Scalar? ==> !r.value.payload.Group?
  {
    var key :- ReadVarint(s);
    var number :- DecodeFieldNumber(key.value);
    ReadPayload(s[key.used..], key.value % 8, number, key.used)
  }

  lemma ReadPayloadLocal(t: bytes, t': bytes, wireType: nat, number: nat, keyLen: nat)
    requires ReadPayload(t, wireType, number, keyLen).Ok?
    requires var n := ReadPayload(t, wireType, number, keyLen).value.used - keyLen;
             n <= |t'| && t'[..n] == t[..n]
    ensures ReadPayload(t', wireType, number, keyLen) == ReadPayload(t, wireType, number, keyLen)
  {
    hide ReadVarint, LittleEndian;
    var n := ReadPayload(t, wireType, number, keyLen).value.used - keyLen;
    if wireType == 0 {
      ReadVarintLocal(t, t');
    } else if wireType == 1 || wireType == 5 {
      assert t'[..n] == t[..n];
    } else if wireType == 2 {
      var len := ReadVarint(t).value;
      assert t'[..len.used] == t'[..n][..len.used] == t[..n][..len.used] == t[..len.used];
      ReadVarintLocal(t, t');
      assert t'[len.used..n] == t'[..n][len.used..] == t[..n][len.used..] == t[len.used..n];
    }
  }

  /** A token looks only at the bytes it uses. */
  lemma ReadTokenLocal(s: bytes, t: bytes)
    requires ReadToken(s).Ok?
    requires ReadToken(s).value.used <= |t|
    requires t[..ReadToken(s).value.used] == s[..ReadToken(s).value.used]
    ensures ReadToken(t) == ReadToken(s)
  {
    hide ReadVarint, ReadPayload;
    var key, n := ReadVarint(s).value, ReadToken(s).value.used;
    assert t[..key.used] == t[..n][..key.used] == s[..n][..key.used] == s[..key.used];
    ReadVarintLocal(s, t);
    var m := n - key.used;
    assert t[key.used..][..m] == t[..n][key.used..] == s[..n][key.used..] == s[key.used..][..m];
    ReadPayloadLocal(s[key.used..], t[key.used..], key.value % 8, key.value / 8, key.used);
  }

  // ----- Groups -----

  /** `r`, with `used` more bytes in front of it. */
  function Behind(used: nat, r: Result<nat>): Result<nat> {
    match r
    case Ok(n) => Ok(used + n)
    case Err(e) => Err(e)
  }

  /**
    * The body of group `open` and its end tag, as a recursive descent; `depth` groups are open.
    * The result is the number of bytes up to and including the matching end tag.
    */
  function GroupBody(s: bytes, open: nat, depth: nat): (r: Result<nat>)
    ensures r.Ok? ==> 1 <= r.value <= |s|
    decreases |s|
  {
    if |s| == 0 then Err(UnterminatedGroup)
    else
      var token :- ReadToken(s);
      var t := s[token.used..];
      match token
      case Scalar(_, _, used) => Behind(used, GroupBody(t, open, depth))
      case Start(number, used) =>
        if depth >= MAX_GROUP_DEPTH then Err(GroupTooDeep)
        else
          var inner :- GroupBody(t, number, depth + 1);
          Behind(used, Behind(inner, GroupBody(t[inner..], open, depth)))
      case End(number, used) =>
        if number == open then Ok(used) else Err(MismatchedEndGroup)
  }

  /** Derivation trees of the group grammar: plain fields and balanced groups, in wire order. */
  datatype Items =
    | Nothing
    | Plain(chunk: bytes, tail: Items)
    | Nested(open: bytes, number: nat, inner: Items, close: bytes, tail: Items)

  ghost predicate IsPlain(chunk: bytes) {
    ReadToken(chunk).Ok? && ReadToken(chunk).value.Scalar? && ReadToken(chunk).value.used == |chunk|
  }

  ghost predicate Opens(tag: bytes, number: nat) {
    ReadToken(tag) == Ok(Start(number, |tag|))
  }

  ghost predicate Closes(tag: bytes, number: nat) {
    ReadToken(tag) == Ok(End(number, |tag|))
  }

  ghost predicate Derives(items: Items) {
    match items
    case Nothing => true
    case Plain(chunk, tail) => IsPlain(chunk) && Derives(tail)
    case Nested(open, number, inner, close, tail) =>
      Opens(open, number) && Derives(inner) && Closes(close, number) && Derives(tail)
  }

  ghost function Text(items: Items): bytes {
    match items
    case Nothing => []
    case Plain(chunk, tail) => chunk + Text(tail)
    case Nested(open, _, inner, close, tail) => open + (Text(inner) + close + Text(tail))
  }

  /** How many further groups are ever open at once inside `items`. */
  ghost function Nesting(items: Items): nat {
    match items
    case Nothing => 0
    case Plain(_, tail) => Nesting(tail)
    case Nested(_, _, inner, _, tail) => Max(1 + Nesting(inner), Nesting(tail))
  }

  ghost function Max(a: nat, b: nat): nat {
    if a < b then b else a
  }

  /** A group body: balanced items under the depth limit, closed by the tag of `open`. */
  ghost predicate IsGroupText(s: bytes, open: nat, depth: nat) {
    exists items: Items, close: bytes ::
      Derives(items) && Closes(close, open) && depth + Nesting(items) <= 64 && s == Text(items) + close
  }

  lemma TokenInFront(chunk: bytes, rest: bytes)
    requires ReadToken(chunk).Ok? && ReadToken(chunk).value.used == |chunk|
    ensures ReadToken(chunk + rest) == ReadToken(chunk)
  {
    hide ReadToken;
    assert (chunk + rest)[..|chunk|] == chunk[..|chunk|];
    ReadTokenLocal(chunk, chunk + rest);
  }

  lemma BodyNonempty(s: bytes, open: nat, depth: nat)
    ensures |s| == 0 ==> GroupBody(s, open, depth) == Err(UnterminatedGroup)
    ensures |s| > 0 && ReadToken(s).Err? ==> GroupBody(s, open, depth) == Err(ReadToken(s).error)
  {
    hide ReadToken;
  }

  lemma BodyUnfolds(s: bytes, open: nat, depth: nat)
    requires |s| > 0 && ReadToken(s).Ok?
    ensures ReadToken(s).value.Scalar? ==>
      var used := ReadToken(s).value.used;
      GroupBody(s, open, depth) == Behind(used, GroupBody(s[used..], open, depth))
    ensures ReadToken(s).value.Start? && depth >= MAX_GROUP_DEPTH ==> GroupBody(s, open, depth) == Err(GroupTooDeep)
    ensures ReadToken(s).value.Start? && depth < MAX_GROUP_DEPTH ==>
      var token := ReadToken(s).value;
      var inner := GroupBody(s[token.used..], token.number, depth + 1);
      GroupBody(s, open, depth) ==
        if inner.Err? then inner
        else Behind(token.used, Behind(inner.value, GroupBody(s[token.used..][inner.value..], open, depth)))
    ensures ReadToken(s).value.End? ==>
      var token := ReadToken(s).value;
      GroupBody(s, open, depth) == if token.number == open then Ok(token.used) else Err(MismatchedEndGroup)
  {
    hide ReadToken;
  }

  lemma BodyPlain(chunk: bytes, rest: bytes, open: nat, depth: nat)
    requires IsPlain(chunk)
    ensures GroupBody(chunk + rest, open, depth) == Behind(|chunk|, GroupBody(rest, open, depth))
  {
    hide ReadToken;
    TokenInFront(chunk, rest);
    assert (chunk + rest)[|chunk|..] == rest;
  }

  lemma BodyNested(tag: bytes, number: nat, rest: bytes, open: nat, depth: nat)
    requires Opens(tag, number) && depth < MAX_GROUP_DEPTH
    requires GroupBody(rest, number, depth + 1).Ok?
    ensures var inner := GroupBody(rest, number, depth + 1).value;
            GroupBody(tag + rest, open, depth) == Behind(|tag|, Behind(inner, GroupBody(rest[inner..], open, depth)))
  {
    hide ReadToken;
    TokenInFront(tag, rest);
    assert (tag + rest)[|tag|..] == rest;
  }

  lemma BodyClosed(tag: bytes, rest: bytes, open: nat, depth: nat)
    requires Closes(tag, open)
    ensures GroupBody(tag + rest, open, depth) == Ok(|tag|)
  {
    TokenInFront(tag, rest);
  }

  lemma {:induction false} GroupBodyComplete(items: Items, close: bytes, open: nat, depth: nat, rest: bytes)
    requires Derives(items) && Closes(close, open) && depth + Nesting(items) <= MAX_GROUP_DEPTH
    ensures GroupBody(Text(items) + close + rest, open, depth) == Ok(|Text(items)| + |close|)
    decreases items
  {
    hide ReadToken, GroupBody;
    var s := Text(items) + close + rest;
    match items
    case Nothing =>
      assert s == close + rest;
      BodyClosed(close, rest, open, depth);
    case Plain(chunk, tail) =>
      assert s == chunk + (Text(tail) + close + rest);
      BodyPlain(chunk, Text(tail) + close + rest, open, depth);
      GroupBodyComplete(tail, close, open, depth, rest);
    case Nested(tag, number, inner, end, tail) =>
      var after := Text(tail) + close + rest;
      var body := Text(inner) + end + after;
      assert s == tag + body;
      GroupBodyComplete(inner, end, number, depth + 1, after);
      BodyNested(tag, number, body, open, depth);
      assert body[|Text(inner)| + |end|..] == after;
      GroupBodyComplete(tail, close, open, depth, rest);
  }

  lemma {:induction false} GroupBodySound(s: bytes, open: nat, depth: nat) returns (items: Items, close: bytes)
    requires depth <= MAX_GROUP_DEPTH && GroupBody(s, open, depth).Ok?
    ensures Derives(items) && Closes(close, open) && depth + Nesting(items) <= MAX_GROUP_DEPTH
    ensures s[..GroupBody(s, open, depth).value] == Text(items) + close
    decreases |s|
  {
    hide ReadToken, GroupBody;
    BodyNonempty(s, open, depth);
    var token := ReadToken(s).value;
    var head, t := s[..token.used], s[token.used..];
    assert head[..token.used] == s[..token.used];
    ReadTokenLocal(s, head);
    BodyUnfolds(s, open, depth);
    assert s == head + t;
    match token
    case Scalar(_, _, _) =>
      var tail;
      tail, close := GroupBodySound(t, open, depth);
      items := Plain(head, tail);
      PrefixOfConcat(head, t, GroupBody(t, open, depth).value);
    case Start(number, _) =>
      var inner, end := GroupBodySound(t, number, depth + 1);
      var m := GroupBody(t, number, depth + 1).value;
      var tail;
      tail, close := GroupBodySound(t[m..], open, depth);
      items := Nested(head, number, inner, end, tail);
      NestedText(head, inner, end, tail, close, t, m, GroupBody(t[m..], open, depth).value);
    case End(_, _) =>
      items, close := Nothing, head;
      assert Text(items) + close == head;
  }

  lemma NestedText(head: bytes, inner: Items, end: bytes, tail: Items, close: bytes, t: bytes, m: nat, n: nat)
    requires m + n <= |t|
    requires t[..m] == Text(inner) + end && t[m..][..n] == Text(tail) + close
    ensures (head + t)[..|head| + (m + n)] == head + (Text(inner) + end + Text(tail)) + close
  {
    hide *;
    assert t[..m + n] == t[..m] + t[m..][..n];
    PrefixOfConcat(head, t, m + n);
  }

  lemma PrefixOfConcat(a: bytes, b: bytes, n: nat)
    requires n <= |b|
    ensures (a + b)[..|a| + n] == a + b[..n]
  {
  }

  /** The skipper accepts exactly when a balanced body within the depth limit is a prefix, and stops right behind it. */
  lemma GroupBodyExact(s: bytes, open: nat, depth: nat, n: nat)
    requires depth <= 64
    ensures GroupBody(s, open, depth) == Ok(n) <==> n <= |s| && IsGroupText(s[..n], open, depth)
  {
    hide ReadToken, GroupBody, Derives, Text, Nesting;
    if GroupBody(s, open, depth) == Ok(n) {
      var items, close := GroupBodySound(s, open, depth);
    }
    if n <= |s| && IsGroupText(s[..n], open, depth) {
      var items, close :|
        && Derives(items) && Closes(close, open) && depth + Nesting(items) <= MAX_GROUP_DEPTH
        && s[..n] == Text(items) + close;
      GroupBodyComplete(items, close, open, depth, s[n..]);
      assert s == Text(items) + close + s[n..];
    }
  }

  lemma GroupBodyLocal(s: bytes, t: bytes, open: nat, depth: nat)
    requires depth <= MAX_GROUP_DEPTH && GroupBody(s, open, depth).Ok?
    requires var n := GroupBody(s, open, depth).value; n <= |t| && t[..n] == s[..n]
    ensures GroupBody(t, open, depth) == GroupBody(s, open, depth)
  {
    var n := GroupBody(s, open, depth).value;
    GroupBodyExact(s, open, depth, n);
    GroupBodyExact(t, open, depth, n);
  }

  /** What is left to skip when the groups on `stack` are still open, innermost last. */
  function Unwind(s: bytes, stack: seq<nat>): Result<nat>
    decreases |stack|
  {
    if |stack| == 0 then Ok(0)
    else
      var n :- GroupBody(s, stack[|stack| - 1], |stack|);
      var rest :- Unwind(s[n..], stack[..|stack| - 1]);
      Ok(n + rest)
  }

  lemma UnwindFails(s: bytes, stack: seq<nat>)
    requires |stack| > 0
    ensures |s| == 0 ==> Unwind(s, stack) == Err(UnterminatedGroup)
    ensures |s| > 0 && ReadToken(s).Err? ==> Unwind(s, stack) == Err(ReadToken(s).error)
  {
    hide ReadToken, GroupBody;
    BodyNonempty(s, stack[|stack| - 1], |stack|);
  }

  lemma UnwindPlain(s: bytes, stack: seq<nat>)
    requires |stack| > 0 && |s| > 0 && ReadToken(s).Ok? && ReadToken(s).value.Scalar?
    ensures var used := ReadToken(s).value.used;
            Unwind(s, stack) == Behind(used, Unwind(s[used..], stack))
  {
    hide ReadToken, GroupBody;
    var used, open := ReadToken(s).value.used, stack[|stack| - 1];
    BodyUnfolds(s, open, |stack|);
    var r := GroupBody(s[used..], open, |stack|);
    if r.Ok? {
      assert s[used + r.value..] == s[used..][r.value..];
    }
  }

  lemma UnwindOpen(s: bytes, stack: seq<nat>)
    requires |stack| > 0 && |s| > 0 && ReadToken(s).Ok? && ReadToken(s).value.Start?
    ensures var token := ReadToken(s).value;
            Unwind(s, stack) ==
              if |stack| >= MAX_GROUP_DEPTH then Err(GroupTooDeep)
              else Behind(token.used, Unwind(s[token.used..], stack + [token.number]))
  {
    hide ReadToken, GroupBody, Unwind;
    var token := ReadToken(s).value;
    var t, open, below := s[token.used..], stack[|stack| - 1], stack[..|stack| - 1];
    BodyUnfolds(s, open, |stack|);
    if |stack| < MAX_GROUP_DEPTH {
      assert stack == below + [open];
      UnwindTop(s, below, open);
      UnwindTop(t, stack, token.number);
      var inner := GroupBody(t, token.number, |stack| + 1);
      if inner.Ok? {
        UnwindTop(t[inner.value..], below, open);
        var r := GroupBody(t[inner.value..], open, |stack|);
        if r.Ok? {
          assert s[token.used + (inner.value + r.value)..] == t[inner.value..][r.value..];
        }
      }
    } else {
      UnwindTop(s, below, open);
      assert stack == below + [open];
    }
  }

  lemma UnwindTop(s: bytes, below: seq<nat>, open: nat)
    ensures var n := GroupBody(s, open, |below| + 1);
            Unwind(s, below + [open]) == if n.Err? then n else Behind(n.value, Unwind(s[n.value..], below))
  {
    hide ReadToken, GroupBody;
    assert (below + [open])[..|below|] == below;
  }

  lemma UnwindClose(s: bytes, stack: seq<nat>)
    requires |stack| > 0 && |s| > 0 && ReadToken(s).Ok? && ReadToken(s).value.End?
    ensures var token := ReadToken(s).value;
            Unwind(s, stack) ==
              if token.number != stack[|stack| - 1] then Err(MismatchedEndGroup)
              else Behind(token.used, Unwind(s[token.used..], stack[..|stack| - 1]))
  {
    hide ReadToken, GroupBody;
    BodyUnfolds(s, stack[|stack| - 1], |stack|);
  }

  /** `skip_group`: one loop over tokens, with the open field numbers in a fixed array of 64 slots. */
  method SkipGroup(input: bytes, startField: nat) returns (r: Result<nat>)
    ensures r == GroupBody(input, startField, 1)
  {
    hide ReadToken, GroupBody, Unwind;
    var fieldStack := new nat[MAX_GROUP_DEPTH];
    var depth := 1;
    fieldStack[0] := startField;
    var pos: nat, rest := 0, input;
    UnwindOne(input, startField);
    assert fieldStack[..1] == [startField];
    while |rest| > 0
      invariant 1 <= depth <= MAX_GROUP_DEPTH
      invariant Behind(pos, Unwind(rest, fieldStack[..depth])) == GroupBody(input, startField, 1)
      decreases |rest|
    {
      ghost var open := fieldStack[..depth];
      UnwindFails(rest, open);
      var token :- ReadToken(rest);
      match token {
        case Scalar(_, _, _) =>
          UnwindPlain(rest, open);
        case Start(number, _) =>
          UnwindOpen(rest, open);
          if depth == MAX_GROUP_DEPTH {
            return Err(GroupTooDeep);
          }
          fieldStack[depth] := number;
          depth := depth + 1;
          assert fieldStack[..depth] == open + [number];
        case End(number, _) =>
          UnwindClose(rest, open);
          if number != fieldStack[depth - 1] {
            return Err(MismatchedEndGroup);
          }
          depth := depth - 1;
          assert fieldStack[..depth] == open[..depth];
          if depth == 0 {
            UnwindNone(rest[token.used..]);
            return Ok(pos + token.used);
          }
      }
      pos, rest := pos + token.used, rest[token.used..];
    }
    UnwindFails(rest, fieldStack[..depth]);
    return Err(UnterminatedGroup);
  }

  lemma UnwindOne(s: bytes, open: nat)
    ensures Unwind(s, [open]) == GroupBody(s, open, 1)
  {
    hide ReadToken, GroupBody;
  }

  lemma UnwindNone(s: bytes)
    ensures Unwind(s, []) == Ok(0)
  {
  }
}

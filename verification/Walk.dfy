/** `for_each_field`: the walk over the fields of one message, and what a visitor makes of them. */
module Walk {
  import opened Bytes
  import opened Options
  import opened Wire

  /** A field as the walk meets it; `at` is where its length-delimited payload starts in the message. */
  datatype Field = Field(number: nat, payload: Payload, at: nat)

  datatype Step = Step(field: Field, used: nat)

  /** The fields in front of the first framing error, and that error if there is one. */
  datatype Walked = Walked(fields: seq<Field>, stop: Option<Error>)

  function PayloadSize(payload: Payload): nat {
    if payload.Len? then |payload.slice| else 0
  }

  /** The field at the front of `s`, `base` bytes into the message; a whole group counts as one field. */
  function NextField(s: bytes, base: nat): (r: Result<Step>)
    ensures r.Ok? ==> 1 <= r.value.used <= |s|
    ensures r.Ok? ==>
      var step := r.value;
      var end := step.field.at + PayloadSize(step.field.payload) - base;
      && base <= step.field.at && end == step.used
      && (step.field.payload.Len? ==> base < step.field.at && s[step.field.at - base..end] == step.field.payload.slice)
  {
    var token :- ReadToken(s);
    match token
    case Scalar(number, payload, used) => Ok(Step(Field(number, payload, base + used - PayloadSize(payload)), used))
    case Start(number, used) =>
      var n :- GroupBody(s[used..], number, 1);
      Ok(Step(Field(number, Group, base + used + n), used + n))
    case End(_, _) => Err(UnexpectedEndGroup)
  }

  function WalkFrom(s: bytes, base: nat): (w: Walked)
    decreases |s|
  {
    if |s| == 0 then Walked([], None)
    else
      match NextField(s, base)
      case Err(e) => Walked([], Some(e))
      case Ok(step) =>
        var rest := WalkFrom(s[step.used..], base + step.used);
        Walked([step.field] + rest.fields, rest.stop)
  }

  function Fields(s: bytes): Walked {
    WalkFrom(s, 0)
  }

  /** Runs the visitor over `fields` until it fails; groups were skipped, so it never sees one. */
  function Fold<S>(fields: seq<Field>, state: S, visit: (S, Field) -> Result<S>): Result<S> {
    if |fields| == 0 then Ok(state)
    else if fields[0].payload.Group? then Fold(fields[1..], state, visit)
    else
      var next :- visit(state, fields[0]);
      Fold(fields[1..], next, visit)
  }

  /** Visits what was walked, then reports where the walk stopped. */
  function Visit<S>(w: Walked, state: S, visit: (S, Field) -> Result<S>): Result<S> {
    var final :- Fold(w.fields, state, visit);
    if w.stop.Some? then Err(w.stop.value) else Ok(final)
  }

  /** Two phases: walk the whole message, then visit its fields. */
  function ForEach<S>(s: bytes, state: S, visit: (S, Field) -> Result<S>): Result<S> {
    Visit(Fields(s), state, visit)
  }

  lemma WalkStep(s: bytes, base: nat)
    ensures |s| == 0 ==> WalkFrom(s, base) == Walked([], None)
    ensures |s| > 0 && NextField(s, base).Err? ==> WalkFrom(s, base) == Walked([], Some(NextField(s, base).error))
    ensures |s| > 0 && NextField(s, base).Ok? ==>
      var step := NextField(s, base).value;
      var rest := WalkFrom(s[step.used..], base + step.used);
      WalkFrom(s, base) == Walked([step.field] + rest.fields, rest.stop)
  {
    hide NextField;
  }

  lemma VisitStep<S>(field: Field, rest: Walked, state: S, visit: (S, Field) -> Result<S>)
    ensures Visit(Walked([field] + rest.fields, rest.stop), state, visit) ==
      if field.payload.Group? then Visit(rest, state, visit)
      else if visit(state, field).Err? then Err(visit(state, field).error)
      else Visit(rest, visit(state, field).value, visit)
  {
    assert ([field] + rest.fields)[1..] == rest.fields;
  }

  /** Reads one field, handing groups to the skipper. */
  method ReadField(rest: bytes, pos: nat) returns (r: Result<Step>)
    ensures r == NextField(rest, pos)
  {
    hide ReadToken, GroupBody;
    var token :- ReadToken(rest);
    match token {
      case Scalar(number, payload, used) =>
        return Ok(Step(Field(number, payload, pos + used - PayloadSize(payload)), used));
      case Start(number, used) =>
        var n :- SkipGroup(rest[used..], number);
        return Ok(Step(Field(number, Group, pos + used + n), used + n));
      case End(_, _) =>
        return Err(UnexpectedEndGroup);
    }
  }

  /** `for_each_field` itself: one loop that reads a field and visits it before reading the next. */
  method ForEachField<S>(input: bytes, init: S, visit: (S, Field) -> Result<S>) returns (r: Result<S>)
    ensures r == ForEach(input, init, visit)
  {
    hide NextField, WalkFrom, Visit;
    var rest, pos: nat, state := input, 0, init;
    while |rest| > 0
      invariant Visit(WalkFrom(rest, pos), state, visit) == ForEach(input, init, visit)
      decreases |rest|
    {
      WalkStep(rest, pos);
      var step := ReadField(rest, pos);
      if step.Err? {
        VisitStop(step.error, state, visit);
        return Err(step.error);
      }
      var field := step.value.field;
      var next := rest[step.value.used..];
      VisitStep(field, WalkFrom(next, pos + step.value.used), state, visit);
      if !field.payload.Group? {
        state :- visit(state, field);
      }
      rest, pos := next, pos + step.value.used;
    }
    WalkStep(rest, pos);
    VisitEnd(state, visit);
    return Ok(state);
  }

  lemma VisitStop<S>(e: Error, state: S, visit: (S, Field) -> Result<S>)
    ensures Visit(Walked([], Some(e)), state, visit) == Err(e)
  {
  }

  lemma VisitEnd<S>(state: S, visit: (S, Field) -> Result<S>)
    ensures Visit(Walked([], None), state, visit) == Ok(state)
  {
  }

  // ----- Concatenation -----

  lemma NextFieldLocal(s: bytes, t: bytes, base: nat)
    requires NextField(s, base).Ok?
    requires NextField(s, base).value.used <= |t|
    requires t[..NextField(s, base).value.used] == s[..NextField(s, base).value.used]
    ensures NextField(t, base) == NextField(s, base)
  {
    hide ReadToken, GroupBody;
    var token, n := ReadToken(s).value, NextField(s, base).value.used;
    assert t[..token.used] == t[..n][..token.used] == s[..n][..token.used] == s[..token.used];
    ReadTokenLocal(s, t);
    if token.Start? {
      var m := n - token.used;
      assert t[token.used..][..m] == t[..n][token.used..] == s[..n][token.used..] == s[token.used..][..m];
      GroupBodyLocal(s[token.used..], t[token.used..], token.number, 1);
    }
  }

  /** Walking a well-framed message and what follows it is walking the one and then the other. */
  lemma {:induction false} WalkConcat(a: bytes, b: bytes, base: nat)
    requires WalkFrom(a, base).stop.None?
    ensures var after := WalkFrom(b, base + |a|);
            WalkFrom(a + b, base) == Walked(WalkFrom(a, base).fields + after.fields, after.stop)
    decreases |a|
  {
    hide NextField, WalkFrom;
    WalkStep(a, base);
    if |a| == 0 {
      assert a + b == b;
    } else {
      var step := NextField(a, base).value;
      assert (a + b)[..step.used] == a[..step.used];
      NextFieldLocal(a, a + b, base);
      WalkStep(a + b, base);
      assert (a + b)[step.used..] == a[step.used..] + b;
      WalkConcat(a[step.used..], b, base + step.used);
    }
  }

  function Moved(field: Field, shift: nat): Field {
    field.(at := field.at + shift)
  }

  function MovedAll(fields: seq<Field>, shift: nat): (r: seq<Field>)
    ensures |r| == |fields|
    ensures forall i :: 0 <= i < |fields| ==> r[i] == Moved(fields[i], shift)
  {
    seq(|fields|, i requires 0 <= i < |fields| => Moved(fields[i], shift))
  }

  /** Where a message sits changes nothing but the offsets. */
  lemma {:induction false} WalkMoved(s: bytes, base: nat, shift: nat)
    ensures WalkFrom(s, base + shift) == Walked(MovedAll(WalkFrom(s, base).fields, shift), WalkFrom(s, base).stop)
    decreases |s|
  {
    hide WalkFrom, ReadToken, GroupBody;
    WalkStep(s, base);
    WalkStep(s, base + shift);
    if |s| > 0 && NextField(s, base).Ok? {
      var step := NextField(s, base).value;
      assert NextField(s, base + shift) == Ok(Step(Moved(step.field, shift), step.used));
      WalkMoved(s[step.used..], base + step.used, shift);
    }
  }

  lemma {:induction false} FoldConcat<S>(a: seq<Field>, b: seq<Field>, state: S, visit: (S, Field) -> Result<S>)
    ensures Fold(a + b, state, visit) ==
      if Fold(a, state, visit).Err? then Fold(a, state, visit) else Fold(b, Fold(a, state, visit).value, visit)
    decreases |a|
  {
    if |a| == 0 {
      assert a + b == b;
    } else {
      assert (a + b)[1..] == a[1..] + b;
      if a[0].payload.Group? {
        FoldConcat(a[1..], b, state, visit);
      } else if visit(state, a[0]).Ok? {
        FoldConcat(a[1..], b, visit(state, a[0]).value, visit);
      }
    }
  }

  /** A visitor over a concatenation carries its state from the first message into the second. */
  lemma ForEachConcat<S>(a: bytes, b: bytes, state: S, visit: (S, Field) -> Result<S>)
    requires Fields(a).stop.None?
    ensures ForEach(a + b, state, visit) ==
      if ForEach(a, state, visit).Err? then ForEach(a, state, visit)
      else Visit(WalkFrom(b, |a|), ForEach(a, state, visit).value, visit)
  {
    hide WalkFrom, Fold;
    WalkConcat(a, b, 0);
    FoldConcat(Fields(a).fields, WalkFrom(b, |a|).fields, state, visit);
  }

  // ----- Where payloads sit -----

  /** Each length-delimited payload is the slice of the message at its offset. */
  ghost predicate InPlace(s: bytes, field: Field, base: nat) {
    field.payload.Len? ==>
      base <= field.at && field.at - base + |field.payload.slice| <= |s|
      && s[field.at - base..field.at - base + |field.payload.slice|] == field.payload.slice
  }

  /** Payloads lie in the message, in order, each ending before the next one's key. */
  lemma {:induction false} WalkInPlace(s: bytes, base: nat)
    ensures forall f :: f in WalkFrom(s, base).fields ==> InPlace(s, f, base)
    ensures forall f :: f in WalkFrom(s, base).fields && f.payload.Len? ==> base < f.at
    ensures forall i, j :: 0 <= i < j < |WalkFrom(s, base).fields| ==>
      var fields := WalkFrom(s, base).fields;
      fields[i].at + PayloadSize(fields[i].payload) <= fields[j].at
    ensures forall f :: f in WalkFrom(s, base).fields ==> base <= f.at
    decreases |s|
  {
    hide NextField, WalkFrom;
    WalkStep(s, base);
    if |s| > 0 && NextField(s, base).Ok? {
      var step := NextField(s, base).value;
      var t, base' := s[step.used..], base + step.used;
      WalkInPlace(t, base');
      forall f | f in WalkFrom(t, base').fields ensures InPlace(s, f, base) {
        if f.payload.Len? {
          var n := |f.payload.slice|;
          assert s[f.at - base..f.at - base + n] == t[f.at - base'..f.at - base' + n];
        }
      }
    }
  }
}

/** Messages made of length-delimited fields only, which is all that surrounds a log record. */
module Messages {
  import opened Bytes
  import opened Options
  import opened Wire
  import opened Walk
  import opened Encode
  import opened Decode
  import opened Preflight
  import opened Request

  datatype Part = Part(field: number, data: buffer)

  function PartsText(parts: seq<Part>): bytes {
    if |parts| == 0 then []
    else PartsText(parts[..|parts| - 1]) + LenText(parts[|parts| - 1].field, parts[|parts| - 1].data)
  }

  lemma PartsTextSnoc(parts: seq<Part>, part: Part)
    ensures PartsText(parts + [part]) == PartsText(parts) + LenText(part.field, part.data)
  {
    assert (parts + [part])[..|parts|] == parts;
  }

  lemma PartsTextEmpty(parts: seq<Part>)
    requires |parts| == 0
    ensures PartsText(parts) == []
  {
  }

  lemma {:induction false} PartsTextConcat(a: seq<Part>, b: seq<Part>)
    ensures PartsText(a + b) == PartsText(a) + PartsText(b)
    decreases |b|
  {
    hide PartsText, LenText;
    if |b| == 0 {
      assert a + b == a;
      PartsTextEmpty(b);
    } else {
      var front, last := b[..|b| - 1], b[|b| - 1];
      PartsTextConcat(a, front);
      PartsTextSnoc(a + front, last);
      PartsTextSnoc(front, last);
      assert b == front + [last];
      assert a + b == a + front + [last];
    }
  }

  // ----- The walk of such a message -----

  ghost predicate Shows(fields: seq<Field>, parts: seq<Part>) {
    && |fields| == |parts|
    && forall i :: 0 <= i < |parts| ==> fields[i].number == parts[i].field && fields[i].payload == Len(parts[i].data)
  }

  lemma {:induction false} PartsTextWalks(parts: seq<Part>)
    ensures Fields(PartsText(parts)).stop.None? && Shows(Fields(PartsText(parts)).fields, parts)
    decreases |parts|
  {
    hide WalkFrom, LenText, IsField;
    if |parts| == 0 {
      EmptyWalks();
    } else {
      var front, last := parts[..|parts| - 1], parts[|parts| - 1];
      var s, t := PartsText(front), LenText(last.field, last.data);
      PartsTextWalks(front);
      LenTextReads(last.field, last.data);
      FieldWalks(t, last.field, Len(last.data), |s|);
      WalkConcat(s, t, 0);
    }
  }

  lemma EmptyWalks()
    ensures Fields([]) == Walked([], None)
  {
  }

  /** The preflight accepts such a message when it accepts each part. */
  lemma FitParts(parts: seq<Part>, message: MessageKind)
    requires forall i :: 0 <= i < |parts| ==> FitField(Field(parts[i].field, Len(parts[i].data), 0), message)
    ensures Fit(PartsText(parts), message)
  {
    hide WalkFrom, FitField;
    PartsTextWalks(parts);
    var fields := Fields(PartsText(parts)).fields;
    forall f | f in fields ensures FitField(f, message) {
      var i :| 0 <= i < |fields| && fields[i] == f;
      FitAnywhere(Field(parts[i].field, Len(parts[i].data), 0), f, message);
    }
  }

  lemma FitAnywhere(f: Field, g: Field, message: MessageKind)
    requires FitField(f, message) && f.number == g.number && f.payload == g.payload
    ensures FitField(g, message)
  {
  }

  // ----- Visiting such a message -----

  function FoldParts<S>(parts: seq<Part>, number: nat, state: S, inner: (S, bytes) -> Result<S>): Result<S> {
    if |parts| == 0 then Ok(state)
    else if parts[0].field != number then FoldParts(parts[1..], number, state, inner)
    else
      var next :- inner(state, parts[0].data);
      FoldParts(parts[1..], number, next, inner)
  }

  lemma FoldNoParts<S>(parts: seq<Part>, number: nat, state: S, inner: (S, bytes) -> Result<S>)
    requires |parts| == 0
    ensures FoldParts(parts, number, state, inner) == Ok(state)
  {
  }

  lemma FoldFirstPart<S>(parts: seq<Part>, number: nat, state: S, next: S, inner: (S, bytes) -> Result<S>)
    requires |parts| > 0 && parts[0].field == number && inner(state, parts[0].data) == Ok(next)
    ensures FoldParts(parts, number, state, inner) == FoldParts(parts[1..], number, next, inner)
  {
  }

  lemma {:induction false} FoldShown<S>(
    fields: seq<Field>, parts: seq<Part>, number: nat, state: S, inner: (S, bytes) -> Result<S>)
    requires Shows(fields, parts)
    ensures Fold(fields, state, OnLen(number, inner)) == FoldParts(parts, number, state, inner)
    decreases |parts|
  {
    if |parts| > 0 {
      assert fields[0].number == parts[0].field && fields[0].payload == Len(parts[0].data);
      assert Shows(fields[1..], parts[1..]);
      if parts[0].field != number {
        FoldShown(fields[1..], parts[1..], number, state, inner);
      } else if inner(state, parts[0].data).Ok? {
        FoldShown(fields[1..], parts[1..], number, inner(state, parts[0].data).value, inner);
      }
    }
  }

  /** A generated visitor sees the parts with its number, in order. */
  lemma ForEachPart<S>(parts: seq<Part>, number: nat, state: S, inner: (S, bytes) -> Result<S>)
    ensures ForEachLen(PartsText(parts), number, state, inner) == FoldParts(parts, number, state, inner)
  {
    hide WalkFrom, Fold, FoldParts, PartsText;
    PartsTextWalks(parts);
    FoldShown(Fields(PartsText(parts)).fields, parts, number, state, inner);
  }

  lemma {:induction false} FoldPartsConcat<S>(
    a: seq<Part>, b: seq<Part>, number: nat, state: S, inner: (S, bytes) -> Result<S>)
    ensures FoldParts(a + b, number, state, inner) ==
      var r := FoldParts(a, number, state, inner);
      if r.Err? then r else FoldParts(b, number, r.value, inner)
    decreases |a|
  {
    if |a| == 0 {
      assert a + b == b;
    } else {
      assert (a + b)[1..] == a[1..] + b;
      if a[0].field != number {
        FoldPartsConcat(a[1..], b, number, state, inner);
      } else if inner(state, a[0].data).Ok? {
        FoldPartsConcat(a[1..], b, number, inner(state, a[0].data).value, inner);
      }
    }
  }

  /** Parts with other numbers pass by. */
  lemma {:induction false} FoldPartsSkips<S>(parts: seq<Part>, number: nat, state: S, inner: (S, bytes) -> Result<S>)
    requires forall i :: 0 <= i < |parts| ==> parts[i].field != number
    ensures FoldParts(parts, number, state, inner) == Ok(state)
    decreases |parts|
  {
    if |parts| > 0 {
      FoldPartsSkips(parts[1..], number, state, inner);
    }
  }

  lemma FoldOnePart<S>(part: Part, number: nat, state: S, inner: (S, bytes) -> Result<S>)
    requires part.field == number
    ensures FoldParts([part], number, state, inner) == inner(state, part.data)
  {
    assert [part][1..] == [];
  }

  // ----- The order of different fields -----

  /** The parts with that number. */
  function Only(parts: seq<Part>, number: nat): seq<Part> {
    if |parts| == 0 then []
    else (if parts[0].field == number then [parts[0]] else []) + Only(parts[1..], number)
  }

  lemma {:induction false} FoldOnly<S>(parts: seq<Part>, number: nat, state: S, inner: (S, bytes) -> Result<S>)
    ensures FoldParts(parts, number, state, inner) == FoldParts(Only(parts, number), number, state, inner)
    decreases |parts|
  {
    if |parts| > 0 {
      if parts[0].field != number {
        assert Only(parts, number) == Only(parts[1..], number);
        FoldOnly(parts[1..], number, state, inner);
      } else if inner(state, parts[0].data).Ok? {
        assert Only(parts, number)[1..] == Only(parts[1..], number);
        FoldOnly(parts[1..], number, inner(state, parts[0].data).value, inner);
      }
    }
  }

  lemma SameOnly<S>(a: seq<Part>, b: seq<Part>, number: nat, state: S, inner: (S, bytes) -> Result<S>)
    requires Only(a, number) == Only(b, number)
    ensures ForEachLen(PartsText(a), number, state, inner) == ForEachLen(PartsText(b), number, state, inner)
  {
    hide ForEachLen, PartsText, FoldParts, Only;
    ForEachPart(a, number, state, inner);
    ForEachPart(b, number, state, inner);
    FoldOnly(a, number, state, inner);
    FoldOnly(b, number, state, inner);
  }

  /**
    * Resources may stand behind the scopes that they belong to, and scopes behind their records: only the order within
    * each kind counts.
    */
  lemma WireOrderDoesNotMatter(
    a: seq<Part>, b: seq<Part>, rows: seq<Row>, prefix: bytes, attrs: seq<Attr<WireAny>>, decode: KvDecoder,
      out: Output)
    requires Only(a, 1) == Only(b, 1) && Only(a, 2) == Only(b, 2)
    ensures DecodeResourceLogs(rows, PartsText(a), prefix, decode, out)
            == DecodeResourceLogs(rows, PartsText(b), prefix, decode, out)
    ensures DecodeScopeLogs(rows, PartsText(a), attrs, decode, out)
            == DecodeScopeLogs(rows, PartsText(b), attrs, decode, out)
  {
    hide ForEachLen, PartsText, Only, CollectResource, DecodeRow, MergeScope;
    var collect := (acc: seq<Attr<WireAny>>, resource: bytes) => CollectResource(acc, resource, prefix, decode);
    SameOnly(a, b, 1, [], collect);
    var shared := ForEachLen(PartsText(a), 1, [], collect);
    if shared.Ok? {
      SameOnly(a, b, 2, rows,
        (acc: seq<Row>, scopeLogs: bytes) => DecodeScopeLogs(acc, scopeLogs, shared.value, decode, out));
    }
    var merge := (acc: ScopeFields, scope: bytes) => MergeScope(scope, acc);
    SameOnly(a, b, 1, ScopeFields(None, None), merge);
    var scope := ForEachLen(PartsText(a), 1, ScopeFields(None, None), merge);
    if scope.Ok? {
      SameOnly(a, b, 2, rows,
        (acc: seq<Row>, record: bytes) => DecodeRow(acc, record, scope.value, attrs, decode, out));
    }
  }
}

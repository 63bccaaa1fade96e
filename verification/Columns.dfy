/** Typed columns, and detaching string views from the buffers that they share. */
module Columns {
  import opened Options

  /** A column's type together with its rows; a missing value is null. */
  datatype Data =
    | Int64(ints: seq<Option<int>>)
    | Float64(floats: seq<Option<nat>>)
    | Boolean(bools: seq<Option<bool>>)
    | Utf8(strings: seq<Option<string>>)
    | Utf8View(views: seq<Option<string>>)
    | Other(kind: nat, others: seq<Option<nat>>)
    | Struct(present: seq<bool>, children: seq<Column>)

  datatype Column = Column(name: string, nullable: bool, metadata: map<string, string>, data: Data)

  datatype Batch = Batch(rows: nat, metadata: map<string, string>, columns: seq<Column>)

  ghost predicate HasRows(d: Data, n: nat) {
    match d
    case Int64(xs) => |xs| == n
    case Float64(xs) => |xs| == n
    case Boolean(xs) => |xs| == n
    case Utf8(xs) => |xs| == n
    case Utf8View(xs) => |xs| == n
    case Other(_, xs) => |xs| == n
    case Struct(present, children) =>
      |present| == n && forall i :: 0 <= i < |children| ==> HasRows(children[i].data, n)
  }

  /** What a record batch guarantees: all columns have its number of rows. */
  ghost predicate WellFormed(b: Batch) {
    forall i :: 0 <= i < |b.columns| ==> HasRows(b.columns[i].data, b.rows)
  }

  // ----- Detaching views -----

  predicate HasView(d: Data) {
    match d
    case Utf8View(_) => true
    case Struct(_, children) => exists i :: 0 <= i < |children| && HasView(children[i].data)
    case _ => false
  }

  predicate HasDirectView(children: seq<Column>) {
    exists i :: 0 <= i < |children| && children[i].data.Utf8View?
  }

  /** `cast_column`: looks for views among the direct children only. */
  function Cast(c: Column): (r: Column)
    ensures r.name == c.name && r.nullable == c.nullable && r.metadata == c.metadata
    ensures r.data.Struct? <==> c.data.Struct?
    decreases c
  {
    match c.data
    case Utf8View(xs) => c.(data := Utf8(xs))
    case Struct(present, children) =>
      if HasDirectView(children) then c.(data := Struct(present, CastAll(children))) else c
    case _ => c
  }

  function CastAll(cs: seq<Column>): (r: seq<Column>)
    ensures |r| == |cs| && forall i :: 0 <= i < |cs| ==> r[i] == Cast(cs[i])
    decreases cs
  {
    seq(|cs|, i requires 0 <= i < |cs| => Cast(cs[i]))
  }

  function CastBatch(b: Batch): Batch {
    b.(columns := CastAll(b.columns))
  }

  method CastColumn(c: Column) returns (r: Column)
    ensures r == Cast(c)
    decreases c
  {
    match c.data {
      case Utf8View(xs) =>
        return Column(c.name, c.nullable, c.metadata, Utf8(xs));
      case Struct(present, children) =>
        var needsCast := exists i :: 0 <= i < |children| && children[i].data.Utf8View?;
        if !needsCast {
          return c;
        }
        var cast: seq<Column> := [];
        for j := 0 to |children|
          invariant cast == CastAll(children)[..j]
        {
          var child := CastColumn(children[j]);
          cast := cast + [child];
        }
        return Column(c.name, c.nullable, c.metadata, Struct(present, cast));
      case _ =>
        return c;
    }
  }

  /** `cast_views`. */
  method CastViews(b: Batch) returns (r: Batch)
    ensures r == CastBatch(b)
  {
    var columns: seq<Column> := [];
    for i := 0 to |b.columns|
      invariant columns == CastAll(b.columns)[..i]
    {
      var column := CastColumn(b.columns[i]);
      columns := columns + [column];
    }
    r := Batch(b.rows, b.metadata, columns);
  }

  /** A column without views is left alone, so the shortcut of `detach` changes nothing. */
  lemma NoViewNoChange(c: Column)
    requires !HasView(c.data)
    ensures Cast(c) == c
  {
    if c.data.Struct? {
      assert forall i :: 0 <= i < |c.data.children| ==> !HasView(c.data.children[i].data);
    }
  }

  /** `detach`. */
  method Detach(b: Batch) returns (r: Batch)
    ensures r == CastBatch(b)
  {
    var hasView := exists i :: 0 <= i < |b.columns| && HasView(b.columns[i].data);
    if !hasView {
      forall i | 0 <= i < |b.columns| ensures Cast(b.columns[i]) == b.columns[i] {
        NoViewNoChange(b.columns[i]);
      }
      assert CastAll(b.columns) == b.columns;
      return b;
    }
    r := CastViews(b);
  }

  // ----- What detaching keeps -----

  /** The values that a column stands for: views and plain strings with the same text are the same. */
  ghost predicate SameValues(a: Data, b: Data) {
    match a
    case Utf8(xs) => b == Utf8(xs) || b == Utf8View(xs)
    case Utf8View(xs) => b == Utf8(xs) || b == Utf8View(xs)
    case Struct(present, children) =>
      && b.Struct? && b.present == present && |b.children| == |children|
      && forall i :: 0 <= i < |children| ==>
        children[i].name == b.children[i].name && children[i].nullable == b.children[i].nullable
        && children[i].metadata == b.children[i].metadata && SameValues(children[i].data, b.children[i].data)
    case _ => a == b
  }

  lemma {:induction false} SameAsItself(d: Data)
    ensures SameValues(d, d)
    decreases d
  {
    if d.Struct? {
      forall i | 0 <= i < |d.children| ensures SameValues(d.children[i].data, d.children[i].data) {
        SameAsItself(d.children[i].data);
      }
    }
  }

  /** Detaching changes representations, never values, names, flags or row counts. */
  lemma {:induction false} CastKeepsValues(c: Column)
    ensures SameValues(c.data, Cast(c).data)
    ensures forall n: nat :: HasRows(c.data, n) <==> HasRows(Cast(c).data, n)
    decreases c
  {
    if c.data.Struct? && HasDirectView(c.data.children) {
      var children := c.data.children;
      forall i | 0 <= i < |children|
        ensures SameValues(children[i].data, Cast(children[i]).data)
        ensures forall n: nat :: HasRows(children[i].data, n) <==> HasRows(Cast(children[i]).data, n)
      {
        CastKeepsValues(children[i]);
      }
    } else {
      SameAsItself(c.data);
    }
  }

  /** A view under a struct that has no view among its own children, where `cast_column` does not look. */
  ghost predicate Buried(d: Data) {
    d.Struct? &&
    if HasDirectView(d.children) then exists i :: 0 <= i < |d.children| && Buried(d.children[i].data)
    else HasView(d)
  }

  /** A view survives exactly where one is buried. */
  lemma {:induction false} ViewsLeftExactly(c: Column)
    ensures HasView(Cast(c).data) <==> Buried(c.data)
    decreases c
  {
    if c.data.Struct? && HasDirectView(c.data.children) {
      var children := c.data.children;
      forall i | 0 <= i < |children| ensures HasView(Cast(children[i]).data) <==> Buried(children[i].data) {
        ViewsLeftExactly(children[i]);
      }
      var cast := Cast(c).data.children;
      assert forall i :: 0 <= i < |children| ==> cast[i] == Cast(children[i]);
      assert HasView(Cast(c).data) <==> exists i :: 0 <= i < |cast| && HasView(cast[i].data);
    }
  }

  ghost predicate ScalarChildren(d: Data) {
    d.Struct? ==> forall i :: 0 <= i < |d.children| ==> !d.children[i].data.Struct?
  }

  /** With scalar struct children no view is left. */
  lemma ScalarsLeaveNoView(c: Column)
    requires ScalarChildren(c.data)
    ensures !HasView(Cast(c).data)
  {
    ViewsLeftExactly(c);
  }

  lemma NestedViewSurvives()
    ensures var view := Column("s", true, map[], Utf8View([Some("x")]));
            var inner := Column("inner", true, map[], Struct([true], [view]));
            var outer := Column("outer", true, map[], Struct([true], [inner]));
            HasView(Cast(outer).data) && Cast(outer) == outer
  {
    var view := Column("s", true, map[], Utf8View([Some("x")]));
    var inner := Column("inner", true, map[], Struct([true], [view]));
    var outer := Column("outer", true, map[], Struct([true], [inner]));
    assert HasView(inner.data.children[0].data);
    assert HasView(outer.data.children[0].data);
    assert !HasDirectView(outer.data.children);
  }

  /** Detaching twice is detaching once. */
  lemma CastTwice(c: Column)
    ensures Cast(Cast(c)) == Cast(c)
  {
    if c.data.Struct? && HasDirectView(c.data.children) {
      var cast := CastAll(c.data.children);
      assert forall i :: 0 <= i < |cast| ==> !cast[i].data.Utf8View?;
      assert !HasDirectView(cast);
    }
  }
}

/** Type-conflict structs: a column whose values had several types, flattened into text. */
module Conflicts {
  import opened Options
  import opened Columns

  /**
    * The library's casts to text, and the other types that have one. A value of another type that has no text, such as
    * binary data that is not UTF-8, becomes null.
    */
  datatype Format = Format(
    ofInt: int -> string, ofFloat: nat -> string, ofOther: (nat, nat) -> Option<string>, castable: nat -> bool)

  datatype Source = Int | Float | Str | Bool

  /** The rows of a text column. */
  type Texts = seq<Option<string>>

  function PickConflictValueSource(hasInt: bool, hasFloat: bool, hasBool: bool, hasStr: bool): Option<Source> {
    if hasInt then Some(Int)
    else if hasFloat then Some(Float)
    else if hasBool then Some(Bool)
    else if hasStr then Some(Str)
    else None
  }

  function ConflictChildKind(name: string): Option<Source> {
    if name == "int" then Some(Int)
    else if name == "str" then Some(Str)
    else if name == "bool" then Some(Bool)
    else if name == "float" then Some(Float)
    else None
  }

  /** All children have names of conflict types; an empty struct is not one. */
  predicate IsConflict(d: Data) {
    d.Struct? && |d.children| > 0 && forall i :: 0 <= i < |d.children| ==> ConflictChildKind(d.children[i].name).Some?
  }

  // ----- Casts -----

  predicate CanCast(fmt: Format, d: Data) {
    !d.Struct? && (d.Other? ==> fmt.castable(d.kind))
  }

  function BoolText(b: bool): string {
    if b then "true" else "false"
  }

  function MapTexts<T>(xs: seq<Option<T>>, f: T -> string): (r: Texts)
    ensures |r| == |xs|
  {
    seq(|xs|, i requires 0 <= i < |xs| => if xs[i].Some? then Some(f(xs[i].value)) else None)
  }

  function MapSome<T>(xs: seq<Option<T>>, f: T -> Option<string>): (r: Texts)
    ensures |r| == |xs|
  {
    seq(|xs|, i requires 0 <= i < |xs| => if xs[i].Some? then f(xs[i].value) else None)
  }

  /** `compute::cast(_, Utf8)` with the default options, under which a value that does not cast becomes null. */
  function ToText(fmt: Format, d: Data): Texts
    requires CanCast(fmt, d)
  {
    match d
    case Int64(xs) => MapTexts(xs, fmt.ofInt)
    case Float64(xs) => MapTexts(xs, fmt.ofFloat)
    case Boolean(xs) => MapTexts(xs, BoolText)
    case Utf8(xs) => xs
    case Utf8View(xs) => xs
    case Other(kind, xs) => MapSome(xs, x => fmt.ofOther(kind, x))
  }

  // ----- The merged column -----

  function Coalesce(xs: seq<Option<string>>): Option<string> {
    if |xs| == 0 then None else if xs[0].Some? then xs[0] else Coalesce(xs[1..])
  }

  /** The first child of that name. */
  function FindChild(children: seq<Column>, name: string): (r: Option<Data>)
    ensures r.Some? <==> exists i :: 0 <= i < |children| && children[i].name == name
  {
    if |children| == 0 then None
    else if children[0].name == name then Some(children[0].data)
    else
      assert forall i :: 0 < i < |children| ==> children[i] == children[1..][i - 1];
      FindChild(children[1..], name)
  }

  predicate CanMerge(fmt: Format, child: Option<Data>) {
    child.Some? ==> CanCast(fmt, child.value)
  }

  function TextAt(fmt: Format, child: Option<Data>, i: nat): Option<string>
    requires CanMerge(fmt, child)
  {
    if child.Some? && i < |ToText(fmt, child.value)| then ToText(fmt, child.value)[i] else None
  }

  /** A `bool` child that is not of boolean type counts as missing. */
  function BoolAt(child: Option<Data>, i: nat): Option<string> {
    if child.Some? && child.value.Boolean? && i < |child.value.bools| && child.value.bools[i].Some?
    then Some(BoolText(child.value.bools[i].value)) else None
  }

  ghost predicate FitsRows(child: Option<Data>, rows: nat) {
    child.Some? ==> HasRows(child.value, rows)
  }

  /** Row `i` of the merged column: the first of int, float, bool and str that is not null. */
  function Merged(
    fmt: Format, intCol: Option<Data>, floatCol: Option<Data>, boolCol: Option<Data>, strCol: Option<Data>, i: nat)
    : Option<string>
    requires CanMerge(fmt, intCol) && CanMerge(fmt, floatCol) && CanMerge(fmt, strCol)
  {
    Coalesce([TextAt(fmt, intCol, i), TextAt(fmt, floatCol, i), BoolAt(boolCol, i), TextAt(fmt, strCol, i)])
  }

  lemma CoalesceFour(a: Option<string>, b: Option<string>, c: Option<string>, d: Option<string>)
    ensures Coalesce([a, b, c, d]) == if a.Some? then a else if b.Some? then b else if c.Some? then c else d
  {
    assert [a, b, c, d][1..] == [b, c, d] && [b, c, d][1..] == [c, d] && [c, d][1..] == [d] && [d][1..] == [];
    assert Coalesce([d]) == d;
    assert Coalesce([c, d]) == if c.Some? then c else d;
  }

  function AsTexts(fmt: Format, child: Option<Data>): Option<Texts>
    requires CanMerge(fmt, child)
  {
    if child.Some? then Some(ToText(fmt, child.value)) else None
  }

  /** `merge_to_utf8`; the casts must be supported, or it panics. */
  method MergeToUtf8(
    fmt: Format, intCol: Option<Data>, floatCol: Option<Data>, boolCol: Option<Data>, strCol: Option<Data>, rows: nat)
    returns (merged: Texts)
    requires CanMerge(fmt, intCol) && CanMerge(fmt, floatCol) && CanMerge(fmt, strCol)
    requires FitsRows(intCol, rows) && FitsRows(floatCol, rows) && FitsRows(boolCol, rows) && FitsRows(strCol, rows)
    ensures |merged| == rows
    ensures forall i :: 0 <= i < rows ==> merged[i] == Merged(fmt, intCol, floatCol, boolCol, strCol, i)
  {
    hide Coalesce;
    var ints, floats, strs := AsTexts(fmt, intCol), AsTexts(fmt, floatCol), AsTexts(fmt, strCol);
    var bools := if boolCol.Some? && boolCol.value.Boolean? then Some(boolCol.value.bools) else None;
    merged := [];
    for i := 0 to rows
      invariant |merged| == i
      invariant forall j :: 0 <= j < i ==> merged[j] == Merged(fmt, intCol, floatCol, boolCol, strCol, j)
    {
      CoalesceFour(TextAt(fmt, intCol, i), TextAt(fmt, floatCol, i), BoolAt(boolCol, i), TextAt(fmt, strCol, i));
      var source := PickConflictValueSource(
        ints.Some? && ints.value[i].Some?, floats.Some? && floats.value[i].Some?,
        bools.Some? && bools.value[i].Some?, strs.Some? && strs.value[i].Some?);
      match source {
        case Some(Int) => merged := merged + [ints.value[i]];
        case Some(Float) => merged := merged + [floats.value[i]];
        case Some(Bool) => merged := merged + [Some(if bools.value[i].value then "true" else "false")];
        case Some(Str) => merged := merged + [strs.value[i]];
        case None => merged := merged + [None];
      }
    }
  }

  // ----- Normalizing -----

  predicate CanFlatten(fmt: Format, d: Data) {
    d.Struct? && CanMerge(fmt, FindChild(d.children, "int")) && CanMerge(fmt, FindChild(d.children, "float"))
    && CanMerge(fmt, FindChild(d.children, "str"))
  }

  function Flatten(fmt: Format, d: Data, rows: nat): (r: Texts)
    requires CanFlatten(fmt, d)
    ensures |r| == rows
  {
    seq(rows, i requires 0 <= i < rows =>
      Merged(fmt, FindChild(d.children, "int"), FindChild(d.children, "float"), FindChild(d.children, "bool"),
        FindChild(d.children, "str"), i))
  }

  function NormalizeColumn(fmt: Format, c: Column, rows: nat): Column
    requires IsConflict(c.data) ==> CanFlatten(fmt, c.data)
  {
    if IsConflict(c.data) then Column(c.name, true, map[], Utf8(Flatten(fmt, c.data, rows))) else c
  }

  /** No cast of `normalize_conflict_columns` panics. */
  predicate CanNormalize(fmt: Format, columns: seq<Column>) {
    forall i :: 0 <= i < |columns| ==> (IsConflict(columns[i].data) ==> CanFlatten(fmt, columns[i].data))
  }

  function Normalize(fmt: Format, b: Batch): (r: Batch)
    requires CanNormalize(fmt, b.columns)
  {
    b.(columns := seq(|b.columns|, i requires 0 <= i < |b.columns| => NormalizeColumn(fmt, b.columns[i], b.rows)))
  }

  lemma {:induction false} ChildFits(children: seq<Column>, name: string, rows: nat)
    requires forall i :: 0 <= i < |children| ==> HasRows(children[i].data, rows)
    ensures FitsRows(FindChild(children, name), rows)
    decreases |children|
  {
    hide HasRows;
    if |children| > 0 && children[0].name != name {
      ChildFits(children[1..], name, rows);
    }
  }

  /** `normalize_conflict_columns`. */
  method NormalizeConflictColumns(fmt: Format, b: Batch) returns (r: Batch)
    requires WellFormed(b) && CanNormalize(fmt, b.columns)
    ensures r == Normalize(fmt, b)
  {
    hide FindChild, Merged, Flatten, CanFlatten, IsConflict;
    var hasConflict := exists i :: 0 <= i < |b.columns| && IsConflict(b.columns[i].data);
    if !hasConflict {
      assert Normalize(fmt, b).columns == b.columns;
      return b;
    }
    var columns: seq<Column> := [];
    for i := 0 to |b.columns|
      invariant columns == Normalize(fmt, b).columns[..i]
    {
      var c := b.columns[i];
      if IsConflict(c.data) {
        var merged := FlattenStruct(fmt, c.data, b.rows);
        columns := columns + [Column(c.name, true, map[], Utf8(merged))];
      } else {
        columns := columns + [c];
      }
    }
    r := Batch(b.rows, b.metadata, columns);
  }

  method FlattenStruct(fmt: Format, d: Data, rows: nat) returns (merged: Texts)
    requires CanFlatten(fmt, d) && HasRows(d, rows)
    ensures merged == Flatten(fmt, d, rows)
  {
    hide Merged;
    ChildFits(d.children, "int", rows);
    ChildFits(d.children, "float", rows);
    ChildFits(d.children, "bool", rows);
    ChildFits(d.children, "str", rows);
    merged := MergeToUtf8(fmt, FindChild(d.children, "int"), FindChild(d.children, "float"),
      FindChild(d.children, "bool"), FindChild(d.children, "str"), rows);
  }

  // ----- What normalizing keeps -----

  /** No conflict struct is left, so a second pass changes nothing. */
  lemma NormalizeTwice(fmt: Format, b: Batch)
    requires CanNormalize(fmt, b.columns)
    ensures var r := Normalize(fmt, b);
            && (forall i :: 0 <= i < |r.columns| ==> !IsConflict(r.columns[i].data))
            && CanNormalize(fmt, r.columns) && Normalize(fmt, r) == r
  {
    var r := Normalize(fmt, b);
    forall i | 0 <= i < |r.columns| ensures !IsConflict(r.columns[i].data) {
      assert r.columns[i] == NormalizeColumn(fmt, b.columns[i], b.rows);
    }
    assert Normalize(fmt, r).columns == r.columns;
  }

  /** Names, row counts and all columns that are not conflict structs stay; the result is a well-formed batch. */
  lemma NormalizeKeeps(fmt: Format, b: Batch)
    requires WellFormed(b) && CanNormalize(fmt, b.columns)
    ensures var r := Normalize(fmt, b);
            && WellFormed(r) && r.rows == b.rows && r.metadata == b.metadata && |r.columns| == |b.columns|
            && forall i :: 0 <= i < |b.columns| ==>
              && r.columns[i].name == b.columns[i].name
              && (!IsConflict(b.columns[i].data) ==> r.columns[i] == b.columns[i])
              && (IsConflict(b.columns[i].data) ==>
                  r.columns[i].nullable && r.columns[i].metadata == map[]
                  && r.columns[i].data == Utf8(Flatten(fmt, b.columns[i].data, b.rows)))
  {
    var r := Normalize(fmt, b);
    forall i | 0 <= i < |b.columns| ensures HasRows(r.columns[i].data, b.rows) {
      assert r.columns[i] == NormalizeColumn(fmt, b.columns[i], b.rows);
    }
  }

  // ----- Detaching and normalizing commute -----

  ghost predicate SameChild(fmt: Format, a: Option<Data>, b: Option<Data>) {
    && (CanMerge(fmt, a) <==> CanMerge(fmt, b))
    && (CanMerge(fmt, a) ==> forall i: nat :: TextAt(fmt, a, i) == TextAt(fmt, b, i))
    && (forall i: nat :: BoolAt(a, i) == BoolAt(b, i))
  }

  /** A detached child casts to the same text. */
  lemma CastSameChild(fmt: Format, c: Column)
    ensures SameChild(fmt, Some(c.data), Some(Cast(c).data))
  {
  }

  lemma {:induction false} FindCast(fmt: Format, children: seq<Column>, name: string)
    ensures SameChild(fmt, FindChild(children, name), FindChild(CastAll(children), name))
    decreases |children|
  {
    hide CanMerge, TextAt, BoolAt, SameChild;
    if |children| == 0 {
      SameAbsent(fmt);
    } else if children[0].name == name {
      CastSameChild(fmt, children[0]);
    } else {
      FindCast(fmt, children[1..], name);
      assert CastAll(children)[1..] == CastAll(children[1..]);
    }
  }

  lemma SameAbsent(fmt: Format)
    ensures SameChild(fmt, None, None)
  {
  }

  lemma CastIsConflict(c: Column)
    ensures IsConflict(Cast(c).data) <==> IsConflict(c.data)
  {
    if c.data.Struct? && HasDirectView(c.data.children) {
      var cast := CastAll(c.data.children);
      assert forall i :: 0 <= i < |cast| ==> cast[i].name == c.data.children[i].name;
    }
  }

  /** Detached or not, a conflict struct flattens to the same rows. */
  lemma CastFlattens(fmt: Format, c: Column, rows: nat)
    requires c.data.Struct?
    ensures CanFlatten(fmt, Cast(c).data) <==> CanFlatten(fmt, c.data)
    ensures CanFlatten(fmt, c.data) ==> Flatten(fmt, Cast(c).data, rows) == Flatten(fmt, c.data, rows)
  {
    hide FindChild, CanMerge, TextAt, BoolAt, Coalesce;
    var children := c.data.children;
    FindCast(fmt, children, "int");
    FindCast(fmt, children, "float");
    FindCast(fmt, children, "bool");
    FindCast(fmt, children, "str");
  }

  lemma ColumnCommutes(fmt: Format, c: Column, rows: nat)
    ensures (IsConflict(Cast(c).data) ==> CanFlatten(fmt, Cast(c).data)) <==>
      (IsConflict(c.data) ==> CanFlatten(fmt, c.data))
    ensures (IsConflict(c.data) ==> CanFlatten(fmt, c.data)) ==>
            NormalizeColumn(fmt, Cast(c), rows) == Cast(NormalizeColumn(fmt, c, rows))
  {
    hide CanFlatten, Flatten, Cast;
    CastIsConflict(c);
    if IsConflict(c.data) {
      CastFlattens(fmt, c, rows);
      if CanFlatten(fmt, c.data) {
        CastUtf8(NormalizeColumn(fmt, c, rows));
      }
    }
  }

  lemma CastUtf8(c: Column)
    requires c.data.Utf8?
    ensures Cast(c) == c
  {
  }

  /** Detach then normalize is normalize then detach, and either order panics exactly when the other does. */
  lemma DetachAndNormalizeCommute(fmt: Format, b: Batch)
    ensures CanNormalize(fmt, CastBatch(b).columns) <==> CanNormalize(fmt, b.columns)
    ensures CanNormalize(fmt, b.columns) ==> Normalize(fmt, CastBatch(b)) == CastBatch(Normalize(fmt, b))
  {
    hide CanFlatten, IsConflict, NormalizeColumn, Cast;
    forall i | 0 <= i < |b.columns|
      ensures (IsConflict(Cast(b.columns[i]).data) ==> CanFlatten(fmt, Cast(b.columns[i]).data))
              <==> (IsConflict(b.columns[i].data) ==> CanFlatten(fmt, b.columns[i].data))
      ensures (IsConflict(b.columns[i].data) ==> CanFlatten(fmt, b.columns[i].data)) ==>
              NormalizeColumn(fmt, Cast(b.columns[i]), b.rows) == Cast(NormalizeColumn(fmt, b.columns[i], b.rows))
    {
      ColumnCommutes(fmt, b.columns[i], b.rows);
    }
    if CanNormalize(fmt, b.columns) {
      assert Normalize(fmt, CastBatch(b)).columns == CastBatch(Normalize(fmt, b)).columns;
    }
  }

  // ----- Nulls -----

  /** The child is null at row `i`. */
  predicate IsNull(d: Data, i: nat) {
    match d
    case Int64(xs) => i < |xs| && xs[i].None?
    case Float64(xs) => i < |xs| && xs[i].None?
    case Boolean(xs) => i < |xs| && xs[i].None?
    case Utf8(xs) => i < |xs| && xs[i].None?
    case Utf8View(xs) => i < |xs| && xs[i].None?
    case Other(_, xs) => i < |xs| && xs[i].None?
    case Struct(present, _) => i < |present| && !present[i]
  }

  /** The child has a value at row `i`, and that value has no text. */
  predicate HasNoText(fmt: Format, d: Data, i: nat) {
    d.Other? && i < |d.others| && d.others[i].Some? && fmt.ofOther(d.kind, d.others[i].value).None?
  }

  /** The child is null at row `i`, or becomes null there. */
  predicate CastsToNull(fmt: Format, d: Data, i: nat) {
    IsNull(d, i) || HasNoText(fmt, d, i)
  }

  /** No child in front of it has its name. */
  predicate IsFirst(children: seq<Column>, k: nat)
    requires k < |children|
  {
    forall j :: 0 <= j < k ==> children[j].name != children[k].name
  }

  /** The merge reads the first child of each name, and under `bool` only a boolean one. */
  predicate IsRead(children: seq<Column>, k: nat)
    requires k < |children|
  {
    IsFirst(children, k) && (children[k].name == "bool" ==> children[k].data.Boolean?)
  }

  lemma {:induction false} FoundIs(children: seq<Column>, k: nat)
    requires k < |children| && IsFirst(children, k)
    ensures FindChild(children, children[k].name) == Some(children[k].data)
    decreases |children|
  {
    if k > 0 {
      assert children[1..][k - 1] == children[k];
      FoundIs(children[1..], k - 1);
    }
  }

  lemma {:induction false} FirstNamed(children: seq<Column>, name: string) returns (k: nat)
    requires exists j :: 0 <= j < |children| && children[j].name == name
    ensures k < |children| && children[k].name == name && IsFirst(children, k)
    decreases |children|
  {
    if children[0].name == name {
      k := 0;
    } else {
      var rest := children[1..];
      var j :| 0 <= j < |children| && children[j].name == name;
      assert rest[j - 1].name == name;
      k := FirstNamed(rest, name);
      k := k + 1;
      assert forall i :: 0 < i < k ==> children[i] == rest[i - 1];
    }
  }

  /** Every read child of that name is null at row `i`, or becomes null there. */
  ghost predicate NullUnder(fmt: Format, children: seq<Column>, name: string, i: nat) {
    forall k: nat :: k < |children| && children[k].name == name && IsRead(children, k) ==>
      CastsToNull(fmt, children[k].data, i)
  }

  lemma TextNull(fmt: Format, d: Data, rows: nat, i: nat)
    requires HasRows(d, rows) && i < rows && CanCast(fmt, d)
    ensures TextAt(fmt, Some(d), i).None? <==> CastsToNull(fmt, d, i)
  {
  }

  lemma TextNullUnder(fmt: Format, children: seq<Column>, name: string, rows: nat, i: nat)
    requires i < rows && name != "bool" && CanMerge(fmt, FindChild(children, name))
    requires forall k :: 0 <= k < |children| ==> HasRows(children[k].data, rows)
    ensures TextAt(fmt, FindChild(children, name), i).None? <==> NullUnder(fmt, children, name, i)
  {
    hide TextAt, CastsToNull, HasRows, CanMerge;
    if FindChild(children, name).Some? {
      var k := FirstNamed(children, name);
      FoundIs(children, k);
      CanMergeCasts(fmt, children[k].data);
      TextNull(fmt, children[k].data, rows, i);
      assert forall j: nat :: j < |children| && children[j].name == name && IsRead(children, j) ==> j == k;
    } else {
      NoText(fmt, i);
    }
  }

  lemma CanMergeCasts(fmt: Format, d: Data)
    requires CanMerge(fmt, Some(d))
    ensures CanCast(fmt, d)
  {
  }

  lemma NoText(fmt: Format, i: nat)
    ensures CanMerge(fmt, None) && TextAt(fmt, None, i) == None
  {
  }

  lemma BoolNull(fmt: Format, d: Data, rows: nat, i: nat)
    requires HasRows(d, rows) && i < rows
    ensures BoolAt(Some(d), i).None? <==> (d.Boolean? ==> CastsToNull(fmt, d, i))
  {
  }

  lemma NoBool(i: nat)
    ensures BoolAt(None, i) == None
  {
  }

  lemma BoolNullUnder(fmt: Format, children: seq<Column>, rows: nat, i: nat)
    requires i < rows && forall k :: 0 <= k < |children| ==> HasRows(children[k].data, rows)
    ensures BoolAt(FindChild(children, "bool"), i).None? <==> NullUnder(fmt, children, "bool", i)
  {
    hide BoolAt, CastsToNull, HasRows;
    if FindChild(children, "bool").Some? {
      var k := FirstNamed(children, "bool");
      FoundIs(children, k);
      BoolNull(fmt, children[k].data, rows, i);
      assert forall j: nat :: j < |children| && children[j].name == "bool" && IsRead(children, j) ==> j == k;
    } else {
      NoBool(i);
    }
  }

  lemma ChildRows(d: Data, rows: nat)
    requires d.Struct? && HasRows(d, rows)
    ensures forall k :: 0 <= k < |d.children| ==> HasRows(d.children[k].data, rows)
  {
  }

  /** A merged cell is null exactly when every child that the merge reads is null there or becomes null. */
  lemma MergedNullExactly(fmt: Format, d: Data, rows: nat, i: nat)
    requires IsConflict(d) && CanFlatten(fmt, d) && HasRows(d, rows) && i < rows
    ensures Flatten(fmt, d, rows)[i].None? <==>
            forall k: nat :: k < |d.children| && IsRead(d.children, k) ==> CastsToNull(fmt, d.children[k].data, i)
  {
    hide FindChild, TextAt, BoolAt, Coalesce, CastsToNull, HasRows, CanMerge, IsRead;
    var c := d.children;
    ChildRows(d, rows);
    TextNullUnder(fmt, c, "int", rows, i);
    TextNullUnder(fmt, c, "float", rows, i);
    TextNullUnder(fmt, c, "str", rows, i);
    BoolNullUnder(fmt, c, rows, i);
    CoalesceFour(TextAt(fmt, FindChild(c, "int"), i), TextAt(fmt, FindChild(c, "float"), i),
      BoolAt(FindChild(c, "bool"), i), TextAt(fmt, FindChild(c, "str"), i));
    assert forall k :: 0 <= k < |c| ==> ConflictChildKind(c[k].name).Some?;
    assert forall k :: 0 <= k < |c| ==> c[k].name in ["int", "float", "bool", "str"];
  }

  // ----- Which value a cell gets -----

  /** int before float before bool before str. */
  function Rank(name: string): nat {
    if name == "int" then 0 else if name == "float" then 1 else if name == "bool" then 2 else 3
  }

  /** The text of the value at row `i`, where there is one. */
  function TextOf(fmt: Format, d: Data, i: nat): Option<string> {
    match d
    case Int64(xs) => if i < |xs| && xs[i].Some? then Some(fmt.ofInt(xs[i].value)) else None
    case Float64(xs) => if i < |xs| && xs[i].Some? then Some(fmt.ofFloat(xs[i].value)) else None
    case Boolean(xs) => if i < |xs| && xs[i].Some? then Some(if xs[i].value then "true" else "false") else None
    case Utf8(xs) => if i < |xs| then xs[i] else None
    case Utf8View(xs) => if i < |xs| then xs[i] else None
    case Other(kind, xs) => if i < |xs| && xs[i].Some? then fmt.ofOther(kind, xs[i].value) else None
    case Struct(_, _) => None
  }

  /** Child `k` has a text at row `i`, and no child that is read and comes before it in rank does. */
  ghost predicate Wins(fmt: Format, children: seq<Column>, k: nat, i: nat)
    requires k < |children|
  {
    && IsRead(children, k) && !CastsToNull(fmt, children[k].data, i)
    && forall j: nat :: j < |children| && Rank(children[j].name) < Rank(children[k].name) && IsRead(children, j) ==>
      CastsToNull(fmt, children[j].data, i)
  }

  lemma TextIs(fmt: Format, d: Data, rows: nat, i: nat)
    requires HasRows(d, rows) && i < rows && CanCast(fmt, d)
    ensures TextAt(fmt, Some(d), i) == TextOf(fmt, d, i)
    ensures d.Boolean? ==> BoolAt(Some(d), i) == TextOf(fmt, d, i)
  {
    if d.Boolean? && d.bools[i].Some? {
      assert ToText(fmt, d)[i] == Some(BoolText(d.bools[i].value));
    }
  }

  lemma BooleanCasts(fmt: Format, d: Data)
    requires d.Boolean?
    ensures CanCast(fmt, d)
  {
  }

  /** A merged cell is the text of the first of int, float, bool and str that has one. */
  lemma MergedIsFirst(fmt: Format, d: Data, rows: nat, i: nat, k: nat)
    requires IsConflict(d) && CanFlatten(fmt, d) && HasRows(d, rows) && i < rows
    requires k < |d.children| && Wins(fmt, d.children, k, i)
    ensures Flatten(fmt, d, rows)[i] == TextOf(fmt, d.children[k].data, i)
  {
    hide FindChild, TextAt, BoolAt, Coalesce, CastsToNull, HasRows, CanMerge, IsRead, TextOf, CanCast;
    var c := d.children;
    ChildRows(d, rows);
    TextNullUnder(fmt, c, "int", rows, i);
    TextNullUnder(fmt, c, "float", rows, i);
    TextNullUnder(fmt, c, "str", rows, i);
    BoolNullUnder(fmt, c, rows, i);
    CoalesceFour(TextAt(fmt, FindChild(c, "int"), i), TextAt(fmt, FindChild(c, "float"), i),
      BoolAt(FindChild(c, "bool"), i), TextAt(fmt, FindChild(c, "str"), i));
    assert ConflictChildKind(c[k].name).Some?;
    ReadIsFound(fmt, c, k);
    if c[k].name == "bool" {
      BooleanCasts(fmt, c[k].data);
    } else {
      CanMergeCasts(fmt, c[k].data);
    }
    TextIs(fmt, c[k].data, rows, i);
  }

  lemma ReadIsFound(fmt: Format, children: seq<Column>, k: nat)
    requires k < |children| && IsRead(children, k)
    ensures FindChild(children, children[k].name) == Some(children[k].data)
    ensures children[k].name == "bool" ==> children[k].data.Boolean?
  {
    FoundIs(children, k);
  }

  // ----- When no value is lost -----

  /** The documented claim: a cell is null only where every child is. */
  ghost predicate LosesNothing(fmt: Format, d: Data, rows: nat) {
    && d.Struct? && CanFlatten(fmt, d)
    && forall i: nat :: i < rows ==>
      (Flatten(fmt, d, rows)[i].None? <==> forall k :: 0 <= k < |d.children| ==> IsNull(d.children[k].data, i))
  }

  ghost predicate AllRead(children: seq<Column>) {
    forall k: nat :: k < |children| ==> IsRead(children, k)
  }

  /** Every value that a child can have has a text. */
  ghost predicate AllHaveText(fmt: Format, children: seq<Column>) {
    forall k: nat :: k < |children| ==> HasTexts(fmt, children[k].data)
  }

  ghost predicate HasTexts(fmt: Format, d: Data) {
    d.Other? ==> forall x: nat :: fmt.ofOther(d.kind, x).Some?
  }

  predicate SameKind(a: Data, b: Data) {
    match a
    case Int64(_) => b.Int64?
    case Float64(_) => b.Float64?
    case Boolean(_) => b.Boolean?
    case Utf8(_) => b.Utf8?
    case Utf8View(_) => b.Utf8View?
    case Other(kind, _) => b.Other? && b.kind == kind
    case Struct(_, _) => b.Struct?
  }

  /** The same children by name and type, with any values. */
  ghost predicate SameSchema(a: seq<Column>, b: seq<Column>) {
    |a| == |b| && forall k :: 0 <= k < |a| ==> a[k].name == b[k].name && SameKind(a[k].data, b[k].data)
  }

  lemma {:induction false} SameFound(fmt: Format, a: seq<Column>, b: seq<Column>, name: string)
    requires SameSchema(a, b)
    ensures CanMerge(fmt, FindChild(a, name)) <==> CanMerge(fmt, FindChild(b, name))
    decreases |a|
  {
    if |a| > 0 && a[0].name != name {
      SameFound(fmt, a[1..], b[1..], name);
    }
  }

  lemma SameReads(fmt: Format, d: Data, e: Data)
    requires IsConflict(d) && CanFlatten(fmt, d) && e.Struct? && SameSchema(d.children, e.children)
    ensures IsConflict(e) && CanFlatten(fmt, e)
    ensures forall k: nat :: k < |d.children| ==> (IsRead(d.children, k) <==> IsRead(e.children, k))
  {
    hide FindChild, CanMerge;
    SameFound(fmt, d.children, e.children, "int");
    SameFound(fmt, d.children, e.children, "float");
    SameFound(fmt, d.children, e.children, "str");
    assert forall k :: 0 <= k < |e.children| ==> e.children[k].name == d.children[k].name;
  }

  /** One row of the given type: a value, which is `x` if it is of another type, or null. */
  function OneRow(d: Data, present: bool, x: nat): Data {
    match d
    case Int64(_) => Int64([if present then Some(0) else None])
    case Float64(_) => Float64([if present then Some(0) else None])
    case Boolean(_) => Boolean([if present then Some(true) else None])
    case Utf8(_) => Utf8([if present then Some("") else None])
    case Utf8View(_) => Utf8View([if present then Some("") else None])
    case Other(kind, _) => Other(kind, [if present then Some(x) else None])
    case Struct(_, _) => Struct([present], [])
  }

  lemma OneRowIs(fmt: Format, d: Data, present: bool, x: nat)
    ensures SameKind(d, OneRow(d, present, x)) && HasRows(OneRow(d, present, x), 1)
    ensures IsNull(OneRow(d, present, x), 0) <==> !present
    ensures HasNoText(fmt, OneRow(d, present, x), 0) <==> present && d.Other? && fmt.ofOther(d.kind, x).None?
  {
  }

  /** The struct of one row in which only child `k` has a value. */
  function OnlyChild(d: Data, k: nat, x: nat): Data
    requires d.Struct?
  {
    var c := d.children;
    Struct([true], seq(|c|, j requires 0 <= j < |c| => c[j].(data := OneRow(c[j].data, j == k, x))))
  }

  lemma OnlyChildIs(fmt: Format, d: Data, k: nat, x: nat)
    requires d.Struct? && k < |d.children|
    ensures var e := OnlyChild(d, k, x);
            && SameSchema(d.children, e.children) && HasRows(e, 1)
            && (forall j :: 0 <= j < |e.children| ==> (IsNull(e.children[j].data, 0) <==> j != k))
            && (HasNoText(fmt, e.children[k].data, 0) <==>
                d.children[k].data.Other? && fmt.ofOther(d.children[k].data.kind, x).None?)
  {
    hide OneRow, SameKind, IsNull, HasNoText;
    forall j | 0 <= j < |d.children|
      ensures SameKind(d.children[j].data, OneRow(d.children[j].data, j == k, x))
      ensures HasRows(OneRow(d.children[j].data, j == k, x), 1)
      ensures IsNull(OneRow(d.children[j].data, j == k, x), 0) <==> j != k
    {
      OneRowIs(fmt, d.children[j].data, j == k, x);
    }
    OneRowIs(fmt, d.children[k].data, true, x);
  }

  /**
    * No values of these children are ever lost exactly when all of them are read (no name twice, and a boolean `bool`)
    * and every value of theirs has a text.
    */
  lemma LosesNothingExactly(fmt: Format, d: Data)
    requires IsConflict(d) && CanFlatten(fmt, d)
    ensures (forall e: Data, rows: nat :: e.Struct? && SameSchema(d.children, e.children) && HasRows(e, rows) ==>
              LosesNothing(fmt, e, rows))
            <==> AllRead(d.children) && AllHaveText(fmt, d.children)
  {
    hide CanFlatten, Flatten, HasRows, IsNull, IsRead, SameSchema, HasTexts;
    if k: nat :| k < |d.children| && !IsRead(d.children, k) {
      UnreadIsLost(fmt, d, k);
    } else if k: nat :| k < |d.children| && !HasTexts(fmt, d.children[k].data) {
      var x := NoTextFor(fmt, d.children[k].data);
      TextlessIsLost(fmt, d, k, x);
    } else {
      forall e: Data, rows: nat | e.Struct? && SameSchema(d.children, e.children) && HasRows(e, rows)
        ensures LosesNothing(fmt, e, rows)
      {
        AllReadLosesNothing(fmt, d, e, rows);
      }
    }
  }

  lemma NoTextFor(fmt: Format, d: Data) returns (x: nat)
    requires !HasTexts(fmt, d)
    ensures d.Other? && fmt.ofOther(d.kind, x).None?
  {
    x :| fmt.ofOther(d.kind, x).None?;
  }

  lemma AllReadLosesNothing(fmt: Format, d: Data, e: Data, rows: nat)
    requires IsConflict(d) && CanFlatten(fmt, d) && AllRead(d.children) && AllHaveText(fmt, d.children)
    requires e.Struct? && SameSchema(d.children, e.children) && HasRows(e, rows)
    ensures LosesNothing(fmt, e, rows)
  {
    hide CanFlatten, Flatten, HasRows, IsNull, IsRead, HasTexts, HasNoText, SameKind;
    SameReads(fmt, d, e);
    assert |e.children| == |d.children|;
    forall i: nat | i < rows
      ensures Flatten(fmt, e, rows)[i].None? <==> forall k :: 0 <= k < |e.children| ==> IsNull(e.children[k].data, i)
    {
      MergedNullExactly(fmt, e, rows, i);
      assert forall k: nat :: k < |e.children| ==> IsRead(e.children, k);
      forall k: nat | k < |e.children| ensures !HasNoText(fmt, e.children[k].data, i) {
        SameTexts(fmt, d.children[k].data, e.children[k].data, i);
      }
    }
  }

  lemma SameTexts(fmt: Format, d: Data, e: Data, i: nat)
    requires SameKind(d, e) && HasTexts(fmt, d)
    ensures !HasNoText(fmt, e, i)
  {
  }

  /** A child that is not read loses its values. */
  lemma UnreadIsLost(fmt: Format, d: Data, k: nat)
    requires IsConflict(d) && CanFlatten(fmt, d) && k < |d.children| && !IsRead(d.children, k)
    ensures var e := OnlyChild(d, k, 0);
            SameSchema(d.children, e.children) && HasRows(e, 1) && !LosesNothing(fmt, e, 1)
  {
    hide CanFlatten, Flatten, HasRows, IsNull, IsRead, HasNoText;
    var e := OnlyChild(d, k, 0);
    OnlyChildIs(fmt, d, k, 0);
    SameReads(fmt, d, e);
    MergedNullExactly(fmt, e, 1, 0);
    assert !IsRead(e.children, k);
    assert Flatten(fmt, e, 1)[0].None? && !IsNull(e.children[k].data, 0);
  }

  /** So does a child with a value that has no text. */
  lemma TextlessIsLost(fmt: Format, d: Data, k: nat, x: nat)
    requires IsConflict(d) && CanFlatten(fmt, d) && k < |d.children|
    requires d.children[k].data.Other? && fmt.ofOther(d.children[k].data.kind, x).None?
    ensures var e := OnlyChild(d, k, x);
            SameSchema(d.children, e.children) && HasRows(e, 1) && !LosesNothing(fmt, e, 1)
  {
    hide CanFlatten, Flatten, HasRows, IsNull, IsRead, HasNoText;
    var e := OnlyChild(d, k, x);
    OnlyChildIs(fmt, d, k, x);
    SameReads(fmt, d, e);
    MergedNullExactly(fmt, e, 1, 0);
    assert Flatten(fmt, e, 1)[0].None? && !IsNull(e.children[k].data, 0);
  }

  /** A `bool` child that holds text is not read. */
  lemma UntypedBoolIsLost(fmt: Format)
    ensures var d := Struct([true], [Column("bool", true, map[], Utf8([Some("yes")]))]);
            IsConflict(d) && CanFlatten(fmt, d) && Flatten(fmt, d, 1) == [None] && !IsNull(d.children[0].data, 0)
  {
    hide FindChild, Flatten;
    var d := Struct([true], [Column("bool", true, map[], Utf8([Some("yes")]))]);
    assert forall i :: 0 <= i < |d.children| ==> d.children[i].name == "bool";
    MergedNullExactly(fmt, d, 1, 0);
  }

  /** Nor is a second child of the same name. */
  lemma SecondChildIsLost(fmt: Format)
    ensures var d := Struct(
              [true], [Column("str", true, map[], Utf8([None])), Column("str", true, map[], Utf8([Some("x")]))]);
            IsConflict(d) && CanFlatten(fmt, d) && Flatten(fmt, d, 1) == [None] && !IsNull(d.children[1].data, 0)
  {
    hide FindChild, Flatten;
    var d := Struct([true], [Column("str", true, map[], Utf8([None])), Column("str", true, map[], Utf8([Some("x")]))]);
    assert forall i :: 0 <= i < |d.children| ==> d.children[i].name == "str";
    FoundIs(d.children, 0);
    MergedNullExactly(fmt, d, 1, 0);
  }

  /** A binary `str` child is read, but a cell of it that is not UTF-8 has no text. */
  lemma InvalidBinaryIsLost(fmt: Format, binary: nat, invalid: nat)
    requires fmt.castable(binary) && fmt.ofOther(binary, invalid).None?
    ensures var d := Struct([true], [Column("str", true, map[], Other(binary, [Some(invalid)]))]);
            && IsConflict(d) && CanFlatten(fmt, d) && AllRead(d.children)
            && Flatten(fmt, d, 1) == [None] && !IsNull(d.children[0].data, 0)
  {
    hide FindChild, Flatten;
    var d := Struct([true], [Column("str", true, map[], Other(binary, [Some(invalid)]))]);
    assert forall i :: 0 <= i < |d.children| ==> d.children[i].name == "str";
    FoundIs(d.children, 0);
    MergedNullExactly(fmt, d, 1, 0);
  }

  // ----- What the builders emit -----

  predicate HasItsType(c: Column) {
    match ConflictChildKind(c.name)
    case Some(Int) => c.data.Int64?
    case Some(Float) => c.data.Float64?
    case Some(Bool) => c.data.Boolean?
    case Some(Str) => c.data.Utf8? || c.data.Utf8View?
    case None => false
  }

  /** Each child is what its name says, and no name comes twice. */
  ghost predicate IsTyped(children: seq<Column>) {
    && (forall i :: 0 <= i < |children| ==> HasItsType(children[i]))
    && (forall i, j :: 0 <= i < j < |children| ==> children[i].name != children[j].name)
  }

  lemma TypedCanMerge(fmt: Format, children: seq<Column>, name: string)
    requires IsTyped(children)
    ensures CanMerge(fmt, FindChild(children, name))
  {
    if FindChild(children, name).Some? {
      var k := FirstNamed(children, name);
      FoundIs(children, k);
      assert HasItsType(children[k]);
    }
  }

  /** Such a struct never makes a cast panic and never loses a value. */
  lemma TypedLosesNothing(fmt: Format, d: Data, rows: nat)
    requires d.Struct? && |d.children| > 0 && IsTyped(d.children) && HasRows(d, rows)
    ensures IsConflict(d) && CanFlatten(fmt, d) && LosesNothing(fmt, d, rows)
  {
    hide FindChild, CanMerge, HasRows, Flatten, IsNull, HasNoText;
    TypedCanMerge(fmt, d.children, "int");
    TypedCanMerge(fmt, d.children, "float");
    TypedCanMerge(fmt, d.children, "str");
    assert forall k :: 0 <= k < |d.children| ==> HasItsType(d.children[k]);
    assert SameSchema(d.children, d.children);
    assert AllRead(d.children) && AllHaveText(fmt, d.children);
    AllReadLosesNothing(fmt, d, d, rows);
  }
}

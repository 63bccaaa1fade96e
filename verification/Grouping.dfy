/** Grouping the rows of a batch by resource and scope, in the order in which the groups first appear. */
module Grouping {
  import opened RowEncoder
  import opened BatchEncoder

  /** `value_ref`: the cell as a resource value; an unsigned one counts as an integer, or as null if it is too big. */
  function ValueRef(cell: Cell): Cell {
    match cell
    case UIntCell(u) => if u < 0x8000_0000_0000_0000 then IntCell(u) else NullCell
    case _ => cell
  }

  /** Two cells fall together exactly when they bring the same value. */
  lemma SameValueRef(a: Cell, b: Cell)
    ensures ValueRef(a) == ValueRef(b) <==> CellValue(a) == CellValue(b)
    ensures CellValue(ValueRef(a)) == CellValue(a)
  {
  }

  function ValueRefs(cells: seq<Cell>): (r: seq<Cell>)
    ensures |r| == |cells|
  {
    seq(|cells|, i requires 0 <= i < |cells| => ValueRef(cells[i]))
  }

  type Key = (seq<Cell>, ScopeKey)

  function KeyOf(row: SinkRow): Key {
    (ValueRefs(row.resource), row.scope)
  }

  /** A group that starts with this row. */
  function NewGroup(row: SinkRow): Group {
    Group(ValueRefs(row.resource), row.scope, [row.record])
  }

  function GroupKey(g: Group): Key {
    (g.resource, g.scope)
  }

  /** Puts the row into the group with its key, or into a new one behind the others. */
  function AddTo(groups: seq<Group>, row: SinkRow): seq<Group> {
    if |groups| == 0 then [NewGroup(row)]
    else if GroupKey(groups[0]) == KeyOf(row) then
      [groups[0].(members := groups[0].members + [row.record])] + groups[1..]
    else [groups[0]] + AddTo(groups[1..], row)
  }

  function GroupRows(rows: seq<SinkRow>): seq<Group> {
    if |rows| == 0 then [] else AddTo(GroupRows(rows[..|rows| - 1]), rows[|rows| - 1])
  }

  // ----- What grouping keeps -----

  ghost predicate Distinct(groups: seq<Group>) {
    forall i, j :: 0 <= i < j < |groups| ==> GroupKey(groups[i]) != GroupKey(groups[j])
  }

  ghost predicate NoneHas(groups: seq<Group>, key: Key) {
    forall i :: 0 <= i < |groups| ==> GroupKey(groups[i]) != key
  }

  lemma {:induction false} AddToAt(groups: seq<Group>, row: SinkRow, i: nat)
    requires i < |groups| && GroupKey(groups[i]) == KeyOf(row)
    requires forall j :: 0 <= j < i ==> GroupKey(groups[j]) != KeyOf(row)
    ensures AddTo(groups, row) == groups[i := groups[i].(members := groups[i].members + [row.record])]
    decreases |groups|
  {
    if i > 0 {
      AddToAt(groups[1..], row, i - 1);
    }
  }

  lemma {:induction false} AddToNew(groups: seq<Group>, row: SinkRow)
    requires NoneHas(groups, KeyOf(row))
    ensures AddTo(groups, row) == groups + [NewGroup(row)]
    decreases |groups|
  {
    if |groups| > 0 {
      AddToNew(groups[1..], row);
    }
  }

  /** The records of the rows with a key, in order. */
  function Matching(rows: seq<SinkRow>, key: Key): seq<LogRow> {
    if |rows| == 0 then []
    else
      var last := rows[|rows| - 1];
      Matching(rows[..|rows| - 1], key) + if KeyOf(last) == key then [last.record] else []
  }

  ghost predicate HasAll(groups: seq<Group>, rows: seq<SinkRow>) {
    forall i :: 0 <= i < |rows| ==> !NoneHas(groups, KeyOf(rows[i]))
  }

  /** Every row's key has exactly one group, and a group holds exactly the rows with its key, in their order. */
  ghost predicate Groups(groups: seq<Group>, rows: seq<SinkRow>) {
    && Distinct(groups) && HasAll(groups, rows)
    && forall i :: 0 <= i < |groups| ==>
      groups[i].members == Matching(rows, GroupKey(groups[i])) && |groups[i].members| > 0
  }

  lemma MatchingSnoc(rows: seq<SinkRow>, row: SinkRow, key: Key)
    ensures Matching(rows + [row], key) == Matching(rows, key) + if KeyOf(row) == key then [row.record] else []
  {
    assert (rows + [row])[..|rows|] == rows;
  }

  lemma {:induction false} NoMatch(rows: seq<SinkRow>, groups: seq<Group>, key: Key)
    requires HasAll(groups, rows) && NoneHas(groups, key)
    ensures Matching(rows, key) == []
    decreases |rows|
  {
    hide NoneHas;
    if |rows| > 0 {
      NoMatch(rows[..|rows| - 1], groups, key);
      assert !NoneHas(groups, KeyOf(rows[|rows| - 1]));
    }
  }

  lemma GroupsOld(groups: seq<Group>, rows: seq<SinkRow>, row: SinkRow, i: nat)
    requires Groups(groups, rows) && i < |groups| && GroupKey(groups[i]) == KeyOf(row)
    ensures AddTo(groups, row) == groups[i := groups[i].(members := groups[i].members + [row.record])]
    ensures Groups(AddTo(groups, row), rows + [row])
  {
    hide Matching;
    AddToAt(groups, row, i);
    var next, all := AddTo(groups, row), rows + [row];
    assert forall j :: 0 <= j < |groups| ==> GroupKey(next[j]) == GroupKey(groups[j]);
    forall j | 0 <= j < |next| ensures next[j].members == Matching(all, GroupKey(next[j])) && |next[j].members| > 0 {
      MatchingSnoc(rows, row, GroupKey(next[j]));
    }
    forall j | 0 <= j < |all| ensures !NoneHas(next, KeyOf(all[j])) {
      if j < |rows| {
        assert !NoneHas(groups, KeyOf(rows[j]));
        var k :| 0 <= k < |groups| && GroupKey(groups[k]) == KeyOf(rows[j]);
        assert GroupKey(next[k]) == KeyOf(all[j]);
      } else {
        assert GroupKey(next[i]) == KeyOf(all[j]);
      }
    }
  }

  lemma GroupsNew(groups: seq<Group>, rows: seq<SinkRow>, row: SinkRow)
    requires Groups(groups, rows) && NoneHas(groups, KeyOf(row))
    ensures AddTo(groups, row) == groups + [NewGroup(row)]
    ensures Groups(AddTo(groups, row), rows + [row])
  {
    hide Matching;
    AddToNew(groups, row);
    NoMatch(rows, groups, KeyOf(row));
    var next, all := AddTo(groups, row), rows + [row];
    forall j | 0 <= j < |next| ensures next[j].members == Matching(all, GroupKey(next[j])) && |next[j].members| > 0 {
      MatchingSnoc(rows, row, GroupKey(next[j]));
    }
    forall j | 0 <= j < |all| ensures !NoneHas(next, KeyOf(all[j])) {
      if j < |rows| {
        assert !NoneHas(groups, KeyOf(rows[j]));
        var k :| 0 <= k < |groups| && GroupKey(groups[k]) == KeyOf(rows[j]);
        assert GroupKey(next[k]) == KeyOf(all[j]);
      } else {
        assert GroupKey(next[|groups|]) == KeyOf(all[j]);
      }
    }
  }

  lemma {:induction false} GroupRowsGroups(rows: seq<SinkRow>)
    ensures Groups(GroupRows(rows), rows)
    decreases |rows|
  {
    hide Groups, NoneHas, AddTo;
    if |rows| == 0 {
      NothingGrouped();
    } else {
      var front, last := rows[..|rows| - 1], rows[|rows| - 1];
      assert rows == front + [last];
      GroupRowsGroups(front);
      if NoneHas(GroupRows(front), KeyOf(last)) {
        GroupsNew(GroupRows(front), front, last);
      } else {
        var i := FindKey(GroupRows(front), KeyOf(last));
        GroupsOld(GroupRows(front), front, last, i);
      }
    }
  }

  lemma FindKey(groups: seq<Group>, key: Key) returns (i: nat)
    requires !NoneHas(groups, key)
    ensures i < |groups| && GroupKey(groups[i]) == key
  {
    i :| i < |groups| && GroupKey(groups[i]) == key;
  }

  lemma NothingGrouped()
    ensures Groups([], [])
  {
  }

  // ----- No row is lost or doubled -----

  function RowsOf(g: Group): (r: seq<SinkRow>)
    ensures |r| == |g.members|
  {
    seq(|g.members|, i requires 0 <= i < |g.members| => SinkRow(g.members[i], g.resource, g.scope))
  }

  function Ungrouped(groups: seq<Group>): seq<SinkRow> {
    if |groups| == 0 then [] else RowsOf(groups[0]) + Ungrouped(groups[1..])
  }

  /** The row as its group gives it back: its resource values resolved. */
  function Resolved(row: SinkRow): SinkRow {
    row.(resource := ValueRefs(row.resource))
  }

  function ResolvedAll(rows: seq<SinkRow>): (r: seq<SinkRow>)
    ensures |r| == |rows|
  {
    seq(|rows|, i requires 0 <= i < |rows| => Resolved(rows[i]))
  }

  lemma {:induction false} AddToKeepsRows(groups: seq<Group>, row: SinkRow)
    ensures multiset(Ungrouped(AddTo(groups, row))) == multiset(Ungrouped(groups)) + multiset{Resolved(row)}
    decreases |groups|
  {
    if |groups| == 0 {
      OneRow(row);
    } else if GroupKey(groups[0]) == KeyOf(row) {
      var g := groups[0].(members := groups[0].members + [row.record]);
      assert RowsOf(g) == RowsOf(groups[0]) + [Resolved(row)];
      assert ([g] + groups[1..])[1..] == groups[1..];
    } else {
      AddToKeepsRows(groups[1..], row);
      var rest := AddTo(groups[1..], row);
      assert ([groups[0]] + rest)[1..] == rest;
    }
  }

  lemma OneRow(row: SinkRow)
    ensures Ungrouped([NewGroup(row)]) == [Resolved(row)]
  {
    var g := NewGroup(row);
    assert [g][1..] == [];
    assert RowsOf(g) == [Resolved(row)];
  }

  /** The groups together hold exactly the rows of the batch, each as often as it was there. */
  lemma {:induction false} GroupingKeepsRows(rows: seq<SinkRow>)
    ensures multiset(Ungrouped(GroupRows(rows))) == multiset(ResolvedAll(rows))
    decreases |rows|
  {
    hide Ungrouped, AddTo, Resolved;
    if |rows| == 0 {
      NoRows();
    } else {
      var front, last := rows[..|rows| - 1], rows[|rows| - 1];
      GroupingKeepsRows(front);
      assert ResolvedAll(rows) == ResolvedAll(front) + [Resolved(last)];
      AddToKeepsRows(GroupRows(front), last);
    }
  }

  lemma NoRows()
    ensures Ungrouped([]) == []
  {
  }
}

/** `encode_batch_with_row_encoder`: records first, then all sizes bottom-up, then the bytes. */
module BatchWriter {
  import opened Bytes
  import opened Options
  import opened Varint
  import opened Utf8
  import opened Encode
  import opened Decode
  import opened Preflight
  import opened Inline
  import opened Request
  import opened RowEncoder
  import opened Messages
  import opened BatchEncoder
  import opened Grouping
  import Json

  // ----- Phase 1: records and groups -----

  /** A group whose records are ranges of the record buffer. */
  datatype RangeGroup = RangeGroup(resource: seq<Cell>, scope: ScopeKey, ranges: seq<(nat, nat)>)

  ghost predicate ValidRows(members: seq<LogRow>) {
    forall i :: 0 <= i < |members| ==> ValidRow(members[i]) && |RowText(members[i])| < MAX_BUFFER
  }

  /** The ranges cut the records of the members out of the buffer. */
  ghost predicate Cuts(buf: bytes, ranges: seq<(nat, nat)>, members: seq<LogRow>)
    requires ValidRows(members)
  {
    && |ranges| == |members|
    && forall i :: 0 <= i < |ranges| ==>
      ranges[i].0 <= ranges[i].1 <= |buf| && buf[ranges[i].0..ranges[i].1] == RowText(members[i])
  }

  ghost predicate Backs(buf: bytes, rg: RangeGroup, g: Group) {
    rg.resource == g.resource && rg.scope == g.scope && ValidRows(g.members) && Cuts(buf, rg.ranges, g.members)
  }

  ghost predicate BacksAll(buf: bytes, rgs: seq<RangeGroup>, groups: seq<Group>) {
    |rgs| == |groups| && forall i :: 0 <= i < |rgs| ==> Backs(buf, rgs[i], groups[i])
  }

  /** The hash map knows exactly the groups. */
  ghost predicate Indexes(index: map<Key, nat>, groups: seq<Group>) {
    && (forall key :: key in index ==> index[key] < |groups| && GroupKey(groups[index[key]]) == key)
    && (forall i :: 0 <= i < |groups| ==> GroupKey(groups[i]) in index && index[GroupKey(groups[i])] == i)
  }

  lemma CutsLonger(buf: bytes, more: bytes, ranges: seq<(nat, nat)>, members: seq<LogRow>)
    requires ValidRows(members) && Cuts(buf, ranges, members)
    ensures Cuts(buf + more, ranges, members)
  {
    hide RowText, ValidRow;
    forall i | 0 <= i < |ranges| ensures (buf + more)[ranges[i].0..ranges[i].1] == buf[ranges[i].0..ranges[i].1] {
    }
  }

  lemma CutsSnoc(buf: bytes, ranges: seq<(nat, nat)>, members: seq<LogRow>, row: LogRow)
    requires ValidRows(members) && ValidRow(row) && |RowText(row)| < MAX_BUFFER && Cuts(buf, ranges, members)
    ensures ValidRows(members + [row])
    ensures Cuts(buf + RowText(row), ranges + [(|buf|, |buf + RowText(row)|)], members + [row])
  {
    hide RowText, ValidRow;
    CutsLonger(buf, RowText(row), ranges, members);
    var all := buf + RowText(row);
    assert all[|buf|..|all|] == RowText(row);
  }

  lemma BacksLonger(buf: bytes, more: bytes, rgs: seq<RangeGroup>, groups: seq<Group>)
    requires BacksAll(buf, rgs, groups)
    ensures BacksAll(buf + more, rgs, groups)
  {
    hide RowText, ValidRow, Cuts, ValidRows;
    forall i | 0 <= i < |rgs| ensures Backs(buf + more, rgs[i], groups[i]) {
      assert Backs(buf, rgs[i], groups[i]);
      CutsLonger(buf, more, rgs[i].ranges, groups[i].members);
    }
  }

  /** Adding a row to group `i`. */
  lemma BacksOld(buf: bytes, rgs: seq<RangeGroup>, groups: seq<Group>, i: nat, row: LogRow)
    requires BacksAll(buf, rgs, groups) && i < |rgs| && ValidRow(row) && |RowText(row)| < MAX_BUFFER
    ensures var all := buf + RowText(row);
            BacksAll(all, rgs[i := rgs[i].(ranges := rgs[i].ranges + [(|buf|, |all|)])],
                     groups[i := groups[i].(members := groups[i].members + [row])])
  {
    hide RowText, ValidRow, Cuts, ValidRows;
    BacksLonger(buf, RowText(row), rgs, groups);
    assert Backs(buf, rgs[i], groups[i]);
    CutsSnoc(buf, rgs[i].ranges, groups[i].members, row);
  }

  /** Adding a row as a new group. */
  lemma BacksNew(buf: bytes, rgs: seq<RangeGroup>, groups: seq<Group>, row: SinkRow)
    requires BacksAll(buf, rgs, groups) && ValidRow(row.record) && |RowText(row.record)| < MAX_BUFFER
    ensures var all := buf + RowText(row.record);
            BacksAll(all, rgs + [RangeGroup(ValueRefs(row.resource), row.scope, [(|buf|, |all|)])],
                     groups + [NewGroup(row)])
  {
    hide RowText, ValidRow, Cuts, ValidRows;
    BacksLonger(buf, RowText(row.record), rgs, groups);
    NoCuts(buf);
    CutsSnoc(buf, [], [], row.record);
    assert [] + [row.record] == [row.record];
    assert [] + [(|buf|, |buf + RowText(row.record)|)] == [(|buf|, |buf + RowText(row.record)|)];
  }

  lemma NoCuts(buf: bytes)
    ensures ValidRows([]) && Cuts(buf, [], [])
  {
  }

  lemma IndexesOld(index: map<Key, nat>, groups: seq<Group>, i: nat, members: seq<LogRow>)
    requires Indexes(index, groups) && i < |groups|
    ensures Indexes(index, groups[i := groups[i].(members := members)])
  {
    var next := groups[i := groups[i].(members := members)];
    assert forall j :: 0 <= j < |groups| ==> GroupKey(next[j]) == GroupKey(groups[j]);
  }

  lemma IndexesNew(index: map<Key, nat>, groups: seq<Group>, g: Group)
    requires Indexes(index, groups) && GroupKey(g) !in index
    ensures Indexes(index[GroupKey(g) := |groups|], groups + [g])
  {
  }

  ghost predicate ValidInput(rows: seq<SinkRow>) {
    forall i :: 0 <= i < |rows| ==> ValidRow(rows[i].record) && |RowText(rows[i].record)| < MAX_BUFFER
  }

  /** The general loop: one hash lookup for each row. */
  method GroupRecords(rows: seq<SinkRow>) returns (buf: bytes, rgs: seq<RangeGroup>)
    requires ValidInput(rows)
    ensures BacksAll(buf, rgs, GroupRows(rows))
  {
    hide RowText, ValidRow, Backs, Groups, AddTo, Indexes;
    buf, rgs := [], [];
    var index: map<Key, nat> := map[];
    EmptyIndex();
    NothingGrouped();
    for n := 0 to |rows|
      invariant BacksAll(buf, rgs, GroupRows(rows[..n]))
      invariant Indexes(index, GroupRows(rows[..n]))
    {
      var row := rows[n];
      var key := KeyOf(row);
      ghost var groups := GroupRows(rows[..n]);
      GroupRowsGroups(rows[..n]);
      assert rows[..n + 1] == rows[..n] + [row] && rows[..n + 1][..n] == rows[..n];
      assert GroupRows(rows[..n + 1]) == AddTo(groups, row);
      var start := |buf|;
      ghost var before := buf;
      if key in index {
        var i := index[key];
        IndexFinds(index, groups, key);
        GroupsOld(groups, rows[..n], row, i);
        BacksOld(buf, rgs, groups, i, row.record);
        IndexesOld(index, groups, i, groups[i].members + [row.record]);
        buf := EncodeRow(buf, row.record);
        rgs := rgs[i := rgs[i].(ranges := rgs[i].ranges + [(start, |buf|)])];
      } else {
        IndexMisses(index, groups, key);
        GroupsNew(groups, rows[..n], row);
        BacksNew(buf, rgs, groups, row);
        IndexesNew(index, groups, NewGroup(row));
        index := index[key := |rgs|];
        buf := EncodeRow(buf, row.record);
        rgs := rgs + [RangeGroup(key.0, key.1, [(start, |buf|)])];
      }
    }
    assert rows[..|rows|] == rows;
  }

  lemma EmptyIndex()
    ensures Indexes(map[], [])
  {
  }

  lemma IndexFinds(index: map<Key, nat>, groups: seq<Group>, key: Key)
    requires Indexes(index, groups) && key in index
    ensures index[key] < |groups| && GroupKey(groups[index[key]]) == key
  {
  }

  lemma IndexMisses(index: map<Key, nat>, groups: seq<Group>, key: Key)
    requires Indexes(index, groups) && key !in index
    ensures NoneHas(groups, key)
  {
  }

  const NO_SCOPE := ScopeKey(None, None)

  /** There are no resource and no scope columns. */
  ghost predicate Plain(rows: seq<SinkRow>) {
    forall i :: 0 <= i < |rows| ==> KeyOf(rows[i]) == ([], NO_SCOPE)
  }

  function Records(rows: seq<SinkRow>): (r: seq<LogRow>)
    ensures |r| == |rows|
  {
    seq(|rows|, i requires 0 <= i < |rows| => rows[i].record)
  }

  lemma {:induction false} PlainIsOneGroup(rows: seq<SinkRow>)
    requires Plain(rows) && |rows| > 0
    ensures GroupRows(rows) == [Group([], NO_SCOPE, Records(rows))]
    decreases |rows|
  {
    var front, last := rows[..|rows| - 1], rows[|rows| - 1];
    if |front| == 0 {
      assert front == [] && Records(rows) == [last.record];
    } else {
      PlainIsOneGroup(front);
      assert Records(rows) == Records(front) + [last.record];
    }
  }

  /** The loop of the fast path: every record in order, without a lookup. */
  method PlainRecords(rows: seq<SinkRow>) returns (buf: bytes, ranges: seq<(nat, nat)>)
    requires ValidInput(rows)
    ensures ValidRows(Records(rows)) && Cuts(buf, ranges, Records(rows))
  {
    hide RowText, ValidRow, Cuts;
    buf, ranges := [], [];
    NoCuts(buf);
    assert Records(rows[..0]) == [];
    for n := 0 to |rows|
      invariant ValidRows(Records(rows[..n])) && Cuts(buf, ranges, Records(rows[..n]))
    {
      assert Records(rows[..n + 1]) == Records(rows[..n]) + [rows[n].record];
      CutsSnoc(buf, ranges, Records(rows[..n]), rows[n].record);
      var start := |buf|;
      buf := EncodeRow(buf, rows[n].record);
      ranges := ranges + [(start, |buf|)];
    }
    assert rows[..|rows|] == rows;
  }

  /** Without resource and scope columns that one range group backs all groups. */
  lemma PlainBacks(buf: bytes, ranges: seq<(nat, nat)>, rows: seq<SinkRow>)
    requires Plain(rows) && |rows| > 0 && ValidRows(Records(rows)) && Cuts(buf, ranges, Records(rows))
    ensures BacksAll(buf, [RangeGroup([], NO_SCOPE, ranges)], GroupRows(rows))
  {
    hide RowText, ValidRow, GroupRows, Cuts;
    PlainIsOneGroup(rows);
  }

  // ----- Phase 2: resource messages and sizes -----

  /** The size of a pair without the short-string shortcut, as the resource writers compute it. */
  lemma PlainPairSize(column: Column)
    requires ValidCell(column.cell) && CellValue(column.cell).Some? && Fits(column)
    ensures AnySize(column.cell) < MAX_BUFFER
    ensures LenTextSize(1, |column.name|) + LenTextSize(2, AnySize(column.cell)) == |PairText(column)|
  {
    hide IsUtf8, AnyText, AnySize, VarintLen;
    AnySizeIsRight(column.cell);
    LenTextHasItsSize(1, column.name);
    LenTextHasItsSize(2, AnyText(column.cell));
  }

  /** `encode_key_value_string` and its siblings, one for each kind of value. */
  method EncodeKeyValue(buf: bytes, column: Column) returns (r: bytes)
    requires ValidCell(column.cell) && CellValue(column.cell).Some? && Fits(column)
    ensures r == buf + LenText(1, PairText(column))
  {
    hide IsUtf8, AnySize, PushVarint, AnyText, VarintLen;
    AnySizeIsRight(column.cell);
    PlainPairSize(column);
    var anyvalueInner := AnySize(column.cell);
    var kvInner := LenTextSize(1, |column.name|) + LenTextSize(2, anyvalueInner);
    r := buf + TagText(1, 2);
    r := r + PushVarint(kvInner);
    r := r + LenText(1, column.name);
    r := r + TagText(2, 2);
    r := r + PushVarint(anyvalueInner);
    r := r + AnyText(column.cell);
    Regrouped(buf, TagText(1, 2), PushVarint(kvInner), LenText(1, column.name), TagText(2, 2),
      PushVarint(anyvalueInner), AnyText(column.cell));
  }

  lemma PairPartsSnoc(columns: seq<Column>, k: nat)
    requires Writable(columns) && k < |columns|
    ensures Writable(columns[..k]) && Writable(columns[..k + 1])
    ensures ValidCell(columns[k].cell) && Fits(columns[k])
    ensures CellValue(columns[k].cell).Some? ==>
      PartsText(PairParts(columns[..k + 1])) == PartsText(PairParts(columns[..k])) + LenText(1, PairText(columns[k]))
    ensures CellValue(columns[k].cell).None? ==> PairParts(columns[..k + 1]) == PairParts(columns[..k])
  {
    hide PartsText, ValidCell, AnyText, IsUtf8, PairText, CellValue, LenText;
    assert columns[k] in columns;
    var longer := columns[..k + 1];
    assert longer[..k] == columns[..k] && longer[k] == columns[k];
    assert forall c :: c in longer ==> c in columns;
    assert forall c :: c in columns[..k] ==> c in columns;
    if CellValue(columns[k].cell).Some? {
      PartsTextSnoc(PairParts(columns[..k]), Part(1, PairText(columns[k])));
    }
  }

  /** The resource message: the attributes of the batch, then the resource columns that have a value. */
  method EncodeResource(env: Setting, resource: seq<Cell>) returns (msg: bytes)
    requires |resource| == |env.names| && Writable(ResourceColumns(env, resource))
    requires forall c :: c in env.statics ==> c.cell.StrCell?
    ensures msg == PartsText(PairParts(ResourceColumns(env, resource)))
  {
    hide PartsText, PairParts, Writable, Fits, LenText, PairText, ValidCell;
    ghost var columns := ResourceColumns(env, resource);
    msg := [];
    NothingWritten(columns);
    for k := 0 to |env.statics|
      invariant Writable(columns[..k]) && msg == PartsText(PairParts(columns[..k]))
    {
      PairPartsSnoc(columns, k);
      assert columns[k] == env.statics[k] && env.statics[k] in env.statics;
      msg := EncodeKeyValue(msg, env.statics[k]);
    }
    for j := 0 to |resource|
      invariant Writable(columns[..|env.statics| + j]) && msg == PartsText(PairParts(columns[..|env.statics| + j]))
    {
      PairPartsSnoc(columns, |env.statics| + j);
      assert columns[|env.statics| + j] == Column(env.names[j], resource[j]);
      if CellValue(resource[j]).Some? {
        msg := EncodeKeyValue(msg, Column(env.names[j], resource[j]));
      }
    }
    assert columns[..|columns|] == columns;
  }

  lemma NothingWritten(columns: seq<Column>)
    ensures Writable(columns[..0]) && PartsText(PairParts(columns[..0])) == []
  {
  }

  lemma ScopeSize(env: Setting, scope: ScopeKey)
    ensures LenTextSize(1, |NameOf(scope)|) + LenTextSize(2, |VersionOf(env, scope)|) == |ScopeText(env, scope)|
  {
    hide LenText, LenTextSize;
    LenTextHasItsSize(1, NameOf(scope));
    LenTextHasItsSize(2, VersionOf(env, scope));
  }

  /** The size of the scope logs whose first `n` records are counted. */
  lemma ScopeLogsStep(env: Setting, g: Group, n: nat)
    requires ValidGroup(env, g) && |ScopeText(env, g.scope)| < MAX_BUFFER && n < |g.members|
    ensures var parts := ScopeLogsParts(env, g);
            && PartsText(parts[..n + 2]) == PartsText(parts[..n + 1]) + LenText(2, RowText(g.members[n]))
            && |LenText(2, RowText(g.members[n]))| == LenTextSize(2, |RowText(g.members[n])|)
  {
    hide RowText, ValidRow, ScopeText, PartsText, LenText, LenTextSize, Writable, IsUtf8;
    var parts := ScopeLogsParts(env, g);
    assert parts[..n + 2] == parts[..n + 1] + [Part(2, RowText(g.members[n]))];
    PartsTextSnoc(parts[..n + 1], Part(2, RowText(g.members[n])));
    LenTextHasItsSize(2, RowText(g.members[n]));
  }

  lemma ScopeLogsStart(env: Setting, g: Group)
    requires ValidGroup(env, g) && |ScopeText(env, g.scope)| < MAX_BUFFER
    ensures var parts := ScopeLogsParts(env, g);
            && PartsText(parts[..1]) == LenText(1, ScopeText(env, g.scope))
            && |LenText(1, ScopeText(env, g.scope))| == LenTextSize(1, |ScopeText(env, g.scope)|)
  {
    hide RowText, ValidRow, ScopeText, PartsText, LenText, LenTextSize, Writable, IsUtf8;
    var parts := ScopeLogsParts(env, g);
    var part := Part(1, ScopeText(env, g.scope));
    assert parts[..1] == [] + [part];
    PartsTextSnoc([], part);
    PartsTextEmpty([]);
    LenTextHasItsSize(1, ScopeText(env, g.scope));
  }

  /** Phase 2 for the scope logs of one group. */
  method SizeScopeLogs(env: Setting, buf: bytes, rg: RangeGroup, ghost g: Group) returns (size: nat)
    requires ValidGroup(env, g) && FitsGroup(env, g) && Backs(buf, rg, g)
    ensures size == |ScopeLogsText(env, g)|
  {
    hide RowText, ValidRow, ScopeText, PartsText, LenText, LenTextSize, Writable, IsUtf8, ScopeLogsParts;
    ghost var parts := ScopeLogsParts(env, g);
    ScopeSize(env, g.scope);
    ScopeLogsStart(env, g);
    PartsCount(env, g);
    var scopeSize := LenTextSize(1, |NameOf(rg.scope)|) + LenTextSize(2, |VersionOf(env, rg.scope)|);
    size := LenTextSize(1, scopeSize);
    for n := 0 to |rg.ranges|
      invariant size == |PartsText(parts[..n + 1])|
    {
      ScopeLogsStep(env, g, n);
      var (start, end) := rg.ranges[n];
      assert end - start == |RowText(g.members[n])|;
      size := size + LenTextSize(2, end - start);
    }
    assert parts[..|parts|] == parts;
  }

  lemma PartsCount(env: Setting, g: Group)
    requires ValidGroup(env, g) && |ScopeText(env, g.scope)| < MAX_BUFFER
    ensures |ScopeLogsParts(env, g)| == |g.members| + 1
  {
  }

  /** What phase 2 keeps of one group. */
  datatype Sized = Sized(resourceMsg: bytes, scopeInner: nat, resourceInner: nat)

  ghost predicate IsSized(env: Setting, g: Group, sized: Sized)
    requires Encodable(env, g)
  {
    && sized.resourceMsg == ResourceText(env, g)
    && sized.scopeInner == |ScopeLogsText(env, g)|
    && sized.resourceInner == |GroupText(env, g)|
  }

  lemma GroupTextIs(env: Setting, g: Group)
    requires Encodable(env, g)
    ensures var resource := ResourceText(env, g);
            GroupText(env, g) ==
              (if |resource| == 0 then [] else LenText(1, resource)) + LenText(2, ScopeLogsText(env, g))
    ensures |LenText(1, ResourceText(env, g))| == LenTextSize(1, |ResourceText(env, g)|)
    ensures |LenText(2, ScopeLogsText(env, g))| == LenTextSize(2, |ScopeLogsText(env, g)|)
  {
    hide ResourceText, ScopeLogsText, LenText, LenTextSize, PartsText, ValidGroup;
    var resource: buffer, scopes: buffer := ResourceText(env, g), ScopeLogsText(env, g);
    LenTextHasItsSize(1, resource);
    LenTextHasItsSize(2, scopes);
    PartsTextEmpty([]);
    PartsTextSnoc([], Part(1, resource));
    var front := if |resource| == 0 then [] else [Part(1, resource)];
    assert [] + [Part(1, resource)] == [Part(1, resource)];
    PartsTextSnoc(front, Part(2, scopes));
  }

  /** Phase 2 for one group. */
  method SizeGroup(env: Setting, buf: bytes, rg: RangeGroup, ghost g: Group) returns (sized: Sized)
    requires Encodable(env, g) && Backs(buf, rg, g)
    requires forall c :: c in env.statics ==> c.cell.StrCell?
    ensures IsSized(env, g, sized)
  {
    hide RowText, ValidRow, ScopeText, PartsText, LenText, LenTextSize, Writable, IsUtf8, ScopeLogsParts, PairParts,
      GroupText, ResourceColumns;
    EncodableIsValid(env, g);
    GroupTextIs(env, g);
    var scopeInner := SizeScopeLogs(env, buf, rg, g);
    var resourceMsg := EncodeResource(env, rg.resource);
    var resourceInner := LenTextSize(2, scopeInner);
    if |resourceMsg| > 0 {
      resourceInner := resourceInner + LenTextSize(1, |resourceMsg|);
    }
    sized := Sized(resourceMsg, scopeInner, resourceInner);
  }

  // ----- Phase 3: the bytes -----

  /** The scope and the records of one group, behind the header that announces them. */
  method WriteScopeLogs(
    env: Setting, out: bytes, buf: bytes, rg: RangeGroup, scopeInner: nat, ghost g: Group) returns (r: bytes)
    requires ValidGroup(env, g) && FitsGroup(env, g) && Backs(buf, rg, g) && scopeInner == |ScopeLogsText(env, g)|
    ensures r == out + LenText(2, ScopeLogsText(env, g))
  {
    hide RowText, ValidRow, PartsText, LenTextSize, Writable, IsUtf8, ScopeLogsParts, PushVarint, VarintLen;
    ghost var parts := ScopeLogsParts(env, g);
    ScopeSize(env, g.scope);
    ScopeLogsStart(env, g);
    PartsCount(env, g);
    var name, version := NameOf(rg.scope), VersionOf(env, rg.scope);
    r := out + TagText(2, 2);
    r := r + PushVarint(scopeInner);
    ghost var header := r;
    r := r + TagText(1, 2);
    r := r + PushVarint(LenTextSize(1, |name|) + LenTextSize(2, |version|));
    r := r + LenText(1, name);
    r := r + LenText(2, version);
    assert r == header + LenText(1, ScopeText(env, g.scope));
    r := WriteRecords(env, r, header, buf, rg, g);
    assert parts[..|parts|] == parts;
    assert r == out + (TagText(2, 2) + PushVarint(scopeInner) + ScopeLogsText(env, g));
  }

  method WriteRecords(
    env: Setting, out: bytes, ghost header: bytes, buf: bytes, rg: RangeGroup, ghost g: Group) returns (r: bytes)
    requires ValidGroup(env, g) && FitsGroup(env, g) && Backs(buf, rg, g)
    requires out == header + PartsText(ScopeLogsParts(env, g)[..1])
    ensures r == header + ScopeLogsText(env, g)
  {
    hide RowText, ValidRow, ScopeText, PartsText, LenText, LenTextSize, Writable, IsUtf8, ScopeLogsParts;
    ghost var parts := ScopeLogsParts(env, g);
    PartsCount(env, g);
    r := out;
    for n := 0 to |rg.ranges|
      invariant r == header + PartsText(parts[..n + 1])
    {
      ScopeLogsStep(env, g, n);
      var (start, end) := rg.ranges[n];
      assert buf[start..end] == RowText(g.members[n]);
      r := r + LenText(2, buf[start..end]);
    }
    assert parts[..|parts|] == parts;
  }

  /** Phase 3 for one group. */
  method WriteGroup(
    env: Setting, out: bytes, buf: bytes, rg: RangeGroup, sized: Sized, ghost g: Group) returns (r: bytes)
    requires Encodable(env, g) && Backs(buf, rg, g) && IsSized(env, g, sized)
    ensures r == out + LenText(1, GroupText(env, g))
  {
    hide PartsText, PushVarint, ScopeLogsText, ResourceText, GroupText, ValidGroup, FitsGroup, Backs;
    EncodableIsValid(env, g);
    GroupTextIs(env, g);
    r := out + TagText(1, 2);
    r := r + PushVarint(sized.resourceInner);
    ghost var header := r;
    if |sized.resourceMsg| > 0 {
      r := r + LenText(1, sized.resourceMsg);
    }
    r := WriteScopeLogs(env, r, buf, rg, sized.scopeInner, g);
    assert r == header + GroupText(env, g);
    assert r == out + (TagText(1, 2) + PushVarint(sized.resourceInner) + GroupText(env, g));
  }

  ghost predicate AllEncodable(env: Setting, groups: seq<Group>) {
    forall i :: 0 <= i < |groups| ==> Encodable(env, groups[i])
  }

  ghost function RequestText(env: Setting, groups: seq<Group>): bytes
    requires AllEncodable(env, groups)
  {
    PartsText(RequestParts(env, groups))
  }

  lemma RequestStep(env: Setting, groups: seq<Group>, n: nat)
    requires AllEncodable(env, groups) && n < |groups|
    ensures var parts := RequestParts(env, groups);
            && PartsText(parts[..n + 1]) == PartsText(parts[..n]) + LenText(1, GroupText(env, groups[n]))
            && |LenText(1, GroupText(env, groups[n]))| == LenTextSize(1, |GroupText(env, groups[n])|)
  {
    hide PartsText, LenText, LenTextSize, GroupText, Encodable;
    var parts := RequestParts(env, groups);
    assert parts[..n + 1] == parts[..n] + [parts[n]];
    PartsTextSnoc(parts[..n], parts[n]);
    LenTextHasItsSize(1, GroupText(env, groups[n]));
  }

  lemma RequestEnds(env: Setting, groups: seq<Group>)
    requires AllEncodable(env, groups)
    ensures PartsText(RequestParts(env, groups)[..0]) == []
    ensures PartsText(RequestParts(env, groups)[..|groups|]) == RequestText(env, groups)
  {
    var parts := RequestParts(env, groups);
    assert parts[..|groups|] == parts;
  }

  /** Phases 2 and 3: every size is known before the first byte is written, and each turns out right. */
  method WriteRequest(
    env: Setting, buf: bytes, rgs: seq<RangeGroup>, ghost groups: seq<Group>) returns (out: bytes, requestSize: nat)
    requires AllEncodable(env, groups) && BacksAll(buf, rgs, groups)
    requires forall c :: c in env.statics ==> c.cell.StrCell?
    ensures out == RequestText(env, groups) && requestSize == |out|
  {
    hide Encodable, IsSized, GroupText, PartsText, LenText, LenTextSize, Backs;
    ghost var parts := RequestParts(env, groups);
    RequestEnds(env, groups);
    var sizes: seq<Sized> := [];
    requestSize := 0;
    for n := 0 to |rgs|
      invariant |sizes| == n && forall i :: 0 <= i < n ==> IsSized(env, groups[i], sizes[i])
      invariant requestSize == |PartsText(parts[..n])|
    {
      RequestStep(env, groups, n);
      var sized := SizeGroup(env, buf, rgs[n], groups[n]);
      SizedInner(env, groups[n], sized);
      requestSize := requestSize + LenTextSize(1, sized.resourceInner);
      sizes := sizes + [sized];
    }
    out := [];
    for n := 0 to |rgs|
      invariant out == PartsText(parts[..n])
    {
      RequestStep(env, groups, n);
      out := WriteGroup(env, out, buf, rgs[n], sizes[n], groups[n]);
    }
  }

  lemma SizedInner(env: Setting, g: Group, sized: Sized)
    requires Encodable(env, g) && IsSized(env, g, sized)
    ensures sized.resourceInner == |GroupText(env, g)| < MAX_BUFFER
  {
  }

  /** `encode_batch_with_row_encoder` on resolved rows; `plain` says that there are no resource and scope columns. */
  method EncodeBatch(env: Setting, rows: seq<SinkRow>, plain: bool) returns (out: bytes, requestSize: nat)
    requires ValidInput(rows) && AllEncodable(env, GroupRows(rows)) && (plain ==> Plain(rows))
    requires forall c :: c in env.statics ==> c.cell.StrCell?
    ensures out == RequestText(env, GroupRows(rows)) && requestSize == |out|
  {
    hide Encodable, GroupText, PartsText, Backs, ValidRow, RowText, Cuts;
    if |rows| == 0 {
      RequestEnds(env, GroupRows(rows));
      return [], 0;
    }
    var buf, rgs;
    if plain {
      var ranges;
      buf, ranges := PlainRecords(rows);
      rgs := [RangeGroup([], NO_SCOPE, ranges)];
      PlainBacks(buf, ranges, rows);
    } else {
      buf, rgs := GroupRecords(rows);
    }
    out, requestSize := WriteRequest(env, buf, rgs, GroupRows(rows));
  }

  // ----- From the sink to the receiver -----

  /** What a receiver should get for one row, whatever batch it was in. */
  function ReceivedRow(env: Setting, row: SinkRow, prefix: bytes): Row
    requires |row.resource| == |env.names| && ValidRow(row.record)
  {
    Received(row.record, ScopeFields(Some(NameOf(row.scope)), Some(VersionOf(env, row.scope))),
      Prefixed(RowAttrs(ResourceColumns(env, row.resource)), prefix))
  }

  ghost predicate Receivable(env: Setting, rows: seq<SinkRow>) {
    forall i :: 0 <= i < |rows| ==> |rows[i].resource| == |env.names| && ValidRow(rows[i].record)
  }

  function ReceivedRows(env: Setting, rows: seq<SinkRow>, prefix: bytes): (r: seq<Row>)
    requires Receivable(env, rows)
    ensures |r| == |rows|
  {
    seq(|rows|, i requires 0 <= i < |rows| => ReceivedRow(env, rows[i], prefix))
  }

  lemma {:induction false} GroupsReceiveRows(env: Setting, groups: seq<Group>, prefix: bytes)
    requires AllEncodable(env, groups)
    ensures Receivable(env, Ungrouped(groups))
    ensures ReceivedGroups(env, groups, prefix) == ReceivedRows(env, Ungrouped(groups), prefix)
    decreases |groups|
  {
    hide Encodable, Received, ValidRow, Receivable, ReceivedRows, ReceivedGroup, RowsOf;
    if |groups| == 0 {
      NoRowsReceived(env, prefix);
    } else {
      GroupReceivesRows(env, groups[0], prefix);
      GroupsReceiveRows(env, groups[1..], prefix);
      BothReceivable(env, RowsOf(groups[0]), Ungrouped(groups[1..]));
      ReceivedSplit(env, RowsOf(groups[0]), Ungrouped(groups[1..]), prefix);
    }
  }

  lemma NoRowsReceived(env: Setting, prefix: bytes)
    ensures Receivable(env, []) && ReceivedRows(env, [], prefix) == []
  {
  }

  lemma GroupReceivesRows(env: Setting, g: Group, prefix: bytes)
    requires Encodable(env, g)
    ensures ValidGroup(env, g) && Receivable(env, RowsOf(g))
    ensures ReceivedGroup(env, g, prefix) == ReceivedRows(env, RowsOf(g), prefix)
  {
    hide Received, ValidRow, RowText, RowAttrs, ResourceColumns, Writable, IsUtf8, FitsGroup;
    EncodableIsValid(env, g);
  }

  lemma ReceivedSplit(env: Setting, a: seq<SinkRow>, b: seq<SinkRow>, prefix: bytes)
    requires Receivable(env, a + b)
    ensures Receivable(env, a) && Receivable(env, b)
    ensures ReceivedRows(env, a + b, prefix) == ReceivedRows(env, a, prefix) + ReceivedRows(env, b, prefix)
  {
    hide ReceivedRow, ValidRow;
    assert forall i :: 0 <= i < |a| ==> (a + b)[i] == a[i];
    assert forall i :: 0 <= i < |b| ==> (a + b)[|a| + i] == b[i];
  }

  /** Rearranged rows are received as the same rows, rearranged. */
  lemma {:induction false} Rearranged(env: Setting, a: seq<SinkRow>, b: seq<SinkRow>, prefix: bytes)
    requires Receivable(env, a) && Receivable(env, b) && multiset(a) == multiset(b)
    ensures multiset(ReceivedRows(env, a, prefix)) == multiset(ReceivedRows(env, b, prefix))
    decreases |a|
  {
    hide ReceivedRow, ReceivedRows, Receivable;
    if |a| == 0 {
      assert |multiset(b)| == |b|;
      assert a == b;
    } else {
      var j := FirstIn(a, b);
      var x, front, back := a[0], b[..j], b[j + 1..];
      assert a == [x] + a[1..] && b == front + ([x] + back);
      ReceivedSplit(env, [x], a[1..], prefix);
      ReceivedSplit(env, front, [x] + back, prefix);
      ReceivedSplit(env, [x], back, prefix);
      BothReceivable(env, front, back);
      ReceivedSplit(env, front, back, prefix);
      Rearranged(env, a[1..], front + back, prefix);
    }
  }

  /** Where the first element of `a` stands in `b`; without it the rest is rearranged too. */
  lemma FirstIn(a: seq<SinkRow>, b: seq<SinkRow>) returns (j: nat)
    requires |a| > 0 && multiset(a) == multiset(b)
    ensures j < |b| && b[j] == a[0] && multiset(a[1..]) == multiset(b[..j] + b[j + 1..])
  {
    var x := a[0];
    assert a == [x] + a[1..];
    assert x in multiset(b);
    j :| j < |b| && b[j] == x;
    assert b == b[..j] + ([x] + b[j + 1..]);
    assert multiset(a) == multiset{x} + multiset(a[1..]);
    assert multiset(b) == multiset(b[..j]) + (multiset{x} + multiset(b[j + 1..]));
    assert multiset(a[1..]) == multiset(a) - multiset{x};
  }

  lemma BothReceivable(env: Setting, a: seq<SinkRow>, b: seq<SinkRow>)
    requires Receivable(env, a) && Receivable(env, b)
    ensures Receivable(env, a + b)
  {
    hide ValidRow;
  }

  lemma AllReceivable(env: Setting, rows: seq<SinkRow>, same: seq<SinkRow>)
    requires Receivable(env, same) && multiset(ResolvedAll(rows)) == multiset(same)
    ensures Receivable(env, rows) && Receivable(env, ResolvedAll(rows))
  {
    hide ValidRow;
    var resolved := ResolvedAll(rows);
    forall i | 0 <= i < |rows|
      ensures |resolved[i].resource| == |env.names| && ValidRow(resolved[i].record)
      ensures |rows[i].resource| == |env.names| && ValidRow(rows[i].record)
    {
      assert resolved[i] in multiset(same);
      var j :| 0 <= j < |same| && same[j] == resolved[i];
    }
  }

  lemma {:induction false} SameAttrs(a: seq<Column>, b: seq<Column>)
    requires |a| == |b|
    requires forall i :: 0 <= i < |a| ==> a[i].name == b[i].name && CellValue(a[i].cell) == CellValue(b[i].cell)
    ensures RowAttrs(a) == RowAttrs(b)
    decreases |a|
  {
    hide CellValue;
    if |a| > 0 {
      SameAttrs(a[..|a| - 1], b[..|b| - 1]);
    }
  }

  /** Resolving resource values changes nothing for the receiver. */
  lemma ResolvedReceived(env: Setting, rows: seq<SinkRow>, prefix: bytes)
    requires Receivable(env, rows) && Receivable(env, ResolvedAll(rows))
    ensures ReceivedRows(env, ResolvedAll(rows), prefix) == ReceivedRows(env, rows, prefix)
  {
    hide Received, ValidRow, RowAttrs, CellValue, ValueRef;
    forall i | 0 <= i < |rows|
      ensures ReceivedRow(env, Resolved(rows[i]), prefix) == ReceivedRow(env, rows[i], prefix)
    {
      var a, b := ResourceColumns(env, ValueRefs(rows[i].resource)), ResourceColumns(env, rows[i].resource);
      forall k | 0 <= k < |a| ensures a[k].name == b[k].name && CellValue(a[k].cell) == CellValue(b[k].cell) {
        SameValueRef(b[k].cell, b[k].cell);
      }
      SameAttrs(a, b);
    }
  }

  // ----- What arrives, by the row's own fields -----

  /** The attribute that a cell arrives as, if it does. */
  function Arriving(name: bytes, cell: Cell): seq<Attr<Written>> {
    match cell
    case NullCell => []
    case IntCell(i) => [Attr(name, AsIs(IntValue(i)))]
    case UIntCell(u) => if u < 0x8000_0000_0000_0000 then [Attr(name, AsIs(IntValue(u)))] else []
    case FloatCell(bits) => [Attr(name, AsIs(DoubleValue(bits)))]
    case BoolCell(flag) => [Attr(name, AsIs(BoolValue(flag)))]
    case StrCell(text) => [Attr(name, AsIs(StringValue(text)))]
    case BytesCell(raw) => [Attr(name, Rendered(Json.HexText(raw)))]
  }

  /** The attributes that columns arrive as, in their order, each behind `prefix`. */
  function ArrivingAll(columns: seq<Column>, prefix: bytes): seq<Attr<Written>> {
    if |columns| == 0 then []
    else
      ArrivingAll(columns[..|columns| - 1], prefix)
      + Arriving(prefix + columns[|columns| - 1].name, columns[|columns| - 1].cell)
  }

  /** Those of the resource columns: cell `i` under name `i`. */
  function ArrivingResource(names: seq<buffer>, cells: seq<Cell>, prefix: bytes): seq<Attr<Written>>
    requires |names| == |cells|
  {
    if |names| == 0 then []
    else
      var n := |names| - 1;
      ArrivingResource(names[..n], cells[..n], prefix) + Arriving(prefix + names[n], cells[n])
  }

  /** `r` holds what `row` says, with the scope name "ff" and the batch's version where it does not say one. */
  ghost predicate Arrives(env: Setting, row: SinkRow, prefix: bytes, r: Row)
    requires |row.resource| == |env.names|
  {
    var log := row.record;
    && r.scope.name == Some(if row.scope.name.Some? then row.scope.name.value else [0x66, 0x66])
    && r.scope.version == Some(if row.scope.version.Some? then row.scope.version.value else env.version)
    && r.resourceAttrs == ArrivingAll(env.statics, prefix) + ArrivingResource(env.names, row.resource, prefix)
    && r.attrs == ArrivingAll(log.attributes, [])
    && r.body == (if |log.body| > 0 then Some(log.body) else None)
    && r.record.time == (if log.timestamp.Some? then log.timestamp.value else 0)
    && r.record.observed == log.observed
    && IsTwosComplement(r.record.severityNumber, log.severityNumber, 0x1_0000_0000)
    && r.record.severityText == (if |log.severityText| > 0 then Some(log.severityText) else None)
    && r.record.traceId == log.traceId && r.record.spanId == log.spanId
    && r.record.flags == (if log.flags.Some? then log.flags.value else 0)
  }

  lemma {:induction false} AttrsArrive(columns: seq<Column>, prefix: bytes)
    ensures WrittenAttrs(Prefixed(RowAttrs(columns), prefix)) == ArrivingAll(columns, prefix)
    decreases |columns|
  {
    if |columns| > 0 {
      var front, c := columns[..|columns| - 1], columns[|columns| - 1];
      AttrsArrive(front, prefix);
      var more := if CellValue(c.cell).Some? then [Attr(c.name, CellValue(c.cell).value)] else [];
      assert RowAttrs(columns) == RowAttrs(front) + more;
      assert WrittenAttrs(Prefixed(more, prefix)) == Arriving(prefix + c.name, c.cell);
      assert WrittenAttrs(Prefixed(RowAttrs(front) + more, prefix))
          == WrittenAttrs(Prefixed(RowAttrs(front), prefix)) + WrittenAttrs(Prefixed(more, prefix));
    }
  }

  lemma NotPrefixed(attrs: seq<Attr<WireAny>>)
    ensures Prefixed(attrs, []) == attrs
  {
    assert forall i :: 0 <= i < |attrs| ==> [] + attrs[i].key == attrs[i].key;
  }

  lemma {:induction false} ArrivingConcat(a: seq<Column>, b: seq<Column>, prefix: bytes)
    ensures ArrivingAll(a + b, prefix) == ArrivingAll(a, prefix) + ArrivingAll(b, prefix)
    decreases |b|
  {
    hide Arriving;
    if |b| == 0 {
      assert a + b == a;
    } else {
      ArrivingConcat(a, b[..|b| - 1], prefix);
      assert (a + b)[..|a + b| - 1] == a + b[..|b| - 1];
    }
  }

  function Named(names: seq<buffer>, cells: seq<Cell>): (r: seq<Column>)
    requires |names| == |cells|
    ensures |r| == |names|
  {
    seq(|names|, i requires 0 <= i < |names| => Column(names[i], cells[i]))
  }

  lemma {:induction false} NamedArrive(names: seq<buffer>, cells: seq<Cell>, prefix: bytes)
    requires |names| == |cells|
    ensures ArrivingAll(Named(names, cells), prefix) == ArrivingResource(names, cells, prefix)
    decreases |names|
  {
    hide Arriving;
    if |names| > 0 {
      var n := |names| - 1;
      NamedArrive(names[..n], cells[..n], prefix);
      assert Named(names, cells)[..n] == Named(names[..n], cells[..n]);
    }
  }

  /** Every row arrives. */
  lemma RowArrives(env: Setting, row: SinkRow, prefix: bytes)
    requires |row.resource| == |env.names| && ValidRow(row.record)
    ensures Arrives(env, row, prefix, ReceivedRow(env, row, prefix))
  {
    hide RowAttrs, WrittenAttrs, Prefixed, ArrivingAll, ArrivingResource, RowText, ValidRow, DecodeRecord, AsI32,
      IsTwosComplement;
    AsI32Is(row.record.severityNumber);
    AttrsArrive(row.record.attributes, []);
    NotPrefixed(RowAttrs(row.record.attributes));
    AttrsArrive(ResourceColumns(env, row.resource), prefix);
    assert ResourceColumns(env, row.resource) == env.statics + Named(env.names, row.resource);
    ArrivingConcat(env.statics, Named(env.names, row.resource), prefix);
    NamedArrive(env.names, row.resource, prefix);
  }

  /**
    * What a row's fixed columns hold at the receiver: a row without a timestamp, or with timestamp 0, gets the observed
    * time, times of 2^63 and more are dropped, and severity numbers and flags only count if they are positive.
    */
  lemma StoredArrives(env: Setting, row: SinkRow, prefix: bytes)
    requires |row.resource| == |env.names| && ValidRow(row.record)
    ensures var stored, log := Store(ReceivedRow(env, row, prefix)), row.record;
            var named, limit := log.timestamp.Some? && log.timestamp.value > 0, 0x8000_0000_0000_0000;
            && stored.timestamp ==
               (if named then if log.timestamp.value < limit then Some(log.timestamp.value) else None
                else if 0 < log.observed < limit then Some(log.observed) else None)
            && stored.observed == (if 0 < log.observed < limit then Some(log.observed) else None)
            && stored.severityText == (if |log.severityText| > 0 then Some(log.severityText) else None)
            && (log.severityNumber < 0x8000_0000 ==>
                stored.severityNumber == if log.severityNumber > 0 then Some(log.severityNumber) else None)
            && stored.flags == (if log.flags.Some? && log.flags.value > 0 then Some(log.flags.value) else None)
            && stored.scopeName ==
               (if row.scope.name.None? then Some([0x66, 0x66]) else if |row.scope.name.value| > 0 then row.scope.name
                else None)
  {
    hide RowAttrs, WrittenAttrs, Prefixed, RowText, ValidRow, DecodeRecord;
  }

  /**
    * What the sink sends, the receiver's preflight accepts and its decoder reads back: every row of the batch once,
    * with its record, attributes, scope and resource, group by group and in order within each group.
    */
  lemma SinkToReceiver(env: Setting, rows: seq<SinkRow>, prefix: bytes, out: Output)
    requires ValidInput(rows) && AllEncodable(env, GroupRows(rows)) && IsUtf8(prefix)
    ensures Scan(RequestText(env, GroupRows(rows)), ExportLogsServiceRequest).Ok?
    ensures Groups(GroupRows(rows), rows)
    ensures Receivable(env, rows) && Receivable(env, Ungrouped(GroupRows(rows)))
    ensures var received := ReceivedRows(env, Ungrouped(GroupRows(rows)), prefix);
            && DecodeRequest(RequestText(env, GroupRows(rows)), prefix, InlineKeyValue, out) == Ok(received)
            && multiset(received) == multiset(ReceivedRows(env, rows, prefix))
            && forall i :: 0 <= i < |rows| ==> Arrives(env, rows[i], prefix, ReceivedRows(env, rows, prefix)[i])
  {
    hide Encodable, Groups, Ungrouped, GroupRows, ReceivedRows, Scan, DecodeRequest, PartsText, IsUtf8, Arrives,
      ReceivedGroups, ValidRow, RowText;
    var groups := GroupRows(rows);
    RequestDecodes(env, groups, prefix, out);
    GroupRowsGroups(rows);
    GroupingKeepsRows(rows);
    GroupsReceiveRows(env, groups, prefix);
    AllReceivable(env, rows, Ungrouped(groups));
    Rearranged(env, Ungrouped(groups), ResolvedAll(rows), prefix);
    ResolvedReceived(env, rows, prefix);
    RowsArrive(env, rows, prefix);
  }

  lemma RowsArrive(env: Setting, rows: seq<SinkRow>, prefix: bytes)
    requires Receivable(env, rows)
    ensures forall i :: 0 <= i < |rows| ==> Arrives(env, rows[i], prefix, ReceivedRows(env, rows, prefix)[i])
  {
    hide ReceivedRow, Arrives, ValidRow;
    forall i | 0 <= i < |rows| ensures Arrives(env, rows[i], prefix, ReceivedRows(env, rows, prefix)[i]) {
      RowArrives(env, rows[i], prefix);
    }
  }
}

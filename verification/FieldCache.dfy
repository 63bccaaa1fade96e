/** Resolving attribute keys to columns, with and without the per-position cache of keys that were resolved before. */
module FieldCache {
  import opened Bytes
  import opened Options
  import opened Utf8
  import opened Decode
  import opened Request

  datatype FieldKind = Int64 | Float64 | Bool | Utf8View

  /** `wire_any_field_kind`. */
  function KindOf(value: WireAny): FieldKind {
    match value
    case IntValue(_) => Int64
    case DoubleValue(_) => Float64
    case BoolValue(_) => Bool
    case _ => Utf8View
  }

  /** The kind of what a column receives. */
  function WrittenKind(w: Written): FieldKind {
    match w
    case Rendered(_) => Utf8View
    case AsIs(value) =>
      if value.IntValue? then Int64 else if value.DoubleValue? then Float64
      else if value.BoolValue? then Bool else Utf8View
  }

  /** A column is resolved for the kind that is then written to it. */
  lemma KindIsWritten(value: WireAny, out: Output)
    requires Write(value, out).Ok?
    ensures KindOf(value) == WrittenKind(Write(value, out).value)
  {
  }

  // ----- The plan -----

  datatype Mode = Planned(kind: FieldKind) | Dynamic(observed: seq<FieldKind>)

  datatype FieldEntry = FieldEntry(name: bytes, mode: Mode)

  /** The columns of a batch; the first `planned` of them stay from batch to batch. */
  datatype Plan = Plan(fields: seq<FieldEntry>, planned: nat)

  /** A handle is a `u32`. */
  const MAX_FIELDS := 0x1_0000_0000

  datatype Answer = Handle(index: nat) | InvalidKey | TooManyFields

  /** The column of that name. */
  function Find(fields: seq<FieldEntry>, name: bytes): (r: Option<nat>)
    ensures r.Some? ==> r.value < |fields| && fields[r.value].name == name
    ensures r.None? ==> forall i :: 0 <= i < |fields| ==> fields[i].name != name
  {
    if |fields| == 0 then None
    else
      var front := fields[..|fields| - 1];
      if Find(front, name).Some? then Find(front, name)
      else if fields[|fields| - 1].name == name then Some(|fields| - 1)
      else None
  }

  function Observe(mode: Mode, kind: FieldKind): Mode {
    if mode.Dynamic? && kind !in mode.observed then Dynamic(mode.observed + [kind]) else mode
  }

  /** `BatchPlan::resolve_dynamic`. */
  function ResolveDynamic(plan: Plan, name: bytes, kind: FieldKind): (Plan, Answer) {
    var found := Find(plan.fields, name);
    if found.Some? then
      var entry := plan.fields[found.value];
      (plan.(fields := plan.fields[found.value := entry.(mode := Observe(entry.mode, kind))]), Handle(found.value))
    else if |plan.fields| >= MAX_FIELDS then (plan, TooManyFields)
    else (plan.(fields := plan.fields + [FieldEntry(name, Dynamic([kind]))]), Handle(|plan.fields|))
  }

  /** The key is validated and resolved every time. */
  function Uncached(plan: Plan, key: bytes, kind: FieldKind): (Plan, Answer) {
    if IsUtf8(key) then ResolveDynamic(plan, key, kind) else (plan, InvalidKey)
  }

  /** `begin_batch`, as far as the plan goes. */
  function ResetDynamic(plan: Plan): Plan {
    if plan.planned <= |plan.fields| then plan.(fields := plan.fields[..plan.planned]) else plan
  }

  // ----- The cache -----

  /** What a position saw last; the handle is forgotten when a batch begins, the key is not. */
  datatype Slot = Slot(key: bytes, keyLen: u32, handle: Option<nat>)

  datatype State = State(plan: Plan, cache: seq<Slot>)

  /** `key.len() as u32`. */
  function KeyLen(key: bytes): u32 {
    |key| % 0x1_0000_0000
  }

  function Hit(cache: seq<Slot>, position: nat, key: bytes): Option<nat> {
    if position < |cache| && cache[position].keyLen == KeyLen(key) && cache[position].key == key
    then cache[position].handle else None
  }

  /** A position behind the end of the cache goes to the end, wherever that is. */
  function Store(cache: seq<Slot>, position: nat, key: bytes, handle: nat): seq<Slot> {
    var slot := Slot(key, KeyLen(key), Some(handle));
    if position < |cache| then cache[position := slot] else cache + [slot]
  }

  /** `resolve_record_attr_field`: a hit is neither validated nor resolved again. */
  function Cached(s: State, position: nat, key: bytes, kind: FieldKind): (State, Answer) {
    var hit := Hit(s.cache, position, key);
    if hit.Some? then (s, Handle(hit.value))
    else
      var (plan, answer) := Uncached(s.plan, key, kind);
      (State(plan, if answer.Handle? then Store(s.cache, position, key, answer.index) else s.cache), answer)
  }

  function Forget(cache: seq<Slot>): (r: seq<Slot>)
    ensures |r| == |cache|
  {
    seq(|cache|, i requires 0 <= i < |cache| => cache[i].(handle := None))
  }

  // ----- As it runs -----

  /** The index of the plan knows exactly the columns. */
  ghost predicate Indexes(index: map<bytes, nat>, fields: seq<FieldEntry>) {
    && (forall i :: 0 <= i < |fields| ==> fields[i].name in index && index[fields[i].name] == i)
    && (forall name :: name in index ==> index[name] < |fields| && fields[index[name]].name == name)
  }

  lemma IndexFinds(index: map<bytes, nat>, fields: seq<FieldEntry>, name: bytes)
    requires Indexes(index, fields)
    ensures Find(fields, name) == if name in index then Some(index[name]) else None
  {
    hide Find;
    var r := Find(fields, name);
    if r.Some? {
      assert fields[r.value].name in index;
    }
  }

  class Resolver {
    var fields: seq<FieldEntry>
    var index: map<bytes, nat>
    var numPlanned: nat
    var cache: seq<Slot>

    ghost predicate Valid()
      reads this
    {
      Indexes(index, fields) && numPlanned <= |fields|
    }

    ghost function Abstract(): State
      reads this
    {
      State(Plan(fields, numPlanned), cache)
    }

    /** `BatchPlan::resolve_dynamic`, one lookup in the hash index. */
    method ResolveName(name: bytes, kind: FieldKind) returns (answer: Answer)
      requires Valid()
      modifies `fields, `index
      ensures Valid() && (Abstract().plan, answer) == ResolveDynamic(old(Abstract().plan), name, kind)
    {
      IndexFinds(index, fields, name);
      if name in index {
        var h := index[name];
        var entry := fields[h];
        if entry.mode.Dynamic? && kind !in entry.mode.observed {
          fields := fields[h := entry.(mode := Dynamic(entry.mode.observed + [kind]))];
        } else {
          assert fields[h := entry] == fields;
        }
        return Handle(h);
      }
      if |fields| >= MAX_FIELDS {
        return TooManyFields;
      }
      var h := |fields|;
      fields := fields + [FieldEntry(name, Dynamic([kind]))];
      index := index[name := h];
      return Handle(h);
    }

    /** `resolve_record_attr_field`. */
    method ResolveRecordAttrField(position: nat, key: bytes, kind: FieldKind) returns (answer: Answer)
      requires Valid()
      modifies `fields, `index, `cache
      ensures Valid() && (Abstract(), answer) == Cached(old(Abstract()), position, key, kind)
    {
      hide ResolveDynamic, IsUtf8;
      var keyLen := KeyLen(key);
      if position < |cache| && cache[position].keyLen == keyLen && cache[position].key == key {
        if cache[position].handle.Some? {
          return Handle(cache[position].handle.value);
        }
      }
      if !IsUtf8(key) {
        return InvalidKey;
      }
      answer := ResolveName(key, kind);
      if answer.Handle? {
        if position < |cache| {
          cache := cache[position := Slot(key, keyLen, Some(answer.index))];
        } else {
          cache := cache + [Slot(key, keyLen, Some(answer.index))];
        }
      }
    }

    /** The start of a batch: dynamic columns go, and with them the cached handles. */
    method BeginBatch()
      requires Valid()
      modifies this
      ensures Valid()
      ensures Abstract() == State(ResetDynamic(old(Abstract().plan)), Forget(old(cache)))
    {
      ghost var before := fields;
      for i := numPlanned to |fields|
        invariant fields == before && numPlanned == old(numPlanned) && cache == old(cache)
        invariant forall k :: 0 <= k < |fields| && !(numPlanned <= k < i) ==>
          fields[k].name in index && index[fields[k].name] == k
        invariant forall name :: name in index ==>
          index[name] < |fields| && fields[index[name]].name == name && !(numPlanned <= index[name] < i)
      {
        index := index - {fields[i].name};
      }
      fields := fields[..numPlanned];
      for i := 0 to |cache|
        invariant numPlanned == old(numPlanned) <= |before| && fields == before[..numPlanned]
        invariant |cache| == |old(cache)|
        invariant Indexes(index, fields)
        invariant forall k :: 0 <= k < |cache| ==>
          cache[k] == if k < i then old(cache)[k].(handle := None) else old(cache)[k]
      {
        cache := cache[i := cache[i].(handle := None)];
      }
    }
  }

  // ----- The cache changes no answer -----

  ghost predicate IsPlan(plan: Plan) {
    && plan.planned <= |plan.fields|
    && forall i, j :: 0 <= i < j < |plan.fields| ==> plan.fields[i].name != plan.fields[j].name
  }

  /** A cached handle is that of a column with the cached key, which is valid. */
  ghost predicate IsLive(slot: Slot, plan: Plan) {
    slot.handle.Some? ==>
      && slot.handle.value < |plan.fields| && plan.fields[slot.handle.value].name == slot.key && IsUtf8(slot.key)
  }

  ghost predicate Sound(s: State) {
    IsPlan(s.plan) && forall i :: 0 <= i < |s.cache| ==> IsLive(s.cache[i], s.plan)
  }

  /** The same modes, except that kinds may be missing among the observed ones. */
  ghost predicate Observes(less: Mode, more: Mode) {
    if less.Dynamic? then more.Dynamic? && forall kind :: kind in less.observed ==> kind in more.observed
    else less == more
  }

  /** The same columns under the same handles. */
  ghost predicate SameColumns(less: Plan, more: Plan) {
    && less.planned == more.planned && |less.fields| == |more.fields|
    && forall i :: 0 <= i < |less.fields| ==>
      less.fields[i].name == more.fields[i].name && Observes(less.fields[i].mode, more.fields[i].mode)
  }

  lemma FindIs(plan: Plan, h: nat)
    requires IsPlan(plan) && h < |plan.fields|
    ensures Find(plan.fields, plan.fields[h].name) == Some(h)
  {
    hide Find;
    var r := Find(plan.fields, plan.fields[h].name);
    assert r.Some?;
    assert r.value == h;
  }

  lemma SameFind(less: Plan, more: Plan, name: bytes)
    requires IsPlan(less) && IsPlan(more) && SameColumns(less, more)
    ensures Find(less.fields, name) == Find(more.fields, name)
  {
    hide Find, Observes;
    var r := Find(less.fields, name);
    if r.Some? {
      FindIs(more, r.value);
    }
  }

  lemma ObservesStep(less: Mode, more: Mode, kind: FieldKind)
    requires Observes(less, more)
    ensures Observes(Observe(less, kind), Observe(more, kind)) && Observes(less, Observe(more, kind))
  {
  }

  lemma ObservesSelf(mode: Mode)
    ensures Observes(mode, mode)
  {
  }

  /** Resolving keeps names distinct and in place, and answers with the column of the name. */
  lemma ResolveKeeps(plan: Plan, name: bytes, kind: FieldKind)
    requires IsPlan(plan)
    ensures var (next, answer) := ResolveDynamic(plan, name, kind);
            && IsPlan(next) && next.planned == plan.planned && |plan.fields| <= |next.fields|
            && (forall i :: 0 <= i < |plan.fields| ==> next.fields[i].name == plan.fields[i].name)
            && answer != InvalidKey
            && (answer.Handle? ==> answer.index < |next.fields| && next.fields[answer.index].name == name)
            && (answer == TooManyFields <==>
                |plan.fields| >= 0x1_0000_0000 && forall i :: 0 <= i < |plan.fields| ==> plan.fields[i].name != name)
  {
    hide Find, Observe;
  }

  /** On the same columns, both resolve alike. */
  lemma ResolveAlike(less: Plan, more: Plan, name: bytes, kind: FieldKind)
    requires IsPlan(less) && IsPlan(more) && SameColumns(less, more)
    ensures ResolveDynamic(less, name, kind).1 == ResolveDynamic(more, name, kind).1
    ensures SameColumns(ResolveDynamic(less, name, kind).0, ResolveDynamic(more, name, kind).0)
  {
    hide Find, Observe, Observes;
    SameFind(less, more, name);
    var found := Find(less.fields, name);
    if found.Some? {
      ObservesStep(less.fields[found.value].mode, more.fields[found.value].mode, kind);
    } else {
      ObservesSelf(Dynamic([kind]));
    }
  }

  /** A hit answers what resolving again would, which at most observes one more kind. */
  lemma HitAlike(less: Plan, more: Plan, h: nat, kind: FieldKind)
    requires IsPlan(less) && IsPlan(more) && SameColumns(less, more) && h < |less.fields|
    ensures ResolveDynamic(more, less.fields[h].name, kind).1 == Handle(h)
    ensures SameColumns(less, ResolveDynamic(more, less.fields[h].name, kind).0)
  {
    hide Find, Observe, Observes;
    FindIs(more, h);
    ObservesStep(less.fields[h].mode, more.fields[h].mode, kind);
  }

  lemma CachedAlike(s: State, more: Plan, position: nat, key: bytes, kind: FieldKind)
    requires Sound(s) && IsPlan(more) && SameColumns(s.plan, more)
    ensures var (t, answer) := Cached(s, position, key, kind);
            var (next, expected) := Uncached(more, key, kind);
            answer == expected && Sound(t) && IsPlan(next) && SameColumns(t.plan, next)
    ensures var (t, answer) := Cached(s, position, key, kind);
            && (answer == InvalidKey <==> !IsUtf8(key))
            && (answer.Handle? ==> answer.index < |t.plan.fields| && t.plan.fields[answer.index].name == key)
            && (answer == TooManyFields ==> |t.plan.fields| >= 0x1_0000_0000)
  {
    hide ResolveDynamic, Find, IsUtf8, IsPlan, SameColumns;
    var hit := Hit(s.cache, position, key);
    if hit.Some? {
      assert IsLive(s.cache[position], s.plan);
      HitAlike(s.plan, more, hit.value, kind);
      ResolveKeeps(more, key, kind);
    } else if IsUtf8(key) {
      ResolveAlike(s.plan, more, key, kind);
      ResolveKeeps(s.plan, key, kind);
      ResolveKeeps(more, key, kind);
    }
  }

  // ----- Runs -----

  /** What a decoder asks for; a resource key comes behind its prefix and has no position. */
  datatype Op =
    | RecordKey(position: nat, key: bytes, kind: FieldKind)
    | ResourceKey(key: bytes, kind: FieldKind)
    | NextBatch

  function CachedRun(start: State, ops: seq<Op>): (State, seq<Answer>) {
    if |ops| == 0 then (start, [])
    else
      var (s, answers) := CachedRun(start, ops[..|ops| - 1]);
      match ops[|ops| - 1]
      case RecordKey(position, key, kind) =>
        var (t, answer) := Cached(s, position, key, kind);
        (t, answers + [answer])
      case ResourceKey(key, kind) =>
        var (plan, answer) := Uncached(s.plan, key, kind);
        (s.(plan := plan), answers + [answer])
      case NextBatch => (State(ResetDynamic(s.plan), Forget(s.cache)), answers)
  }

  function UncachedRun(start: Plan, ops: seq<Op>): (Plan, seq<Answer>) {
    if |ops| == 0 then (start, [])
    else
      var (plan, answers) := UncachedRun(start, ops[..|ops| - 1]);
      match ops[|ops| - 1]
      case RecordKey(_, key, kind) =>
        var (next, answer) := Uncached(plan, key, kind);
        (next, answers + [answer])
      case ResourceKey(key, kind) =>
        var (next, answer) := Uncached(plan, key, kind);
        (next, answers + [answer])
      case NextBatch => (ResetDynamic(plan), answers)
  }

  lemma ResourceAlike(s: State, more: Plan, key: bytes, kind: FieldKind)
    requires Sound(s) && IsPlan(more) && SameColumns(s.plan, more)
    ensures var (plan, answer) := Uncached(s.plan, key, kind);
            var (next, expected) := Uncached(more, key, kind);
            answer == expected && Sound(s.(plan := plan)) && IsPlan(next) && SameColumns(plan, next)
  {
    hide ResolveDynamic, Find, IsUtf8, IsPlan, SameColumns;
    if IsUtf8(key) {
      ResolveAlike(s.plan, more, key, kind);
      ResolveKeeps(s.plan, key, kind);
      ResolveKeeps(more, key, kind);
    }
  }

  lemma ResetAlike(s: State, more: Plan)
    requires Sound(s) && IsPlan(more) && SameColumns(s.plan, more)
    ensures Sound(State(ResetDynamic(s.plan), Forget(s.cache)))
    ensures IsPlan(ResetDynamic(more)) && SameColumns(ResetDynamic(s.plan), ResetDynamic(more))
  {
    hide IsUtf8, Observes;
  }

  /**
    * Over any batches, records and positions the cached resolver gives the answers of the uncached one, errors
    * included, and ends with the same columns under the same handles.
    */
  lemma {:induction false} CacheIsTransparent(plan: Plan, ops: seq<Op>)
    requires IsPlan(plan)
    ensures var (s, answers) := CachedRun(State(plan, []), ops);
            var (next, expected) := UncachedRun(plan, ops);
            answers == expected && Sound(s) && IsPlan(next) && SameColumns(s.plan, next)
    decreases |ops|
  {
    hide IsPlan, SameColumns, Sound, Cached, Uncached, ResetDynamic;
    if |ops| == 0 {
      NothingCached(plan);
    } else {
      var front := ops[..|ops| - 1];
      CacheIsTransparent(plan, front);
      var s, more := CachedRun(State(plan, []), front).0, UncachedRun(plan, front).0;
      match ops[|ops| - 1]
      case RecordKey(position, key, kind) => CachedAlike(s, more, position, key, kind);
      case ResourceKey(key, kind) => ResourceAlike(s, more, key, kind);
      case NextBatch => ResetAlike(s, more);
    }
  }

  lemma NothingCached(plan: Plan)
    requires IsPlan(plan)
    ensures Sound(State(plan, [])) && SameColumns(plan, plan)
  {
  }

  // ----- Records -----

  function ColumnName(plan: Plan, h: nat): bytes {
    if h < |plan.fields| then plan.fields[h].name else []
  }

  /**
    * The attributes of one record, each written to the column that its key resolves to; nothing if there are too many
    * columns.
    */
  function CachedAttrs(
    s: State, text: bytes, ranges: seq<(nat, nat)>, position: nat, attrs: seq<Attr<Written>>, decode: KvDecoder,
    out: Output): (State, Option<Result<seq<Attr<Written>>>>)
    requires forall i :: 0 <= i < |ranges| ==> ranges[i].0 + ranges[i].1 <= |text|
    decreases |ranges|
  {
    if |ranges| == 0 then (s, Some(Ok(attrs)))
    else
      match decode(text[ranges[0].0..ranges[0].0 + ranges[0].1])
      case Err(e) => (s, Some(Err(e)))
      case Ok(None) => CachedAttrs(s, text, ranges[1..], position + 1, attrs, decode, out)
      case Ok(Some((key, value))) =>
        var (t, answer) := Cached(s, position, key, KindOf(value));
        match answer
        case InvalidKey => (t, Some(Err(InvalidUtf8)))
        case TooManyFields => (t, None)
        case Handle(h) =>
          match Write(value, out)
          case Err(e) => (t, Some(Err(e)))
          case Ok(written) =>
            var next := attrs + [Attr(ColumnName(t.plan, h), written)];
            CachedAttrs(t, text, ranges[1..], position + 1, next, decode, out)
  }

  /** With the cache, a record's attributes decode as they do without one. */
  lemma {:induction false} AttrsDecodeAlike(
    s: State, text: bytes, ranges: seq<(nat, nat)>, position: nat, attrs: seq<Attr<Written>>, decode: KvDecoder,
    out: Output)
    requires forall i :: 0 <= i < |ranges| ==> ranges[i].0 + ranges[i].1 <= |text|
    requires Sound(s)
    ensures var (t, r) := CachedAttrs(s, text, ranges, position, attrs, decode, out);
            && Sound(t)
            && (r.Some? ==> r.value == DecodeAttrs(text, ranges, attrs, decode, out))
            && (r.None? ==> |t.plan.fields| >= 0x1_0000_0000)
    decreases |ranges|
  {
    hide Sound, Cached, Uncached, IsUtf8, Write, SameColumns, IsPlan;
    if |ranges| > 0 {
      match decode(text[ranges[0].0..ranges[0].0 + ranges[0].1])
      case Err(_) =>
      case Ok(None) => AttrsDecodeAlike(s, text, ranges[1..], position + 1, attrs, decode, out);
      case Ok(Some((key, value))) =>
        SoundAlone(s);
        CachedAlike(s, s.plan, position, key, KindOf(value));
        var (t, answer) := Cached(s, position, key, KindOf(value));
        if answer.Handle? && Write(value, out).Ok? {
          var next := attrs + [Attr(key, Write(value, out).value)];
          AttrsDecodeAlike(t, text, ranges[1..], position + 1, next, decode, out);
        }
    }
  }

  lemma SoundAlone(s: State)
    requires Sound(s)
    ensures IsPlan(s.plan) && SameColumns(s.plan, s.plan)
  {
  }

  function RecordAttrs(text: bytes, decode: KvDecoder, out: Output): Result<seq<Attr<Written>>> {
    var record :- DecodeRecord(text);
    RangesSliceAttributes(text);
    DecodeAttrs(text, record.attrRanges, [], decode, out)
  }

  /** The attributes of records decoded one after the other with one cache. */
  function CachedRecords(s: State, texts: seq<bytes>, decode: KvDecoder, out: Output)
    : (State, seq<Option<Result<seq<Attr<Written>>>>>)
  {
    if |texts| == 0 then (s, [])
    else
      var (before, results) := CachedRecords(s, texts[..|texts| - 1], decode, out);
      var text := texts[|texts| - 1];
      match DecodeRecord(text)
      case Err(e) => (before, results + [Some(Err(e))])
      case Ok(record) =>
        RangesSliceAttributes(text);
        var (t, r) := CachedAttrs(before, text, record.attrRanges, 0, [], decode, out);
        (t, results + [r])
  }

  /** Over any sequence of records the cache changes no result: each is decoded as if it were alone. */
  lemma {:induction false} RecordsDecodeAlike(s: State, texts: seq<bytes>, decode: KvDecoder, out: Output)
    requires Sound(s)
    ensures var (t, results) := CachedRecords(s, texts, decode, out);
            && Sound(t) && |results| == |texts|
            && forall i :: 0 <= i < |texts| ==>
              (results[i].Some? ==> results[i].value == RecordAttrs(texts[i], decode, out))
    decreases |texts|
  {
    hide Sound, CachedAttrs, DecodeAttrs, DecodeRecord;
    if |texts| > 0 {
      var text := texts[|texts| - 1];
      RecordsDecodeAlike(s, texts[..|texts| - 1], decode, out);
      var before := CachedRecords(s, texts[..|texts| - 1], decode, out).0;
      if DecodeRecord(text).Ok? {
        RangesSliceAttributes(text);
        AttrsDecodeAlike(before, text, DecodeRecord(text).value.attrRanges, 0, [], decode, out);
      }
    }
  }

  // ----- What the cache does hide -----

  /** A hit whose kind the column has not observed; without the cache it would. */
  ghost predicate Hides(s: State, op: Op) {
    op.RecordKey? &&
    var hit := Hit(s.cache, op.position, op.key);
    hit.Some? && hit.value < |s.plan.fields| &&
    var mode := s.plan.fields[hit.value].mode;
    mode.Dynamic? && op.kind !in mode.observed
  }

  ghost predicate NeverHides(plan: Plan, ops: seq<Op>) {
    |ops| == 0 ||
    (NeverHides(plan, ops[..|ops| - 1])
     && !Hides(CachedRun(State(plan, []), ops[..|ops| - 1]).0, ops[|ops| - 1]))
  }

  lemma HidesExactly(s: State, op: Op)
    requires Sound(s) && op.RecordKey?
    ensures Cached(s, op.position, op.key, op.kind).0.plan == Uncached(s.plan, op.key, op.kind).0 <==> !Hides(s, op)
  {
    hide Find, IsUtf8;
    var hit := Hit(s.cache, op.position, op.key);
    if hit.Some? {
      assert IsLive(s.cache[op.position], s.plan);
      FindIs(s.plan, hit.value);
      var entry := s.plan.fields[hit.value];
      var next := s.plan.fields[hit.value := entry.(mode := Observe(entry.mode, op.kind))];
      assert next[hit.value].mode == entry.mode <==> !Hides(s, op);
      assert entry.mode == Observe(entry.mode, op.kind) ==> next == s.plan.fields;
    }
  }

  ghost predicate SamePlan(plan: Plan, ops: seq<Op>) {
    CachedRun(State(plan, []), ops).0.plan == UncachedRun(plan, ops).0
  }

  /** At every point of a run the plans are the same, observed kinds included, exactly when no hit hides a kind. */
  lemma {:induction false} SamePlanExactly(plan: Plan, ops: seq<Op>)
    requires IsPlan(plan)
    ensures (forall n: nat :: n <= |ops| ==> SamePlan(plan, ops[..n])) <==> NeverHides(plan, ops)
    decreases |ops|
  {
    hide IsPlan, Cached, Uncached, ResetDynamic, Hides, Sound, SameColumns;
    if |ops| == 0 {
      assert forall n: nat :: n <= |ops| ==> ops[..n] == [];
    } else {
      var front, op := ops[..|ops| - 1], ops[|ops| - 1];
      SamePlanExactly(plan, front);
      assert ops == front + [op] && front[..|front|] == front;
      CacheIsTransparent(plan, front);
      var s := CachedRun(State(plan, []), front).0;
      if SamePlan(plan, front) {
        if op.RecordKey? {
          HidesExactly(s, op);
        } else {
          OnlyRecordsHide(s, op);
        }
        assert SamePlan(plan, ops) <==> !Hides(s, op);
      }
      PlansOfPrefixes(plan, front, op);
    }
  }

  lemma PlansOfPrefixes(plan: Plan, front: seq<Op>, op: Op)
    ensures (forall n: nat :: n <= |front| + 1 ==> SamePlan(plan, (front + [op])[..n])) <==>
            SamePlan(plan, front + [op]) && forall n: nat :: n <= |front| ==> SamePlan(plan, front[..n])
  {
    hide SamePlan;
    var ops := front + [op];
    assert ops[..|ops|] == ops;
    assert forall n: nat :: n <= |front| ==> ops[..n] == front[..n];
  }

  lemma OnlyRecordsHide(s: State, op: Op)
    requires !op.RecordKey?
    ensures !Hides(s, op)
  {
  }

  /** An attribute that is first an integer and then text: the second kind is not observed. */
  lemma SecondKindIsHidden()
    ensures var ops := [RecordKey(0, [0x61], Int64), RecordKey(0, [0x61], Utf8View)];
            && CachedRun(State(Plan([], 0), []), ops).0.plan.fields == [FieldEntry([0x61], Dynamic([Int64]))]
            && UncachedRun(Plan([], 0), ops).0.fields == [FieldEntry([0x61], Dynamic([Int64, Utf8View]))]
  {
    var a, b := RecordKey(0, [0x61], Int64), RecordKey(0, [0x61], Utf8View);
    assert [a, b][..1] == [a] && [a][..0] == [];
    LetterIsUtf8();
    var one := [FieldEntry([0x61], Dynamic([Int64]))];
    assert [] + [FieldEntry([0x61], Dynamic([Int64]))] == one && one[..0] == [];
    assert CachedRun(State(Plan([], 0), []), [a]).0 == State(Plan(one, 0), [Slot([0x61], 1, Some(0))]);
    assert UncachedRun(Plan([], 0), [a]).0 == Plan(one, 0);
    assert Find(one, [0x61]) == Some(0);
    assert [Int64] + [Utf8View] == [Int64, Utf8View];
  }

  lemma LetterIsUtf8()
    ensures IsUtf8([0x61])
  {
    assert CharLen([0x61]) == 1 && [0x61][1..] == [];
  }
}

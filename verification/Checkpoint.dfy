/** The sequential model that the linearizability checker holds checkpoint histories against. */
module Checkpoint {
  import opened Options

  datatype Outcome =
    | Delivered
    | Rejected
    | RetryExhausted
    | TimedOut
    | PoolClosed
    | WorkerChannelClosed
    | NoWorkersAvailable
    | InternalFailure
    | Unknown

  datatype Batch = Batch(submitSeq: nat, sourceId: nat, offset: nat, resolved: bool, ackable: bool)

  datatype State = State(
    committed: nat,
    hasCommitted: bool,
    durable: Option<nat>,
    sourceId: Option<nat>,
    order: seq<nat>,
    batches: map<nat, Batch>)

  const INIT := State(0, false, None, None, [], map[])

  /** One operation of a history: its input and the output it reported. */
  datatype Op =
    | Submit(batchId: nat, submitSeq: nat, sourceId: nat, offset: nat)
    | Resolve(batchId: nat, sourceId: nat, outcome: Outcome, ackable: bool, advancedTo: Option<nat>)
    | Flush(success: Option<bool>)
    | ReadDurable(sourceId: nat, durable: Option<nat>)
    | Other

  predicate IsAckable(outcome: Outcome) {
    outcome.Delivered? || outcome.Rejected?
  }

  // ----- Order -----

  /** Every id in the order is a known batch. */
  ghost predicate Known(order: seq<nat>, batches: map<nat, Batch>) {
    forall id :: id in order ==> id in batches
  }

  /** Stable insertion: behind every id whose sequence number is not greater. */
  function Insert(order: seq<nat>, id: nat, batches: map<nat, Batch>): (r: seq<nat>)
    requires Known(order, batches) && id in batches
    ensures Known(r, batches) && |r| == |order| + 1
  {
    if |order| == 0 then [id]
    else
      var last := order[|order| - 1];
      assert last in order;
      if batches[id].submitSeq < batches[last].submitSeq then Insert(order[..|order| - 1], id, batches) + [last]
      else order + [id]
  }

  /** `sort.SliceStable` by sequence number. */
  function StableSort(order: seq<nat>, batches: map<nat, Batch>): (r: seq<nat>)
    requires Known(order, batches)
    ensures Known(r, batches) && |r| == |order|
  {
    if |order| == 0 then []
    else
      var last := order[|order| - 1];
      assert last in order;
      Insert(StableSort(order[..|order| - 1], batches), last, batches)
  }

  // ----- The committed prefix -----

  predicate Acked(batch: Batch) {
    batch.resolved && batch.ackable
  }

  /** How many batches at the front of the order are resolved and ackable. */
  function PrefixLen(order: seq<nat>, batches: map<nat, Batch>): (n: nat)
    requires Known(order, batches)
    ensures n <= |order|
    ensures forall i :: 0 <= i < n ==> order[i] in batches && Acked(batches[order[i]])
    ensures n < |order| ==> order[n] in batches && !Acked(batches[order[n]])
  {
    if |order| == 0 then 0
    else
      assert order[0] in order;
      if !Acked(batches[order[0]]) then 0 else 1 + PrefixLen(order[1..], batches)
  }

  /** The offset that ends that prefix, or `otherwise` if it is empty. */
  function PrefixOffset(order: seq<nat>, batches: map<nat, Batch>, otherwise: nat): nat
    requires Known(order, batches)
  {
    var n := PrefixLen(order, batches);
    if n == 0 then otherwise else batches[order[n - 1]].offset
  }

  // ----- One step -----

  function StepSubmit(s: State, op: Op): Option<State>
    requires op.Submit? && Known(s.order, s.batches)
  {
    if op.batchId in s.batches then None
    else if s.sourceId.Some? && op.sourceId != s.sourceId.value then None
    else
      var batches := s.batches[op.batchId := Batch(op.submitSeq, op.sourceId, op.offset, false, false)];
      Some(s.(sourceId := Some(op.sourceId), batches := batches, order := StableSort(s.order + [op.batchId], batches)))
  }

  function StepResolve(s: State, op: Op): Option<State>
    requires op.Resolve? && Known(s.order, s.batches)
  {
    if op.batchId !in s.batches || s.batches[op.batchId].resolved then None
    else if op.sourceId != s.batches[op.batchId].sourceId then None
    else if op.outcome.Unknown? || op.ackable != IsAckable(op.outcome) then None
    else
      var batches := s.batches[op.batchId := s.batches[op.batchId].(resolved := true, ackable := op.ackable)];
      var committed := PrefixOffset(s.order, batches, s.committed);
      if committed < s.committed then None
      else if op.advancedTo != (if committed > s.committed then Some(committed) else None) then None
      else
        var hasCommitted := s.hasCommitted || PrefixLen(s.order, batches) > 0;
        Some(s.(batches := batches, committed := committed, hasCommitted := hasCommitted))
  }

  /** The `Step` function: the next state if the operation is accepted. */
  function Step(s: State, op: Op): (r: Option<State>)
    requires Known(s.order, s.batches)
    ensures r.Some? ==> Known(r.value.order, r.value.batches)
  {
    match op
    case Submit(_, _, _, _) => StepSubmit(s, op)
    case Resolve(_, _, _, _, _) => StepResolve(s, op)
    case Flush(success) =>
      if success.None? then None
      else if success.value then Some(s.(durable := if s.hasCommitted then Some(s.committed) else None))
      else Some(s)
    case ReadDurable(sourceId, durable) =>
      if s.sourceId != Some(sourceId) || durable != s.durable then None else Some(s)
    case Other => None
  }

  lemma PrefixLenIs(order: seq<nat>, batches: map<nat, Batch>, n: nat)
    requires Known(order, batches) && n <= |order|
    requires forall i :: 0 <= i < n ==> order[i] in batches && Acked(batches[order[i]])
    requires n < |order| ==> order[n] in batches && !Acked(batches[order[n]])
    ensures PrefixLen(order, batches) == n
  {
  }

  /** `Step` as it runs: a copy of the state, updated in place, with the loop over the order. */
  method RunStep(state: State, op: Op) returns (ok: bool, next: State)
    requires Known(state.order, state.batches)
    ensures ok <==> Step(state, op).Some?
    ensures ok ==> next == Step(state, op).value
  {
    next := state;
    match op {
      case Submit(batchId, submitSeq, sourceId, offset) =>
        if batchId in next.batches {
          return false, next;
        }
        if next.sourceId.None? {
          next := next.(sourceId := Some(sourceId));
        } else if sourceId != next.sourceId.value {
          return false, next;
        }
        next := next.(batches := next.batches[batchId := Batch(submitSeq, sourceId, offset, false, false)]);
        next := next.(order := StableSort(next.order + [batchId], next.batches));
        return true, next;
      case Resolve(batchId, sourceId, outcome, ackable, advancedTo) =>
        if batchId !in next.batches || next.batches[batchId].resolved {
          return false, next;
        }
        if sourceId != next.batches[batchId].sourceId {
          return false, next;
        }
        if outcome.Unknown? || ackable != IsAckable(outcome) {
          return false, next;
        }
        next := next.(batches := next.batches[batchId := next.batches[batchId].(resolved := true, ackable := ackable)]);
        var newCommitted, haveCommitted, i := 0, false, 0;
        while i < |next.order|
          invariant 0 <= i <= |next.order|
          invariant forall j :: 0 <= j < i ==> next.order[j] in next.batches && Acked(next.batches[next.order[j]])
          invariant haveCommitted <==> i > 0
          invariant i > 0 ==> newCommitted == next.batches[next.order[i - 1]].offset
        {
          assert next.order[i] in next.order;
          var b := next.batches[next.order[i]];
          if !b.resolved || !b.ackable {
            break;
          }
          newCommitted, haveCommitted := b.offset, true;
          i := i + 1;
        }
        PrefixLenIs(next.order, next.batches, i);
        if !haveCommitted {
          newCommitted := next.committed;
        }
        if newCommitted < next.committed {
          return false, next;
        }
        if newCommitted > next.committed {
          if advancedTo != Some(newCommitted) {
            return false, next;
          }
        } else if advancedTo.Some? {
          return false, next;
        }
        next := next.(committed := newCommitted, hasCommitted := next.hasCommitted || haveCommitted);
        return true, next;
      case Flush(success) =>
        if success.None? {
          return false, next;
        }
        if success.value {
          next := next.(durable := if next.hasCommitted then Some(next.committed) else None);
        }
        return true, next;
      case ReadDurable(sourceId, durable) =>
        return next.sourceId == Some(sourceId) && durable == next.durable, next;
      case Other =>
        return false, next;
    }
  }

  // ----- Runs -----

  /** The state after a history in which every operation is accepted. */
  function Run(ops: seq<Op>): (r: Option<State>)
    ensures r.Some? ==> Known(r.value.order, r.value.batches)
  {
    if |ops| == 0 then Some(INIT)
    else
      var before := Run(ops[..|ops| - 1]);
      if before.None? then None else Step(before.value, ops[|ops| - 1])
  }

  lemma RunSnoc(ops: seq<Op>, op: Op)
    ensures Run(ops + [op]) == if Run(ops).None? then None else Step(Run(ops).value, op)
  {
    assert (ops + [op])[..|ops|] == ops;
  }

  /** Nothing moves back: not the watermark, not the durable value, and neither is ever unset. */
  ghost predicate NotBack(s: State, t: State) {
    && s.committed <= t.committed
    && (s.hasCommitted ==> t.hasCommitted)
    && (s.durable.Some? ==> t.durable.Some? && s.durable.value <= t.durable.value)
  }

  /** What holds of every state of every accepted run. */
  ghost predicate Sound(s: State) {
    && (!s.hasCommitted ==> s.committed == 0 && s.durable.None?)
    && (s.durable.Some? ==> s.durable.value <= s.committed)
  }

  lemma StepKeeps(s: State, op: Op)
    requires Known(s.order, s.batches) && Sound(s) && Step(s, op).Some?
    ensures Sound(Step(s, op).value) && NotBack(s, Step(s, op).value)
  {
    hide StableSort, PrefixLen;
  }

  lemma {:induction false} RunIsSound(ops: seq<Op>)
    requires Run(ops).Some?
    ensures Sound(Run(ops).value)
    decreases |ops|
  {
    hide Step;
    if |ops| > 0 {
      RunIsSound(ops[..|ops| - 1]);
      StepKeeps(Run(ops[..|ops| - 1]).value, ops[|ops| - 1]);
    }
  }

  /** Every prefix of an accepted run is accepted, and nothing moves back between the two. */
  lemma {:induction false} RunNeverGoesBack(ops: seq<Op>, k: nat)
    requires k <= |ops| && Run(ops).Some?
    ensures Run(ops[..k]).Some? && NotBack(Run(ops[..k]).value, Run(ops).value)
    decreases |ops|
  {
    hide Step;
    if k == |ops| {
      assert ops[..k] == ops;
    } else {
      var before := ops[..|ops| - 1];
      RunNeverGoesBack(before, k);
      assert before[..k] == ops[..k];
      RunIsSound(before);
      StepKeeps(Run(before).value, ops[|ops| - 1]);
    }
  }

  // ----- Durable reads -----

  /** The watermark at the latest successful flush, if one had been committed by then. */
  ghost function LastFlush(ops: seq<Op>): Option<nat>
    requires Run(ops).Some?
    decreases |ops|
  {
    if |ops| == 0 then None
    else
      var before := ops[..|ops| - 1];
      if ops[|ops| - 1] == Flush(Some(true)) then
        if Run(before).value.hasCommitted then Some(Run(before).value.committed) else None
      else LastFlush(before)
  }

  lemma StepDurable(s: State, op: Op)
    requires Known(s.order, s.batches) && Step(s, op).Some?
    ensures op == Flush(Some(true)) ==> Step(s, op).value.durable == if s.hasCommitted then Some(s.committed) else None
    ensures op != Flush(Some(true)) ==> Step(s, op).value.durable == s.durable
    ensures op == Flush(Some(false)) ==> Step(s, op).value == s
    ensures op.ReadDurable? ==> op.durable == s.durable && Step(s, op).value == s
  {
    hide StableSort, PrefixLen;
  }

  /** In every accepted run the durable value is what the latest successful flush saw, and reads return it. */
  lemma {:induction false} DurableIsLastFlush(ops: seq<Op>)
    requires Run(ops).Some?
    ensures Run(ops).value.durable == LastFlush(ops)
    ensures |ops| > 0 && ops[|ops| - 1].ReadDurable? ==> ops[|ops| - 1].durable == LastFlush(ops)
    ensures |ops| > 0 && ops[|ops| - 1] == Flush(Some(false)) ==> Run(ops) == Run(ops[..|ops| - 1])
    decreases |ops|
  {
    hide Step;
    if |ops| > 0 {
      DurableIsLastFlush(ops[..|ops| - 1]);
      StepDurable(Run(ops[..|ops| - 1]).value, ops[|ops| - 1]);
    }
  }

  // ----- Reported advances -----

  /** The `AdvancedTo` values reported along a run. */
  ghost function Advances(ops: seq<Op>): seq<nat> {
    if |ops| == 0 then []
    else
      var op := ops[|ops| - 1];
      Advances(ops[..|ops| - 1]) + if op.Resolve? && op.advancedTo.Some? then [op.advancedTo.value] else []
  }

  ghost predicate StrictlyIncreasing(xs: seq<nat>) {
    forall i, j :: 0 <= i < j < |xs| ==> xs[i] < xs[j]
  }

  lemma StepAdvances(s: State, op: Op)
    requires Known(s.order, s.batches) && Step(s, op).Some?
    ensures op.Resolve? && op.advancedTo.Some? ==> s.committed < op.advancedTo.value == Step(s, op).value.committed
    ensures !(op.Resolve? && op.advancedTo.Some?) ==> Step(s, op).value.committed == s.committed
  {
    hide StableSort, PrefixLen;
  }

  /** The reported advances strictly increase, and the last one is the watermark. */
  lemma {:induction false} AdvancesIncrease(ops: seq<Op>)
    requires Run(ops).Some?
    ensures StrictlyIncreasing(Advances(ops))
    ensures forall i :: 0 <= i < |Advances(ops)| ==> Advances(ops)[i] <= Run(ops).value.committed
    ensures Run(ops).value.committed == if |Advances(ops)| == 0 then 0 else Advances(ops)[|Advances(ops)| - 1]
    decreases |ops|
  {
    hide Step;
    if |ops| > 0 {
      AdvancesIncrease(ops[..|ops| - 1]);
      StepAdvances(Run(ops[..|ops| - 1]).value, ops[|ops| - 1]);
    }
  }

  /**
    * No step commits past unfinished work: if the watermark moves, it moves to the offset of a batch that is,
    * with all batches in front of it, resolved and ackable, so it lies before every batch that is not.
    */
  lemma CommitsOnlyPrefix(ops: seq<Op>, op: Op, blocker: nat)
    requires Run(ops + [op]).Some?
    requires var t := Run(ops + [op]).value;
             t.committed != Run(ops).value.committed
             && blocker < |t.order| && t.order[blocker] in t.batches && !Acked(t.batches[t.order[blocker]])
    ensures var t := Run(ops + [op]).value;
            exists i :: 0 <= i < blocker && t.order[i] in t.batches && t.committed == t.batches[t.order[i]].offset
                        && forall j :: 0 <= j <= i ==> t.order[j] in t.batches && Acked(t.batches[t.order[j]])
  {
    hide StableSort;
    RunSnoc(ops, op);
    var t := Run(ops + [op]).value;
    var n := PrefixLen(t.order, t.batches);
    assert n > 0 && t.committed == t.batches[t.order[n - 1]].offset;
    assert n <= blocker;
  }

  // ----- Histories that submit in sequence order -----

  ghost predicate InOrder(ops: seq<Op>) {
    forall i, j :: 0 <= i < j < |ops| && ops[i].Submit? && ops[j].Submit? ==> ops[i].submitSeq <= ops[j].submitSeq
  }

  ghost predicate OffsetsRise(ops: seq<Op>) {
    forall i, j :: 0 <= i < j < |ops| && ops[i].Submit? && ops[j].Submit? ==> ops[i].offset <= ops[j].offset
  }

  /** Every batch comes from one of the submits. */
  ghost predicate FromSubmits(s: State, ops: seq<Op>) {
    forall id :: id in s.batches ==>
      exists k :: 0 <= k < |ops| && ops[k].Submit? && ops[k].submitSeq == s.batches[id].submitSeq
                  && ops[k].offset == s.batches[id].offset
  }

  ghost predicate Sorted(order: seq<nat>, batches: map<nat, Batch>)
    requires Known(order, batches)
  {
    forall i, j :: 0 <= i < j < |order| ==>
      order[i] in order && order[j] in order && batches[order[i]].submitSeq <= batches[order[j]].submitSeq
  }

  lemma {:induction false} InsertKeepsIds(order: seq<nat>, id: nat, batches: map<nat, Batch>)
    requires Known(order, batches) && id in batches
    ensures multiset(Insert(order, id, batches)) == multiset(order) + multiset{id}
    decreases |order|
  {
    if |order| > 0 {
      assert order == order[..|order| - 1] + [order[|order| - 1]];
      InsertKeepsIds(order[..|order| - 1], id, batches);
    }
  }

  ghost predicate AtMost(order: seq<nat>, batches: map<nat, Batch>, bound: nat) {
    forall i :: 0 <= i < |order| ==> order[i] in batches && batches[order[i]].submitSeq <= bound
  }

  lemma {:induction false} InsertAtMost(order: seq<nat>, id: nat, batches: map<nat, Batch>, bound: nat)
    requires Known(order, batches) && id in batches
    requires AtMost(order, batches, bound) && batches[id].submitSeq <= bound
    ensures AtMost(Insert(order, id, batches), batches, bound)
    decreases |order|
  {
    if |order| > 0 {
      InsertAtMost(order[..|order| - 1], id, batches, bound);
    }
  }

  lemma {:induction false} InsertSorts(order: seq<nat>, id: nat, batches: map<nat, Batch>)
    requires Known(order, batches) && id in batches && Sorted(order, batches)
    ensures Sorted(Insert(order, id, batches), batches)
    decreases |order|
  {
    if |order| > 0 {
      var front, last := order[..|order| - 1], order[|order| - 1];
      assert last in order;
      if batches[id].submitSeq < batches[last].submitSeq {
        InsertSorts(front, id, batches);
        assert forall i :: 0 <= i < |front| ==> front[i] == order[i];
        InsertAtMost(front, id, batches, batches[last].submitSeq);
        SortedSnoc(Insert(front, id, batches), last, batches);
      } else {
        SortedAtMost(order, batches, batches[id].submitSeq);
        SortedSnoc(order, id, batches);
      }
    }
  }

  lemma SortedAtMost(order: seq<nat>, batches: map<nat, Batch>, bound: nat)
    requires Known(order, batches) && Sorted(order, batches) && |order| > 0
    requires order[|order| - 1] in batches && batches[order[|order| - 1]].submitSeq <= bound
    ensures AtMost(order, batches, bound)
  {
    forall i | 0 <= i < |order| ensures order[i] in batches && batches[order[i]].submitSeq <= bound {
      assert order[i] in order;
      if i < |order| - 1 {
        assert batches[order[i]].submitSeq <= batches[order[|order| - 1]].submitSeq;
      }
    }
  }

  lemma SortedSnoc(order: seq<nat>, id: nat, batches: map<nat, Batch>)
    requires Known(order, batches) && id in batches && Sorted(order, batches)
    requires AtMost(order, batches, batches[id].submitSeq)
    ensures Known(order + [id], batches) && Sorted(order + [id], batches)
  {
    assert forall i :: 0 <= i < |order| ==> (order + [id])[i] == order[i];
  }

  /** The stable sort sorts, and keeps every id. */
  lemma {:induction false} StableSortSorts(order: seq<nat>, batches: map<nat, Batch>)
    requires Known(order, batches)
    ensures Sorted(StableSort(order, batches), batches)
    ensures multiset(StableSort(order, batches)) == multiset(order)
    decreases |order|
  {
    if |order| > 0 {
      var front, last := order[..|order| - 1], order[|order| - 1];
      assert order == front + [last];
      assert last in order;
      StableSortSorts(front, batches);
      InsertSorts(StableSort(front, batches), last, batches);
      InsertKeepsIds(StableSort(front, batches), last, batches);
    }
  }

  /** A sorted order stays as it is: equal sequence numbers keep their places. */
  lemma {:induction false} StableSortKeepsSorted(order: seq<nat>, batches: map<nat, Batch>)
    requires Known(order, batches) && Sorted(order, batches)
    ensures StableSort(order, batches) == order
    decreases |order|
  {
    hide Insert;
    if |order| > 0 {
      var front, last := order[..|order| - 1], order[|order| - 1];
      assert order == front + [last];
      assert Sorted(front, batches);
      StableSortKeepsSorted(front, batches);
      InsertLast(front, last, batches);
    }
  }

  lemma InsertLast(order: seq<nat>, id: nat, batches: map<nat, Batch>)
    requires Known(order, batches) && id in batches && Known(order + [id], batches) && Sorted(order + [id], batches)
    ensures Insert(order, id, batches) == order + [id]
  {
    if |order| > 0 {
      var all := order + [id];
      assert all[|order| - 1] == order[|order| - 1] && all[|order|] == id;
    }
  }

  lemma PrefixGrows(order: seq<nat>, b: map<nat, Batch>, c: map<nat, Batch>)
    requires Known(order, b) && Known(order, c)
    requires forall id :: id in order && Acked(b[id]) ==> c[id] == b[id]
    ensures PrefixLen(order, b) <= PrefixLen(order, c)
  {
    hide PrefixLen;
    assert forall i :: 0 <= i < |order| ==> order[i] in order;
  }

  /** Sequence numbers never fall along the order, and the watermark is where the acked prefix ends. */
  ghost predicate Tracks(s: State)
    requires Known(s.order, s.batches)
  {
    && Sorted(s.order, s.batches)
    && s.committed == PrefixOffset(s.order, s.batches, 0)
    && (s.hasCommitted <==> PrefixLen(s.order, s.batches) > 0)
  }

  ghost predicate RisingOffsets(order: seq<nat>, batches: map<nat, Batch>) {
    forall i, j :: 0 <= i < j < |order| && order[i] in batches && order[j] in batches ==>
      batches[order[i]].offset <= batches[order[j]].offset
  }

  /** A submit at or behind every known sequence number goes to the end, where it cannot move the prefix. */
  lemma SubmitInOrder(s: State, op: Op)
    requires Known(s.order, s.batches) && op.Submit? && Step(s, op).Some? && Tracks(s)
    requires forall id :: id in s.batches ==> s.batches[id].submitSeq <= op.submitSeq
    ensures Tracks(Step(s, op).value)
    ensures op.batchId !in s.batches && Step(s, op).value.order == s.order + [op.batchId]
    ensures Step(s, op).value.batches
      == s.batches[op.batchId := Batch(op.submitSeq, op.sourceId, op.offset, false, false)]
  {
    hide Step, PrefixLen, Sorted;
    assert forall i :: 0 <= i < |s.order| ==> s.order[i] in s.order;
    assert Place(s.order, s.batches, op.submitSeq) == |s.order|;
    assert s.order[..|s.order|] == s.order && s.order[|s.order|..] == [];
    SubmitInserts(s, op);
    SubmitTracks(s, op);
  }

  lemma ResolveShape(s: State, op: Op)
    requires Known(s.order, s.batches) && op.Resolve? && Step(s, op).Some?
    ensures op.batchId in s.batches && !s.batches[op.batchId].resolved
    ensures var batches := s.batches[op.batchId := s.batches[op.batchId].(resolved := true, ackable := op.ackable)];
            && Known(s.order, batches)
            && Step(s, op).value == s.(batches := batches, committed := PrefixOffset(s.order, batches, s.committed),
                                       hasCommitted := s.hasCommitted || PrefixLen(s.order, batches) > 0)
  {
    hide PrefixLen, PrefixOffset, StableSort;
  }

  /**
    * A resolve that is in order is accepted exactly when the prefix ends no earlier and the report says where it
    * moved.
    */
  lemma ResolveVerdict(s: State, op: Op)
    requires Known(s.order, s.batches) && op.Resolve? && !op.outcome.Unknown? && op.ackable == IsAckable(op.outcome)
    requires op.batchId in s.batches && !s.batches[op.batchId].resolved && op.sourceId == s.batches[op.batchId].sourceId
    ensures var batches := s.batches[op.batchId := s.batches[op.batchId].(resolved := true, ackable := op.ackable)];
            var committed := PrefixOffset(s.order, batches, s.committed);
            Step(s, op).Some? <==>
              committed >= s.committed && op.advancedTo == if committed > s.committed then Some(committed) else None
  {
    hide PrefixLen, PrefixOffset, StableSort;
  }

  /** The verdicts on everything but resolves, and what an accepted operation changes. */
  lemma OtherVerdicts(s: State, op: Op)
    requires Known(s.order, s.batches) && !op.Resolve?
    ensures match op
      case Submit(id, submitSeq, sourceId, offset) =>
        && (Step(s, op).Some? <==> id !in s.batches && (s.sourceId == None || s.sourceId == Some(sourceId)))
        && (Step(s, op).Some? ==>
            var t := Step(s, op).value;
            && t.sourceId == Some(sourceId) && multiset(t.order) == multiset(s.order) + multiset{id}
            && t.batches == s.batches[id := Batch(submitSeq, sourceId, offset, false, false)]
            && t.committed == s.committed && t.hasCommitted == s.hasCommitted && t.durable == s.durable)
      case Flush(success) =>
        if success.None? then Step(s, op).None?
        else if success.value then
          Step(s, op) == Some(s.(durable := if s.hasCommitted then Some(s.committed) else None))
        else Step(s, op) == Some(s)
      case ReadDurable(sourceId, durable) =>
        if s.sourceId == Some(sourceId) && durable == s.durable then Step(s, op) == Some(s) else Step(s, op).None?
      case Other => Step(s, op).None?
  {
    hide PrefixLen, StableSort;
    if op.Submit? && Step(s, op).Some? {
      var batches := s.batches[op.batchId := Batch(op.submitSeq, op.sourceId, op.offset, false, false)];
      StableSortSorts(s.order + [op.batchId], batches);
    }
  }

  /** In every accepted run all batches are from one source. */
  lemma {:induction false} RunHasOneSource(ops: seq<Op>)
    requires Run(ops).Some?
    ensures forall id :: id in Run(ops).value.batches ==>
      Run(ops).value.sourceId == Some(Run(ops).value.batches[id].sourceId)
    decreases |ops|
  {
    hide Step;
    if |ops| > 0 {
      var before, op := ops[..|ops| - 1], ops[|ops| - 1];
      RunHasOneSource(before);
      if op.Resolve? {
        ResolveShape(Run(before).value, op);
      } else {
        OtherVerdicts(Run(before).value, op);
      }
    }
  }

  /**
    * The verdict on the resolve of an open batch, by its outcome: delivered and rejected batches must be reported as
    * ackable and are acked, the six failures must not and are not, and an unknown outcome is refused.
    */
  lemma VerdictByOutcome(s: State, op: Op)
    requires Known(s.order, s.batches) && op.Resolve? && op.batchId in s.batches && !s.batches[op.batchId].resolved
    ensures var batch := s.batches[op.batchId];
            match op.outcome
            case Unknown => Step(s, op).None?
            case Delivered =>
              if op.ackable then AcceptedAs(s, op, batch.(resolved := true, ackable := true)) else Step(s, op).None?
            case Rejected =>
              if op.ackable then AcceptedAs(s, op, batch.(resolved := true, ackable := true)) else Step(s, op).None?
            case _ =>
              if op.ackable then Step(s, op).None? else AcceptedAs(s, op, batch.(resolved := true, ackable := false))
  {
    hide PrefixLen, PrefixOffset, StableSort;
  }

  /**
    * Accepted exactly when it is from the batch's source, the acked prefix then ends no earlier than the watermark, and
    * the report says where it moved; it leaves `batch` in place of the old one.
    */
  ghost predicate AcceptedAs(s: State, op: Op, batch: Batch)
    requires Known(s.order, s.batches) && op.Resolve? && op.batchId in s.batches
  {
    var batches := s.batches[op.batchId := batch];
    var committed := PrefixOffset(s.order, batches, s.committed);
    && (Step(s, op).Some? <==>
        && op.sourceId == batch.sourceId && committed >= s.committed
        && op.advancedTo == if committed > s.committed then Some(committed) else None)
    && (Step(s, op).Some? ==>
        Step(s, op).value.batches == batches && Step(s, op).value.committed == committed
        && Step(s, op).value.order == s.order)
  }

  lemma ResolveTracks(s: State, op: Op)
    requires Known(s.order, s.batches) && op.Resolve? && Step(s, op).Some? && Tracks(s)
    ensures Tracks(Step(s, op).value)
    ensures Step(s, op).value.order == s.order
    ensures Step(s, op).value.batches.Keys == s.batches.Keys
    ensures forall id :: id in s.batches ==>
      && Step(s, op).value.batches[id].submitSeq == s.batches[id].submitSeq
      && Step(s, op).value.batches[id].offset == s.batches[id].offset
  {
    hide Step, PrefixLen;
    ResolveShape(s, op);
    ResolveGrows(s, op);
    assert forall i :: 0 <= i < |s.order| ==> s.order[i] in s.order;
  }

  lemma {:induction false} RunTracks(ops: seq<Op>)
    requires Run(ops).Some? && InOrder(ops)
    ensures Tracks(Run(ops).value) && FromSubmits(Run(ops).value, ops)
    ensures OffsetsRise(ops) ==> RisingOffsets(Run(ops).value.order, Run(ops).value.batches)
    decreases |ops|
  {
    hide Step, Tracks;
    if |ops| == 0 {
      InitTracks();
    } else {
      var before, op := ops[..|ops| - 1], ops[|ops| - 1];
      var s, t := Run(before).value, Run(ops).value;
      assert InOrder(before);
      assert OffsetsRise(ops) ==> OffsetsRise(before);
      RunTracks(before);
      if op.Submit? {
        SubmitInOrder(s, op);
        assert ops[|ops| - 1] == op;
        SubmitRises(s, t, op, ops);
      } else if op.Resolve? {
        ResolveTracks(s, op);
      } else {
        StepLeaves(s, op);
        SameTracks(s, t);
      }
      FromSubmitsStep(s, t, before, op);
    }
  }

  lemma InitTracks()
    ensures Tracks(INIT)
  {
  }

  lemma StepLeaves(s: State, op: Op)
    requires Known(s.order, s.batches) && Step(s, op).Some? && !op.Submit? && !op.Resolve?
    ensures Step(s, op).value == s.(durable := Step(s, op).value.durable)
  {
  }

  lemma SameTracks(s: State, t: State)
    requires Known(s.order, s.batches) && Tracks(s) && t == s.(durable := t.durable)
    ensures Tracks(t)
  {
  }

  lemma FromSubmitsStep(s: State, t: State, before: seq<Op>, op: Op)
    requires FromSubmits(s, before)
    requires forall id :: id in t.batches ==>
      (id in s.batches && t.batches[id].submitSeq == s.batches[id].submitSeq
        && t.batches[id].offset == s.batches[id].offset)
      || (op.Submit? && t.batches[id].submitSeq == op.submitSeq && t.batches[id].offset == op.offset)
    ensures FromSubmits(t, before + [op])
  {
    var ops := before + [op];
    forall id | id in t.batches
      ensures exists k :: 0 <= k < |ops| && ops[k].Submit? && ops[k].submitSeq == t.batches[id].submitSeq
                          && ops[k].offset == t.batches[id].offset
    {
      if id in s.batches && t.batches[id].submitSeq == s.batches[id].submitSeq
         && t.batches[id].offset == s.batches[id].offset
      {
        var k :| 0 <= k < |before| && before[k].Submit? && before[k].submitSeq == s.batches[id].submitSeq
                 && before[k].offset == s.batches[id].offset;
        assert ops[k] == before[k];
      } else {
        assert ops[|before|] == op;
      }
    }
  }

  lemma SubmitRises(s: State, t: State, op: Op, ops: seq<Op>)
    requires |ops| > 0 && op == ops[|ops| - 1] && op.Submit?
    requires Known(s.order, s.batches) && FromSubmits(s, ops[..|ops| - 1])
    requires t.order == s.order + [op.batchId] && op.batchId !in s.batches
    requires t.batches == s.batches[op.batchId := Batch(op.submitSeq, op.sourceId, op.offset, false, false)]
    requires OffsetsRise(ops) ==> RisingOffsets(s.order, s.batches)
    ensures OffsetsRise(ops) ==> RisingOffsets(t.order, t.batches)
  {
    if OffsetsRise(ops) {
      forall i, j | 0 <= i < j < |t.order| && t.order[i] in t.batches && t.order[j] in t.batches
        ensures t.batches[t.order[i]].offset <= t.batches[t.order[j]].offset
      {
        assert t.order[i] == s.order[i] && s.order[i] in s.order;
        if j < |s.order| {
          assert t.order[j] == s.order[j] && s.order[j] in s.order;
        } else {
          var k :| 0 <= k < |ops| - 1 && ops[..|ops| - 1][k].Submit?
                   && ops[..|ops| - 1][k].offset == s.batches[s.order[i]].offset;
          assert ops[k] == ops[..|ops| - 1][k];
        }
      }
    }
  }

  // ----- Where a submit goes -----

  /** How many ids at the front of the order come before a batch with this sequence number. */
  ghost function Place(order: seq<nat>, batches: map<nat, Batch>, submitSeq: nat): (p: nat)
    requires Known(order, batches)
    ensures p <= |order|
  {
    if |order| == 0 then 0
    else
      assert order[|order| - 1] in order;
      if submitSeq < batches[order[|order| - 1]].submitSeq then Place(order[..|order| - 1], batches, submitSeq)
      else |order|
  }

  lemma {:induction false} InsertAtPlace(order: seq<nat>, id: nat, batches: map<nat, Batch>)
    requires Known(order, batches) && id in batches
    ensures var p := Place(order, batches, batches[id].submitSeq);
            Insert(order, id, batches) == order[..p] + [id] + order[p..]
    decreases |order|
  {
    if |order| == 0 {
      assert order[..0] + [id] + order[0..] == [id];
    } else {
      var front, last := order[..|order| - 1], order[|order| - 1];
      assert last in order;
      if batches[id].submitSeq < batches[last].submitSeq {
        InsertAtPlace(front, id, batches);
        var p := Place(front, batches, batches[id].submitSeq);
        assert order[..p] == front[..p] && order[p..] == front[p..] + [last];
        assert front[..p] + [id] + front[p..] + [last] == front[..p] + [id] + (front[p..] + [last]);
      } else {
        assert order[..|order|] == order && order[|order|..] == [];
      }
    }
  }

  lemma {:induction false} PlaceSplits(order: seq<nat>, batches: map<nat, Batch>, submitSeq: nat, i: nat)
    requires Known(order, batches) && Sorted(order, batches) && i < |order|
    ensures order[i] in batches && (i < Place(order, batches, submitSeq) <==> batches[order[i]].submitSeq <= submitSeq)
    decreases |order|
  {
    var front, last := order[..|order| - 1], order[|order| - 1];
    assert order[i] in order && last in order;
    if submitSeq < batches[last].submitSeq {
      if i < |front| {
        assert front[i] == order[i];
        PlaceSplits(front, batches, submitSeq, i);
      }
    } else if i < |front| {
      assert batches[order[i]].submitSeq <= batches[last].submitSeq;
    }
  }

  /** An accepted submit into a sorted order inserts its batch and leaves all others where they are. */
  lemma SubmitInserts(s: State, op: Op)
    requires Known(s.order, s.batches) && Sorted(s.order, s.batches) && op.Submit? && Step(s, op).Some?
    ensures var t, p := Step(s, op).value, Place(s.order, s.batches, op.submitSeq);
            && op.batchId !in s.batches && t.order == s.order[..p] + [op.batchId] + s.order[p..]
            && t.batches == s.batches[op.batchId := Batch(op.submitSeq, op.sourceId, op.offset, false, false)]
            && t.committed == s.committed && t.hasCommitted == s.hasCommitted
  {
    hide PrefixLen, Place, Insert;
    var t, order := Step(s, op).value, s.order + [op.batchId];
    assert op.batchId !in s.order;
    assert forall i :: 0 <= i < |s.order| ==> s.order[i] in s.order && t.batches[s.order[i]] == s.batches[s.order[i]];
    assert order[..|s.order|] == s.order;
    StableSortKeepsSorted(s.order, t.batches);
    SortSnoc(s.order, op.batchId, t.batches);
    InsertAtPlace(s.order, op.batchId, t.batches);
    SamePlace(s.order, s.batches, t.batches, op.submitSeq);
  }

  lemma SortSnoc(order: seq<nat>, id: nat, batches: map<nat, Batch>)
    requires Known(order, batches) && id in batches && StableSort(order, batches) == order
      && Known(order + [id], batches)
    ensures StableSort(order + [id], batches) == Insert(order, id, batches)
  {
    assert (order + [id])[..|order|] == order;
  }

  lemma {:induction false} SamePlace(order: seq<nat>, b: map<nat, Batch>, c: map<nat, Batch>, submitSeq: nat)
    requires Known(order, b) && Known(order, c) && forall id :: id in order ==> b[id].submitSeq == c[id].submitSeq
    ensures Place(order, b, submitSeq) == Place(order, c, submitSeq)
    decreases |order|
  {
    if |order| > 0 {
      assert order[|order| - 1] in order;
      SamePlace(order[..|order| - 1], b, c, submitSeq);
    }
  }

  /** The submit goes in front of a batch of the acked prefix. */
  ghost predicate Undercuts(s: State, op: Op)
    requires Known(s.order, s.batches)
  {
    var n := PrefixLen(s.order, s.batches);
    op.Submit? && n > 0 && op.submitSeq < s.batches[s.order[n - 1]].submitSeq
  }

  /** The acked prefix shrinks, so that the watermark stands past an open batch, exactly when a submit undercuts it. */
  lemma ShrinksExactly(s: State, op: Op)
    requires Known(s.order, s.batches) && Sorted(s.order, s.batches) && op.Submit? && Step(s, op).Some?
    ensures var t, n := Step(s, op).value, PrefixLen(s.order, s.batches);
            && (PrefixLen(t.order, t.batches) < n <==> Undercuts(s, op))
            && (!Undercuts(s, op) ==> PrefixLen(t.order, t.batches) == n && t.order[..n] == s.order[..n])
  {
    hide StableSort, PrefixLen, Place, Step, Sorted, Known;
    SubmitInserts(s, op);
    var n, p := PrefixLen(s.order, s.batches), Place(s.order, s.batches, op.submitSeq);
    if n > 0 {
      PlaceSplits(s.order, s.batches, op.submitSeq, n - 1);
    }
    var batch := Batch(op.submitSeq, op.sourceId, op.offset, false, false);
    PrefixAfterInsert(s.order, s.batches, op.batchId, batch, p);
  }

  /** An open batch put at place `p` cuts the acked prefix there. */
  lemma PrefixAfterInsert(order: seq<nat>, batches: map<nat, Batch>, id: nat, batch: Batch, p: nat)
    requires Known(order, batches) && id !in batches && !Acked(batch) && p <= |order|
    ensures var t, c, n := order[..p] + [id] + order[p..], batches[id := batch], PrefixLen(order, batches);
            && Known(t, c) && PrefixLen(t, c) == (if p < n then p else n) && (n <= p ==> t[..n] == order[..n])
  {
    hide PrefixLen;
    var t, c, n := order[..p] + [id] + order[p..], batches[id := batch], PrefixLen(order, batches);
    assert forall i :: 0 <= i < |order| ==> order[i] in order && order[i] != id;
    assert forall i :: 0 <= i < p ==> t[i] == order[i];
    assert t[p] == id && (p < |order| ==> t[p + 1] == order[p]);
    if p < n {
      PrefixLenIs(t, c, p);
    } else {
      assert n < p ==> t[n] == order[n];
      PrefixLenIs(t, c, n);
    }
  }

  lemma SortedStep(s: State, op: Op)
    requires Known(s.order, s.batches) && Sorted(s.order, s.batches) && Step(s, op).Some?
    ensures Sorted(Step(s, op).value.order, Step(s, op).value.batches)
    ensures !op.Submit? ==>
      PrefixLen(s.order, s.batches) <= PrefixLen(Step(s, op).value.order, Step(s, op).value.batches)
  {
    hide PrefixLen, StableSort;
    if op.Submit? {
      var batches := s.batches[op.batchId := Batch(op.submitSeq, op.sourceId, op.offset, false, false)];
      StableSortSorts(s.order + [op.batchId], batches);
    } else if op.Resolve? {
      ResolveGrows(s, op);
    }
  }

  lemma ResolveGrows(s: State, op: Op)
    requires Known(s.order, s.batches) && op.Resolve? && Step(s, op).Some?
    ensures Step(s, op).value.order == s.order
    ensures forall id :: id in s.order ==> Step(s, op).value.batches[id].submitSeq == s.batches[id].submitSeq
    ensures PrefixLen(s.order, s.batches) <= PrefixLen(s.order, Step(s, op).value.batches)
  {
    hide Step, PrefixLen;
    ResolveShape(s, op);
    PrefixGrows(s.order, s.batches, Step(s, op).value.batches);
  }

  /** The order of every accepted run is sorted. */
  lemma {:induction false} RunSorted(ops: seq<Op>)
    requires Run(ops).Some?
    ensures Sorted(Run(ops).value.order, Run(ops).value.batches)
    decreases |ops|
  {
    hide Step, Sorted;
    if |ops| == 0 {
      InitTracks();
    } else {
      RunSorted(ops[..|ops| - 1]);
      SortedStep(Run(ops[..|ops| - 1]).value, ops[|ops| - 1]);
    }
  }

  // ----- Runs that are never undercut -----

  /** No submit of the run goes in front of a batch that was then in the acked prefix. */
  ghost predicate NeverUndercut(ops: seq<Op>) {
    |ops| == 0 ||
    var before := ops[..|ops| - 1];
    NeverUndercut(before) && (Run(before).Some? ==> !Undercuts(Run(before).value, ops[|ops| - 1]))
  }

  /** At no step does the acked prefix shrink. */
  ghost predicate NeverShrinks(ops: seq<Op>)
    requires Run(ops).Some?
  {
    |ops| == 0 ||
    var before := ops[..|ops| - 1];
    NeverShrinks(before) && AckedPrefix(before) <= AckedPrefix(ops)
  }

  ghost function AckedPrefix(ops: seq<Op>): nat
    requires Run(ops).Some?
  {
    PrefixLen(Run(ops).value.order, Run(ops).value.batches)
  }

  /**
    * Over any accepted run, in whatever order its sequence numbers come, the acked prefix shrinks exactly at the
    * submits that undercut it.
    */
  lemma {:induction false} NeverShrinksExactly(ops: seq<Op>)
    requires Run(ops).Some?
    ensures NeverShrinks(ops) <==> NeverUndercut(ops)
    decreases |ops|
  {
    hide Step, Sorted, PrefixLen, Undercuts;
    if |ops| > 0 {
      var before, op := ops[..|ops| - 1], ops[|ops| - 1];
      NeverShrinksExactly(before);
      RunSorted(before);
      SortedStep(Run(before).value, op);
      if op.Submit? {
        ShrinksExactly(Run(before).value, op);
      } else {
        OnlySubmitsUndercut(Run(before).value, op);
      }
    }
  }

  lemma OnlySubmitsUndercut(s: State, op: Op)
    requires Known(s.order, s.batches) && !op.Submit?
    ensures !Undercuts(s, op)
  {
  }

  lemma SubmitTracks(s: State, op: Op)
    requires Known(s.order, s.batches) && op.Submit? && Step(s, op).Some? && Tracks(s) && !Undercuts(s, op)
    ensures Tracks(Step(s, op).value)
  {
    hide Step, PrefixLen, Undercuts, Place, Sorted;
    SubmitInserts(s, op);
    ShrinksExactly(s, op);
    SortedStep(s, op);
    var t, n := Step(s, op).value, PrefixLen(s.order, s.batches);
    assert n > 0 ==> t.order[n - 1] == t.order[..n][n - 1] == s.order[..n][n - 1] && s.order[n - 1] in s.order;
  }

  lemma {:induction false} UncutTracks(ops: seq<Op>)
    requires Run(ops).Some? && NeverUndercut(ops)
    ensures Tracks(Run(ops).value)
    decreases |ops|
  {
    hide Step, Tracks, Undercuts;
    if |ops| == 0 {
      InitTracks();
    } else {
      var before, op := ops[..|ops| - 1], ops[|ops| - 1];
      var s := Run(before).value;
      UncutTracks(before);
      if op.Submit? {
        SubmitTracks(s, op);
      } else if op.Resolve? {
        ResolveTracks(s, op);
      } else {
        StepLeaves(s, op);
        SameTracks(s, Run(ops).value);
      }
    }
  }

  /**
    * In every accepted run that is never undercut, the watermark is the offset ending the longest resolved and
    * ackable prefix of the order, or 0 if that prefix is empty.
    */
  lemma CommittedIsPrefixOffset(ops: seq<Op>)
    requires Run(ops).Some? && NeverUndercut(ops)
    ensures Run(ops).value.committed == PrefixOffset(Run(ops).value.order, Run(ops).value.batches, 0)
    ensures Run(ops).value.hasCommitted <==> PrefixLen(Run(ops).value.order, Run(ops).value.batches) > 0
  {
    hide Run, PrefixLen;
    UncutTracks(ops);
  }

  /** Submits in sequence order never undercut. */
  lemma {:induction false} InOrderNeverUndercuts(ops: seq<Op>)
    requires InOrder(ops)
    ensures NeverUndercut(ops)
    decreases |ops|
  {
    hide Run, PrefixLen;
    if |ops| > 0 {
      var before, op := ops[..|ops| - 1], ops[|ops| - 1];
      assert InOrder(before);
      InOrderNeverUndercuts(before);
      if Run(before).Some? && op.Submit? {
        var s := Run(before).value;
        RunTracks(before);
        forall id | id in s.batches ensures s.batches[id].submitSeq <= op.submitSeq {
          var k :| 0 <= k < |before| && before[k].Submit? && before[k].submitSeq == s.batches[id].submitSeq;
          assert ops[k] == before[k] && ops[|ops| - 1] == op;
        }
      }
    }
  }

  // ----- Histories with the same submits and resolves -----

  function Submits(ops: seq<Op>): seq<Op> {
    if |ops| == 0 then []
    else Submits(ops[..|ops| - 1]) + if ops[|ops| - 1].Submit? then [ops[|ops| - 1]] else []
  }

  /** Which batches were resolved, and whether they count as delivered. */
  function Resolves(ops: seq<Op>): set<(nat, bool)> {
    if |ops| == 0 then {}
    else
      var op := ops[|ops| - 1];
      Resolves(ops[..|ops| - 1]) + if op.Resolve? then {(op.batchId, op.ackable)} else {}
  }

  /** The order and the batches that the submits alone give, every batch still open. */
  function Submitted(submits: seq<Op>): (r: (seq<nat>, map<nat, Batch>))
    requires forall i :: 0 <= i < |submits| ==> submits[i].Submit?
    ensures Known(r.0, r.1)
  {
    if |submits| == 0 then ([], map[])
    else
      var (order, batches) := Submitted(submits[..|submits| - 1]);
      var op := submits[|submits| - 1];
      var more := batches[op.batchId := Batch(op.submitSeq, op.sourceId, op.offset, false, false)];
      (StableSort(order + [op.batchId], more), more)
  }

  /** The same batch, resolved as the set says. */
  function Settle(batch: Batch, id: nat, resolves: set<(nat, bool)>): Batch {
    batch.(resolved := (id, true) in resolves || (id, false) in resolves, ackable := (id, true) in resolves)
  }

  /** Order and batches of a run are those of its submits, settled by its resolves. */
  ghost predicate Determined(s: State, submits: seq<Op>, resolves: set<(nat, bool)>)
    requires forall i :: 0 <= i < |submits| ==> submits[i].Submit?
  {
    var (order, batches) := Submitted(submits);
    && s.order == order && s.batches.Keys == batches.Keys
    && (forall id :: id in batches ==> s.batches[id] == Settle(batches[id], id, resolves))
    && (forall r :: r in resolves ==> r.0 in batches)
  }

  lemma {:induction false} SubmitsAre(ops: seq<Op>)
    ensures forall i :: 0 <= i < |Submits(ops)| ==> Submits(ops)[i].Submit?
    decreases |ops|
  {
    if |ops| > 0 {
      SubmitsAre(ops[..|ops| - 1]);
    }
  }

  lemma {:induction false} SortsAlike(order: seq<nat>, b: map<nat, Batch>, c: map<nat, Batch>)
    requires Known(order, b) && Known(order, c) && forall id :: id in order ==> b[id].submitSeq == c[id].submitSeq
    ensures StableSort(order, b) == StableSort(order, c)
    decreases |order|
  {
    if |order| > 0 {
      var front, last := order[..|order| - 1], order[|order| - 1];
      assert last in order;
      SortsAlike(front, b, c);
      StableSortSorts(front, b);
      var sorted := StableSort(front, b);
      forall id | id in sorted ensures id in order {
        assert id in multiset(sorted);
        assert id in multiset(front);
      }
      InsertsAlike(sorted, last, b, c);
    }
  }

  lemma {:induction false} InsertsAlike(order: seq<nat>, id: nat, b: map<nat, Batch>, c: map<nat, Batch>)
    requires Known(order, b) && Known(order, c) && id in b && id in c && b[id].submitSeq == c[id].submitSeq
    requires forall k :: k in order ==> b[k].submitSeq == c[k].submitSeq
    ensures Insert(order, id, b) == Insert(order, id, c)
    decreases |order|
  {
    if |order| > 0 {
      assert order[|order| - 1] in order;
      InsertsAlike(order[..|order| - 1], id, b, c);
    }
  }

  lemma DeterminedSubmit(s: State, op: Op, submits: seq<Op>, resolves: set<(nat, bool)>)
    requires Known(s.order, s.batches) && op.Submit? && Step(s, op).Some?
    requires (forall i :: 0 <= i < |submits| ==> submits[i].Submit?) && Determined(s, submits, resolves)
    ensures Determined(Step(s, op).value, submits + [op], resolves)
  {
    hide StableSort, PrefixLen;
    var (order, batches) := Submitted(submits);
    var all := submits + [op];
    var t := Step(s, op).value;
    var more := batches[op.batchId := Batch(op.submitSeq, op.sourceId, op.offset, false, false)];
    assert all[..|submits|] == submits && all[|submits|] == op;
    assert (op.batchId, true) !in resolves && (op.batchId, false) !in resolves;
    SortsAlike(s.order + [op.batchId], t.batches, more);
  }

  lemma DeterminedResolve(s: State, op: Op, submits: seq<Op>, resolves: set<(nat, bool)>)
    requires Known(s.order, s.batches) && op.Resolve? && Step(s, op).Some?
    requires (forall i :: 0 <= i < |submits| ==> submits[i].Submit?) && Determined(s, submits, resolves)
    ensures Determined(Step(s, op).value, submits, resolves + {(op.batchId, op.ackable)})
  {
    hide Submitted, PrefixLen;
    assert !s.batches[op.batchId].resolved;
  }

  /** In every accepted run the order and the batches are determined by its submits and its resolves. */
  lemma {:induction false} RunDetermined(ops: seq<Op>)
    requires Run(ops).Some?
    ensures forall i :: 0 <= i < |Submits(ops)| ==> Submits(ops)[i].Submit?
    ensures Determined(Run(ops).value, Submits(ops), Resolves(ops))
    decreases |ops|
  {
    hide Step, Determined;
    SubmitsAre(ops);
    if |ops| == 0 {
      NothingDetermined();
    } else {
      var before, op := ops[..|ops| - 1], ops[|ops| - 1];
      var s := Run(before).value;
      RunDetermined(before);
      if op.Submit? {
        DeterminedSubmit(s, op, Submits(before), Resolves(before));
        assert Resolves(ops) == Resolves(before);
      } else if op.Resolve? {
        DeterminedResolve(s, op, Submits(before), Resolves(before));
        assert Submits(ops) == Submits(before);
      } else {
        StepLeaves(s, op);
        assert Submits(ops) == Submits(before) && Resolves(ops) == Resolves(before);
        SameDetermined(s, Run(ops).value, Submits(ops), Resolves(ops));
      }
    }
  }

  lemma NothingDetermined()
    ensures Determined(INIT, [], {})
  {
  }

  lemma SameDetermined(s: State, t: State, submits: seq<Op>, resolves: set<(nat, bool)>)
    requires (forall i :: 0 <= i < |submits| ==> submits[i].Submit?) && Determined(s, submits, resolves)
    requires t == s.(durable := t.durable)
    ensures Determined(t, submits, resolves)
  {
  }

  /**
    * Two accepted histories that are never undercut, with the same submits and the same resolves, have the same
    * watermark, in whatever order the resolves came and however they fell between submits, flushes and reads.
    */
  lemma ResolveOrderDoesNotMatter(ops: seq<Op>, other: seq<Op>)
    requires Run(ops).Some? && NeverUndercut(ops) && Run(other).Some? && NeverUndercut(other)
    requires Submits(ops) == Submits(other) && Resolves(ops) == Resolves(other)
    ensures Run(ops).value.order == Run(other).value.order && Run(ops).value.batches == Run(other).value.batches
    ensures Run(ops).value.committed == Run(other).value.committed
    ensures Run(ops).value.hasCommitted == Run(other).value.hasCommitted
  {
    hide Run, PrefixLen, Submitted, Submits, Resolves, NeverUndercut;
    RunDetermined(ops);
    RunDetermined(other);
    assert Run(ops).value.batches == Run(other).value.batches;
    CommittedIsPrefixOffset(ops);
    CommittedIsPrefixOffset(other);
  }

  /**
    * If offsets never fall either, the regression guard never fires: each proper resolve has a report that is
    * accepted.
    */
  lemma GuardNeverRejects(ops: seq<Op>, op: Op)
    requires Run(ops).Some? && InOrder(ops) && OffsetsRise(ops)
    requires op.Resolve? && !op.outcome.Unknown? && op.ackable == IsAckable(op.outcome)
    requires var s := Run(ops).value;
             op.batchId in s.batches && !s.batches[op.batchId].resolved && op.sourceId == s.batches[op.batchId].sourceId
    ensures exists advancedTo :: Run(ops + [op.(advancedTo := advancedTo)]).Some?
  {
    hide Run, Step, PrefixLen, Tracks, RisingOffsets;
    RunTracks(ops);
    var report := ResolveAccepted(Run(ops).value, op);
    RunSnoc(ops, op.(advancedTo := report));
    assert Run(ops + [op.(advancedTo := report)]).Some?;
  }

  lemma ResolveAccepted(s: State, op: Op) returns (report: Option<nat>)
    requires Known(s.order, s.batches) && Tracks(s) && RisingOffsets(s.order, s.batches)
    requires op.Resolve? && !op.outcome.Unknown? && op.ackable == IsAckable(op.outcome)
    requires op.batchId in s.batches && !s.batches[op.batchId].resolved && op.sourceId == s.batches[op.batchId].sourceId
    ensures Step(s, op.(advancedTo := report)).Some?
  {
    hide PrefixLen, Sorted, StableSort;
    var batches := s.batches[op.batchId := s.batches[op.batchId].(resolved := true, ackable := op.ackable)];
    PrefixRises(s.order, s.batches, batches);
    var committed := PrefixOffset(s.order, batches, s.committed);
    report := if committed > s.committed then Some(committed) else None;
  }

  /** Where offsets never fall along the order, more acks never lower the offset that ends the prefix. */
  lemma PrefixRises(order: seq<nat>, b: map<nat, Batch>, c: map<nat, Batch>)
    requires Known(order, b) && Known(order, c) && RisingOffsets(order, b)
    requires forall id :: id in order ==> c[id].offset == b[id].offset && (Acked(b[id]) ==> c[id] == b[id])
    ensures PrefixOffset(order, b, 0) <= PrefixOffset(order, c, PrefixOffset(order, b, 0))
  {
    hide PrefixLen;
    PrefixGrows(order, b, c);
    assert forall i :: 0 <= i < |order| ==> order[i] in order;
    var n, m := PrefixLen(order, b), PrefixLen(order, c);
    if 0 < n < m {
      assert b[order[n - 1]].offset <= b[order[m - 1]].offset;
    }
  }

  /** Out of sequence order the watermark can stand past a batch that is still open. */
  lemma OutOfOrderCanOvertake()
    ensures var ops := [Submit(1, 2, 7, 100), Resolve(1, 7, Delivered, true, Some(100)), Submit(2, 1, 7, 50)];
            && Run(ops).Some? && Run(ops).value.order == [2, 1] && Run(ops).value.committed == 100
            && PrefixOffset(Run(ops).value.order, Run(ops).value.batches, 0) == 0
  {
    hide Run, Step, PrefixLen, Sorted;
    var a, b, c := Submit(1, 2, 7, 100), Resolve(1, 7, Delivered, true, Some(100)), Submit(2, 1, 7, 50);
    assert [] + [a] == [a] && [a] + [b] == [a, b] && [a, b] + [c] == [a, b, c];
    RunNothing();
    RunSnoc([], a);
    RunSnoc([a], b);
    RunSnoc([a, b], c);
    FirstIsSubmitted();
    FirstIsAcked();
    EarlierIsInserted();
    var t := Run([a, b, c]).value;
    PrefixLenIs(t.order, t.batches, 0);
  }

  lemma RunNothing()
    ensures Run([]) == Some(INIT)
  {
  }

  ghost function OneBatch(done: bool): map<nat, Batch> {
    map[1 := Batch(2, 7, 100, done, done)]
  }

  lemma FirstIsSubmitted()
    ensures Step(INIT, Submit(1, 2, 7, 100)) == Some(State(0, false, None, Some(7), [1], OneBatch(false)))
  {
    hide PrefixLen, StableSort;
    assert [] + [1] == [1];
    StableSortKeepsSorted([1], OneBatch(false));
  }

  lemma FirstIsAcked()
    ensures Step(State(0, false, None, Some(7), [1], OneBatch(false)), Resolve(1, 7, Delivered, true, Some(100)))
            == Some(State(100, true, None, Some(7), [1], OneBatch(true)))
  {
    hide PrefixLen, StableSort;
    PrefixLenIs([1], OneBatch(true), 1);
    assert OneBatch(false)[1 := Batch(2, 7, 100, true, true)] == OneBatch(true);
  }

  lemma EarlierIsInserted()
    ensures Step(State(100, true, None, Some(7), [1], OneBatch(true)), Submit(2, 1, 7, 50))
            == Some(State(100, true, None, Some(7), [2, 1], OneBatch(true)[2 := Batch(1, 7, 50, false, false)]))
  {
    hide PrefixLen, StableSort;
    var batches := OneBatch(true)[2 := Batch(1, 7, 50, false, false)];
    assert [1] + [2] == [1, 2];
    assert Insert([1], 2, batches) == [2, 1] by {
      assert [1][..0] == [];
    }
    StableSortKeepsSorted([1], batches);
    SortSnoc([1], 2, batches);
  }
}

/** The pipeline machine against the checker's model: which of its histories the checker accepts. */
module Linearizability {
  import opened Options
  import P = Pipeline
  import M = Checkpoint

  type Lane = P.Lane<nat>

  const SOURCE: nat := 0

  /** What happens to the batches of one source. */
  datatype Event =
    | Send(id: nat, offset: nat)
    | Ack(id: nat, outcome: M.Outcome)
    | Hold(id: nat, outcome: M.Outcome)

  /** The machine; a held batch stays in flight. */
  ghost function LaneStep(lane: Lane, e: Event): Lane {
    match e
    case Send(id, offset) => P.SendLane(lane, id, offset)
    case Ack(id, _) => P.AckLane(lane, id)
    case Hold(_, _) => lane
  }

  /** The operation recorded for an event, `sends` batches having been submitted before it. */
  ghost function Record(lane: Lane, e: Event, sends: nat): M.Op {
    match e
    case Send(id, offset) => M.Submit(id, sends + 1, SOURCE, offset)
    case Ack(id, outcome) =>
      M.Resolve(id, SOURCE, outcome, true, if P.Advances(lane, id) then P.AckLane(lane, id).committed else None)
    case Hold(id, outcome) => M.Resolve(id, SOURCE, outcome, false, None)
  }

  ghost function LaneAfter(events: seq<Event>): Lane {
    if |events| == 0 then P.Lane(map[], map[], None)
    else LaneStep(LaneAfter(events[..|events| - 1]), events[|events| - 1])
  }

  /** The offsets sent, in the order of sending. */
  ghost function Offsets(events: seq<Event>): seq<nat> {
    if |events| == 0 then []
    else
      var e := events[|events| - 1];
      Offsets(events[..|events| - 1]) + if e.Send? then [e.offset] else []
  }

  /** The history that the machine leaves behind. */
  ghost function History(events: seq<Event>): seq<M.Op> {
    if |events| == 0 then []
    else
      var before := events[..|events| - 1];
      History(before) + [Record(LaneAfter(before), events[|events| - 1], |Offsets(before)|)]
  }

  // ----- The runs that the machine's tickets allow -----

  ghost predicate WasSent(events: seq<Event>, id: nat) {
    exists i :: 0 <= i < |events| && events[i].Send? && events[i].id == id
  }

  ghost predicate WasResolved(events: seq<Event>, id: nat) {
    exists i :: 0 <= i < |events| && !events[i].Send? && events[i].id == id
  }

  /** Batches are sent in the order of their ids, and a batch gets one outcome, after it was sent. */
  ghost predicate Allowed(events: seq<Event>, e: Event) {
    match e
    case Send(id, _) => forall k: nat :: WasSent(events, k) ==> k < id
    case Ack(id, outcome) => WasSent(events, id) && !WasResolved(events, id) && M.IsAckable(outcome)
    case Hold(id, outcome) =>
      WasSent(events, id) && !WasResolved(events, id) && !M.IsAckable(outcome) && !outcome.Unknown?
  }

  /** A batch that was sent and has no outcome yet is acked when delivered or rejected, and held after a failure. */
  lemma OutcomesSplit(events: seq<Event>, id: nat, outcome: M.Outcome)
    requires WasSent(events, id) && !WasResolved(events, id)
    ensures Allowed(events, Ack(id, outcome)) <==> outcome == M.Delivered || outcome == M.Rejected
    ensures Allowed(events, Hold(id, outcome)) <==>
            outcome != M.Delivered && outcome != M.Rejected && outcome != M.Unknown
  {
    hide WasSent, WasResolved;
  }

  ghost predicate Proper(events: seq<Event>) {
    |events| == 0 || (Proper(events[..|events| - 1]) && Allowed(events[..|events| - 1], events[|events| - 1]))
  }

  /** Each offset is greater than the one before it, and the first is past the start of the input. */
  ghost predicate Growing(offsets: seq<nat>) {
    && (forall i, j :: 0 <= i < j < |offsets| ==> offsets[i] < offsets[j])
    && (forall i :: 0 <= i < |offsets| ==> offsets[i] > 0)
  }

  // ----- The relation between the two states -----

  ghost predicate Increasing(order: seq<nat>) {
    forall i, j :: 0 <= i < j < |order| ==> order[i] < order[j]
  }

  /** The order lists exactly the batches, by id. */
  ghost predicate Listed(order: seq<nat>, batches: map<nat, M.Batch>) {
    Increasing(order) && M.Known(order, batches) && forall id :: id in batches ==> id in order
  }

  ghost predicate OneSource(s: M.State) {
    && (s.sourceId == None || s.sourceId == Some(SOURCE))
    && (forall id :: id in s.batches ==> s.batches[id].sourceId == SOURCE && s.batches[id].submitSeq <= |s.order|)
  }

  ghost predicate Open(id: nat, batches: map<nat, M.Batch>) {
    id in batches && !M.Acked(batches[id])
  }

  /** What is in flight is what is not acked. */
  ghost predicate SameFlights(flights: map<nat, nat>, batches: map<nat, M.Batch>) {
    && (forall id :: id in flights <==> Open(id, batches))
    && (forall id :: id in flights ==> flights[id] == batches[id].offset)
  }

  /** What is pending is what is acked behind something in flight. */
  ghost predicate SamePending(pending: map<nat, nat>, flights: map<nat, nat>, batches: map<nat, M.Batch>) {
    && (forall id :: id in pending <==> id in batches && M.Acked(batches[id]) && P.Blocked(id, flights))
    && (forall id :: id in pending ==> pending[id] == batches[id].offset)
  }

  ghost function Watermark(s: M.State): Option<nat> {
    if s.hasCommitted then Some(s.committed) else None
  }

  ghost predicate Matches(lane: Lane, s: M.State) {
    && Listed(s.order, s.batches) && M.Tracks(s) && OneSource(s)
    && SameFlights(lane.flights, s.batches) && SamePending(lane.pending, lane.flights, s.batches)
    && lane.committed == Watermark(s)
  }

  lemma MatchesInitially()
    ensures Matches(P.Lane(map[], map[], None), M.INIT)
  {
    M.InitTracks();
  }

  // ----- Sends -----

  lemma ListedSnoc(order: seq<nat>, batches: map<nat, M.Batch>, id: nat, batch: M.Batch)
    requires Listed(order, batches) && forall k :: k in batches ==> k < id
    ensures Listed(order + [id], batches[id := batch])
  {
    assert forall i :: 0 <= i < |order| ==> order[i] in order && (order + [id])[i] == order[i];
    forall k | k in batches[id := batch] ensures k in order + [id] {
      if k == id {
        assert (order + [id])[|order|] == id;
      } else {
        assert k in order;
      }
    }
  }

  lemma BlockedByNew(flights: map<nat, nat>, id: nat, offset: nat, k: nat)
    requires k < id
    ensures P.Blocked(k, flights[id := offset]) <==> P.Blocked(k, flights)
  {
    if P.Blocked(k, flights) {
      var j :| j in flights && j < k;
      assert j in flights[id := offset];
    }
  }

  lemma PendingAfterSend(lane: Lane, batches: map<nat, M.Batch>, id: nat, offset: nat, batch: M.Batch)
    requires SamePending(lane.pending, lane.flights, batches) && !M.Acked(batch)
    requires forall k :: k in batches ==> k < id
    ensures SamePending(lane.pending, lane.flights[id := offset], batches[id := batch])
  {
    hide P.Blocked;
    forall k | k in batches ensures P.Blocked(k, lane.flights[id := offset]) <==> P.Blocked(k, lane.flights) {
      BlockedByNew(lane.flights, id, offset, k);
    }
  }

  lemma SendMatches(lane: Lane, s: M.State, id: nat, offset: nat)
    requires Matches(lane, s) && forall k :: k in s.batches ==> k < id
    ensures var r := M.Step(s, M.Submit(id, |s.order| + 1, SOURCE, offset));
            r.Some? && Matches(P.SendLane(lane, id, offset), r.value) && r.value.order == s.order + [id]
            && r.value.batches == s.batches[id := M.Batch(|s.order| + 1, SOURCE, offset, false, false)]
  {
    hide M.StableSort, M.PrefixLen, M.Tracks, Listed, SamePending;
    var op := M.Submit(id, |s.order| + 1, SOURCE, offset);
    ListedKnown(s.order, s.batches);
    assert M.Step(s, op).Some?;
    M.SubmitInOrder(s, op);
    var batch := M.Batch(|s.order| + 1, SOURCE, offset, false, false);
    ListedSnoc(s.order, s.batches, id, batch);
    PendingAfterSend(lane, s.batches, id, offset, batch);
  }

  lemma ListedKnown(order: seq<nat>, batches: map<nat, M.Batch>)
    requires Listed(order, batches)
    ensures M.Known(order, batches)
  {
  }

  // ----- Outcomes -----

  /** In an increasing order, a batch is blocked exactly when it stands behind the first open one. */
  lemma BlockedByIndex(order: seq<nat>, batches: map<nat, M.Batch>, flights: map<nat, nat>, i: nat)
    requires Listed(order, batches) && SameFlights(flights, batches) && i < |order|
    ensures P.Blocked(order[i], flights) <==> M.PrefixLen(order, batches) < i
  {
    hide M.PrefixLen;
    var n := M.PrefixLen(order, batches);
    if n < i {
      assert Open(order[n], batches) && order[n] in flights && order[n] < order[i];
    }
    if P.Blocked(order[i], flights) {
      var j :| j in flights && j < order[i];
      assert Open(j, batches) && j in order;
      var k :| 0 <= k < |order| && order[k] == j;
      assert k < i && n <= k;
    }
  }

  ghost function Resolved(batches: map<nat, M.Batch>, id: nat, ackable: bool): map<nat, M.Batch>
    requires id in batches
  {
    batches[id := batches[id].(resolved := true, ackable := ackable)]
  }

  lemma ListedResolved(order: seq<nat>, batches: map<nat, M.Batch>, id: nat, ackable: bool)
    requires Listed(order, batches) && id in batches
    ensures Listed(order, Resolved(batches, id, ackable))
  {
  }

  lemma FlightsAfterAck(flights: map<nat, nat>, batches: map<nat, M.Batch>, id: nat)
    requires SameFlights(flights, batches) && id in flights
    ensures id in batches && SameFlights(flights - {id}, Resolved(batches, id, true))
  {
    assert Open(id, batches);
  }

  /** What the commit loop takes after the ack of `id` is what the acked prefix gains. */
  lemma FreeByIndex(lane: Lane, order: seq<nat>, batches: map<nat, M.Batch>, id: nat, i: nat)
    requires Listed(order, batches) && SameFlights(lane.flights, batches)
    requires SamePending(lane.pending, lane.flights, batches)
    requires id in lane.flights && id in batches && i < |order|
    requires M.Known(order, batches) && M.Known(order, Resolved(batches, id, true))
    ensures order[i] in P.Free(P.Recorded(lane, id)) <==>
            M.PrefixLen(order, batches) <= i < M.PrefixLen(order, Resolved(batches, id, true))
  {
    hide M.PrefixLen, P.Blocked;
    var after := Resolved(batches, id, true);
    ListedResolved(order, batches, id, true);
    FlightsAfterAck(lane.flights, batches, id);
    BlockedByIndex(order, batches, lane.flights, i);
    BlockedByIndex(order, after, lane.flights - {id}, i);
    var n, m := M.PrefixLen(order, batches), M.PrefixLen(order, after);
    assert order[i] in order && Open(id, batches);
    assert order[i] in P.Recorded(lane, id).pending <==> order[i] == id || (M.Acked(batches[order[i]]) && n < i);
    if n <= i < m {
      assert M.Acked(after[order[i]]);
      assert i == n ==> !M.Acked(batches[order[i]]);
    }
    if order[i] in P.Recorded(lane, id).pending && i <= m {
      assert M.Acked(after[order[i]]);
      assert order[i] == id ==> n <= i;
    }
  }

  lemma PrefixAfterAck(order: seq<nat>, batches: map<nat, M.Batch>, id: nat)
    requires Listed(order, batches) && Open(id, batches)
    requires M.Known(order, batches) && M.Known(order, Resolved(batches, id, true))
    ensures M.PrefixLen(order, batches) <= M.PrefixLen(order, Resolved(batches, id, true))
  {
    hide M.PrefixLen;
    M.PrefixGrows(order, batches, Resolved(batches, id, true));
  }

  lemma FreeIsListed(lane: Lane, order: seq<nat>, batches: map<nat, M.Batch>, id: nat, k: nat)
    requires Listed(order, batches) && SameFlights(lane.flights, batches)
    requires SamePending(lane.pending, lane.flights, batches) && id in lane.flights
    requires k in P.Free(P.Recorded(lane, id))
    ensures k in order && k in batches && k in P.Recorded(lane, id).pending
    ensures P.Recorded(lane, id).pending[k] == batches[k].offset
  {
    assert Open(id, batches);
  }

  /** Keys that are a stretch of an increasing order. */
  lemma StretchOfOrder(keys: set<nat>, order: seq<nat>, n: nat, m: nat)
    requires Increasing(order) && n <= m <= |order| && forall k :: k in keys ==> k in order
    requires forall i: nat :: i < |order| ==> (order[i] in keys <==> n <= i < m)
    ensures if n < m then P.IsGreatest(order[m - 1], keys) else keys == {}
  {
    assert forall k :: k in keys ==> exists i: nat :: i < m && order[i] == k;
  }

  /** The ack commits exactly when the acked prefix grows, and then commits the offset that ends it. */
  lemma AckCommits(lane: Lane, order: seq<nat>, batches: map<nat, M.Batch>, id: nat)
    requires Listed(order, batches) && SameFlights(lane.flights, batches)
    requires SamePending(lane.pending, lane.flights, batches)
    requires id in lane.flights && id in batches
    requires M.Known(order, batches) && M.Known(order, Resolved(batches, id, true))
    ensures var n, m := M.PrefixLen(order, batches), M.PrefixLen(order, Resolved(batches, id, true));
            && n <= m && (P.Advances(lane, id) <==> n < m)
            && P.AckLane(lane, id).committed == if n < m then Some(batches[order[m - 1]].offset) else lane.committed
  {
    hide M.PrefixLen, P.Drain, P.Blocked, P.Free, P.IsGreatest, SamePending, SameFlights, M.Known, Open;
    var n, m := M.PrefixLen(order, batches), M.PrefixLen(order, Resolved(batches, id, true));
    var mid := P.Recorded(lane, id);
    P.DrainExact(mid);
    FlightIsOpen(lane.flights, batches, id);
    PrefixAfterAck(order, batches, id);
    forall i: nat | i < |order| ensures order[i] in P.Free(mid) <==> n <= i < m {
      FreeByIndex(lane, order, batches, id, i);
    }
    forall k: nat | k in P.Free(mid)
      ensures k in order && k in batches && k in mid.pending && mid.pending[k] == batches[k].offset
    {
      FreeIsListed(lane, order, batches, id, k);
    }
    if n < m {
      assert order[m - 1] in P.Free(mid);
    }
    StretchOfOrder(P.Free(mid), order, n, m);
  }

  lemma FlightIsOpen(flights: map<nat, nat>, batches: map<nat, M.Batch>, id: nat)
    requires SameFlights(flights, batches) && id in flights
    ensures Open(id, batches)
  {
  }

  lemma PendingAfterAck(lane: Lane, batches: map<nat, M.Batch>, id: nat)
    requires SameFlights(lane.flights, batches) && SamePending(lane.pending, lane.flights, batches)
    requires id in lane.flights && id in batches
    ensures P.AckLane(lane, id).flights == lane.flights - {id}
    ensures SamePending(P.AckLane(lane, id).pending, lane.flights - {id}, Resolved(batches, id, true))
  {
    hide P.Drain, P.Blocked, P.IsGreatest;
    var mid := P.Recorded(lane, id);
    P.DrainExact(mid);
    forall k: nat | P.Blocked(k, mid.flights) ensures P.Blocked(k, lane.flights) {
      BlockedByMore(k, mid.flights, lane.flights);
    }
  }

  lemma BlockedByMore(k: nat, fewer: map<nat, nat>, flights: map<nat, nat>)
    requires P.Blocked(k, fewer) && forall j :: j in fewer ==> j in flights
    ensures P.Blocked(k, flights)
  {
    var j :| j in fewer && j < k;
    assert j in flights;
  }

  ghost predicate IsPast(report: Option<nat>, watermark: nat) {
    report.Some? && report.value > watermark
  }

  /** The checker accepts an ack exactly when what it reports, if anything, is past the watermark. */
  lemma AckAccepted(lane: Lane, s: M.State, e: Event)
    requires Matches(lane, s) && e.Ack? && M.IsAckable(e.outcome)
    requires e.id in s.batches && !s.batches[e.id].resolved
    ensures M.Known(s.order, s.batches)
    ensures M.Step(s, Record(lane, e, |s.order|)).Some? <==>
            (P.Advances(lane, e.id) ==> IsPast(P.AckLane(lane, e.id).committed, s.committed))
    ensures M.Step(s, Record(lane, e, |s.order|)).Some? ==>
            Watermark(M.Step(s, Record(lane, e, |s.order|)).value) == P.AckLane(lane, e.id).committed
  {
    hide M.Step, M.PrefixLen, M.Sorted, P.AckLane, P.Advances, Listed, SamePending, SameFlights;
    assert Open(e.id, s.batches);
    OpenIsFlight(lane.flights, s.batches, e.id);
    ListedKnown(s.order, s.batches);
    ListedResolved(s.order, s.batches, e.id, true);
    ListedKnown(s.order, Resolved(s.batches, e.id, true));
    AckCommits(lane, s.order, s.batches, e.id);
    var op := Record(lane, e, |s.order|);
    M.ResolveVerdict(s, op);
    if M.Step(s, op).Some? {
      M.ResolveShape(s, op);
    }
  }

  lemma OpenIsFlight(flights: map<nat, nat>, batches: map<nat, M.Batch>, id: nat)
    requires SameFlights(flights, batches) && Open(id, batches)
    ensures id in flights
  {
  }

  lemma AckMatches(lane: Lane, s: M.State, e: Event)
    requires Matches(lane, s) && e.Ack? && M.IsAckable(e.outcome)
    requires e.id in s.batches && !s.batches[e.id].resolved
    requires M.Known(s.order, s.batches) && M.Step(s, Record(lane, e, |s.order|)).Some?
    ensures var t := M.Step(s, Record(lane, e, |s.order|)).value;
            Matches(P.AckLane(lane, e.id), t) && t.order == s.order && t.batches == Resolved(s.batches, e.id, true)
  {
    hide M.StableSort, M.PrefixLen, M.Tracks, P.AckLane, P.Advances, Listed, SamePending, SameFlights;
    assert Open(e.id, s.batches);
    OpenIsFlight(lane.flights, s.batches, e.id);
    ListedResolved(s.order, s.batches, e.id, true);
    FlightsAfterAck(lane.flights, s.batches, e.id);
    PendingAfterAck(lane, s.batches, e.id);
    AckAccepted(lane, s, e);
    M.ResolveTracks(s, Record(lane, e, |s.order|));
  }

  /** A held batch moves nothing, and the checker accepts that. */
  lemma HoldMatches(lane: Lane, s: M.State, e: Event)
    requires Matches(lane, s) && e.Hold? && !M.IsAckable(e.outcome) && !e.outcome.Unknown?
    requires e.id in s.batches && !s.batches[e.id].resolved
    ensures M.Known(s.order, s.batches) && M.Step(s, Record(lane, e, |s.order|)).Some?
    ensures var t := M.Step(s, Record(lane, e, |s.order|)).value;
            Matches(lane, t) && t.order == s.order && t.batches == Resolved(s.batches, e.id, false)
  {
    hide M.Step, M.PrefixLen, M.Tracks, Listed, SamePending, SameFlights;
    var op := Record(lane, e, |s.order|);
    ListedKnown(s.order, s.batches);
    ListedResolved(s.order, s.batches, e.id, false);
    HoldAccepted(s, op);
    HeldIsSame(lane, s.batches, e.id);
    M.ResolveTracks(s, op);
  }

  lemma HoldAccepted(s: M.State, op: M.Op)
    requires M.Known(s.order, s.batches) && M.Tracks(s)
    requires op.Resolve? && !op.ackable && !M.IsAckable(op.outcome) && !op.outcome.Unknown? && op.advancedTo.None?
    requires op.batchId in s.batches && !s.batches[op.batchId].resolved && s.batches[op.batchId].sourceId == op.sourceId
    ensures M.Step(s, op) == Some(s.(batches := Resolved(s.batches, op.batchId, false)))
  {
    hide M.StableSort, M.PrefixLen, M.Sorted;
    var after := Resolved(s.batches, op.batchId, false);
    assert forall i :: 0 <= i < |s.order| ==> s.order[i] in s.order;
    M.PrefixLenIs(s.order, after, M.PrefixLen(s.order, s.batches));
  }

  lemma HeldIsSame(lane: Lane, batches: map<nat, M.Batch>, id: nat)
    requires SameFlights(lane.flights, batches) && SamePending(lane.pending, lane.flights, batches)
    requires id in batches && !batches[id].resolved
    ensures SameFlights(lane.flights, Resolved(batches, id, false))
    ensures SamePending(lane.pending, lane.flights, Resolved(batches, id, false))
  {
    assert forall k :: Open(k, Resolved(batches, id, false)) <==> Open(k, batches);
  }

  // ----- Runs -----

  /** The model's batches are those that the events sent and resolved, with their offsets. */
  ghost predicate Accounts(s: M.State, events: seq<Event>) {
    && HasOffsets(s.order, s.batches, Offsets(events))
    && (forall id :: id in s.batches <==> WasSent(events, id))
    && (forall id :: id in s.batches && s.batches[id].resolved <==> WasResolved(events, id))
  }

  ghost predicate HasOffsets(order: seq<nat>, batches: map<nat, M.Batch>, offsets: seq<nat>) {
    && |order| == |offsets|
    && forall i :: 0 <= i < |order| ==> order[i] in batches && batches[order[i]].offset == offsets[i]
  }

  lemma SnocFacts(events: seq<Event>, e: Event)
    ensures forall id: nat :: WasSent(events + [e], id) <==> WasSent(events, id) || (e.Send? && e.id == id)
    ensures forall id: nat :: WasResolved(events + [e], id) <==> WasResolved(events, id) || (!e.Send? && e.id == id)
    ensures Proper(events + [e]) <==> Proper(events) && Allowed(events, e)
    ensures LaneAfter(events + [e]) == LaneStep(LaneAfter(events), e)
    ensures Offsets(events + [e]) == Offsets(events) + if e.Send? then [e.offset] else []
    ensures History(events + [e]) == History(events) + [Record(LaneAfter(events), e, |Offsets(events)|)]
  {
    hide LaneStep, Record, Allowed, WasSent, WasResolved;
    SnocWas(events, e);
    var all := events + [e];
    assert all[..|all| - 1] == events && all[|events|] == e;
  }

  lemma SnocWas(events: seq<Event>, e: Event)
    ensures forall id: nat :: WasSent(events + [e], id) <==> WasSent(events, id) || (e.Send? && e.id == id)
    ensures forall id: nat :: WasResolved(events + [e], id) <==> WasResolved(events, id) || (!e.Send? && e.id == id)
    ensures Offsets(events + [e]) == Offsets(events) + if e.Send? then [e.offset] else []
  {
    var all := events + [e];
    assert all[..|all| - 1] == events && all[|events|] == e;
    assert forall i :: 0 <= i < |events| ==> all[i] == events[i];
  }

  /** The step that an event takes in both systems. */
  lemma StepMatches(events: seq<Event>, e: Event, s: M.State)
    requires Matches(LaneAfter(events), s) && Accounts(s, events) && Allowed(events, e)
    ensures M.Known(s.order, s.batches)
    ensures var lane, r := LaneAfter(events), M.Step(s, Record(LaneAfter(events), e, |Offsets(events)|));
            && (r.Some? <==> (e.Ack? && P.Advances(lane, e.id) ==> IsPast(LaneStep(lane, e).committed, s.committed)))
            && (r.Some? ==> Matches(LaneStep(lane, e), r.value) && Accounts(r.value, events + [e]))
  {
    hide M.Step, Matches, P.AckLane, P.Advances, P.SendLane, WasSent, WasResolved;
    var lane := LaneAfter(events);
    MatchesKnown(lane, s);
    var r := M.Step(s, Record(lane, e, |Offsets(events)|));
    match e {
      case Send(id, offset) => SendMatches(lane, s, id, offset);
      case Ack(_, _) =>
        AckAccepted(lane, s, e);
        if r.Some? {
          AckMatches(lane, s, e);
        }
      case Hold(_, _) => HoldMatches(lane, s, e);
    }
    if r.Some? {
      AccountsStep(events, e, s, r.value);
    }
  }

  lemma AccountsStep(events: seq<Event>, e: Event, s: M.State, t: M.State)
    requires Accounts(s, events) && Allowed(events, e)
    requires e.Send? ==> t.order == s.order + [e.id]
                         && t.batches == s.batches[e.id := M.Batch(|s.order| + 1, SOURCE, e.offset, false, false)]
    requires !e.Send? ==> t.order == s.order && e.id in s.batches && t.batches == Resolved(s.batches, e.id, e.Ack?)
    ensures Accounts(t, events + [e])
  {
    hide WasSent, WasResolved, Offsets, HasOffsets;
    SnocWas(events, e);
    OffsetsStep(s, t, e, Offsets(events));
  }

  lemma OffsetsStep(s: M.State, t: M.State, e: Event, offsets: seq<nat>)
    requires HasOffsets(s.order, s.batches, offsets)
    requires e.Send? ==> e.id !in s.batches && t.order == s.order + [e.id]
                         && t.batches == s.batches[e.id := M.Batch(|s.order| + 1, SOURCE, e.offset, false, false)]
    requires !e.Send? ==> t.order == s.order && e.id in s.batches && t.batches == Resolved(s.batches, e.id, e.Ack?)
    ensures HasOffsets(t.order, t.batches, offsets + if e.Send? then [e.offset] else [])
  {
  }

  lemma MatchesKnown(lane: Lane, s: M.State)
    requires Matches(lane, s)
    ensures M.Known(s.order, s.batches) && lane.committed == Watermark(s)
  {
  }

  /** As long as the checker accepts, it and the machine agree on every batch and on the checkpoint. */
  lemma {:induction false} RunMatches(events: seq<Event>)
    requires Proper(events) && M.Run(History(events)).Some?
    ensures Matches(LaneAfter(events), M.Run(History(events)).value)
    ensures Accounts(M.Run(History(events)).value, events)
    ensures LaneAfter(events).committed == Watermark(M.Run(History(events)).value)
    decreases |events|
  {
    hide M.Step, Matches, Accounts, LaneAfter, History, Offsets, Proper, Record, LaneStep, P.AckLane, P.Advances, M.Run;
    if |events| == 0 {
      NothingMatches();
    } else {
      var before, e := events[..|events| - 1], events[|events| - 1];
      assert events == before + [e];
      SnocFacts(before, e);
      M.RunSnoc(History(before), Record(LaneAfter(before), e, |Offsets(before)|));
      RunMatches(before);
      StepMatches(before, e, M.Run(History(before)).value);
    }
    MatchesKnown(LaneAfter(events), M.Run(History(events)).value);
  }

  lemma NothingMatches()
    ensures M.Run(History([])) == Some(M.INIT)
    ensures Matches(LaneAfter([]), M.INIT) && Accounts(M.INIT, [])
  {
    MatchesInitially();
  }

  /** The checker rejects an event exactly when the machine reports an advance that is not past the last one. */
  lemma AcceptedExactly(events: seq<Event>, e: Event)
    requires Proper(events + [e]) && M.Run(History(events)).Some?
    ensures M.Run(History(events + [e])).Some? <==>
            (e.Ack? && P.Advances(LaneAfter(events), e.id) ==>
              IsPast(LaneAfter(events + [e]).committed, M.Run(History(events)).value.committed))
  {
    hide M.Step, Matches, Accounts, LaneAfter, History, Offsets, Proper, Record, LaneStep, P.AckLane, P.Advances, M.Run;
    SnocFacts(events, e);
    RunMatches(events);
    M.RunSnoc(History(events), Record(LaneAfter(events), e, |Offsets(events)|));
    StepMatches(events, e, M.Run(History(events)).value);
  }

  // ----- Which offsets are safe -----

  /** With growing offsets every advance is past the watermark. */
  lemma AckPast(lane: Lane, s: M.State, id: nat, offsets: seq<nat>)
    requires Matches(lane, s) && HasOffsets(s.order, s.batches, offsets) && Growing(offsets)
    requires id in lane.flights && P.Advances(lane, id)
    ensures IsPast(P.AckLane(lane, id).committed, s.committed)
  {
    hide M.PrefixLen, P.AckLane, P.Advances, SamePending, SameFlights;
    FlightIsOpen(lane.flights, s.batches, id);
    ListedKnown(s.order, s.batches);
    ListedResolved(s.order, s.batches, id, true);
    ListedKnown(s.order, Resolved(s.batches, id, true));
    AckCommits(lane, s.order, s.batches, id);
  }

  /** With growing offsets the checker accepts every run of the machine, and both hold the same checkpoint. */
  lemma {:induction false} GrowingOffsetsAccepted(events: seq<Event>)
    requires Proper(events) && Growing(Offsets(events))
    ensures M.Run(History(events)).Some?
    ensures LaneAfter(events).committed == Watermark(M.Run(History(events)).value)
    decreases |events|
  {
    hide M.Step, Matches, LaneAfter, History, Offsets, Proper, Record, LaneStep, P.AckLane, P.Advances, M.Run;
    if |events| == 0 {
      NothingMatches();
    } else {
      var before, e := events[..|events| - 1], events[|events| - 1];
      assert events == before + [e];
      SnocFacts(before, e);
      assert Growing(Offsets(before)) by {
        assert forall i :: 0 <= i < |Offsets(before)| ==> Offsets(before)[i] == Offsets(events)[i];
      }
      GrowingOffsetsAccepted(before);
      RunMatches(before);
      AcceptedExactly(before, e);
      if e.Ack? && P.Advances(LaneAfter(before), e.id) {
        AdvancesFlight(LaneAfter(before), e.id);
        AckPast(LaneAfter(before), M.Run(History(before)).value, e.id, Offsets(before));
        assert LaneStep(LaneAfter(before), e) == P.AckLane(LaneAfter(before), e.id) by {
          StepIsAck(LaneAfter(before), e);
        }
      }
    }
    RunMatches(events);
  }

  lemma {:induction false} HistoryPrefix(events: seq<Event>, k: nat)
    requires k <= |events|
    ensures |History(events)| == |events| && History(events)[..k] == History(events[..k])
    ensures Proper(events) ==> Proper(events[..k])
    ensures Offsets(events[..k]) <= Offsets(events)
    decreases |events|
  {
    hide Record, Allowed, LaneAfter;
    if |events| > 0 {
      HistoryPrefix(events[..|events| - 1], if k < |events| then k else 0);
    }
    if k == |events| {
      assert events[..k] == events && History(events)[..k] == History(events);
    } else {
      assert events[..|events| - 1][..k] == events[..k];
    }
  }

  ghost predicate NotBack(was: Option<nat>, now: Option<nat>) {
    was.Some? ==> now.Some? && was.value <= now.value
  }

  /** So with growing offsets the machine's checkpoint is never unset and never moves back, over any run. */
  lemma GrowingNeverGoesBack(events: seq<Event>, k: nat)
    requires Proper(events) && Growing(Offsets(events)) && k <= |events|
    ensures NotBack(LaneAfter(events[..k]).committed, LaneAfter(events).committed)
  {
    hide LaneAfter, History, M.Run, Offsets, Proper;
    HistoryPrefix(events, k);
    var all, part := Offsets(events), Offsets(events[..k]);
    assert Growing(part) by {
      assert forall i :: 0 <= i < |part| ==> part[i] == all[i];
    }
    GrowingOffsetsAccepted(events);
    GrowingOffsetsAccepted(events[..k]);
    M.RunNeverGoesBack(History(events), k);
  }

  lemma AdvancesFlight(lane: Lane, id: nat)
    requires P.Advances(lane, id)
    ensures id in lane.flights
  {
  }

  lemma StepIsAck(lane: Lane, e: Event)
    requires e.Ack?
    ensures LaneStep(lane, e) == P.AckLane(lane, e.id)
  {
  }

  // ----- The run that sends everything and acks it in order -----

  ghost function SendAll(offsets: seq<nat>): seq<Event> {
    if |offsets| == 0 then []
    else SendAll(offsets[..|offsets| - 1]) + [Send(|offsets| - 1, offsets[|offsets| - 1])]
  }

  ghost function SendAndAck(offsets: seq<nat>, acks: nat): seq<Event> {
    if acks == 0 then SendAll(offsets) else SendAndAck(offsets, acks - 1) + [Ack(acks - 1, M.Delivered)]
  }

  /** The lane while `acks` of the batches are acked. */
  ghost function LaneInOrder(offsets: seq<nat>, acks: nat): Lane
    requires acks <= |offsets|
  {
    P.Lane(map i: nat | acks <= i < |offsets| :: offsets[i], map[], if acks == 0 then None else Some(offsets[acks - 1]))
  }

  lemma {:induction false} SendAllIs(offsets: seq<nat>)
    ensures var events := SendAll(offsets);
            && Proper(events) && Offsets(events) == offsets && LaneAfter(events) == LaneInOrder(offsets, 0)
            && (forall id: nat :: WasSent(events, id) <==> id < |offsets|)
            && (forall id: nat :: !WasResolved(events, id))
            && M.Run(History(events)).Some?
    decreases |offsets|
  {
    hide History, Record, M.Step, M.Run, P.Advances, P.SendLane, P.AckLane, Proper, LaneAfter, LaneInOrder, Offsets,
      WasSent, WasResolved;
    if |offsets| == 0 {
      NothingMatches();
      NothingHappened();
    } else {
      var n := |offsets| - 1;
      var before, e := SendAll(offsets[..n]), Send(n, offsets[n]);
      SendAllIs(offsets[..n]);
      SnocFacts(before, e);
      assert offsets == offsets[..n] + [offsets[n]];
      SendNewest(offsets);
      AcceptedExactly(before, e);
    }
  }

  lemma NothingHappened()
    ensures Proper([]) && Offsets([]) == [] && LaneAfter([]) == LaneInOrder([], 0)
    ensures forall id :: !WasSent([], id) && !WasResolved([], id)
  {
    assert LaneInOrder([], 0).flights == map[];
  }

  lemma SendNewest(offsets: seq<nat>)
    requires |offsets| > 0
    ensures var n := |offsets| - 1;
            P.SendLane(LaneInOrder(offsets[..n], 0), n, offsets[n]) == LaneInOrder(offsets, 0)
  {
    var n := |offsets| - 1;
    assert LaneInOrder(offsets, 0).flights == LaneInOrder(offsets[..n], 0).flights[n := offsets[n]];
  }

  /** Acking the oldest batch commits it, and nothing else. */
  lemma AckOldest(offsets: seq<nat>, k: nat)
    requires k < |offsets|
    ensures P.Advances(LaneInOrder(offsets, k), k)
    ensures P.AckLane(LaneInOrder(offsets, k), k) == LaneInOrder(offsets, k + 1)
  {
    hide P.Drain;
    var lane := LaneInOrder(offsets, k);
    var mid := P.Recorded(lane, k);
    P.DrainExact(mid);
    assert P.Free(mid) == {k};
    assert P.IsGreatest(k, P.Free(mid));
    assert mid.pending - {k} == map[];
    assert mid.flights == LaneInOrder(offsets, k + 1).flights;
  }

  lemma {:induction false} SendAndAckIs(offsets: seq<nat>, k: nat)
    requires k <= |offsets|
    ensures var events := SendAndAck(offsets, k);
            && Proper(events) && Offsets(events) == offsets && LaneAfter(events) == LaneInOrder(offsets, k)
            && (forall id: nat :: WasSent(events, id) <==> id < |offsets|)
            && (forall id: nat :: WasResolved(events, id) <==> id < k)
  {
    hide LaneInOrder, P.AckLane, P.Advances, LaneAfter, WasSent, WasResolved, Offsets, Proper;
    if k == 0 {
      SendAllIs(offsets);
    } else {
      SendAndAckIs(offsets, k - 1);
      SnocFacts(SendAndAck(offsets, k - 1), Ack(k - 1, M.Delivered));
      AckOldest(offsets, k - 1);
    }
  }

  lemma GrowingSnoc(offsets: seq<nat>, k: nat)
    requires k < |offsets|
    ensures Growing(offsets[..k + 1]) <==> Growing(offsets[..k]) && offsets[k] > if k == 0 then 0 else offsets[k - 1]
  {
    assert offsets[..k + 1] == offsets[..k] + [offsets[k]];
    assert k > 0 ==> offsets[..k + 1][k - 1] == offsets[k - 1];
  }

  /** Acked in order, the first `k` batches are accepted exactly when their offsets grow. */
  lemma {:induction false} AckedInOrder(offsets: seq<nat>, k: nat)
    requires k <= |offsets|
    ensures M.Run(History(SendAndAck(offsets, k))).Some? <==> Growing(offsets[..k])
  {
    hide LaneAfter, History, M.Run, M.Step, P.AckLane, P.Advances, Record, Offsets, Proper, Matches, Accounts, Growing;
    if k == 0 {
      SendAllIs(offsets);
      assert Growing(offsets[..0]) by { GrowsEmpty(offsets[..0]); }
    } else {
      var before, e := SendAndAck(offsets, k - 1), Ack(k - 1, M.Delivered);
      SendAndAckIs(offsets, k - 1);
      SendAndAckIs(offsets, k);
      AckedInOrder(offsets, k - 1);
      GrowingSnoc(offsets, k - 1);
      AckOldest(offsets, k - 1);
      SnocFacts(before, e);
      M.RunSnoc(History(before), Record(LaneAfter(before), e, |Offsets(before)|));
      if M.Run(History(before)).Some? {
        AcceptedExactly(before, e);
        RunMatches(before);
        M.RunIsSound(History(before));
      }
    }
  }

  lemma GrowsEmpty(offsets: seq<nat>)
    requires |offsets| == 0
    ensures Growing(offsets)
  {
  }

  /**
    * The checker accepts every run that sends these offsets, in whatever order the acks come, exactly when they grow.
    */
  lemma AcceptedInEveryOrder(offsets: seq<nat>)
    ensures (forall events :: Proper(events) && Offsets(events) == offsets ==> M.Run(History(events)).Some?) <==>
      Growing(offsets)
  {
    hide LaneAfter, History, M.Run, Offsets, Proper, Growing;
    if Growing(offsets) {
      forall events | Proper(events) && Offsets(events) == offsets ensures M.Run(History(events)).Some? {
        GrowingOffsetsAccepted(events);
      }
    } else {
      var events := SendAndAck(offsets, |offsets|);
      SendAndAckIs(offsets, |offsets|);
      AckedInOrder(offsets, |offsets|);
      assert offsets[..|offsets|] == offsets;
      assert Proper(events) && Offsets(events) == offsets && M.Run(History(events)).None?;
    }
  }

  // ----- Which offsets keep the checkpoint from moving back -----

  ghost predicate NeverFalls(offsets: seq<nat>) {
    forall i, j :: 0 <= i < j < |offsets| ==> offsets[i] <= offsets[j]
  }

  /** The same events, every send carrying its position among the sends instead of its offset. */
  ghost function Ranked(events: seq<Event>): (r: seq<Event>)
    ensures |r| == |events|
  {
    if |events| == 0 then []
    else
      var before, e := events[..|events| - 1], events[|events| - 1];
      Ranked(before) + [if e.Send? then Send(e.id, |Offsets(before)| + 1) else e]
  }

  ghost function RankAll(n: nat): seq<nat> {
    seq(n, i => i + 1)
  }

  lemma RankedSnoc(events: seq<Event>, e: Event)
    ensures Ranked(events + [e]) == Ranked(events) + [if e.Send? then Send(e.id, |Offsets(events)| + 1) else e]
  {
    assert (events + [e])[..|events|] == events;
  }

  lemma {:induction false} RankedIs(events: seq<Event>)
    ensures Offsets(Ranked(events)) == RankAll(|Offsets(events)|)
    ensures forall id :: WasSent(Ranked(events), id) <==> WasSent(events, id)
    ensures forall id :: WasResolved(Ranked(events), id) <==> WasResolved(events, id)
    ensures Proper(events) ==> Proper(Ranked(events))
    decreases |events|
  {
    hide LaneAfter, History, Offsets, Proper, WasSent, WasResolved;
    if |events| == 0 {
      NothingHappened();
      assert RankAll(0) == [];
    } else {
      var before, e := events[..|events| - 1], events[|events| - 1];
      assert events == before + [e];
      RankedIs(before);
      SnocFacts(before, e);
      SnocFacts(Ranked(before), if e.Send? then Send(e.id, |Offsets(before)| + 1) else e);
      assert e.Send? ==> RankAll(|Offsets(before)| + 1) == RankAll(|Offsets(before)|) + [|Offsets(before)| + 1];
    }
  }

  lemma {:induction false} RankedPrefix(events: seq<Event>, k: nat)
    requires k <= |events|
    ensures Ranked(events)[..k] == Ranked(events[..k])
    decreases |events|
  {
    if k == |events| {
      assert events[..k] == events;
    } else {
      RankedPrefix(events[..|events| - 1], k);
      assert events[..|events| - 1][..k] == events[..k];
    }
  }

  /** The lane under other checkpoints. */
  ghost predicate Renamed(lane: Lane, ranked: Lane, offsets: seq<nat>) {
    && RenamedMap(lane.flights, ranked.flights, offsets) && RenamedMap(lane.pending, ranked.pending, offsets)
    && RenamedOption(lane.committed, ranked.committed, offsets)
  }

  ghost predicate RenamedMap(m: map<nat, nat>, ranked: map<nat, nat>, offsets: seq<nat>) {
    m.Keys == ranked.Keys && forall k :: k in m ==> IsRank(ranked[k], offsets) && m[k] == offsets[ranked[k] - 1]
  }

  ghost predicate IsRank(rank: nat, offsets: seq<nat>) {
    0 < rank <= |offsets|
  }

  ghost predicate RenamedOption(o: Option<nat>, ranked: Option<nat>, offsets: seq<nat>) {
    o.Some? == ranked.Some? && (o.Some? ==> IsRank(ranked.value, offsets) && o.value == offsets[ranked.value - 1])
  }

  lemma SameFree(lane: Lane, ranked: Lane, offsets: seq<nat>)
    requires Renamed(lane, ranked, offsets)
    ensures P.Free(lane) == P.Free(ranked)
  {
    forall k: nat ensures P.Blocked(k, lane.flights) <==> P.Blocked(k, ranked.flights) {
      assert forall j :: j in lane.flights <==> j in ranked.flights;
    }
  }

  lemma RenamedDrain(lane: Lane, ranked: Lane, offsets: seq<nat>)
    requires Renamed(lane, ranked, offsets)
    ensures Renamed(P.Drain(lane), P.Drain(ranked), offsets)
  {
    hide P.Drain, P.Free;
    P.DrainExact(lane);
    P.DrainExact(ranked);
    SameFree(lane, ranked, offsets);
    var free := P.Free(lane);
    if free != {} {
      P.GreatestExists(free);
      var k: nat :| P.IsGreatest(k, free);
      P.FreeIsPending(lane);
    }
  }

  lemma RenamedAck(lane: Lane, ranked: Lane, offsets: seq<nat>, id: nat)
    requires Renamed(lane, ranked, offsets)
    ensures Renamed(P.AckLane(lane, id), P.AckLane(ranked, id), offsets)
  {
    hide P.Drain;
    if id in lane.flights {
      RenamedDrain(P.Recorded(lane, id), P.Recorded(ranked, id), offsets);
    }
  }

  lemma RenamedLonger(lane: Lane, ranked: Lane, offsets: seq<nat>, offset: nat)
    requires Renamed(lane, ranked, offsets)
    ensures Renamed(lane, ranked, offsets + [offset])
  {
  }

  /** The machine does not look at what it carries. */
  lemma {:induction false} RankedLane(events: seq<Event>)
    ensures Renamed(LaneAfter(events), LaneAfter(Ranked(events)), Offsets(events))
    decreases |events|
  {
    hide History, LaneAfter, Offsets, Proper, P.AckLane, Renamed;
    if |events| == 0 {
      NothingRenamed();
    } else {
      var before, e := events[..|events| - 1], events[|events| - 1];
      var f := if e.Send? then Send(e.id, |Offsets(before)| + 1) else e;
      assert events == before + [e];
      RankedLane(before);
      RankedSnoc(before, e);
      SnocFacts(before, e);
      SnocFacts(Ranked(before), f);
      var lane, ranked := LaneAfter(before), LaneAfter(Ranked(before));
      assert Offsets(before) + [] == Offsets(before);
      match e {
        case Send(id, offset) => RenamedSend(lane, ranked, Offsets(before), id, offset);
        case Ack(id, _) => RenamedAck(lane, ranked, Offsets(before), id);
        case Hold(_, _) =>
      }
    }
  }

  lemma NothingRenamed()
    ensures Renamed(LaneAfter([]), LaneAfter(Ranked([])), Offsets([]))
  {
  }

  lemma RenamedSend(lane: Lane, ranked: Lane, offsets: seq<nat>, id: nat, offset: nat)
    requires Renamed(lane, ranked, offsets)
    ensures Renamed(P.SendLane(lane, id, offset), P.SendLane(ranked, id, |offsets| + 1), offsets + [offset])
  {
    RenamedLonger(lane, ranked, offsets, offset);
  }

  /** The checkpoint never moves back over the run. */
  ghost predicate StaysForward(events: seq<Event>) {
    forall k :: 0 <= k <= |events| ==> NotBack(LaneAfter(events[..k]).committed, LaneAfter(events).committed)
  }

  lemma NeverFallsStaysForward(events: seq<Event>, k: nat)
    requires Proper(events) && NeverFalls(Offsets(events)) && k <= |events|
    ensures NotBack(LaneAfter(events[..k]).committed, LaneAfter(events).committed)
  {
    hide LaneAfter, Offsets, Proper, Ranked;
    RankedIs(events);
    RankedPrefix(events, k);
    GrowingNeverGoesBack(Ranked(events), k);
    RankedLane(events);
    RankedLane(events[..k]);
    HistoryPrefix(events, k);
  }

  lemma {:induction false} FallsSomewhere(offsets: seq<nat>) returns (i: nat)
    requires !NeverFalls(offsets)
    ensures i + 1 < |offsets| && offsets[i] > offsets[i + 1]
    decreases |offsets|
  {
    var front := offsets[..|offsets| - 1];
    if !NeverFalls(front) {
      i := FallsSomewhere(front);
    } else {
      i := |offsets| - 2;
      assert forall j :: 0 <= j < |front| ==> front[j] == offsets[j];
    }
  }

  /** Sent and acked in order, a fall takes the checkpoint back. */
  lemma FallGoesBack(offsets: seq<nat>, i: nat)
    requires i + 1 < |offsets| && offsets[i] > offsets[i + 1]
    ensures var events := SendAndAck(offsets, i + 2);
            Proper(events) && Offsets(events) == offsets && !StaysForward(events)
  {
    hide LaneAfter, Offsets, Proper;
    var events, before := SendAndAck(offsets, i + 2), SendAndAck(offsets, i + 1);
    SendAndAckIs(offsets, i + 1);
    SendAndAckIs(offsets, i + 2);
    assert events[..|before|] == before;
  }

  /**
    * Whatever order the acks come in, and ties and offset 0 included: the checkpoint never moves back over any run
    * that sends these offsets exactly when they never fall.
    */
  lemma CheckpointNeverGoesBack(offsets: seq<nat>)
    ensures (forall events :: Proper(events) && Offsets(events) == offsets ==> StaysForward(events)) <==>
      NeverFalls(offsets)
  {
    hide LaneAfter, Offsets, Proper;
    if NeverFalls(offsets) {
      forall events | Proper(events) && Offsets(events) == offsets ensures StaysForward(events) {
        forall k: nat | k <= |events| ensures NotBack(LaneAfter(events[..k]).committed, LaneAfter(events).committed) {
          NeverFallsStaysForward(events, k);
        }
      }
    } else {
      var i := FallsSomewhere(offsets);
      FallGoesBack(offsets, i);
    }
  }
}

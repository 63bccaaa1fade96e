/** `PipelineMachine`: ordered batch completion and committed checkpoints, per source. */
module Pipeline {
  import opened Options

  /** What the machine holds for one source. */
  datatype Lane<C> = Lane(flights: map<nat, C>, pending: map<nat, C>, committed: Option<C>)

  // ----- Least keys -----

  ghost predicate IsLeast(k: nat, keys: set<nat>) {
    k in keys && forall j :: j in keys ==> k <= j
  }

  ghost function Least(keys: set<nat>): (k: nat)
    requires keys != {}
    ensures IsLeast(k, keys)
  {
    LeastExists(keys);
    var k :| IsLeast(k, keys);
    k
  }

  lemma {:induction false} LeastExists(keys: set<nat>)
    requires keys != {}
    ensures exists k :: IsLeast(k, keys)
    decreases |keys|
  {
    var x :| x in keys;
    if keys == {x} {
      assert IsLeast(x, keys);
    } else {
      var rest := keys - {x};
      LeastExists(rest);
      var y: nat :| IsLeast(y, rest);
      assert keys == rest + {x};
      assert IsLeast(if x < y then x else y, keys);
    }
  }

  /** `keys().next()` of an ordered map. */
  method FirstKey<C>(m: map<nat, C>) returns (k: nat)
    requires |m| > 0
    ensures IsLeast(k, m.Keys)
  {
    var keys := m.Keys;
    k :| k in keys;
    keys := keys - {k};
    while keys != {}
      invariant keys <= m.Keys && k in m
      invariant forall j :: j in m && j !in keys ==> k <= j
      decreases |keys|
    {
      var j :| j in keys;
      if j < k {
        k := j;
      }
      keys := keys - {j};
    }
  }

  // ----- One lane -----

  /** `k` is behind an earlier batch that is still in flight. */
  ghost predicate Blocked<C>(k: nat, flights: map<nat, C>) {
    exists j :: j in flights && j < k
  }

  /** Acks wait only behind an earlier batch in flight, and no batch is in both maps. */
  ghost predicate Settled<C>(lane: Lane<C>) {
    lane.flights.Keys !! lane.pending.Keys && forall k :: k in lane.pending ==> Blocked(k, lane.flights)
  }

  /** The commit loop: takes the least pending ack as long as no earlier batch is in flight. */
  ghost function Drain<C>(lane: Lane<C>): Lane<C>
    decreases |lane.pending|
  {
    if |lane.pending| == 0 then lane
    else
      var k := Least(lane.pending.Keys);
      if Blocked(k, lane.flights) then lane
      else Drain(Lane(lane.flights, lane.pending - {k}, Some(lane.pending[k])))
  }

  /** `begin_send`; a retry registers the same batch again. */
  ghost function SendLane<C>(lane: Lane<C>, id: nat, checkpoint: C): Lane<C> {
    lane.(flights := lane.flights[id := checkpoint])
  }

  /** `record_ack_and_advance`; an ack for a batch that is not in flight changes nothing. */
  ghost function AckLane<C>(lane: Lane<C>, id: nat): Lane<C> {
    if id !in lane.flights then lane
    else Drain(Recorded(lane, id))
  }

  /** The acks that the loop can take. */
  ghost function Free<C>(lane: Lane<C>): set<nat> {
    set k | k in lane.pending && !Blocked(k, lane.flights)
  }

  /** Acking `id` commits something. */
  ghost predicate Advances<C>(lane: Lane<C>, id: nat) {
    id in lane.flights && Free(Recorded(lane, id)) != {}
  }

  /** The lane in which the ack of `id` is recorded and nothing is committed yet. */
  ghost function Recorded<C>(lane: Lane<C>, id: nat): Lane<C>
    requires id in lane.flights
  {
    Lane(lane.flights - {id}, lane.pending[id := lane.flights[id]], lane.committed)
  }

  /** The ack of `id` leaves the checkpoint of batch `k` committed. */
  ghost predicate IsCommit<C>(lane: Lane<C>, id: nat, k: nat) {
    id in lane.flights && IsGreatest(k, Free(Recorded(lane, id)))
  }

  ghost predicate IsGreatest(k: nat, keys: set<nat>) {
    k in keys && forall j :: j in keys ==> j <= k
  }

  /** The loop takes exactly the acks no earlier flight blocks, and commits the checkpoint of the last of them. */
  lemma {:induction false} DrainExact<C>(lane: Lane<C>)
    ensures Drain(lane).flights == lane.flights
    ensures Drain(lane).pending == lane.pending - Free(lane)
    ensures Free(lane) == {} ==> Drain(lane).committed == lane.committed
    ensures forall k :: IsGreatest(k, Free(lane)) ==> Drain(lane).committed == Some(lane.pending[k])
    decreases |lane.pending|
  {
    hide Blocked, Free, Least;
    if |lane.pending| == 0 {
      assert lane.pending == map[];
      assert Free(lane) == {} by {
        FreeIsPending(lane);
      }
    } else {
      var k := Least(lane.pending.Keys);
      if Blocked(k, lane.flights) {
        NoneFree(lane, k);
      } else {
        var next := Lane(lane.flights, lane.pending - {k}, Some(lane.pending[k]));
        DrainExact(next);
        FreeStep(lane, next, k);
        forall i | IsGreatest(i, Free(lane)) ensures Drain(lane).committed == Some(lane.pending[i]) {
          GreatestOfRest(Free(next), k, i);
        }
      }
    }
  }

  lemma NoneFree<C>(lane: Lane<C>, k: nat)
    requires Blocked(k, lane.flights) && forall i :: i in lane.pending ==> k <= i
    ensures Free(lane) == {}
  {
    forall i | i in lane.pending ensures Blocked(i, lane.flights) {
      BlockedBehind(k, i, lane.flights);
    }
  }

  lemma FreeStep<C>(lane: Lane<C>, next: Lane<C>, k: nat)
    requires k in lane.pending && !Blocked(k, lane.flights) && forall i :: i in lane.pending ==> k <= i
    requires next.flights == lane.flights && next.pending == lane.pending - {k}
    ensures Free(lane) == Free(next) + {k} && lane.pending - Free(lane) == next.pending - Free(next)
    ensures forall i :: i in Free(next) ==> k < i && i in next.pending && next.pending[i] == lane.pending[i]
  {
    hide Blocked;
  }

  lemma BlockedBehind<C>(k: nat, i: nat, flights: map<nat, C>)
    requires Blocked(k, flights) && k <= i
    ensures Blocked(i, flights)
  {
    var j :| j in flights && j < k;
    assert j < i;
  }

  /** The greatest of a set is the greatest of what is left without its least, if anything is. */
  lemma GreatestOfRest(rest: set<nat>, least: nat, i: nat)
    requires IsGreatest(i, rest + {least}) && forall j :: j in rest ==> least < j
    ensures i in rest + {least}
    ensures if rest == {} then i == least else i in rest && IsGreatest(i, rest)
  {
    if rest != {} {
      var j :| j in rest;
      assert j in rest + {least};
    }
  }

  lemma SendSettles<C>(lane: Lane<C>, id: nat, checkpoint: C)
    requires Settled(lane) && id !in lane.pending
    ensures Settled(SendLane(lane, id, checkpoint))
  {
    var next := SendLane(lane, id, checkpoint);
    forall k | k in next.pending ensures Blocked(k, next.flights) {
      var j :| j in lane.flights && j < k;
      assert j in next.flights;
    }
  }

  lemma AckSettles<C>(lane: Lane<C>, id: nat)
    requires Settled(lane)
    ensures Settled(AckLane(lane, id))
  {
    if id in lane.flights {
      DrainExact(Recorded(lane, id));
    }
  }

  /** Once nothing is in flight nothing is pending: so "drained" needs no look at the pending acks. */
  lemma NoFlightsNoPending<C>(lane: Lane<C>)
    requires Settled(lane) && lane.flights == map[]
    ensures lane.pending == map[]
  {
    assert forall k :: k in lane.pending ==> Blocked(k, lane.flights);
    assert forall k :: k !in lane.pending;
  }

  lemma {:induction false} GreatestExists(keys: set<nat>)
    requires keys != {}
    ensures exists k :: IsGreatest(k, keys)
    decreases |keys|
  {
    var x :| x in keys;
    if keys == {x} {
      assert IsGreatest(x, keys);
    } else {
      var rest := keys - {x};
      GreatestExists(rest);
      var y: nat :| IsGreatest(y, rest);
      assert keys == rest + {x};
      assert IsGreatest(if x < y then y else x, keys);
    }
  }

  /** A commit never passes a batch in flight: what it commits was acked, and everything still in flight is later. */
  lemma AckCommitsBehindFlights<C>(lane: Lane<C>, id: nat)
    requires Settled(lane) && AckLane(lane, id).committed != lane.committed
    ensures exists k ::
      && (k in lane.pending || k == id) && k !in AckLane(lane, id).flights
      && AckLane(lane, id).committed == Some(if k == id then lane.flights[id] else lane.pending[k])
      && forall j :: j in AckLane(lane, id).flights ==> k < j
  {
    hide Drain, Settled;
    var mid := Lane(lane.flights - {id}, lane.pending[id := lane.flights[id]], lane.committed);
    DrainExact(mid);
    GreatestExists(Free(mid));
    var k: nat :| IsGreatest(k, Free(mid));
    assert k in mid.pending && !Blocked(k, mid.flights);
    assert k !in mid.flights by {
      PendingOnly(lane, id, k);
    }
    assert forall j :: j in mid.flights ==> k < j by {
      forall j | j in mid.flights ensures k < j {
        assert !(j < k) && j != k;
      }
    }
  }

  // ----- Which commits go forward -----

  /** Everything that is tracked is later than `last`. */
  ghost predicate Ahead<C>(lane: Lane<C>, last: int) {
    forall k :: k in lane.flights || k in lane.pending ==> last < k
  }

  /** A send keeps the lane ahead of the last commit exactly when its id is later. */
  lemma SendStaysAhead<C>(lane: Lane<C>, id: nat, checkpoint: C, last: int)
    requires Ahead(lane, last)
    ensures Ahead(SendLane(lane, id, checkpoint), last) <==> last < id
  {
    assert id in SendLane(lane, id, checkpoint).flights;
  }

  /**
    * On a lane ahead of the last commit, an ack that commits does so at a later batch, and the lane stays ahead of
    * that.
    */
  lemma CommitsGoForward<C>(lane: Lane<C>, id: nat, last: int)
    requires Settled(lane) && Ahead(lane, last)
    ensures !Advances(lane, id) ==> AckLane(lane, id).committed == lane.committed && Ahead(AckLane(lane, id), last)
    ensures Advances(lane, id) ==> exists k: nat :: IsCommit(lane, id, k)
    ensures forall k: nat :: IsCommit(lane, id, k) ==>
      && last < k && (k == id || k in lane.pending) && Ahead(AckLane(lane, id), k)
      && AckLane(lane, id).committed == Some(if k == id then lane.flights[id] else lane.pending[k])
  {
    hide Drain, Settled;
    if id in lane.flights {
      var mid := Recorded(lane, id);
      DrainExact(mid);
      if Free(mid) != {} {
        GreatestExists(Free(mid));
        var k: nat :| IsGreatest(k, Free(mid));
        assert IsCommit(lane, id, k);
      }
      forall k: nat | IsCommit(lane, id, k) ensures last < k && Ahead(AckLane(lane, id), k) {
        PendingOnly(lane, id, k);
        CommitLeavesLater(lane, id, k);
      }
    }
  }

  /** Everything tracked behind a commit is later than it. */
  lemma CommitLeavesLater<C>(lane: Lane<C>, id: nat, k: nat)
    requires IsCommit(lane, id, k) && k !in lane.flights - {id}
    ensures Ahead(AckLane(lane, id), k)
  {
    hide Drain;
    var mid, next := Recorded(lane, id), AckLane(lane, id);
    DrainExact(mid);
    assert k in mid.pending && !Blocked(k, mid.flights);
    forall j | j in next.flights || j in next.pending ensures k < j {
      if j in next.flights {
        assert !(j < k) && j != k;
      } else {
        assert Blocked(j, mid.flights);
        var i :| i in mid.flights && i < j;
        assert !(i < k) && i != k;
      }
    }
  }

  /** A send at or behind the last commit goes back: its ack commits it, whatever else is tracked. */
  lemma LateSendGoesBack<C>(lane: Lane<C>, id: nat, checkpoint: C, last: int)
    requires Settled(lane) && Ahead(lane, last) && id <= last
    ensures IsCommit(SendLane(lane, id, checkpoint), id, id)
    ensures AckLane(SendLane(lane, id, checkpoint), id).committed == Some(checkpoint)
  {
    hide Drain, Blocked;
    var sent := SendLane(lane, id, checkpoint);
    var mid := Recorded(sent, id);
    assert id !in lane.flights && id !in lane.pending;
    assert mid.flights == lane.flights && mid.pending == lane.pending[id := checkpoint];
    NotBlocked(lane.flights, id);
    assert Free(mid) == {id};
    DrainExact(mid);
  }

  lemma NotBlocked<C>(flights: map<nat, C>, id: nat)
    requires forall k :: k in flights ==> id < k
    ensures !Blocked(id, flights)
  {
  }

  /** What can happen to a lane. */
  datatype Op<C> = SendOp(id: nat, checkpoint: C) | AckOp(id: nat)

  ghost function LaneStep<C>(lane: Lane<C>, op: Op<C>): Lane<C> {
    match op
    case SendOp(id, checkpoint) => SendLane(lane, id, checkpoint)
    case AckOp(id) => AckLane(lane, id)
  }

  ghost function LaneAfter<C>(lane: Lane<C>, ops: seq<Op<C>>): Lane<C> {
    if |ops| == 0 then lane else LaneStep(LaneAfter(lane, ops[..|ops| - 1]), ops[|ops| - 1])
  }

  /** The batch whose checkpoint is the last one after the run, `last` if nothing was committed in it. */
  ghost function LastCommit<C>(lane: Lane<C>, last: int, ops: seq<Op<C>>): int {
    if |ops| == 0 then last
    else
      var before, op := LaneAfter(lane, ops[..|ops| - 1]), ops[|ops| - 1];
      if op.AckOp? && Advances(before, op.id) then Committing(before, op.id)
      else LastCommit(lane, last, ops[..|ops| - 1])
  }

  /** The batch whose checkpoint the ack of `id` leaves. */
  ghost function Committing<C>(lane: Lane<C>, id: nat): (k: nat)
    requires Advances(lane, id)
    ensures IsCommit(lane, id, k)
  {
    assert exists k: nat :: IsCommit(lane, id, k) by {
      GreatestExists(Free(Recorded(lane, id)));
      var j: nat :| IsGreatest(j, Free(Recorded(lane, id)));
      assert IsCommit(lane, id, j);
    }
    var k: nat :| IsCommit(lane, id, k);
    k
  }

  /** Every commit of the run is at a later batch than the one before it. */
  ghost predicate GoesForward<C>(lane: Lane<C>, last: int, ops: seq<Op<C>>) {
    |ops| == 0 ||
    var front, op := ops[..|ops| - 1], ops[|ops| - 1];
    && GoesForward(lane, last, front)
    && (op.AckOp? && Advances(LaneAfter(lane, front), op.id) ==>
        LastCommit(lane, last, front) < LastCommit(lane, last, ops))
  }

  /** A batch is not sent again once its ack is recorded: its ticket is used up. */
  ghost predicate Proper<C>(lane: Lane<C>, ops: seq<Op<C>>) {
    |ops| == 0 ||
    var front, op := ops[..|ops| - 1], ops[|ops| - 1];
    Proper(lane, front) && (op.SendOp? ==> op.id !in LaneAfter(lane, front).pending)
  }

  /** No batch is sent at or behind the commit that was the last one then. */
  ghost predicate NoLateSend<C>(lane: Lane<C>, last: int, ops: seq<Op<C>>) {
    |ops| == 0 ||
    var front, op := ops[..|ops| - 1], ops[|ops| - 1];
    NoLateSend(lane, last, front) && (op.SendOp? ==> LastCommit(lane, last, front) < op.id)
  }

  ghost function Acks<C>(ids: seq<nat>): (r: seq<Op<C>>)
    ensures |r| == |ids|
  {
    seq(|ids|, i requires 0 <= i < |ids| => AckOp(ids[i]))
  }

  lemma RunSnoc<C>(lane: Lane<C>, last: int, ops: seq<Op<C>>, op: Op<C>)
    ensures var all, before, k := ops + [op], LaneAfter(lane, ops), LastCommit(lane, last, ops);
            && LaneAfter(lane, all) == LaneStep(before, op)
            && LastCommit(lane, last, all)
               == (if op.AckOp? && Advances(before, op.id) then Committing(before, op.id) else k)
            && (GoesForward(lane, last, all) <==>
                && GoesForward(lane, last, ops)
                && (op.AckOp? && Advances(before, op.id) ==> k < LastCommit(lane, last, all)))
            && (Proper(lane, all) <==> Proper(lane, ops) && (op.SendOp? ==> op.id !in before.pending))
            && (NoLateSend(lane, last, all) <==> NoLateSend(lane, last, ops) && (op.SendOp? ==> k < op.id))
  {
    hide LaneStep, Advances, Committing;
    assert (ops + [op])[..|ops|] == ops;
  }

  /** Without a late send, everything that is tracked is past the last commit, and commits go forward. */
  lemma {:induction false} OnTimeGoesForward<C>(lane: Lane<C>, last: int, ops: seq<Op<C>>)
    requires Settled(lane) && Ahead(lane, last) && Proper(lane, ops) && NoLateSend(lane, last, ops)
    ensures Settled(LaneAfter(lane, ops)) && Ahead(LaneAfter(lane, ops), LastCommit(lane, last, ops))
    ensures GoesForward(lane, last, ops)
    decreases |ops|
  {
    hide Settled, Ahead, AckLane, SendLane, Advances, IsCommit;
    if |ops| > 0 {
      var front, op := ops[..|ops| - 1], ops[|ops| - 1];
      var before, k := LaneAfter(lane, front), LastCommit(lane, last, front);
      OnTimeGoesForward(lane, last, front);
      match op {
        case SendOp(id, checkpoint) =>
          SendStaysAhead(before, id, checkpoint, k);
          SendSettles(before, id, checkpoint);
        case AckOp(id) =>
          AckSettles(before, id);
          CommitsGoForward(before, id, k);
      }
    }
  }

  lemma {:induction false} AcksAreOnTime<C>(lane: Lane<C>, last: int, ops: seq<Op<C>>, ids: seq<nat>)
    requires Proper(lane, ops) && NoLateSend(lane, last, ops)
    ensures Proper(lane, ops + Acks(ids)) && NoLateSend(lane, last, ops + Acks(ids))
    decreases |ids|
  {
    hide LaneAfter, LastCommit, Proper, NoLateSend;
    if |ids| == 0 {
      assert ops + Acks(ids) == ops;
    } else {
      var front, id := ids[..|ids| - 1], ids[|ids| - 1];
      AcksAreOnTime(lane, last, ops, front);
      assert ops + Acks(ids) == ops + Acks(front) + [AckOp(id)];
      RunSnoc(lane, last, ops + Acks(front), AckOp(id));
    }
  }

  lemma {:induction false} PrefixIsProper<C>(lane: Lane<C>, last: int, ops: seq<Op<C>>, n: nat)
    requires n <= |ops|
    ensures Proper(lane, ops) ==> Proper(lane, ops[..n])
    ensures NoLateSend(lane, last, ops) ==> NoLateSend(lane, last, ops[..n])
    decreases |ops|
  {
    hide LaneAfter, LastCommit;
    if n == |ops| {
      assert ops[..n] == ops;
    } else {
      PrefixIsProper(lane, last, ops[..|ops| - 1], n);
      assert ops[..|ops| - 1][..n] == ops[..n];
    }
  }

  /** The first send that is late. */
  lemma {:induction false} FirstLateSend<C>(lane: Lane<C>, last: int, ops: seq<Op<C>>) returns (n: nat)
    requires !NoLateSend(lane, last, ops)
    ensures n < |ops| && NoLateSend(lane, last, ops[..n])
    ensures ops[n].SendOp? && ops[n].id <= LastCommit(lane, last, ops[..n])
    decreases |ops|
  {
    hide LaneAfter, LastCommit;
    var front := ops[..|ops| - 1];
    if NoLateSend(lane, last, front) {
      n := |ops| - 1;
    } else {
      n := FirstLateSend(lane, last, front);
      assert front[..n] == ops[..n];
    }
  }

  /** The acks that can follow at some point of the run keep its commits going forward. */
  ghost predicate ForwardFrom<C>(lane: Lane<C>, last: int, ops: seq<Op<C>>) {
    forall ids :: GoesForward(lane, last, ops + Acks(ids))
  }

  /**
    * At every point of a run, whatever is acked next and in whatever order, commits go forward in id order, exactly
    * when no batch of the run was sent at or behind the last commit.
    */
  lemma GoesForwardExactly<C>(lane: Lane<C>, last: int, ops: seq<Op<C>>)
    requires Settled(lane) && Ahead(lane, last) && Proper(lane, ops)
    ensures (forall n: nat :: n <= |ops| ==> ForwardFrom(lane, last, ops[..n])) <==> NoLateSend(lane, last, ops)
  {
    hide Settled, Ahead, LaneAfter, LastCommit, Proper, NoLateSend, GoesForward;
    if NoLateSend(lane, last, ops) {
      forall n: nat, ids | n <= |ops| ensures GoesForward(lane, last, ops[..n] + Acks(ids)) {
        PrefixIsProper(lane, last, ops, n);
        AcksAreOnTime(lane, last, ops[..n], ids);
        OnTimeGoesForward(lane, last, ops[..n] + Acks(ids));
      }
    } else {
      var n := FirstLateSend(lane, last, ops);
      PrefixIsProper(lane, last, ops, n);
      LateSendIsSeen(lane, last, ops[..n], ops[n]);
      assert ops[..n + 1] == ops[..n] + [ops[n]];
      assert !ForwardFrom(lane, last, ops[..n + 1]);
    }
  }

  /** Right after a late send, one ack takes the checkpoint back. */
  lemma LateSendIsSeen<C>(lane: Lane<C>, last: int, ops: seq<Op<C>>, op: Op<C>)
    requires Settled(lane) && Ahead(lane, last) && Proper(lane, ops) && NoLateSend(lane, last, ops)
    requires op.SendOp? && op.id <= LastCommit(lane, last, ops)
    ensures !ForwardFrom(lane, last, ops + [op])
  {
    hide Settled, Ahead, LaneAfter, LastCommit, Proper, NoLateSend, GoesForward, SendLane, AckLane, IsCommit,
      Committing;
    var before, k := LaneAfter(lane, ops), LastCommit(lane, last, ops);
    OnTimeGoesForward(lane, last, ops);
    LateSendGoesBack(before, op.id, op.checkpoint, k);
    RunSnoc(lane, last, ops, op);
    RunSnoc(lane, last, ops + [op], AckOp(op.id));
    OnlyCommit(SendLane(before, op.id, op.checkpoint), op.id, op.id);
    assert Acks<C>([op.id]) == [AckOp(op.id)];
    assert !GoesForward(lane, last, ops + [op] + Acks([op.id]));
  }

  lemma OnlyCommit<C>(lane: Lane<C>, id: nat, k: nat)
    requires IsCommit(lane, id, k)
    ensures Advances(lane, id) && Committing(lane, id) == k
  {
  }

  // ----- A late send that is not seen -----

  /** With nothing in flight, acks change nothing. */
  lemma {:induction false} IdleGoesForward<C>(lane: Lane<C>, last: int, ops: seq<Op<C>>, ids: seq<nat>)
    requires LaneAfter(lane, ops).flights == map[] && GoesForward(lane, last, ops)
    ensures GoesForward(lane, last, ops + Acks(ids)) && LaneAfter(lane, ops + Acks(ids)).flights == map[]
    decreases |ids|
  {
    hide GoesForward, LaneAfter, LastCommit;
    if |ids| == 0 {
      assert ops + Acks(ids) == ops;
    } else {
      var front, id := ids[..|ids| - 1], ids[|ids| - 1];
      IdleGoesForward(lane, last, ops, front);
      assert ops + Acks(ids) == ops + Acks(front) + [AckOp(id)];
      RunSnoc(lane, last, ops + Acks(front), AckOp(id));
    }
  }

  /** The ack of 7 waits behind 3, and the ack of 3 commits 7. */
  lemma SevenBehindThree(lane: Lane<int>)
    requires lane.flights == map[3 := 300, 7 := 700] && lane.pending == map[]
    ensures !Advances(lane, 7) && AckLane(lane, 7) == Lane(map[3 := 300], map[7 := 700], lane.committed)
    ensures IsCommit(AckLane(lane, 7), 3, 7) && AckLane(AckLane(lane, 7), 3).flights == map[]
  {
    hide Drain;
    var mid := Recorded(lane, 7);
    assert mid.flights == map[3 := 300] && mid.pending == map[7 := 700];
    assert 3 in mid.flights && Free(mid) == {};
    DrainExact(mid);
    assert mid.pending - {} == mid.pending;
    var end := Recorded(AckLane(lane, 7), 3);
    assert end.flights == map[] && end.pending == map[7 := 700, 3 := 300];
    assert Free(end) == {3, 7};
    DrainExact(end);
  }

  /**
    * Looked at only once it is over, a run can hide a late send: here 3 is sent behind the commit of 5, and the commit
    * of 7 comes before anyone sees it. That is why every point of the run counts.
    */
  lemma LateSendCanHide()
    ensures var ops := [SendOp(5, 500), AckOp(5), SendOp(3, 300), SendOp(7, 700), AckOp(7), AckOp(3)];
            var lane: Lane<int> := Lane(map[], map[], None);
            Proper(lane, ops) && ForwardFrom(lane, -1, ops) && !NoLateSend(lane, -1, ops)
  {
    hide Proper, NoLateSend, GoesForward, LaneAfter, LastCommit, AckLane, Advances, IsCommit, Committing;
    var lane: Lane<int> := Lane(map[], map[], None);
    var a, b, c, d, e, f :=
      SendOp(5, 500), AckOp(5), SendOp(3, 300), SendOp(7, 700), AckOp(7), AckOp(3);
    var ops := [a, b, c, d, e, f];
    assert [] + [a] == [a] && [a] + [b] == [a, b] && [a, b] + [c] == [a, b, c] && [a, b, c] + [d] == [a, b, c, d];
    assert [a, b, c, d] + [e] == [a, b, c, d, e] && [a, b, c, d, e] + [f] == ops;
    NothingHappened(lane, -1);
    RunSnoc(lane, -1, [], a);
    RunSnoc(lane, -1, [a], b);
    RunSnoc(lane, -1, [a, b], c);
    RunSnoc(lane, -1, [a, b, c], d);
    RunSnoc(lane, -1, [a, b, c, d], e);
    RunSnoc(lane, -1, [a, b, c, d, e], f);
    AckAlone(lane, 5, 500);
    OnlyCommit(SendLane(lane, 5, 500), 5, 5);
    var last := LaneAfter(lane, [a, b, c, d]);
    assert last.flights == map[3 := 300, 7 := 700] && last.pending == map[];
    SevenBehindThree(last);
    OnlyCommit(AckLane(last, 7), 3, 7);
    forall ids ensures GoesForward(lane, -1, ops + Acks(ids)) {
      IdleGoesForward(lane, -1, ops, ids);
    }
  }

  lemma NothingHappened<C>(lane: Lane<C>, last: int)
    ensures LaneAfter(lane, []) == lane && LastCommit(lane, last, []) == last
    ensures GoesForward(lane, last, []) && Proper(lane, []) && NoLateSend(lane, last, [])
  {
  }

  /** Sent out of the order of their ids, batches can take the checkpoint back. */
  lemma OutOfOrderGoesBack()
    ensures var lane := AckLane(SendLane(Lane(map[], map[], None), 5, 500), 5);
            lane.committed == Some(500) && AckLane(SendLane(lane, 3, 300), 3).committed == Some(300)
  {
    hide Drain;
    AckAlone(Lane(map[], map[], None), 5, 500);
    AckAlone(Lane(map[], map[], Some(500)), 3, 300);
  }

  lemma AckAlone<C>(lane: Lane<C>, id: nat, checkpoint: C)
    requires lane.flights == map[] && lane.pending == map[]
    ensures AckLane(SendLane(lane, id, checkpoint), id) == Lane(map[], map[], Some(checkpoint))
    ensures IsCommit(SendLane(lane, id, checkpoint), id, id)
  {
    hide Drain;
    var mid := Lane(map[id := checkpoint] - {id}, map[][id := checkpoint], lane.committed);
    DrainExact(mid);
    assert Free(mid) == {id};
    assert IsGreatest(id, Free(mid));
    assert mid.flights == map[] && mid.pending - {id} == map[];
    assert SendLane(lane, id, checkpoint).flights == map[id := checkpoint];
  }

  lemma PendingOnly<C>(lane: Lane<C>, id: nat, k: nat)
    requires Settled(lane) && id in lane.flights && k in lane.pending[id := lane.flights[id]]
    ensures k !in lane.flights - {id}
  {
  }

  lemma DrainStep<C>(lane: Lane<C>, k: nat)
    requires IsLeast(k, lane.pending.Keys)
    ensures Drain(lane) ==
      if Blocked(k, lane.flights) then lane else Drain(Lane(lane.flights, lane.pending - {k}, Some(lane.pending[k])))
  {
    LeastIsUnique(k, lane.pending.Keys);
    assert k in lane.pending;
  }

  lemma DrainEmpty<C>(lane: Lane<C>)
    requires |lane.pending| == 0
    ensures Drain(lane) == lane
  {
  }

  lemma LeastIsUnique(k: nat, keys: set<nat>)
    requires IsLeast(k, keys)
    ensures keys != {} && Least(keys) == k
  {
  }

  lemma BlockedByLeast<C>(k: nat, least: nat, flights: map<nat, C>)
    requires IsLeast(least, flights.Keys)
    ensures Blocked(k, flights) <==> least < k
  {
    if least < k {
      assert least in flights;
    }
  }

  /** The loop of `record_ack_and_advance`. */
  method CommitLoop<C>(flights: map<nat, C>, acks: map<nat, C>, committed: Option<C>)
    returns (pending: map<nat, C>, latest: Option<C>, advanced: bool)
    ensures Lane(flights, pending, latest) == Drain(Lane(flights, acks, committed))
    ensures advanced <==> Free(Lane(flights, acks, committed)) != {}
    ensures if advanced then latest.Some? else latest == committed
  {
    hide Drain, IsLeast;
    pending, latest, advanced := acks, committed, false;
    ghost var start := Lane(flights, acks, committed);
    DrainExact(start);
    while |pending| > 0
      invariant Drain(Lane(flights, pending, latest)) == Drain(start)
      invariant pending.Keys <= acks.Keys
      invariant advanced ==> Free(start) != {}
      invariant !advanced ==> pending == acks && latest == committed
      invariant advanced ==> latest.Some?
      decreases |pending|
    {
      var lowest := FirstKey(pending);
      DrainStep(Lane(flights, pending, latest), lowest);
      var hasLower := false;
      if |flights| > 0 {
        var least := FirstKey(flights);
        hasLower := least < lowest;
        BlockedByLeast(lowest, least, flights);
      } else {
        assert flights == map[];
      }
      if hasLower {
        FreeIsPending(start);
        return;
      }
      LeastIsKey(lowest, pending.Keys);
      assert lowest in Free(start);
      latest, pending, advanced := Some(pending[lowest]), pending - {lowest}, true;
    }
    DrainEmpty(Lane(flights, pending, latest));
    FreeIsPending(start);
  }

  lemma LeastIsKey(k: nat, keys: set<nat>)
    requires IsLeast(k, keys)
    ensures k in keys
  {
  }

  lemma FreeIsPending<C>(lane: Lane<C>)
    ensures Free(lane) <= lane.pending.Keys
    ensures lane.pending - Free(lane) == lane.pending ==> Free(lane) == {}
  {
    assert forall k :: k in Free(lane) ==> k in lane.pending && k !in lane.pending - Free(lane);
  }

  // ----- The machine -----

  datatype Phase = Starting | Running | Draining | Stopped

  datatype Ticket<C> = Ticket(id: nat, source: nat, checkpoint: C, attempts: nat)

  function Row<C>(m: map<nat, map<nat, C>>, source: nat): map<nat, C> {
    if source in m then m[source] else map[]
  }

  /** Stores `row` for `source`, dropping it if it is empty. */
  function WithRow<C>(m: map<nat, map<nat, C>>, source: nat, row: map<nat, C>): map<nat, map<nat, C>> {
    if |row| == 0 then m - {source} else m[source := row]
  }

  ghost predicate NoEmptyRow<C>(m: map<nat, map<nat, C>>) {
    forall source :: source in m ==> |m[source]| > 0
  }

  lemma WithRowReads<C>(m: map<nat, map<nat, C>>, source: nat, row: map<nat, C>)
    ensures Row(WithRow(m, source, row), source) == row
    ensures forall other :: other != source ==> Row(WithRow(m, source, row), other) == Row(m, other)
    ensures NoEmptyRow(m) ==> NoEmptyRow(WithRow(m, source, row))
  {
    assert |row| == 0 ==> row == map[];
  }

  class PipelineMachine<C(==)> {
    var phase: Phase
    var nextBatchId: nat
    var committed: map<nat, C>
    var inFlight: map<nat, map<nat, C>>
    var pendingAcks: map<nat, map<nat, C>>
    var forced: bool

    ghost function LaneOf(source: nat): Lane<C>
      reads this`committed, this`inFlight, this`pendingAcks
    {
      var checkpoint := if source in committed then Some(committed[source]) else None;
      Lane(Row(inFlight, source), Row(pendingAcks, source), checkpoint)
    }

    /** Every lane is settled, and no empty inner map is kept. */
    ghost predicate Valid()
      reads this`committed, this`inFlight, this`pendingAcks
    {
      && (forall source :: Settled(LaneOf(source)))
      && NoEmptyRow(inFlight) && NoEmptyRow(pendingAcks)
    }

    constructor ()
      ensures Valid() && phase == Starting && nextBatchId == 0 && !forced
      ensures forall source :: LaneOf(source) == Lane(map[], map[], None)
    {
      phase, nextBatchId, committed, inFlight, pendingAcks, forced := Starting, 0, map[], map[], map[], false;
    }

    method Start()
      requires Valid() && phase == Starting
      modifies this`phase
      ensures Valid() && phase == Running
    {
      phase := Running;
    }

    /** Hands out the next id and tracks nothing. */
    method CreateBatch(source: nat, checkpoint: C) returns (ticket: Ticket<C>)
      requires Valid() && phase == Running
      modifies this`nextBatchId
      ensures Valid() && nextBatchId == old(nextBatchId) + 1
      ensures ticket == Ticket(old(nextBatchId), source, checkpoint, 0)
    {
      ticket := Ticket(nextBatchId, source, checkpoint, 0);
      nextBatchId := nextBatchId + 1;
    }

    method BeginSend(ticket: Ticket<C>)
      requires Valid() && phase == Running && ticket.id !in Row(pendingAcks, ticket.source)
      modifies this`inFlight
      ensures Valid()
      ensures LaneOf(ticket.source) == SendLane(old(LaneOf(ticket.source)), ticket.id, ticket.checkpoint)
      ensures forall source :: source != ticket.source ==> LaneOf(source) == old(LaneOf(source))
    {
      hide Settled, Row, WithRow, NoEmptyRow;
      ghost var before := LaneOf(ticket.source);
      SendSettles(before, ticket.id, ticket.checkpoint);
      var row := Row(inFlight, ticket.source)[ticket.id := ticket.checkpoint];
      WithRowReads(inFlight, ticket.source, row);
      inFlight := WithRow(inFlight, ticket.source, row);
      assert LaneOf(ticket.source) == SendLane(before, ticket.id, ticket.checkpoint);
      assert forall source :: source != ticket.source ==> LaneOf(source) == old(LaneOf(source));
      assert forall source :: Settled(old(LaneOf(source)));
    }

    /** Applies an ack or a rejection; both arrive as receipts and both advance the checkpoint. */
    method ApplyAck(source: nat, batchId: nat) returns (advanced: bool, checkpoint: Option<C>)
      requires Valid() && (phase == Running || phase == Draining)
      modifies this`committed, this`inFlight, this`pendingAcks
      ensures Valid()
      ensures LaneOf(source) == AckLane(old(LaneOf(source)), batchId)
      ensures forall other :: other != source ==> LaneOf(other) == old(LaneOf(other))
      ensures checkpoint == LaneOf(source).committed
      ensures advanced <==> Advances(old(LaneOf(source)), batchId)
    {
      hide Settled, Drain, Free, Row, WithRow, NoEmptyRow;
      ghost var before := LaneOf(source);
      AckSettles(before, batchId);
      var latest := if source in committed then Some(committed[source]) else None;
      var flights := Row(inFlight, source);
      if batchId !in flights {
        return false, latest;
      }
      var pending := Row(pendingAcks, source)[batchId := flights[batchId]];
      flights := flights - {batchId};
      pending, latest, advanced := CommitLoop(flights, pending, latest);
      WithRowReads(inFlight, source, flights);
      WithRowReads(pendingAcks, source, pending);
      inFlight := WithRow(inFlight, source, flights);
      pendingAcks := WithRow(pendingAcks, source, pending);
      if advanced {
        committed := committed[source := latest.value];
      }
      checkpoint := latest;
      assert LaneOf(source) == AckLane(before, batchId);
      assert forall other :: other != source ==> LaneOf(other) == old(LaneOf(other));
      assert forall other :: Settled(old(LaneOf(other)));
    }

    method BeginDrain()
      requires Valid() && phase == Running
      modifies this`phase
      ensures Valid() && phase == Draining
    {
      phase := Draining;
    }

    predicate IsDrained()
      reads this
    {
      (forall source :: source in inFlight ==> |inFlight[source]| == 0)
      && (forall source :: source in pendingAcks ==> |pendingAcks[source]| == 0)
    }

    /** Stops exactly when no source has a batch in flight; otherwise nothing changes. */
    method Stop() returns (stopped: bool)
      requires Valid() && phase == Draining
      modifies this`phase
      ensures Valid()
      ensures stopped <==> forall source :: old(LaneOf(source)).flights == map[]
      ensures phase == if stopped then Stopped else Draining
    {
      stopped := IsDrained();
      if stopped {
        phase := Stopped;
        assert inFlight == map[];
      } else if exists source :: source in inFlight && |inFlight[source]| > 0 {
        var source :| source in inFlight && |inFlight[source]| > 0;
        assert LaneOf(source).flights != map[];
      } else {
        var source :| source in pendingAcks && |pendingAcks[source]| > 0;
        assert Settled(LaneOf(source));
        if LaneOf(source).flights == map[] {
          NoFlightsNoPending(LaneOf(source));
        }
      }
    }

    method ForceStop()
      requires Valid() && phase == Draining
      modifies this`phase, this`forced
      ensures Valid() && phase == Stopped && forced
    {
      phase, forced := Stopped, true;
    }
  }
}

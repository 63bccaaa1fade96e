/** The backpressure simulator: bounded stages between an input, a CPU worker, a pipeline and three output workers. */
module Backpressure {
  import opened Options

  datatype SourceMode = File | Udp | Otlp
  datatype StageState = Fine | Pressured | Blocked
  datatype Stage = Io | Cpu | Out

  datatype Event =
    | Transition(stage: Stage, before: StageState, after: StageState, mode: Option<SourceMode>, fill: Option<int>)
    | OtlpBatch(batch: nat, status: nat, retry: bool)

  const IO_CPU_CAP := 4.0
  const PIPELINE_CAP := 16.0
  const WORKER_CAP := 1.0
  const NUM_WORKERS := 3
  const OUT_MAX_RATE := 2.4
  const UDP_CAP := 16.0
  const MRU_DISPATCH_CAP := 0.8
  const IO_RATE := 1.2
  const CPU_RATE := 1.2
  const FILE_MAX := 400.0
  const FILE_WRITE_RATE := 0.55
  const UDP_ARRIVE_RATE := 1.8

  function Min(a: real, b: real): real {
    if a < b then a else b
  }

  function Max(a: real, b: real): real {
    if a > b then a else b
  }

  function Ceil(x: real): int {
    if x == x.Floor as real then x.Floor else x.Floor + 1
  }

  function ClassifyState(fill: real, cap: real): StageState
    requires cap > 0.0
  {
    if fill / cap >= 1.0 then Blocked else if fill / cap > 0.5 then Pressured else Fine
  }

  // ----- The state -----

  datatype State = State(
    outputSpeed: real,
    mode: SourceMode,
    flow: Flow,
    ticks: nat,
    source: Source,
    prevIo: StageState,
    prevCpu: StageState,
    prevOut: StageState)

  /** The stages, and what went in and came out of them. */
  datatype Flow = Flow(
    io: real,
    ioSnap: real,
    pipeline: real,
    workers: seq<real>,
    ioBlocked: bool,
    cpuBlocked: bool,
    produced: real,
    delivered: real)

  datatype Source = Source(
    fileWritten: real,
    fileRead: real,
    udpBuf: real,
    udpDrops: real,
    otlpBatch: nat,
    otlpAccepted: nat,
    otlpRejected: nat)

  const EMPTY_FLOW := Flow(0.0, 0.0, 0.0, [0.0, 0.0, 0.0], false, false, 0.0, 0.0)
  const EMPTY_SOURCE := Source(0.0, 0.0, 0.0, 0.0, 0, 0, 0)

  function Sum(xs: seq<real>): real {
    if |xs| == 0 then 0.0 else xs[0] + Sum(xs[1..])
  }

  // ----- One tick, without the clamps -----

  /** The workers give up `remaining`, the first one first. */
  function DrainWorkers(fills: seq<real>, remaining: real): (r: seq<real>)
    ensures |r| == |fills|
  {
    if |fills| == 0 || remaining <= 0.0 then fills
    else
      var take := Min(fills[0], remaining);
      [fills[0] - take] + DrainWorkers(fills[1..], remaining - take)
  }

  /** What one worker takes from the pipeline. */
  function Sent(fill: real, pipeline: real): real {
    if WORKER_CAP - fill > 0.0 then Min(Min(WORKER_CAP - fill, pipeline), MRU_DISPATCH_CAP) else 0.0
  }

  /** The pipeline fills the workers, the first one first. */
  function Dispatch(fills: seq<real>, pipeline: real): (r: (seq<real>, real))
    ensures |r.0| == |fills|
  {
    if |fills| == 0 || pipeline <= 0.0 then (fills, pipeline)
    else
      var send := Sent(fills[0], pipeline);
      var rest := Dispatch(fills[1..], pipeline - send);
      ([fills[0] + send] + rest.0, rest.1)
  }

  function OutDrain(speed: real): real {
    (speed / 100.0) * OUT_MAX_RATE
  }

  function Delivered(f: Flow, speed: real): real {
    Max(0.0, Min(Sum(f.workers), OutDrain(speed)))
  }

  function NextFlow(f: Flow, speed: real): Flow {
    var (workers, left) := Dispatch(DrainWorkers(f.workers, Min(Sum(f.workers), OutDrain(speed))), f.pipeline);
    var cpuBlocked := left >= PIPELINE_CAP;
    var drain := if !cpuBlocked && f.io > 0.0 then Min(Min(f.io, CPU_RATE), PIPELINE_CAP - left) else 0.0;
    var snap := f.io - drain;
    var ioBlocked := snap >= IO_CPU_CAP;
    Flow(if ioBlocked then snap else snap + Min(IO_RATE, IO_CPU_CAP - snap), snap, left + drain, workers,
      ioBlocked, cpuBlocked, f.produced + drain, f.delivered + Delivered(f, speed))
  }

  function NextFile(source: Source, ioBlocked: bool): Source {
    var written := source.fileWritten + FILE_WRITE_RATE;
    var read := if ioBlocked then source.fileRead else Min(source.fileRead + IO_RATE * 0.85, written);
    if written > FILE_MAX then source.(fileWritten := written - read + 50.0, fileRead := 50.0)
    else source.(fileWritten := written, fileRead := read)
  }

  function NextUdp(source: Source, ioBlocked: bool): Source {
    var arrived := source.udpBuf + UDP_ARRIVE_RATE;
    var buffered := if ioBlocked then arrived else Max(0.0, arrived - IO_RATE * 1.1);
    if buffered > UDP_CAP then source.(udpBuf := UDP_CAP, udpDrops := source.udpDrops + (buffered - UDP_CAP))
    else source.(udpBuf := buffered)
  }

  function NextOtlp(source: Source, ioBlocked: bool): Source {
    if ioBlocked then source.(otlpBatch := source.otlpBatch + 1, otlpRejected := source.otlpRejected + 1)
    else source.(otlpBatch := source.otlpBatch + 1, otlpAccepted := source.otlpAccepted + 1)
  }

  /** One OTLP batch arrives every six ticks. */
  function NextSource(source: Source, mode: SourceMode, ioBlocked: bool, ticks: nat): Source {
    match mode
    case File => NextFile(source, ioBlocked)
    case Udp => NextUdp(source, ioBlocked)
    case Otlp => if ticks % 6 == 0 then NextOtlp(source, ioBlocked) else source
  }

  function OtlpEvents(source: Source, mode: SourceMode, ioBlocked: bool, ticks: nat): seq<Event> {
    if mode == Otlp && ticks % 6 == 0
    then [if ioBlocked then OtlpBatch(source.otlpBatch + 1, 429, true) else OtlpBatch(source.otlpBatch + 1, 200, false)]
    else []
  }

  function IoState(f: Flow): StageState {
    if f.ioBlocked then Blocked else if f.ioSnap / IO_CPU_CAP > 0.5 then Pressured else Fine
  }

  function CpuState(f: Flow): StageState {
    ClassifyState(f.pipeline, PIPELINE_CAP)
  }

  function CountBusy(xs: seq<real>): nat {
    if |xs| == 0 then 0 else (if xs[0] > 0.1 then 1 else 0) + CountBusy(xs[1..])
  }

  function OutState(f: Flow): StageState {
    if forall i :: 0 <= i < |f.workers| ==> f.workers[i] >= WORKER_CAP * 0.9 then Blocked
    else if CountBusy(f.workers) >= 2 then Pressured
    else Fine
  }

  /** An event if the stage changed its state. */
  function Change(
    stage: Stage, before: StageState, after: StageState, mode: Option<SourceMode>, fill: Option<int>): seq<Event>
  {
    if before == after then [] else [Transition(stage, before, after, mode, fill)]
  }

  function Next(s: State): State {
    var flow := NextFlow(s.flow, s.outputSpeed);
    State(s.outputSpeed, s.mode, flow, s.ticks + 1, NextSource(s.source, s.mode, flow.ioBlocked, s.ticks + 1),
      IoState(flow), CpuState(flow), OutState(flow))
  }

  function TickEvents(s: State): seq<Event> {
    var flow := NextFlow(s.flow, s.outputSpeed);
    OtlpEvents(s.source, s.mode, flow.ioBlocked, s.ticks + 1)
    + Change(Out, s.prevOut, OutState(flow), None, None)
    + Change(Cpu, s.prevCpu, CpuState(flow), None, Some(Ceil(flow.pipeline)))
    + Change(Io, s.prevIo, IoState(flow), Some(s.mode), None)
  }

  function Reset(s: State): State {
    State(s.outputSpeed, s.mode, EMPTY_FLOW, 0, EMPTY_SOURCE, Fine, Fine, Fine)
  }

  // ----- What holds -----

  ghost predicate Between(xs: seq<real>, low: real, high: real) {
    forall i :: 0 <= i < |xs| ==> low <= xs[i] <= high
  }

  /** Every fill is within its capacity, and what was produced is delivered or still on its way. */
  ghost predicate Balanced(f: Flow) {
    && 0.0 <= f.io <= IO_CPU_CAP && 0.0 <= f.pipeline <= PIPELINE_CAP
    && |f.workers| == NUM_WORKERS && Between(f.workers, 0.0, WORKER_CAP)
    && f.produced == f.delivered + f.pipeline + Sum(f.workers)
  }

  lemma {:induction false} SumOfBetween(xs: seq<real>)
    requires Between(xs, 0.0, WORKER_CAP)
    ensures 0.0 <= Sum(xs) <= |xs| as real
  {
    if |xs| > 0 {
      SumOfBetween(xs[1..]);
    }
  }

  /** Draining takes exactly what it may, and leaves every worker within its bounds. */
  lemma {:induction false} DrainTakes(fills: seq<real>, remaining: real)
    requires Between(fills, 0.0, WORKER_CAP) && remaining <= Sum(fills)
    ensures Between(DrainWorkers(fills, remaining), 0.0, WORKER_CAP)
    ensures Sum(DrainWorkers(fills, remaining)) == Sum(fills) - Max(0.0, remaining)
    decreases |fills|
  {
    if |fills| > 0 && remaining > 0.0 {
      var take := Min(fills[0], remaining);
      SumOfBetween(fills[1..]);
      DrainTakes(fills[1..], remaining - take);
      var rest := DrainWorkers(fills[1..], remaining - take);
      assert ([fills[0] - take] + rest)[1..] == rest;
    }
  }

  /** Dispatching loses nothing and overfills no worker. */
  lemma {:induction false} DispatchKeeps(fills: seq<real>, pipeline: real)
    requires Between(fills, 0.0, WORKER_CAP) && 0.0 <= pipeline
    ensures var r := Dispatch(fills, pipeline);
            Between(r.0, 0.0, WORKER_CAP) && 0.0 <= r.1 <= pipeline && Sum(r.0) + r.1 == Sum(fills) + pipeline
    decreases |fills|
  {
    if |fills| > 0 && pipeline > 0.0 {
      var send := Sent(fills[0], pipeline);
      DispatchKeeps(fills[1..], pipeline - send);
      var rest := Dispatch(fills[1..], pipeline - send).0;
      assert ([fills[0] + send] + rest)[1..] == rest;
    }
  }

  /** A tick keeps the balance, and moves delivered by no more than the output rate. */
  lemma NextFlowBalanced(f: Flow, speed: real)
    requires Balanced(f)
    ensures Balanced(NextFlow(f, speed))
    ensures 0.0 <= NextFlow(f, speed).delivered - f.delivered <= Max(0.0, OutDrain(speed))
    ensures NextFlow(f, speed).ioBlocked ==> NextFlow(f, speed).io == IO_CPU_CAP
  {
    hide DrainWorkers, Dispatch, Sum;
    SumOfBetween(f.workers);
    DrainTakes(f.workers, Min(Sum(f.workers), OutDrain(speed)));
    DispatchKeeps(DrainWorkers(f.workers, Min(Sum(f.workers), OutDrain(speed))), f.pipeline);
  }

  /** What is read was written, the UDP buffer is within its bound, and every OTLP batch has its answer. */
  ghost predicate Consistent(source: Source) {
    && 0.0 <= source.fileRead <= source.fileWritten && source.fileRead <= FILE_MAX
    && 0.0 <= source.udpBuf <= UDP_CAP && 0.0 <= source.udpDrops
    && source.otlpBatch == source.otlpAccepted + source.otlpRejected
  }

  ghost predicate Sound(s: State) {
    && Balanced(s.flow) && Consistent(s.source)
    && s.prevIo == IoState(s.flow) && s.prevCpu == CpuState(s.flow) && s.prevOut == OutState(s.flow)
  }

  lemma SoundFlow(s: State)
    requires Sound(s)
    ensures Balanced(s.flow)
  {
  }

  lemma NextIsSound(s: State)
    requires Sound(s)
    ensures Sound(Next(s))
  {
    hide NextFlow, Balanced;
    NextFlowBalanced(s.flow, s.outputSpeed);
  }

  lemma ThreeWorkers(a: real, b: real, c: real)
    ensures Sum([a, b, c]) == a + b + c
    ensures CountBusy([a, b, c]) == (if a > 0.1 then 1 else 0) + (if b > 0.1 then 1 else 0) + (if c > 0.1 then 1 else 0)
  {
    assert [a, b, c][1..] == [b, c] && [b, c][1..] == [c] && [c][1..] == [];
    assert Sum([c]) == c && Sum([b, c]) == b + c;
    assert CountBusy([c]) == (if c > 0.1 then 1 else 0);
  }

  lemma EmptyIsFine()
    ensures IoState(EMPTY_FLOW) == Fine && CpuState(EMPTY_FLOW) == Fine && OutState(EMPTY_FLOW) == Fine
  {
    hide Sum, CountBusy;
    ThreeWorkers(0.0, 0.0, 0.0);
    assert EMPTY_FLOW.workers[0] < WORKER_CAP * 0.9;
  }

  lemma EmptyIsBalanced()
    ensures Balanced(EMPTY_FLOW)
  {
    hide Sum, CountBusy;
    ThreeWorkers(0.0, 0.0, 0.0);
  }

  lemma ResetIsSound(s: State)
    ensures Sound(Reset(s))
  {
    hide IoState, CpuState, OutState, Balanced;
    EmptyIsFine();
    EmptyIsBalanced();
  }

  lemma InTransit(f: Flow)
    requires Balanced(f)
    ensures 0.0 <= f.produced - f.delivered <= 19.0
  {
    hide Sum;
    SumOfBetween(f.workers);
  }

  // ----- Runs -----

  datatype Op = Tick | ResetAll | SetSpeed(speed: real) | SetMode(mode: SourceMode)

  const START := State(100.0, File, EMPTY_FLOW, 0, EMPTY_SOURCE, Fine, Fine, Fine)

  function After(ops: seq<Op>): State {
    if |ops| == 0 then START
    else
      var s := After(ops[..|ops| - 1]);
      match ops[|ops| - 1]
      case Tick => Next(s)
      case ResetAll => Reset(s)
      case SetSpeed(speed) => s.(outputSpeed := speed)
      case SetMode(mode) => s.(mode := mode)
  }

  /** The events since the last reset. */
  function Events(ops: seq<Op>): seq<Event> {
    if |ops| == 0 then []
    else
      match ops[|ops| - 1]
      case Tick => Events(ops[..|ops| - 1]) + TickEvents(After(ops[..|ops| - 1]))
      case ResetAll => []
      case _ => Events(ops[..|ops| - 1])
  }

  /**
    * Whatever the user does, the simulator stays sound, so no more than 19 units are ever between production and
    * delivery.
    */
  lemma {:induction false} RunIsSound(ops: seq<Op>)
    ensures Sound(After(ops))
    ensures 0.0 <= After(ops).flow.produced - After(ops).flow.delivered <= 19.0
    decreases |ops|
  {
    hide Next, Reset, Balanced, Consistent, IoState, CpuState, OutState;
    if |ops| == 0 {
      ResetIsSound(START);
      ResetIsStart();
    } else {
      var s := After(ops[..|ops| - 1]);
      RunIsSound(ops[..|ops| - 1]);
      match ops[|ops| - 1] {
        case Tick => NextIsSound(s);
        case ResetAll => ResetIsSound(s);
        case _ =>
      }
    }
    InTransit(After(ops).flow);
  }

  lemma ResetIsStart()
    ensures Reset(START) == START
  {
  }

  // ----- Transitions -----

  /** The transitions of one stage lead from one state to another without a gap or a repetition. */
  ghost predicate Chained(events: seq<Event>, stage: Stage, before: StageState, after: StageState)
    decreases |events|
  {
    if |events| == 0 then before == after
    else if events[0].Transition? && events[0].stage == stage then
      events[0].before == before && events[0].after != before && Chained(events[1..], stage, events[0].after, after)
    else Chained(events[1..], stage, before, after)
  }

  lemma {:induction false} ChainedConcat(
    a: seq<Event>, b: seq<Event>, stage: Stage, x: StageState, y: StageState, z: StageState)
    requires Chained(a, stage, x, y) && Chained(b, stage, y, z)
    ensures Chained(a + b, stage, x, z)
    decreases |a|
  {
    if |a| == 0 {
      assert a + b == b;
    } else {
      assert (a + b)[0] == a[0] && (a + b)[1..] == a[1..] + b;
      if a[0].Transition? && a[0].stage == stage {
        ChainedConcat(a[1..], b, stage, a[0].after, y, z);
      } else {
        ChainedConcat(a[1..], b, stage, x, y, z);
      }
    }
  }

  function Prev(s: State, stage: Stage): StageState {
    match stage
    case Io => s.prevIo
    case Cpu => s.prevCpu
    case Out => s.prevOut
  }

  lemma ChangeIsChained(
    changed: Stage, before: StageState, after: StageState, mode: Option<SourceMode>, fill: Option<int>, stage: Stage)
    ensures Chained(Change(changed, before, after, mode, fill), changed, before, after)
    ensures stage != changed ==> forall x :: Chained(Change(changed, before, after, mode, fill), stage, x, x)
  {
  }

  lemma TickIsChained(s: State, stage: Stage)
    ensures Chained(TickEvents(s), stage, Prev(s, stage), Prev(Next(s), stage))
  {
    hide NextFlow, IoState, CpuState, OutState, Change, Chained;
    var flow := NextFlow(s.flow, s.outputSpeed);
    var a := OtlpEvents(s.source, s.mode, flow.ioBlocked, s.ticks + 1);
    var b := Change(Out, s.prevOut, OutState(flow), None, None);
    var c := Change(Cpu, s.prevCpu, CpuState(flow), None, Some(Ceil(flow.pipeline)));
    var d := Change(Io, s.prevIo, IoState(flow), Some(s.mode), None);
    var x, y := Prev(s, stage), Prev(Next(s), stage);
    OtlpIsChained(s.source, s.mode, flow.ioBlocked, s.ticks + 1, stage, x);
    ChangeIsChained(Out, s.prevOut, OutState(flow), None, None, stage);
    ChangeIsChained(Cpu, s.prevCpu, CpuState(flow), None, Some(Ceil(flow.pipeline)), stage);
    ChangeIsChained(Io, s.prevIo, IoState(flow), Some(s.mode), None, stage);
    var afterB := if stage == Out then y else x;
    var afterC := if stage == Io then x else y;
    ChainedConcat(a, b, stage, x, x, afterB);
    ChainedConcat(a + b, c, stage, x, afterB, afterC);
    ChainedConcat(a + b + c, d, stage, x, afterC, y);
  }

  lemma OtlpIsChained(source: Source, mode: SourceMode, ioBlocked: bool, ticks: nat, stage: Stage, x: StageState)
    ensures Chained(OtlpEvents(source, mode, ioBlocked, ticks), stage, x, x)
  {
  }

  /**
    * Over any run, the transitions reported for a stage since the last reset lead, each from where the last one
    * ended and none to where it began, from fine to the state that the stage is in now.
    */
  lemma {:induction false} TransitionsTellTheState(ops: seq<Op>, stage: Stage)
    ensures Chained(Events(ops), stage, Fine, Prev(After(ops), stage))
    decreases |ops|
  {
    hide Next, TickEvents;
    if |ops| > 0 {
      var before := ops[..|ops| - 1];
      TransitionsTellTheState(before, stage);
      if ops[|ops| - 1].Tick? {
        TickIsChained(After(before), stage);
        ChainedConcat(Events(before), TickEvents(After(before)), stage, Fine, Prev(After(before), stage),
          Prev(After(ops), stage));
      }
    }
  }

  // ----- A stopped output -----

  function Ticks(f: Flow, speed: real, n: nat): Flow
    decreases n
  {
    if n == 0 then f else Ticks(NextFlow(f, speed), speed, n - 1)
  }

  function Room(f: Flow): real {
    IO_CPU_CAP - f.io + (PIPELINE_CAP - f.pipeline) + (3.0 - Sum(f.workers))
  }

  /** The channel and the pipeline are full; the workers may still have room. */
  ghost predicate BackedUp(f: Flow) {
    f.io == IO_CPU_CAP && f.pipeline == PIPELINE_CAP
  }

  ghost predicate Full(f: Flow) {
    BackedUp(f) && f.workers == [1.0, 1.0, 1.0]
  }

  /** Without output a tick takes in at least 0.8, or fills the channel and the pipeline. */
  lemma StoppedTick(f: Flow, speed: real)
    requires Balanced(f) && OutDrain(speed) <= 0.0
    ensures Room(NextFlow(f, speed)) <= Room(f) - 0.8 || BackedUp(NextFlow(f, speed))
  {
    hide DrainWorkers, Dispatch, Sum;
    SumOfBetween(f.workers);
    NothingDrained(f.workers, Min(Sum(f.workers), OutDrain(speed)));
    DispatchKeeps(f.workers, f.pipeline);
  }

  lemma NothingDrained(fills: seq<real>, remaining: real)
    requires remaining <= 0.0
    ensures DrainWorkers(fills, remaining) == fills
  {
  }

  lemma {:induction false} BacksUp(f: Flow, speed: real, k: nat)
    requires Balanced(f) && OutDrain(speed) <= 0.0 && Room(f) < 0.8 * k as real
    ensures exists n: nat :: n <= k && Balanced(Ticks(f, speed, n)) && BackedUp(Ticks(f, speed, n))
    decreases k
  {
    hide NextFlow, Sum, Balanced, BackedUp;
    RoomIsLeft(f);
    var next := NextFlow(f, speed);
    NextFlowBalanced(f, speed);
    StoppedTick(f, speed);
    if BackedUp(next) {
      assert Ticks(f, speed, 1) == Ticks(next, speed, 0) == next;
    } else {
      BacksUp(next, speed, k - 1);
      var n: nat :| n <= k - 1 && Balanced(Ticks(next, speed, n)) && BackedUp(Ticks(next, speed, n));
      assert Ticks(f, speed, n + 1) == Ticks(next, speed, n);
    }
  }

  lemma RoomIsLeft(f: Flow)
    requires Balanced(f)
    ensures 0.0 <= Room(f) <= 23.0
  {
    SumOfBetween(f.workers);
  }

  function Topped(fill: real): real {
    fill + Min(WORKER_CAP - fill, MRU_DISPATCH_CAP)
  }

  /** A pipeline with enough in it tops up every worker. */
  lemma DispatchPlenty(a: real, b: real, c: real, pipeline: real)
    requires 0.0 <= a <= 1.0 && 0.0 <= b <= 1.0 && 0.0 <= c <= 1.0 && pipeline >= 3.0
    ensures Dispatch([a, b, c], pipeline) ==
            ([Topped(a), Topped(b), Topped(c)], pipeline - (Topped(a) - a) - (Topped(b) - b) - (Topped(c) - c))
  {
    hide Dispatch, Topped, Sent;
    var p1 := DispatchOne(a, [b, c], pipeline);
    var p2 := DispatchOne(b, [c], p1);
    var p3 := DispatchOne(c, [], p2);
    DispatchEnds([], p3);
    assert [a] + [b, c] == [a, b, c] && [b] + [c] == [b, c] && [c] + [] == [c];
    assert Dispatch([c], p2).0 == [Topped(c)];
    assert Dispatch([b, c], p1).0 == [Topped(b), Topped(c)];
    assert Dispatch([a, b, c], pipeline).0 == [Topped(a), Topped(b), Topped(c)];
  }

  lemma DispatchOne(fill: real, rest: seq<real>, pipeline: real) returns (left: real)
    requires 0.0 <= fill <= 1.0 && pipeline >= 1.0
    ensures left == pipeline - (Topped(fill) - fill) && left >= pipeline - 1.0
    ensures Dispatch([fill] + rest, pipeline) == ([Topped(fill)] + Dispatch(rest, left).0, Dispatch(rest, left).1)
  {
    left := pipeline - (Topped(fill) - fill);
    assert ([fill] + rest)[1..] == rest;
    assert Sent(fill, pipeline) == Topped(fill) - fill;
  }

  /** Without output and with enough in the pipeline, this is all that a tick does. */
  lemma StoppedPlenty(f: Flow, speed: real)
    requires Balanced(f) && OutDrain(speed) <= 0.0 && f.io == IO_CPU_CAP && f.pipeline >= 3.0
    ensures var w, g := f.workers, NextFlow(f, speed);
            var left := f.pipeline - (Topped(w[0]) - w[0]) - (Topped(w[1]) - w[1]) - (Topped(w[2]) - w[2]);
            && g.workers == [Topped(w[0]), Topped(w[1]), Topped(w[2])] && g.io == IO_CPU_CAP
            && g.pipeline == left + (if left >= PIPELINE_CAP then 0.0 else Min(CPU_RATE, PIPELINE_CAP - left))
  {
    hide DrainWorkers, Dispatch, Sum;
    var w := f.workers;
    assert w == [w[0], w[1], w[2]];
    NothingDrained(w, Min(Sum(w), OutDrain(speed)));
    DispatchPlenty(w[0], w[1], w[2], f.pipeline);
  }

  /** From there three ticks fill everything. */
  lemma BackedUpFills(f: Flow, speed: real)
    requires Balanced(f) && OutDrain(speed) <= 0.0 && BackedUp(f)
    ensures Full(Ticks(f, speed, 3)) && Balanced(Ticks(f, speed, 3))
  {
    hide NextFlow, Sum;
    var g := NextFlow(f, speed);
    StoppedPlenty(f, speed);
    NextFlowBalanced(f, speed);
    assert g.pipeline >= 14.8;
    var h := NextFlow(g, speed);
    StoppedPlenty(g, speed);
    NextFlowBalanced(g, speed);
    assert h.pipeline >= 15.4 && h.workers == [1.0, 1.0, 1.0];
    var i := NextFlow(h, speed);
    StoppedPlenty(h, speed);
    NextFlowBalanced(h, speed);
    assert Ticks(f, speed, 3) == Ticks(g, speed, 2) == Ticks(h, speed, 1) == Ticks(i, speed, 0) == i;
  }

  /** What is full stays full, blocked at both ends, and nothing more is produced or delivered. */
  lemma FullStays(f: Flow, speed: real)
    requires Balanced(f) && OutDrain(speed) <= 0.0 && Full(f)
    ensures NextFlow(f, speed) == f.(ioSnap := IO_CPU_CAP, ioBlocked := true, cpuBlocked := true)
  {
    hide DrainWorkers, Dispatch, Sum;
    var w := f.workers;
    NothingDrained(w, Min(Sum(w), OutDrain(speed)));
    DispatchPlenty(1.0, 1.0, 1.0, f.pipeline);
    SumOfBetween(w);
  }

  lemma {:induction false} FullStaysFor(f: Flow, speed: real, n: nat)
    requires Balanced(f) && OutDrain(speed) <= 0.0 && Full(f) && n > 0
    ensures var g := Ticks(f, speed, n); Full(g) && g.ioBlocked && g.cpuBlocked
    decreases n
  {
    hide NextFlow, Balanced;
    FullStays(f, speed);
    NextFlowBalanced(f, speed);
    if n == 1 {
      assert Ticks(f, speed, 1) == Ticks(NextFlow(f, speed), speed, 0);
    } else {
      FullStaysFor(NextFlow(f, speed), speed, n - 1);
    }
  }

  lemma {:induction false} TicksAdd(f: Flow, speed: real, m: nat, n: nat)
    ensures Ticks(f, speed, m + n) == Ticks(Ticks(f, speed, m), speed, n)
    decreases m
  {
    hide NextFlow;
    if m > 0 {
      TicksAdd(NextFlow(f, speed), speed, m - 1, n);
    }
  }

  /** Whatever the state, once the output stops the input is blocked from the 33rd tick on. */
  lemma StoppedOutputBlocksInput(f: Flow, speed: real, n: nat)
    requires Balanced(f) && OutDrain(speed) <= 0.0 && n >= 33
    ensures Full(Ticks(f, speed, n)) && Ticks(f, speed, n).ioBlocked && Ticks(f, speed, n).cpuBlocked
  {
    hide NextFlow, Balanced, BackedUp, Full;
    RoomIsLeft(f);
    BacksUp(f, speed, 29);
    var k: nat :| k <= 29 && Balanced(Ticks(f, speed, k)) && BackedUp(Ticks(f, speed, k));
    var g := Ticks(f, speed, k);
    BackedUpFills(g, speed);
    TicksAdd(f, speed, k, 3);
    TicksAdd(f, speed, k + 3, n - k - 3);
    FullStaysFor(Ticks(g, speed, 3), speed, n - k - 3);
  }

  // ----- What the sources and the stages show -----

  /** What moves in one tick, in units: out at most 2.4 at full speed, 1.2 from the input on and 1.2 into it. */
  lemma FlowRates(f: Flow, speed: real)
    requires Balanced(f)
    ensures var next := NextFlow(f, speed);
            var sent, made := next.delivered - f.delivered, next.produced - f.produced;
            && sent == Max(0.0, Min(Sum(f.workers), 0.024 * speed))
            && made == (if next.cpuBlocked then 0.0 else Min(Min(f.io, 1.2), 16.0 - (next.pipeline - made)))
            && (next.cpuBlocked <==> next.pipeline - made >= 16.0)
            && next.ioSnap == f.io - made && (next.ioBlocked <==> next.ioSnap >= 4.0)
            && next.io == (if next.ioBlocked then next.ioSnap else next.ioSnap + Min(1.2, 4.0 - next.ioSnap))
  {
    hide Dispatch, DrainWorkers, Sum;
    BalancedParts(f);
  }

  /** Up to some worker all are emptied, and behind it none is touched. */
  lemma {:induction false} DrainsInOrder(fills: seq<real>, remaining: real) returns (k: nat)
    requires Between(fills, 0.0, 1.0) && remaining <= Sum(fills)
    ensures k <= |fills|
    ensures forall i :: 0 <= i < k ==> DrainWorkers(fills, remaining)[i] == 0.0
    ensures forall i :: k < i < |fills| ==> DrainWorkers(fills, remaining)[i] == fills[i]
    decreases |fills|
  {
    if |fills| == 0 || remaining <= 0.0 {
      k := 0;
    } else if remaining < fills[0] {
      k := 0;
      assert DrainWorkers(fills[1..], 0.0) == fills[1..];
    } else {
      SumOfBetween(fills[1..]);
      var j := DrainsInOrder(fills[1..], remaining - fills[0]);
      k := j + 1;
    }
  }

  /** A worker that gets less than it could take leaves nothing for those behind it. */
  lemma {:induction false} DispatchesInOrder(fills: seq<real>, pipeline: real, i: nat, j: nat)
    requires Between(fills, 0.0, 1.0) && pipeline >= 0.0 && i < j < |fills|
    ensures var r := Dispatch(fills, pipeline).0;
            r[i] - fills[i] < Min(1.0 - fills[i], 0.8) ==> r[j] == fills[j] && Dispatch(fills, pipeline).1 == 0.0
    decreases |fills|
  {
    if pipeline > 0.0 {
      var send := Sent(fills[0], pipeline);
      if i > 0 {
        DispatchesInOrder(fills[1..], pipeline - send, i - 1, j - 1);
      } else if send < Min(1.0 - fills[0], 0.8) {
        assert pipeline - send == 0.0;
        assert Dispatch(fills[1..], 0.0) == (fills[1..], 0.0);
      }
    }
  }

  lemma CeilIs(x: real)
    ensures (Ceil(x) - 1) as real < x <= Ceil(x) as real
  {
  }

  /** A worker takes what fits up to 1, at most 0.8 in one tick, and never more than there is. */
  lemma WorkerTakes(fill: real, pipeline: real)
    requires 0.0 <= fill <= 1.0 && pipeline >= 0.0
    ensures Sent(fill, pipeline) == Min(Min(1.0 - fill, pipeline), 0.8)
  {
  }

  /**
    * A file loses nothing: what is written and not yet read grows by 0.55 and shrinks by at most 1.02, or not at all.
    */
  lemma FileLag(source: Source, ioBlocked: bool)
    requires source.fileRead <= source.fileWritten
    ensures var next := NextFile(source, ioBlocked);
            var lag := source.fileWritten - source.fileRead + 0.55;
            && next.fileWritten - next.fileRead == (if ioBlocked then lag else if lag <= 1.02 then 0.0 else lag - 1.02)
            && (source.fileWritten <= 399.45 ==> next.fileWritten == source.fileWritten + 0.55)
            && (source.fileWritten > 399.45 ==> next.fileRead == 50.0)
  {
  }

  /** UDP datagrams are buffered, taken or counted as dropped: 1.8 arrive, at most 1.32 are taken, and 16 are kept. */
  lemma UdpBalance(source: Source, ioBlocked: bool)
    requires 0.0 <= source.udpBuf <= 16.0
    ensures var next := NextUdp(source, ioBlocked);
            var taken := if ioBlocked then 0.0 else if source.udpBuf + 1.8 <= 1.32 then source.udpBuf + 1.8 else 1.32;
            && next.udpBuf + next.udpDrops + taken == source.udpBuf + source.udpDrops + 1.8
            && 0.0 <= next.udpBuf <= 16.0 && next.udpDrops >= source.udpDrops
            && (next.udpDrops > source.udpDrops ==> next.udpBuf == 16.0)
  {
  }

  /** How many OTLP batches were answered with `status` in these events. */
  function Answers(events: seq<Event>, status: nat): nat {
    if |events| == 0 then 0
    else
      var e := events[|events| - 1];
      Answers(events[..|events| - 1], status) + if e.OtlpBatch? && e.status == status then 1 else 0
  }

  lemma {:induction false} AnswersConcat(a: seq<Event>, b: seq<Event>, status: nat)
    ensures Answers(a + b, status) == Answers(a, status) + Answers(b, status)
    decreases |b|
  {
    if |b| == 0 {
      assert a + b == a;
    } else {
      AnswersConcat(a, b[..|b| - 1], status);
      assert (a + b)[..|a + b| - 1] == a + b[..|b| - 1];
    }
  }

  lemma ChangeIsNoAnswer(
    stage: Stage, before: StageState, after: StageState, mode: Option<SourceMode>, fill: Option<int>, status: nat)
    ensures Answers(Change(stage, before, after, mode, fill), status) == 0
  {
  }

  /** A tick answers one batch in OTLP mode on every sixth tick, with 200 if the input is open and 429 if it is not. */
  lemma TickAnswers(s: State)
    ensures var open := !NextFlow(s.flow, s.outputSpeed).ioBlocked;
            var due := s.mode == Otlp && (s.ticks + 1) % 6 == 0;
            && Answers(TickEvents(s), 200) == (if due && open then 1 else 0)
            && Answers(TickEvents(s), 429) == (if due && !open then 1 else 0)
            && Next(s).source.otlpAccepted == s.source.otlpAccepted + Answers(TickEvents(s), 200)
            && Next(s).source.otlpRejected == s.source.otlpRejected + Answers(TickEvents(s), 429)
            && Next(s).source.otlpBatch == s.source.otlpBatch + (if due then 1 else 0)
  {
    hide NextFlow, IoState, CpuState, OutState, Change, Ceil, Answers;
    var flow := NextFlow(s.flow, s.outputSpeed);
    var otlp := OtlpEvents(s.source, s.mode, flow.ioBlocked, s.ticks + 1);
    var out := Change(Out, s.prevOut, OutState(flow), None, None);
    var cpu := Change(Cpu, s.prevCpu, CpuState(flow), None, Some(Ceil(flow.pipeline)));
    var io := Change(Io, s.prevIo, IoState(flow), Some(s.mode), None);
    forall status: nat ensures Answers(TickEvents(s), status) == Answers(otlp, status) {
      AnswersConcat(otlp + out + cpu, io, status);
      AnswersConcat(otlp + out, cpu, status);
      AnswersConcat(otlp, out, status);
      ChangeIsNoAnswer(Out, s.prevOut, OutState(flow), None, None, status);
      ChangeIsNoAnswer(Cpu, s.prevCpu, CpuState(flow), None, Some(Ceil(flow.pipeline)), status);
      ChangeIsNoAnswer(Io, s.prevIo, IoState(flow), Some(s.mode), None, status);
    }
    OneAnswer(otlp);
  }

  lemma OneAnswer(events: seq<Event>)
    requires |events| <= 1
    ensures forall status: nat ::
      Answers(events, status) == if |events| == 1 && events[0].OtlpBatch? && events[0].status == status then 1 else 0
  {
    assert |events| == 1 ==> events[..0] == [];
  }

  /** No reset among these operations. */
  predicate Unbroken(ops: seq<Op>) {
    forall i :: 0 <= i < |ops| ==> ops[i] != ResetAll
  }

  /** In a run without a reset the counters are the answers given. */
  lemma {:induction false} CountersAreAnswers(ops: seq<Op>)
    requires Unbroken(ops)
    ensures After(ops).source.otlpAccepted == Answers(Events(ops), 200)
    ensures After(ops).source.otlpRejected == Answers(Events(ops), 429)
    ensures After(ops).source.otlpBatch == Answers(Events(ops), 200) + Answers(Events(ops), 429)
    decreases |ops|
  {
    hide Next, TickEvents, Answers;
    if |ops| == 0 {
      OneAnswer([]);
    } else {
      var before := ops[..|ops| - 1];
      CountersAreAnswers(before);
      if ops[|ops| - 1] == Tick {
        TickAnswers(After(before));
        AnswersConcat(Events(before), TickEvents(After(before)), 200);
        AnswersConcat(Events(before), TickEvents(After(before)), 429);
      } else {
        assert ops[|ops| - 1] != ResetAll;
      }
    }
  }

  /** The colours: blocked and pressured stages by their fills. */
  lemma StageColours(f: Flow, a: real, b: real, c: real)
    requires f.workers == [a, b, c]
    ensures IoState(f) == if f.ioBlocked then Blocked else if f.ioSnap > 2.0 then Pressured else Fine
    ensures CpuState(f) == if f.pipeline >= 16.0 then Blocked else if f.pipeline > 8.0 then Pressured else Fine
    ensures OutState(f) == Blocked <==> a >= 0.9 && b >= 0.9 && c >= 0.9
    ensures OutState(f) == Fine <==>
            !(a >= 0.9 && b >= 0.9 && c >= 0.9)
            && !(a > 0.1 && b > 0.1) && !(a > 0.1 && c > 0.1) && !(b > 0.1 && c > 0.1)
  {
    ThreeWorkers(a, b, c);
    assert f.workers[0] == a && f.workers[1] == b && f.workers[2] == c;
  }

  // ----- A stopped output in a run -----

  function Repeat(n: nat): seq<Op> {
    seq(n, _ => Tick)
  }

  lemma AfterSnoc(ops: seq<Op>, op: Op)
    ensures After(ops + [op]) == match op
      case Tick => Next(After(ops))
      case ResetAll => Reset(After(ops))
      case SetSpeed(speed) => After(ops).(outputSpeed := speed)
      case SetMode(mode) => After(ops).(mode := mode)
    ensures op.Tick? ==> Events(ops + [op]) == Events(ops) + TickEvents(After(ops))
  {
    hide Next, Reset, TickEvents;
    assert (ops + [op])[..|ops|] == ops;
  }

  /** The flow after `n` ticks of a run is `n` steps of the flow. */
  lemma {:induction false} RunTicks(ops: seq<Op>, n: nat)
    ensures var s, t := After(ops), After(ops + Repeat(n));
            t.flow == Ticks(s.flow, s.outputSpeed, n) && t.outputSpeed == s.outputSpeed && t.mode == s.mode
    decreases n
  {
    hide NextFlow, NextSource, IoState, CpuState, OutState, After, Ticks;
    if n == 0 {
      assert ops + Repeat(0) == ops;
      NoTicks(After(ops).flow, After(ops).outputSpeed);
    } else {
      RunTicks(ops, n - 1);
      assert ops + Repeat(n) == ops + Repeat(n - 1) + [Tick];
      AfterSnoc(ops + Repeat(n - 1), Tick);
      OneTickMore(After(ops).flow, After(ops).outputSpeed, n - 1);
    }
  }

  lemma NoTicks(f: Flow, speed: real)
    ensures Ticks(f, speed, 0) == f
  {
  }

  lemma OneTickMore(f: Flow, speed: real, n: nat)
    ensures Ticks(f, speed, n + 1) == NextFlow(Ticks(f, speed, n), speed)
  {
    hide NextFlow;
    TicksAdd(f, speed, n, 1);
    var g := Ticks(f, speed, n);
    assert Ticks(g, speed, 1) == Ticks(NextFlow(g, speed), speed, 0);
  }

  /** The last transition of a stage, if there is one. */
  function LastTransition(events: seq<Event>, stage: Stage): Option<StageState> {
    if |events| == 0 then None
    else
      var e := events[|events| - 1];
      if e.Transition? && e.stage == stage then Some(e.after) else LastTransition(events[..|events| - 1], stage)
  }

  /** A chain ends where its last transition leads. */
  lemma {:induction false} ChainEnds(events: seq<Event>, stage: Stage, before: StageState, after: StageState)
    requires Chained(events, stage, before, after)
    ensures LastTransition(events, stage) == Some(after) || (LastTransition(events, stage) == None && before == after)
    decreases |events|
  {
    if |events| > 0 {
      var front, last := events[..|events| - 1], events[|events| - 1];
      assert events == front + [last];
      var middle := ChainSplits(front, last, stage, before, after);
      ChainEnds(front, stage, before, middle);
    }
  }

  lemma {:induction false} ChainSplits(
    front: seq<Event>, last: Event, stage: Stage, before: StageState, after: StageState)
    returns (middle: StageState)
    requires Chained(front + [last], stage, before, after)
    ensures Chained(front, stage, before, middle) && Chained([last], stage, middle, after)
    decreases |front|
  {
    if |front| == 0 {
      assert front + [last] == [last];
      middle := before;
    } else {
      assert (front + [last])[0] == front[0] && (front + [last])[1..] == front[1..] + [last];
      if front[0].Transition? && front[0].stage == stage {
        middle := ChainSplits(front[1..], last, stage, front[0].after, after);
      } else {
        middle := ChainSplits(front[1..], last, stage, before, after);
      }
    }
  }

  /**
    * In any run: from the 33rd tick after the output is stopped on, the input stage is blocked and the last transition
    * reported for it says so; one tick more accepts no OTLP batch, and answers one that arrives with 429.
    */
  lemma StoppedRunBlocksInput(ops: seq<Op>, speed: real, n: nat)
    requires OutDrain(speed) <= 0.0 && n >= 33
    ensures var run := ops + [SetSpeed(speed)] + Repeat(n);
            var s := After(run);
            && s.flow.ioBlocked && s.prevIo == Blocked && LastTransition(Events(run), Io) == Some(Blocked)
            && Next(s).source.otlpAccepted == s.source.otlpAccepted
            && forall i :: 0 <= i < |TickEvents(s)| ==>
              (TickEvents(s)[i].OtlpBatch? ==> TickEvents(s)[i] == OtlpBatch(s.source.otlpBatch + 1, 429, true))
  {
    hide After, Events, Ticks, NextFlow, Balanced, Full, Chained, Consistent, LastTransition, Next, TickEvents, IoState,
      CpuState, OutState;
    var stopped := ops + [SetSpeed(speed)];
    var run := stopped + Repeat(n);
    AfterSnoc(ops, SetSpeed(speed));
    RunIsSound(stopped);
    RunTicks(stopped, n);
    StoppedOutputBlocksInput(After(stopped).flow, speed, n);
    RunIsSound(run);
    BlockedIs(After(run).flow);
    TransitionsTellTheState(run, Io);
    ChainEnds(Events(run), Io, Fine, Blocked);
    assert stopped + Repeat(n + 1) == run + [Tick];
    RunTicks(stopped, n + 1);
    AfterSnoc(run, Tick);
    StoppedOutputBlocksInput(After(stopped).flow, speed, n + 1);
    BlockedAnswers(After(run));
  }

  lemma BlockedIs(f: Flow)
    requires f.ioBlocked
    ensures IoState(f) == Blocked
  {
  }

  lemma BlockedAnswers(s: State)
    requires Next(s).flow.ioBlocked
    ensures Next(s).source.otlpAccepted == s.source.otlpAccepted
    ensures forall i :: 0 <= i < |TickEvents(s)| ==>
      (TickEvents(s)[i].OtlpBatch? ==> TickEvents(s)[i] == OtlpBatch(s.source.otlpBatch + 1, 429, true))
  {
    hide NextFlow, IoState, CpuState, OutState, Ceil;
  }

  // ----- The simulator -----

  method Total(fills: array<real>) returns (total: real)
    ensures total == Sum(fills[..])
  {
    total := 0.0;
    for i := 0 to fills.Length
      invariant total == Sum(fills[..i])
    {
      SumSnoc(fills[..i], fills[i]);
      assert fills[..i + 1] == fills[..i] + [fills[i]];
      total := total + fills[i];
    }
    assert fills[..fills.Length] == fills[..];
  }

  lemma {:induction false} SumSnoc(xs: seq<real>, x: real)
    ensures Sum(xs + [x]) == Sum(xs) + x
    decreases |xs|
  {
    if |xs| == 0 {
      assert xs + [x] == [x] && [x][1..] == [];
    } else {
      SumSnoc(xs[1..], x);
      assert (xs + [x])[1..] == xs[1..] + [x];
    }
  }

  lemma DrainStep(done: seq<real>, fill: real, rest: seq<real>, remaining: real)
    requires remaining > 0.0
    ensures var take := Min(fill, remaining);
            done + DrainWorkers([fill] + rest, remaining) == done + [fill - take] + DrainWorkers(rest, remaining - take)
    ensures Sum([fill] + rest) == fill + Sum(rest)
  {
    assert ([fill] + rest)[1..] == rest;
  }

  lemma BetweenParts(fill: real, rest: seq<real>)
    requires Between([fill] + rest, 0.0, WORKER_CAP)
    ensures 0.0 <= fill && Between(rest, 0.0, WORKER_CAP) && 0.0 <= Sum(rest)
  {
    assert forall i :: 0 <= i < |rest| ==> rest[i] == ([fill] + rest)[i + 1];
    assert 0.0 <= ([fill] + rest)[0];
    SumOfBetween(rest);
  }

  lemma DrainEnds(fills: seq<real>, remaining: real)
    requires |fills| == 0 || remaining <= 0.0
    ensures DrainWorkers(fills, remaining) == fills && (|fills| == 0 ==> Sum(fills) == 0.0)
  {
  }

  /** The loop that drains the output workers. */
  method DrainFills(fills: array<real>, amount: real) returns (taken: real)
    requires Between(fills[..], 0.0, WORKER_CAP) && amount <= Sum(fills[..])
    modifies fills
    ensures fills[..] == DrainWorkers(old(fills[..]), amount) && taken == Max(0.0, amount)
  {
    hide DrainWorkers, Sum, Between;
    var remaining := amount;
    taken := 0.0;
    var w := 0;
    assert fills[..0] + DrainWorkers(fills[0..], amount) == DrainWorkers(fills[..], amount) by {
      assert fills[0..] == fills[..];
    }
    while w < fills.Length && remaining > 0.0
      invariant 0 <= w <= fills.Length
      invariant fills[..w] + DrainWorkers(fills[w..], remaining) == DrainWorkers(old(fills[..]), amount)
      invariant Between(fills[w..], 0.0, WORKER_CAP)
      invariant taken + remaining == amount && remaining <= Sum(fills[w..])
      invariant if amount < 0.0 then remaining == amount else remaining >= 0.0
    {
      ghost var done, rest := fills[..w], fills[w + 1..];
      var take := Min(fills[w], remaining);
      assert fills[w..] == [fills[w]] + rest;
      BetweenParts(fills[w], rest);
      DrainStep(done, fills[w], rest, remaining);
      ghost var less := fills[w] - take;
      fills[w] := fills[w] - take;
      remaining := remaining - take;
      taken := taken + take;
      w := w + 1;
      assert fills[..w] == done + [less] && fills[w..] == rest;
    }
    DrainEnds(fills[w..], remaining);
    assert fills[..w] + fills[w..] == fills[..];
  }

  lemma DispatchStep(done: seq<real>, fill: real, rest: seq<real>, pipeline: real)
    requires pipeline > 0.0
    ensures var send := Sent(fill, pipeline);
            && done + Dispatch([fill] + rest, pipeline).0 == done + [fill + send] + Dispatch(rest, pipeline - send).0
            && Dispatch([fill] + rest, pipeline).1 == Dispatch(rest, pipeline - send).1
  {
    assert ([fill] + rest)[1..] == rest;
  }

  lemma DispatchEnds(fills: seq<real>, pipeline: real)
    requires |fills| == 0 || pipeline <= 0.0
    ensures Dispatch(fills, pipeline) == (fills, pipeline)
  {
  }

  /** The loop that fills them from the pipeline. */
  method DispatchFills(fills: array<real>, amount: real) returns (left: real)
    modifies fills
    ensures fills[..] == Dispatch(old(fills[..]), amount).0 && left == Dispatch(old(fills[..]), amount).1
  {
    hide Dispatch;
    left := amount;
    var w := 0;
    assert fills[0..] == fills[..];
    assert fills[..0] + Dispatch(fills[0..], amount).0 == Dispatch(fills[..], amount).0;
    while w < fills.Length && left > 0.0
      invariant 0 <= w <= fills.Length
      invariant fills[..w] + Dispatch(fills[w..], left).0 == Dispatch(old(fills[..]), amount).0
      invariant Dispatch(fills[w..], left).1 == Dispatch(old(fills[..]), amount).1
    {
      ghost var done, rest, fill := fills[..w], fills[w + 1..], fills[w];
      assert fills[w..] == [fill] + rest;
      DispatchStep(done, fill, rest, left);
      ghost var sent := Sent(fill, left);
      var space := WORKER_CAP - fills[w];
      if space > 0.0 {
        var send := Min(Min(space, left), MRU_DISPATCH_CAP);
        fills[w] := fills[w] + send;
        left := left - send;
      }
      w := w + 1;
      assert fills[..w] == done + [fill + sent] && fills[w..] == rest;
    }
    DispatchEnds(fills[w..], left);
    assert fills[..w] + fills[w..] == fills[..];
  }

  /** The loop that clamps them: it finds nothing to do. */
  method ClampFills(fills: array<real>)
    requires Between(fills[..], 0.0, WORKER_CAP)
    modifies fills
    ensures fills[..] == old(fills[..])
  {
    for w := 0 to fills.Length
      invariant fills[..] == old(fills[..])
    {
      assert fills[w] == fills[..][w];
      fills[w] := Max(0.0, Min(WORKER_CAP, fills[w]));
      assert fills[..] == old(fills[..]);
    }
  }

  class Sim {
    var outputSpeed: real
    var sourceMode: SourceMode
    var ioCpuFill: real
    var ioCpuFillSnap: real
    var pipelineFill: real
    var workerFills: array<real>
    var ioBlocked: bool
    var cpuBlocked: bool
    var totalProduced: real
    var totalDelivered: real
    var tickCount: nat
    var fileWritten: real
    var fileRead: real
    var udpBuf: real
    var udpDrops: real
    var otlpBatchNum: nat
    var otlpAccepted: nat
    var otlpRejected: nat
    var prevIoState: StageState
    var prevCpuState: StageState
    var prevOutState: StageState

    ghost function FlowOf(): Flow
      reads `ioCpuFill, `ioCpuFillSnap, `pipelineFill, `workerFills, `ioBlocked, `cpuBlocked, `totalProduced,
        `totalDelivered, workerFills
    {
      Flow(ioCpuFill, ioCpuFillSnap, pipelineFill, workerFills[..], ioBlocked, cpuBlocked, totalProduced,
        totalDelivered)
    }

    ghost function SourceOf(): Source
      reads `fileWritten, `fileRead, `udpBuf, `udpDrops, `otlpBatchNum, `otlpAccepted, `otlpRejected
    {
      Source(fileWritten, fileRead, udpBuf, udpDrops, otlpBatchNum, otlpAccepted, otlpRejected)
    }

    ghost function Abstract(): State
      reads this, workerFills
    {
      State(outputSpeed, sourceMode, FlowOf(), tickCount, SourceOf(), prevIoState, prevCpuState, prevOutState)
    }

    ghost predicate Valid()
      reads this, workerFills
    {
      Sound(Abstract())
    }

    constructor ()
      ensures Valid() && Abstract() == START && fresh(workerFills)
    {
      hide Sound, Reset;
      outputSpeed, sourceMode := 100.0, File;
      ioCpuFill, ioCpuFillSnap, pipelineFill := 0.0, 0.0, 0.0;
      workerFills := new real[3] [0.0, 0.0, 0.0];
      ioBlocked, cpuBlocked := false, false;
      totalProduced, totalDelivered, tickCount := 0.0, 0.0, 0;
      fileWritten, fileRead, udpBuf, udpDrops := 0.0, 0.0, 0.0, 0.0;
      otlpBatchNum, otlpAccepted, otlpRejected := 0, 0, 0;
      prevIoState, prevCpuState, prevOutState := Fine, Fine, Fine;
      new;
      assert workerFills[..] == [0.0, 0.0, 0.0];
      ResetIsSound(START);
      ResetIsStart();
    }

    method ResetFlow()
      modifies `ioCpuFill, `ioCpuFillSnap, `pipelineFill, `workerFills, `ioBlocked, `cpuBlocked, `totalProduced,
        `totalDelivered
      ensures FlowOf() == EMPTY_FLOW && fresh(workerFills)
    {
      ioCpuFill, ioCpuFillSnap, pipelineFill := 0.0, 0.0, 0.0;
      workerFills := new real[3] [0.0, 0.0, 0.0];
      ioBlocked, cpuBlocked := false, false;
      totalProduced, totalDelivered := 0.0, 0.0;
      assert workerFills[..] == [0.0, 0.0, 0.0];
    }

    method ResetSource()
      modifies `fileWritten, `fileRead, `udpBuf, `udpDrops, `otlpBatchNum, `otlpAccepted, `otlpRejected
      ensures SourceOf() == EMPTY_SOURCE
    {
      fileWritten, fileRead, udpBuf, udpDrops := 0.0, 0.0, 0.0, 0.0;
      otlpBatchNum, otlpAccepted, otlpRejected := 0, 0, 0;
    }

    /** `reset`: everything but the two settings. */
    method ResetState()
      modifies this
      ensures Valid() && Abstract() == Reset(old(Abstract())) && fresh(workerFills)
    {
      hide Sound;
      ghost var before := Abstract();
      ResetIsSound(before);
      ResetFlow();
      ResetSource();
      tickCount := 0;
      ResetStages();
      assert Abstract() == Reset(before);
    }

    method ResetStages()
      modifies `prevIoState, `prevCpuState, `prevOutState
      ensures prevIoState == Fine && prevCpuState == Fine && prevOutState == Fine
    {
      prevIoState, prevCpuState, prevOutState := Fine, Fine, Fine;
    }

    /** The flow part of `tick`, with its clamps. */
    method StepFlow()
      requires Balanced(FlowOf())
      modifies `ioCpuFill, `ioCpuFillSnap, `pipelineFill, `ioBlocked, `cpuBlocked, `totalProduced, `totalDelivered,
        workerFills
      ensures FlowOf() == NextFlow(old(FlowOf()), outputSpeed)
    {
      hide DrainWorkers, Dispatch, Sum, Balanced;
      ghost var f := FlowOf();
      BalancedParts(f);
      NextFlowBalanced(f, outputSpeed);

      var total := Total(workerFills);
      var taken := DrainFills(workerFills, Min(total, OutDrain(outputSpeed)));
      totalDelivered := totalDelivered + taken;

      pipelineFill := DispatchFills(workerFills, pipelineFill);

      cpuBlocked := pipelineFill >= PIPELINE_CAP;
      if !cpuBlocked && ioCpuFill > 0.0 {
        var drain := Min(Min(ioCpuFill, CPU_RATE), PIPELINE_CAP - pipelineFill);
        ioCpuFill := ioCpuFill - drain;
        pipelineFill := pipelineFill + drain;
        totalProduced := totalProduced + drain;
      }

      ioBlocked := ioCpuFill >= IO_CPU_CAP;
      ioCpuFillSnap := ioCpuFill;
      if !ioBlocked {
        ioCpuFill := ioCpuFill + Min(IO_RATE, IO_CPU_CAP - ioCpuFill);
      }

      assert FlowOf() == NextFlow(f, outputSpeed);
      ClampFlow();
    }

    /** The clamps at the end of the flow part, none of which binds. */
    method ClampFlow()
      requires Balanced(FlowOf())
      modifies `ioCpuFill, `pipelineFill, workerFills
      ensures FlowOf() == old(FlowOf())
    {
      hide Balanced, Sum;
      BalancedParts(FlowOf());
      ioCpuFill := Max(0.0, Min(IO_CPU_CAP, ioCpuFill));
      pipelineFill := Max(0.0, Min(PIPELINE_CAP, pipelineFill));
      ClampFills(workerFills);
    }

    /** The source part of `tick`. */
    method StepSource() returns (events: seq<Event>)
      modifies `fileWritten, `fileRead, `udpBuf, `udpDrops, `otlpBatchNum, `otlpAccepted, `otlpRejected
      ensures SourceOf() == NextSource(old(SourceOf()), sourceMode, ioBlocked, tickCount)
      ensures events == OtlpEvents(old(SourceOf()), sourceMode, ioBlocked, tickCount)
    {
      events := [];
      match sourceMode {
        case File =>
          fileWritten := fileWritten + FILE_WRITE_RATE;
          if !ioBlocked {
            fileRead := Min(fileRead + IO_RATE * 0.85, fileWritten);
          }
          if fileWritten > FILE_MAX {
            var lag := fileWritten - fileRead;
            fileWritten := lag + 50.0;
            fileRead := 50.0;
          }
        case Udp =>
          udpBuf := udpBuf + UDP_ARRIVE_RATE;
          if !ioBlocked {
            udpBuf := Max(0.0, udpBuf - IO_RATE * 1.1);
          }
          if udpBuf > UDP_CAP {
            udpDrops := udpDrops + (udpBuf - UDP_CAP);
            udpBuf := UDP_CAP;
          }
        case Otlp =>
          if tickCount % 6 == 0 {
            otlpBatchNum := otlpBatchNum + 1;
            if ioBlocked {
              otlpRejected := otlpRejected + 1;
              events := events + [OtlpBatch(otlpBatchNum, 429, true)];
            } else {
              otlpAccepted := otlpAccepted + 1;
              events := events + [OtlpBatch(otlpBatchNum, 200, false)];
            }
          }
      }
    }

    method ClassifyStages() returns (io: StageState, cpu: StageState, out: StageState)
      ensures io == IoState(FlowOf()) && cpu == CpuState(FlowOf()) && out == OutState(FlowOf())
    {
      io := if ioBlocked then Blocked else if ioCpuFillSnap / IO_CPU_CAP > 0.5 then Pressured else Fine;
      cpu := ClassifyState(pipelineFill, PIPELINE_CAP);
      var fills := workerFills[..];
      var workerBusy := CountBusy(fills);
      var allFull := forall i :: 0 <= i < |fills| ==> fills[i] >= WORKER_CAP * 0.9;
      out := if allFull then Blocked else if workerBusy >= 2 then Pressured else Fine;
    }

    /** The transition detection of `tick`. */
    method DetectTransitions() returns (events: seq<Event>)
      modifies `prevIoState, `prevCpuState, `prevOutState
      ensures prevIoState == IoState(FlowOf()) && prevCpuState == CpuState(FlowOf())
        && prevOutState == OutState(FlowOf())
      ensures events ==
        Change(Out, old(prevOutState), OutState(FlowOf()), None, None)
        + Change(Cpu, old(prevCpuState), CpuState(FlowOf()), None, Some(Ceil(pipelineFill)))
        + Change(Io, old(prevIoState), IoState(FlowOf()), Some(sourceMode), None)
    {
      hide IoState, CpuState, OutState, Ceil, Change;
      var ioState, cpuState, outState := ClassifyStages();
      ChangeStep([], Out, prevOutState, outState, None, None);
      ghost var a := Change(Out, prevOutState, outState, None, None);
      ChangeStep(a, Cpu, prevCpuState, cpuState, None, Some(Ceil(pipelineFill)));
      ghost var b := a + Change(Cpu, prevCpuState, cpuState, None, Some(Ceil(pipelineFill)));
      ChangeStep(b, Io, prevIoState, ioState, Some(sourceMode), None);
      events := [];
      if outState != prevOutState {
        events := events + [Transition(Out, prevOutState, outState, None, None)];
        prevOutState := outState;
      }
      assert events == a;
      if cpuState != prevCpuState {
        events := events + [Transition(Cpu, prevCpuState, cpuState, None, Some(Ceil(pipelineFill)))];
        prevCpuState := cpuState;
      }
      assert events == b;
      if ioState != prevIoState {
        events := events + [Transition(Io, prevIoState, ioState, Some(sourceMode), None)];
        prevIoState := ioState;
      }
    }

    /** `tick`: the clamps change nothing, so it is the tick without them. */
    method TickOnce() returns (events: seq<Event>)
      requires Valid()
      modifies this, workerFills
      ensures Valid() && workerFills == old(workerFills)
      ensures Abstract() == Next(old(Abstract())) && events == TickEvents(old(Abstract()))
    {
      hide NextFlow, IoState, CpuState, OutState, NextSource, OtlpEvents, Change, Sound, Balanced, Ceil;
      ghost var s := Abstract();
      SoundFlow(s);
      NextIsSound(s);
      tickCount := tickCount + 1;
      StepFlow();
      var arrivals := StepSource();
      var transitions := DetectTransitions();
      events := arrivals + transitions;
      assert Abstract() == Next(s);
    }
  }

  lemma ChangeStep(
    events: seq<Event>, stage: Stage, before: StageState, after: StageState, mode: Option<SourceMode>,
    fill: Option<int>)
    ensures before == after ==> events + Change(stage, before, after, mode, fill) == events
    ensures before != after ==>
            events + Change(stage, before, after, mode, fill) == events + [Transition(stage, before, after, mode, fill)]
    ensures [] + Change(stage, before, after, mode, fill) == Change(stage, before, after, mode, fill)
  {
  }

  lemma BalancedParts(f: Flow)
    requires Balanced(f)
    ensures 0.0 <= f.io <= IO_CPU_CAP && 0.0 <= f.pipeline <= PIPELINE_CAP && Between(f.workers, 0.0, WORKER_CAP)
    ensures 0.0 <= Sum(f.workers)
  {
    SumOfBetween(f.workers);
  }
}

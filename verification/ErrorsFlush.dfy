/** The flush protocol of the errors package while it is running: the handler and the report
    runtime below it each number their admissions and flush in generations. Handles, reports
    and generations are numbered by their position; an admission version is a length. */
module ErrorsFlush {
  import opened Collections

  const MAX_ACTIVE: nat := 1_000
  const MAX_FLUSHES: nat := 64

  datatype HandlePhase = Admitted | Reporting(report: Option<nat>) | Settled

  /** `barrier` is the generation that was current when the handle was admitted. */
  datatype Handle = Handle(barrier: Option<nat>, phase: HandlePhase)

  datatype Report = Report(owner: nat, settled: bool)

  datatype Phase = Waiting | Flushing(on: nat) | Succeeded(via: nat) | Failed

  /** A handler generation: `on` and `via` name the runtime generation its flush relies on. */
  datatype Flush = Flush(target: nat, accepted: set<nat>, predecessor: Option<nat>, phase: Phase)

  datatype SinkPhase = Queued | Sinking(seen: set<nat>) | Flushed(seen: set<nat>) | SinkFailed

  /** A runtime generation: `seen` are the reports that had settled when its sink flush started. */
  datatype SinkFlush = SinkFlush(target: nat, accepted: set<nat>, predecessor: Option<nat>, phase: SinkPhase)

  /** `scheduled` and `completed` start at -1; the `completedBy` fields are history. */
  datatype State = State(
    handles: seq<Handle>, flushes: seq<Flush>, current: Option<nat>, scheduled: int, completed: int,
    completedBy: Option<nat>,
    reports: seq<Report>, sinks: seq<SinkFlush>, sinkCurrent: Option<nat>, sinkScheduled: int, sinkCompleted: int,
    sinkCompletedBy: Option<nat>)

  const INITIAL := State([], [], None, -1, -1, None, [], [], None, -1, -1, None)

  predicate FlushSettled(f: Flush) { f.phase.Succeeded? || f.phase.Failed? }

  predicate SinkSettled(f: SinkFlush) { f.phase.Flushed? || f.phase.SinkFailed? }

  function OpenHandles(s: State): set<nat> { set h | 0 <= h < |s.handles| && !s.handles[h].phase.Settled? }

  function OpenReports(s: State): set<nat> { set r | 0 <= r < |s.reports| && !s.reports[r].settled }

  function SettledReports(s: State): set<nat> { set r | 0 <= r < |s.reports| && s.reports[r].settled }

  function OpenFlushes(s: State): set<nat> { set g | 0 <= g < |s.flushes| && !FlushSettled(s.flushes[g]) }

  function OpenSinks(s: State): set<nat> { set x | 0 <= x < |s.sinks| && !SinkSettled(s.sinks[x]) }

  /** How a flush call is answered. */
  datatype Outcome = Already | Joined(g: nat) | Created(g: nat) | Refused

  function FlushOutcome(s: State): Outcome {
    if s.completed >= |s.handles| then Already
    else if s.current.Some? && s.scheduled >= |s.handles| then Joined(s.current.value)
    else if |OpenFlushes(s)| >= MAX_FLUSHES then Refused
    else Created(|s.flushes|)
  }

  function SinkOutcome(s: State): Outcome {
    if s.sinkCompleted >= |s.reports| then Already
    else if s.sinkCurrent.Some? && s.sinkScheduled >= |s.reports| then Joined(s.sinkCurrent.value)
    else if |OpenSinks(s)| >= MAX_FLUSHES then Refused
    else Created(|s.sinks|)
  }

  /** `handler.flush()`: only a created generation changes anything. */
  function CallFlush(s: State): State {
    if !FlushOutcome(s).Created? then s
    else s.(flushes := s.flushes + [Flush(|s.handles|, OpenHandles(s), s.current, Waiting)],
         current := Some(|s.flushes|), scheduled := |s.handles|)
  }

  /** `reportRuntime.flush()`. */
  function CallSinkFlush(s: State): State {
    if !SinkOutcome(s).Created? then s
    else s.(sinks := s.sinks + [SinkFlush(|s.reports|, OpenReports(s), s.sinkCurrent, Queued)],
         sinkCurrent := Some(|s.sinks|), sinkScheduled := |s.reports|)
  }

  datatype Step =
    | Admit(snapshots: bool)
    | SendReport(h: nat, wanted: bool, snapshots: bool)
    | SettleHandle(h: nat)
    | SettleReport(r: nat)
    | RequestFlush
    | RunFlush(g: nat)
    | FinishFlush(g: nat)
    | TimeOutFlush(g: nat)
    | RetireFlush(g: nat)
    | StartSink(x: nat)
    | EndSink(x: nat, ok: bool)
    | RetireSink(x: nat)

  predicate BarrierOpen(s: State, h: nat)
    requires h < |s.handles|
  {
    var b := s.handles[h].barrier;
    b.None? || (b.value < |s.flushes| && FlushSettled(s.flushes[b.value]))
  }

  predicate FlushReady(s: State, g: nat)
    requires g < |s.flushes|
  {
    var f := s.flushes[g];
    && f.phase.Waiting?
    && (f.predecessor.None? || (f.predecessor.value < |s.flushes| && FlushSettled(s.flushes[f.predecessor.value])))
    && f.accepted !! OpenHandles(s)
  }

  predicate SinkReady(s: State, x: nat)
    requires x < |s.sinks|
  {
    var f := s.sinks[x];
    && f.phase.Queued?
    && (f.predecessor.None? || (f.predecessor.value < |s.sinks| && SinkSettled(s.sinks[f.predecessor.value])))
    && f.accepted !! OpenReports(s)
  }

  function SetFlush(s: State, g: nat, phase: Phase): State
    requires g < |s.flushes|
  {
    s.(flushes := s.flushes[g := s.flushes[g].(phase := phase)])
  }

  function SetSink(s: State, x: nat, phase: SinkPhase): State
    requires x < |s.sinks|
  {
    s.(sinks := s.sinks[x := s.sinks[x].(phase := phase)])
  }

  /** A handle reports at most once, after its barrier; a refused or unwanted report is skipped. */
  function DoReport(s: State, h: nat, wanted: bool, snapshots: bool): State
    requires h < |s.handles|
  {
    if !wanted || |OpenReports(s)| >= MAX_ACTIVE
    then s.(handles := s.handles[h := s.handles[h].(phase := Reporting(None))])
    else s.(handles := s.handles[h := s.handles[h].(phase := Reporting(Some(|s.reports|)))],
         reports := s.reports + [Report(h, !snapshots)])
  }

  /** All accepted handles have settled: the generation calls the runtime's flush. */
  function DoRun(s: State, g: nat): State
    requires g < |s.flushes|
  {
    match SinkOutcome(s)
    case Already => if s.sinkCompletedBy.Some? then SetFlush(s, g, Flushing(s.sinkCompletedBy.value)) else s
    case Joined(x) => SetFlush(s, g, Flushing(x))
    case Created(x) => SetFlush(CallSinkFlush(s), g, Flushing(x))
    case Refused => SetFlush(s, g, Failed)
  }

  function DoFinish(s: State, g: nat): State
    requires g < |s.flushes| && s.flushes[g].phase.Flushing?
  {
    var x := s.flushes[g].phase.on;
    if x >= |s.sinks| then s
    else match s.sinks[x].phase
      case Flushed(_) =>
        if s.flushes[g].target >= s.completed
        then SetFlush(s, g, Succeeded(x)).(completed := s.flushes[g].target, completedBy := Some(g))
        else SetFlush(s, g, Succeeded(x))
      case SinkFailed => SetFlush(s, g, Failed)
      case _ => s
  }

  function DoEndSink(s: State, x: nat, ok: bool): State
    requires x < |s.sinks| && s.sinks[x].phase.Sinking?
  {
    if !ok then SetSink(s, x, SinkFailed)
    else if s.sinks[x].target >= s.sinkCompleted
    then SetSink(s, x, Flushed(s.sinks[x].phase.seen)).(sinkCompleted := s.sinks[x].target, sinkCompletedBy := Some(x))
    else SetSink(s, x, Flushed(s.sinks[x].phase.seen))
  }

  /** One atomic stretch of code; a step that is not enabled changes nothing. */
  function Next(s: State, step: Step): State {
    match step
    case Admit(snapshots) =>
      if |OpenHandles(s)| >= MAX_ACTIVE then s
      else s.(handles := s.handles + [Handle(s.current, if snapshots then Admitted else Settled)])
    case SendReport(h, wanted, snapshots) =>
      if h < |s.handles| && s.handles[h].phase.Admitted? && BarrierOpen(s, h) then DoReport(s, h, wanted, snapshots)
      else s
    case SettleHandle(h) =>
      if h < |s.handles| && s.handles[h].phase.Reporting?
      then s.(handles := s.handles[h := s.handles[h].(phase := Settled)]) else s
    case SettleReport(r) =>
      if r < |s.reports| then s.(reports := s.reports[r := s.reports[r].(settled := true)]) else s
    case RequestFlush => CallFlush(s)
    case RunFlush(g) => if g < |s.flushes| && FlushReady(s, g) then DoRun(s, g) else s
    case FinishFlush(g) => if g < |s.flushes| && s.flushes[g].phase.Flushing? then DoFinish(s, g) else s
    case TimeOutFlush(g) => if g < |s.flushes| && s.flushes[g].phase.Flushing? then SetFlush(s, g, Failed) else s
    case RetireFlush(g) =>
      if s.current == Some(g) && g < |s.flushes| && FlushSettled(s.flushes[g]) then s.(current := None) else s
    case StartSink(x) => if x < |s.sinks| && SinkReady(s, x) then SetSink(s, x, Sinking(SettledReports(s))) else s
    case EndSink(x, ok) => if x < |s.sinks| && s.sinks[x].phase.Sinking? then DoEndSink(s, x, ok) else s
    case RetireSink(x) =>
      if s.sinkCurrent == Some(x) && x < |s.sinks| && SinkSettled(s.sinks[x]) then s.(sinkCurrent := None) else s
  }

  function Run(steps: seq<Step>): State {
    if steps == [] then INITIAL else Next(Run(steps[..|steps| - 1]), steps[|steps| - 1])
  }
}

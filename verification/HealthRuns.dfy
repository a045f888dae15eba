/** Health checks: a run hands the registered checks to a pool of workers, and either finishes or times out. */
module HealthRuns {
  import opened Collections

  const MAX_CHECKS: nat := 128
  const FAILURE_THRESHOLD: nat := 3

  datatype Outcome = Healthy | Unhealthy(critical: bool)

  /** History: which run gave which verdict. */
  datatype Verdict = Verdict(run: nat, outcome: Outcome)

  /** `physical` is the execution that has not settled yet; `verdicts` is history. */
  datatype Entry = Entry(
    required: bool, healthy: bool, failures: nat, critical: bool, physical: Option<nat>, verdicts: seq<Verdict>)

  datatype Execution = Execution(entry: nat, settled: bool)

  datatype Worker = Free | Checking(entry: nat, execution: nat) | Done

  datatype Active = Active(list: seq<nat>, next: nat, pending: set<nat>, workers: seq<Worker>, live: bool)

  /** What a run left behind: its checks, and which checks were registered when it ended or timed out. */
  datatype Concluded = Concluded(list: seq<nat>, registered: set<nat>, drained: bool)

  datatype Severity = Warning | Error | Critical

  /** Checks are named by the order of their registration; `concluded` is history. */
  datatype State = State(
    entries: seq<Entry>, registered: seq<nat>, executions: seq<Execution>, run: Option<Active>,
    accepting: bool, closed: bool,
    degradations: map<string, Severity>, concluded: seq<Concluded>)

  const INITIAL := State([], [], [], None, true, false, map[], [])

  datatype Step =
    | Register(required: bool)
    | Unregister(e: nat)
    | Begin(concurrency: nat)
    | Take(w: nat)
    | Settle(x: nat)
    | Deliver(w: nat, outcome: Outcome)
    | TimeOutRun
    | Finish
    | BeginDrain
    | Close
    | Degrade(code: string, severity: Severity)
    | Restore(which: Option<string>)

  function Recorded(e: Entry, run: nat, outcome: Outcome): Entry {
    match outcome
    case Healthy => Entry(e.required, true, 0, false, e.physical, e.verdicts + [Verdict(run, outcome)])
    case Unhealthy(critical) =>
      Entry(e.required, false, e.failures + 1, e.critical || critical, e.physical, e.verdicts + [Verdict(run, outcome)])
  }

  /** The run in progress is the one after those that are concluded. */
  function Record(s: State, e: nat, outcome: Outcome): State {
    if e < |s.entries| then s.(entries := s.entries[e := Recorded(s.entries[e], |s.concluded|, outcome)]) else s
  }

  function Remove(order: seq<nat>, e: nat): seq<nat> {
    if order == [] then []
    else if order[|order| - 1] == e then Remove(order[..|order| - 1], e)
    else Remove(order[..|order| - 1], e) + [order[|order| - 1]]
  }

  function SetWorker(s: State, run: Active, w: nat, worker: Worker): State
    requires w < |run.workers|
  {
    s.(run := Some(run.(workers := run.workers[w := worker])))
  }

  function DoBegin(s: State, concurrency: nat): State {
    var workers := seq(Min(concurrency, |s.registered|), _ => Free);
    s.(run := Some(Active(s.registered, 0, (set e | e in s.registered), workers, true)))
  }

  function StartExecution(s: State, e: nat): State
    requires e < |s.entries|
  {
    s.(entries := s.entries[e := s.entries[e].(physical := Some(|s.executions|))],
    executions := s.executions + [Execution(e, false)])
  }

  /** A free worker takes the next check, unless the run is over, draining has begun or none is left. */
  function DoTake(s: State, run: Active, w: nat): State
    requires w < |run.workers|
  {
    if !s.accepting || !run.live || run.next >= |run.list| then SetWorker(s, run, w, Done)
    else
      var e, taken := run.list[run.next], run.(next := run.next + 1);
      if e >= |s.entries| then s.(run := Some(taken))
      else if s.entries[e].physical.Some? then
        Record(s, e, Unhealthy(false)).(run := Some(taken.(pending := taken.pending - {e})))
      else
        var x := |s.executions|;
        SetWorker(StartExecution(s, e),
          taken, w, Checking(e, x))
  }

  function DoSettle(s: State, x: nat): State
    requires x < |s.executions|
  {
    var e := s.executions[x].entry;
    var settled := s.(executions := s.executions[x := s.executions[x].(settled := true)]);
    if e < |s.entries| && s.entries[e].physical == Some(x)
    then settled.(entries := s.entries[e := s.entries[e].(physical := None)]) else settled
  }

  /** A check's answer, failure or deadline reaches the worker; after a timeout of the run it counts for nothing. */
  function DoDeliver(s: State, run: Active, w: nat, outcome: Outcome): State
    requires w < |run.workers| && run.workers[w].Checking?
  {
    var e := run.workers[w].entry;
    SetWorker(if run.live then Record(s, e, outcome) else s, run.(pending := run.pending - {e}), w, Free)
  }

  function RecordAll(s: State, checks: seq<nat>, pending: set<nat>): State {
    if checks == [] then s
    else
      var front, e := RecordAll(s, checks[..|checks| - 1], pending), checks[|checks| - 1];
      if e in pending then Record(front, e, Unhealthy(false)) else front
  }

  function Conclude(s: State, run: Active): State {
    s.(concluded := s.concluded + [Concluded(run.list, (set e | e in s.registered), !s.accepting)])
  }

  /** The checks that are still pending and registered fail. */
  function DoTimeOut(s: State, run: Active): State {
    Conclude(RecordAll(s, s.registered, run.pending), run).(run := Some(run.(live := false)))
  }

  function DoFinish(s: State, run: Active): State {
    (if run.live then Conclude(s, run) else s).(run := None)
  }

  predicate AllDone(run: Active) { forall w | 0 <= w < |run.workers| :: run.workers[w].Done? }

  function Next(s: State, step: Step): State {
    match step
    case Register(required) =>
      if !s.accepting || |s.registered| >= MAX_CHECKS then s
      else
        s.(entries := s.entries + [Entry(required, true, 0, false, None, [])],
        registered := s.registered + [|s.entries|])
    case Unregister(e) => s.(registered := Remove(s.registered, e))
    case Begin(concurrency) => if !s.accepting || s.run.Some? || concurrency == 0 then s else DoBegin(s, concurrency)
    case Take(w) =>
      if s.run.Some? && w < |s.run.value.workers| && s.run.value.workers[w].Free? then DoTake(s, s.run.value, w) else s
    case Settle(x) => if x < |s.executions| then DoSettle(s, x) else s
    case Deliver(w, outcome) =>
      if s.run.Some? && w < |s.run.value.workers| && s.run.value.workers[w].Checking?
      then DoDeliver(s, s.run.value, w, outcome) else s
    case TimeOutRun => if s.run.Some? && s.run.value.live then DoTimeOut(s, s.run.value) else s
    case Finish => if s.run.Some? && AllDone(s.run.value) then DoFinish(s, s.run.value) else s
    case BeginDrain => s.(accepting := false)
    case Close => s.(accepting := false, closed := true)
    case Degrade(code, severity) => if s.closed then s else s.(degradations := s.degradations[code := severity])
    case Restore(which) =>
      if s.closed then s else s.(degradations := if which.Some? then s.degradations - {which.value} else map[])
  }

  function Run(steps: seq<Step>): State {
    if steps == [] then INITIAL else Next(Run(steps[..|steps| - 1]), steps[|steps| - 1])
  }

  datatype Health = IsHealthy | Degraded | IsUnhealthy | Closed

  predicate Failing(e: Entry) { e.required && (e.critical || e.failures >= FAILURE_THRESHOLD) }

  function HealthOf(s: State): Health {
    if s.closed then Closed
    else if exists code <- s.degradations :: s.degradations[code].Critical? then IsUnhealthy
    else if exists i :: 0 <= i < |s.registered| && s.registered[i] < |s.entries| && Failing(s.entries[s.registered[i]])
    then IsUnhealthy
    else if s.degradations != map[] then Degraded
    else if exists i :: 0 <= i < |s.registered| && s.registered[i] < |s.entries| && !s.entries[s.registered[i]].healthy
    then Degraded
    else IsHealthy
  }
}

/** Waiting in the flush protocol is never circular, and once admissions stop everything settles. */
module FlushProgress {
  import opened Collections
  import opened ErrorsFlush
  import opened FlushSafety

  /** What can wait, or be waited for. */
  datatype Node = HandleNode(h: nat) | ReportNode(r: nat) | FlushNode(g: nat) | SinkNode(x: nat)

  predicate Exists(s: State, n: Node) {
    match n
    case HandleNode(h) => h < |s.handles|
    case ReportNode(r) => r < |s.reports|
    case FlushNode(g) => g < |s.flushes|
    case SinkNode(x) => x < |s.sinks|
  }

  /** `a` cannot go on before `b` has settled. */
  predicate WaitsFor(s: State, a: Node, b: Node)
    requires Exists(s, a)
  {
    match a
    case HandleNode(h) =>
      || (s.handles[h].phase.Admitted? && s.handles[h].barrier.Some? && b == FlushNode(s.handles[h].barrier.value))
      || (s.handles[h].phase.Reporting? && s.handles[h].phase.report.Some?
          && b == ReportNode(s.handles[h].phase.report.value))
    case ReportNode(_) => false
    case FlushNode(g) =>
      var f := s.flushes[g];
      || (f.phase.Waiting? && f.predecessor.Some? && b == FlushNode(f.predecessor.value))
      || (f.phase.Waiting? && b.HandleNode? && b.h in f.accepted)
      || (f.phase.Flushing? && b == SinkNode(f.phase.on))
    case SinkNode(x) =>
      var f := s.sinks[x];
      || (f.phase.Queued? && f.predecessor.Some? && b == SinkNode(f.predecessor.value))
      || (f.phase.Queued? && b.ReportNode? && b.r in f.accepted)
  }

  /** Handles and generations are ordered by the admission version they began at. */
  function Rank(s: State, n: Node): (nat, nat, nat, nat)
    requires Exists(s, n)
  {
    match n
    case HandleNode(h) => (2, h, 1, 0)
    case FlushNode(g) => (2, s.flushes[g].target, 0, g)
    case SinkNode(x) => (1, x, 0, 0)
    case ReportNode(r) => (0, 0, 0, 0)
  }

  predicate Lower(a: (nat, nat, nat, nat), b: (nat, nat, nat, nat)) {
    a.0 < b.0 || (a.0 == b.0 && (a.1 < b.1 || (a.1 == b.1 && (a.2 < b.2 || (a.2 == b.2 && a.3 < b.3)))))
  }

  /** Each node waits only for nodes that began before it. */
  lemma WaitsForEarlier(steps: seq<Step>, a: Node, b: Node)
    requires Exists(Run(steps), a) && Exists(Run(steps), b) && WaitsFor(Run(steps), a, b)
    ensures Lower(Rank(Run(steps), b), Rank(Run(steps), a))
  {
    EveryRunKeeps(steps);
    var s := Run(steps);
    if a.FlushNode? { assert Covers(s, a.g); }
  }

  ghost predicate WaitingChain(s: State, path: seq<Node>) {
    && (forall i | 0 <= i < |path| :: Exists(s, path[i]))
    && (forall i | 0 <= i < |path| - 1 :: WaitsFor(s, path[i], path[i + 1]))
  }

  /** No circular waiting: in every reachable state a chain of waits never comes back to a node. */
  lemma {:induction false} NoCircularWaiting(steps: seq<Step>, path: seq<Node>)
    requires |path| > 1 && WaitingChain(Run(steps), path)
    ensures Lower(Rank(Run(steps), path[|path| - 1]), Rank(Run(steps), path[0]))
    ensures path[|path| - 1] != path[0]
  {
    var n := |path|;
    WaitsForEarlier(steps, path[n - 2], path[n - 1]);
    if n > 2 {
      var front := path[..n - 1];
      assert forall i | 0 <= i < |front| :: front[i] == path[i];
      NoCircularWaiting(steps, front);
    }
  }

  /** How many steps each party may still take. */
  function HandleWork(h: Handle): nat { if h.phase.Admitted? then 4 else if h.phase.Reporting? then 1 else 0 }
  function ReportWork(r: Report): nat { if r.settled then 0 else 1 }
  function FlushWork(f: Flush): nat { if f.phase.Waiting? then 4 else if f.phase.Flushing? then 1 else 0 }
  function SinkWork(f: SinkFlush): nat { if f.phase.Queued? then 2 else if f.phase.Sinking? then 1 else 0 }

  function Work(s: State): nat {
    SeqSum(s.handles, HandleWork) + SeqSum(s.reports, ReportWork)
    + SeqSum(s.flushes, FlushWork) + SeqSum(s.sinks, SinkWork)
  }

  predicate EverythingSettled(s: State) {
    && (forall h | 0 <= h < |s.handles| :: s.handles[h].phase.Settled?)
    && (forall r | 0 <= r < |s.reports| :: s.reports[r].settled)
    && (forall g | 0 <= g < |s.flushes| :: FlushSettled(s.flushes[g]))
    && (forall x | 0 <= x < |s.sinks| :: SinkSettled(s.sinks[x]))
  }

  /** A step that admits nothing new and leaves less to do. */
  predicate Effective(s: State, step: Step) {
    !step.Admit? && !step.RequestFlush? && Work(Next(s, step)) < Work(s)
  }

  /** An effective step that is not a deadline: reports settle and everyone else reacts. */
  predicate Moves(s: State, step: Step) { Effective(s, step) && !step.TimeOutFlush? }

  lemma HandleProgress(s: State, h: nat, phase: HandlePhase)
    requires h < |s.handles| && HandleWork(s.handles[h].(phase := phase)) < HandleWork(s.handles[h])
    ensures Work(s.(handles := s.handles[h := s.handles[h].(phase := phase)]))
            == Work(s) - HandleWork(s.handles[h]) + HandleWork(s.handles[h].(phase := phase))
  {
    SeqSumUpdate(s.handles, HandleWork, h, s.handles[h].(phase := phase));
  }

  lemma ReportHandleProgress(s: State, h: nat, wanted: bool, snapshots: bool)
    requires h < |s.handles| && s.handles[h].phase.Admitted? && BarrierOpen(s, h)
    ensures Moves(s, SendReport(h, wanted, snapshots))
  {
    var t := Next(s, SendReport(h, wanted, snapshots));
    HandleProgress(s, h, t.handles[h].phase);
    if |t.reports| > |s.reports| { SeqSumAppend(s.reports, ReportWork, Report(h, !snapshots)); }
  }

  lemma SettleReportProgress(s: State, r: nat)
    requires r < |s.reports| && !s.reports[r].settled
    ensures Moves(s, SettleReport(r))
  {
    SeqSumUpdate(s.reports, ReportWork, r, s.reports[r].(settled := true));
  }

  lemma SetFlushWork(s: State, g: nat, phase: Phase)
    requires g < |s.flushes|
    ensures Work(SetFlush(s, g, phase)) == Work(s) - FlushWork(s.flushes[g]) + FlushWork(s.flushes[g].(phase := phase))
  {
    SeqSumUpdate(s.flushes, FlushWork, g, s.flushes[g].(phase := phase));
  }

  lemma SetSinkWork(s: State, x: nat, phase: SinkPhase)
    requires x < |s.sinks|
    ensures Work(SetSink(s, x, phase)) == Work(s) - SinkWork(s.sinks[x]) + SinkWork(s.sinks[x].(phase := phase))
  {
    SeqSumUpdate(s.sinks, SinkWork, x, s.sinks[x].(phase := phase));
  }

  lemma CallSinkFlushWork(s: State)
    requires SinkOutcome(s).Created?
    ensures Work(CallSinkFlush(s)) == Work(s) + 2 && CallSinkFlush(s).flushes == s.flushes
  {
    SeqSumAppend(s.sinks, SinkWork, SinkFlush(|s.reports|, OpenReports(s), s.sinkCurrent, Queued));
  }

  lemma RunFlushProgress(s: State, g: nat)
    requires Invariant(s) && g < |s.flushes| && FlushReady(s, g)
    ensures Moves(s, RunFlush(g))
  {
    hide Invariant, Work;
    SinkTargetIsNow(s);
    match SinkOutcome(s)
    case Already => SetFlushWork(s, g, Flushing(s.sinkCompletedBy.value));
    case Joined(x) => SetFlushWork(s, g, Flushing(x));
    case Created(x) =>
      CallSinkFlushWork(s);
      SetFlushWork(CallSinkFlush(s), g, Flushing(x));
    case Refused => SetFlushWork(s, g, Failed);
  }

  lemma FinishFlushProgress(s: State, g: nat)
    requires Invariant(s) && g < |s.flushes| && s.flushes[g].phase.Flushing?
    requires SinkSettled(s.sinks[(FlushingMeans(s, g); s.flushes[g].phase.on)])
    ensures Moves(s, FinishFlush(g))
  {
    FlushingMeans(s, g);
    var x := s.flushes[g].phase.on;
    SetFlushWork(s, g, if s.sinks[x].phase.Flushed? then Succeeded(x) else Failed);
  }

  lemma SinkProgress(s: State, x: nat)
    requires x < |s.sinks| && (s.sinks[x].phase.Sinking? || SinkReady(s, x))
    ensures exists step :: Moves(s, step)
  {
    if s.sinks[x].phase.Sinking? {
      SetSinkWork(s, x, SinkFailed);
      assert Moves(s, EndSink(x, false));
    } else {
      SetSinkWork(s, x, Sinking(SettledReports(s)));
      assert Moves(s, StartSink(x));
    }
  }

  /** The oldest runtime generation that has not settled can always move, once the reports have settled. */
  lemma {:induction false} SomeSinkMoves(s: State, x: nat)
    requires Invariant(s) && OpenReports(s) == {} && x < |s.sinks| && !SinkSettled(s.sinks[x])
    ensures exists step :: Moves(s, step)
  {
    if y :| 0 <= y < x && !SinkSettled(s.sinks[y]) {
      SomeSinkMoves(s, y);
    } else {
      assert SinkCovers(s, x);
      SinkProgress(s, x);
    }
  }

  /** The oldest generation that has not settled can always move, or a handle it waits for can. */
  lemma {:induction false} SomeFlushMoves(s: State, g: nat)
    requires Invariant(s) && (forall x | 0 <= x < |s.sinks| :: SinkSettled(s.sinks[x]))
    requires forall h | 0 <= h < |s.handles| :: !s.handles[h].phase.Reporting?
    requires g < |s.flushes| && !FlushSettled(s.flushes[g])
    ensures exists step :: Moves(s, step)
  {
    if k :| 0 <= k < g && !FlushSettled(s.flushes[k]) {
      SomeFlushMoves(s, k);
    } else if s.flushes[g].phase.Flushing? {
      FlushingMeans(s, g);
      FinishFlushProgress(s, g);
      assert Moves(s, FinishFlush(g));
    } else if h :| h in s.flushes[g].accepted && h in OpenHandles(s) {
      assert Covers(s, g);
      ReportHandleProgress(s, h, true, true);
      assert Moves(s, SendReport(h, true, true));
    } else {
      RunFlushProgress(s, g);
      assert Moves(s, RunFlush(g));
    }
  }

  lemma SomeoneMoves(s: State)
    requires Invariant(s) && !EverythingSettled(s)
    ensures exists step :: Moves(s, step)
  {
    if r :| 0 <= r < |s.reports| && !s.reports[r].settled {
      SettleReportProgress(s, r);
      assert Moves(s, SettleReport(r));
    } else if x :| 0 <= x < |s.sinks| && !SinkSettled(s.sinks[x]) {
      assert OpenReports(s) == {};
      SomeSinkMoves(s, x);
    } else if h :| 0 <= h < |s.handles| && s.handles[h].phase.Reporting? {
      HandleProgress(s, h, Settled);
      assert Moves(s, SettleHandle(h));
    } else if g :| 0 <= g < |s.flushes| && !FlushSettled(s.flushes[g]) {
      SomeFlushMoves(s, g);
    } else {
      var h :| 0 <= h < |s.handles| && !s.handles[h].phase.Settled?;
      ReportHandleProgress(s, h, true, true);
      assert Moves(s, SendReport(h, true, true));
    }
  }

  /** The steps `after`, taken one by one from `Run(before)`, each leave less to do. */
  ghost predicate Drains(before: seq<Step>, after: seq<Step>) {
    after == [] || (var front, step := after[..|after| - 1], after[|after| - 1];
                    Drains(before, front) && Effective(Run(before + front), step))
  }

  lemma EffectiveStep(steps: seq<Step>, step: Step)
    requires Effective(Run(steps), step)
    ensures Work(Run(steps + [step])) < Work(Run(steps))
  {
    RunOfAppended(steps, step);
  }

  lemma {:induction false} DrainIsBounded(before: seq<Step>, after: seq<Step>)
    requires Drains(before, after)
    ensures |after| + Work(Run(before + after)) <= Work(Run(before))
  {
    hide Run, Next, Work;
    if after == [] {
      assert before + after == before;
    } else {
      var front, step := after[..|after| - 1], after[|after| - 1];
      DrainIsBounded(before, front);
      EffectiveStep(before + front, step);
      assert before + after == (before + front) + [step];
    }
  }

  /** Once admissions stop, draining takes at most `Work` steps, and it cannot get stuck: while anything is
      unsettled, some step other than a deadline helps, so a drain that nothing can extend has settled everything. */
  lemma EverythingSettles(before: seq<Step>, after: seq<Step>)
    ensures Drains(before, after) ==>
              && |after| <= Work(Run(before))
              && (EverythingSettled(Run(before + after)) || exists step :: Moves(Run(before + after), step))
  {
    if Drains(before, after) {
      DrainIsBounded(before, after);
      EveryRunKeeps(before + after);
      if !EverythingSettled(Run(before + after)) { SomeoneMoves(Run(before + after)); }
    }
  }
}

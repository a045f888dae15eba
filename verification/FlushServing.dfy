/** That nobody is turned away early: a flush, a handle or a report is refused only at the limits of the two layers,
    and a flush that is not refused is served by a generation that covers everything admitted so far. */
module FlushServing {
  import opened Collections
  import opened ErrorsFlush
  import opened FlushSafety

  /** The generations that have neither succeeded nor failed. */
  ghost function Unsettled(s: State): set<nat> {
    set g | 0 <= g < |s.flushes| && !s.flushes[g].phase.Succeeded? && !s.flushes[g].phase.Failed?
  }

  ghost function UnsettledSinks(s: State): set<nat> {
    set x | 0 <= x < |s.sinks| && !s.sinks[x].phase.Flushed? && !s.sinks[x].phase.SinkFailed?
  }

  /** The number of handles admitted: handles are numbered in the order of their admission. */
  ghost function Admissions(steps: seq<Step>): nat {
    if steps == [] then 0
    else
      var front, step := steps[..|steps| - 1], steps[|steps| - 1];
      Admissions(front) + if step.Admit? && |Run(steps).handles| > |Run(front).handles| then 1 else 0
  }

  lemma OnlyAdmitAdds(s: State, step: Step)
    ensures var t := Next(s, step);
            |t.handles| == |s.handles| || (step.Admit? && |t.handles| == |s.handles| + 1)
  {
  }

  lemma {:induction false} AdmissionsAreHandles(steps: seq<Step>)
    ensures Admissions(steps) == |Run(steps).handles|
  {
    hide Next;
    if steps != [] {
      AdmissionsAreHandles(steps[..|steps| - 1]);
      OnlyAdmitAdds(Run(steps[..|steps| - 1]), steps[|steps| - 1]);
    }
  }

  /** The versions that the handler counts are those of its generations: `completed` is the greatest target that has
      succeeded, and a generation that is not retired is the last one. */
  ghost predicate Counted(s: State) {
    && (forall g | 0 <= g < |s.flushes| && s.flushes[g].phase.Succeeded? :: s.flushes[g].target <= s.completed)
    && (forall x | 0 <= x < |s.sinks| && s.sinks[x].phase.Flushed? :: s.sinks[x].target <= s.sinkCompleted)
  }

  lemma StepCounted(s: State, step: Step)
    requires Counted(s)
    ensures Counted(Next(s, step))
  {
    hide OpenHandles, OpenReports, OpenFlushes, OpenSinks, BarrierOpen, FlushReady, SinkReady;
  }

  lemma {:induction false} EveryRunCounted(steps: seq<Step>)
    ensures Counted(Run(steps))
  {
    hide Next;
    if steps != [] {
      EveryRunCounted(steps[..|steps| - 1]);
      StepCounted(Run(steps[..|steps| - 1]), steps[|steps| - 1]);
    }
  }

  lemma SameUnsettled(s: State)
    ensures Unsettled(s) == OpenFlushes(s) && UnsettledSinks(s) == OpenSinks(s)
  {
  }

  /** How a flush call is answered, exactly, in every reachable state: it is already done when a generation that covers
      all handles has succeeded; it joins the last generation if that one is not retired and covers all handles; it is
      refused only while 64 generations have not settled; and otherwise a generation is created that covers exactly the
      handles admitted so far and accepts those that have not settled. */
  lemma FlushAnswers(steps: seq<Step>)
    ensures var s, t := Run(steps), Next(Run(steps), RequestFlush); var now := Admissions(steps);
            match FlushOutcome(s)
            case Already =>
              && t == s
              && exists g :: 0 <= g < |s.flushes| && s.flushes[g].phase.Succeeded? && s.flushes[g].target == now
            case Joined(g) => t == s && g == |s.flushes| - 1 && s.flushes[g].target == now && s.current == Some(g)
            case Refused => t == s && |Unsettled(s)| >= 64
            case Created(g) =>
              && g == |s.flushes| && |Unsettled(s)| < 64 && |t.flushes| == g + 1 && t.flushes[..g] == s.flushes
              && t.flushes[g].target == now && t.flushes[g].phase.Waiting? && t.current == Some(g)
              && (forall h: nat :: h in t.flushes[g].accepted <==> h < now && !s.handles[h].phase.Settled?)
    ensures var s, now := Run(steps), Admissions(steps);
            && ((exists g :: 0 <= g < |s.flushes| && s.flushes[g].phase.Succeeded? && s.flushes[g].target == now) ==>
                  FlushOutcome(s).Already?)
            && (Unsettled(s) != {} && s.flushes[|s.flushes| - 1].target == now ==>
                  FlushOutcome(s).Already? || FlushOutcome(s) == Joined(|s.flushes| - 1))
  {
    hide Run, Covers, HeldBack, CutoffAt, SinkCovers, OpenReports, OpenSinks, UnsettledSinks, BarrierOpen;
    var s := Run(steps);
    EveryRunKeeps(steps);
    EveryRunCounted(steps);
    AdmissionsAreHandles(steps);
    SameUnsettled(s);
    match FlushOutcome(s)
    case Already => assert s.completedBy.Some? && s.flushes[s.completedBy.value].target == |s.handles|;
    case _ =>
  }

  /** The same for the report runtime, whose versions count reports. */
  lemma SinkAnswers(steps: seq<Step>)
    ensures var s, t := Run(steps), CallSinkFlush(Run(steps)); var now := |s.reports|;
            match SinkOutcome(s)
            case Already =>
              && t == s
              && exists x :: 0 <= x < |s.sinks| && s.sinks[x].phase.Flushed? && s.sinks[x].target == now
            case Joined(x) => t == s && x == |s.sinks| - 1 && s.sinks[x].target == now && s.sinkCurrent == Some(x)
            case Refused => t == s && |UnsettledSinks(s)| >= 64
            case Created(x) =>
              && x == |s.sinks| && |UnsettledSinks(s)| < 64 && |t.sinks| == x + 1 && t.sinks[..x] == s.sinks
              && t.sinks[x].target == now && t.sinks[x].phase.Queued? && t.sinkCurrent == Some(x)
              && (forall r: nat :: r in t.sinks[x].accepted <==> r < now && !s.reports[r].settled)
    ensures var s, now := Run(steps), |Run(steps).reports|;
            && ((exists x :: 0 <= x < |s.sinks| && s.sinks[x].phase.Flushed? && s.sinks[x].target == now) ==>
                  SinkOutcome(s).Already?)
            && (UnsettledSinks(s) != {} && s.sinks[|s.sinks| - 1].target == now ==>
                  SinkOutcome(s).Already? || SinkOutcome(s) == Joined(|s.sinks| - 1))
  {
    hide Run, Covers, HeldBack, CutoffAt, SinkCovers;
    var s := Run(steps);
    EveryRunKeeps(steps);
    EveryRunCounted(steps);
    SameUnsettled(s);
    match SinkOutcome(s)
    case Already => assert s.sinkCompletedBy.Some? && s.sinks[s.sinkCompletedBy.value].target == |s.reports|;
    case _ =>
  }

  /** A handle is turned away only while 1000 handles are at work. */
  lemma AdmissionAnswers(s: State, snapshots: bool)
    ensures var t := Next(s, Admit(snapshots));
            var working := set h | 0 <= h < |s.handles| && !s.handles[h].phase.Settled?;
            if |working| >= 1_000 then t == s
            else
              && |t.handles| == |s.handles| + 1 && t.handles[..|s.handles|] == s.handles
              && t.handles[|s.handles|].barrier == s.current
              && t.handles[|s.handles|].phase == if snapshots then Admitted else Settled
  {
    assert OpenHandles(s) == set h | 0 <= h < |s.handles| && !s.handles[h].phase.Settled?;
  }

  /** A report that is wanted is skipped only while 1000 reports are at work, and never waits for anything but the
      barrier of its handle. */
  lemma ReportAnswers(s: State, h: nat, wanted: bool, snapshots: bool)
    requires h < |s.handles| && s.handles[h].phase.Admitted?
    ensures var t := Next(s, SendReport(h, wanted, snapshots));
            var working := set r | 0 <= r < |s.reports| && !s.reports[r].settled;
            var b := s.handles[h].barrier;
            if b.Some?
              && (b.value >= |s.flushes| || s.flushes[b.value].phase.Waiting? || s.flushes[b.value].phase.Flushing?)
            then t == s
            else if !wanted || |working| >= 1_000 then t.reports == s.reports && t.handles[h].phase == Reporting(None)
            else
              && t.handles[h].phase == Reporting(Some(|s.reports|))
              && t.reports == s.reports + [ErrorsFlush.Report(h, !snapshots)]
  {
    assert OpenReports(s) == set r | 0 <= r < |s.reports| && !s.reports[r].settled;
  }

  /** How generations end: a sink flush ends as it says; a handler generation succeeds or fails with the runtime
      generation it relies on, fails at its deadline, and is forgotten once it has settled. */
  lemma GenerationsEnd(s: State, g: nat, x: nat, ok: bool)
    ensures x < |s.sinks| && s.sinks[x].phase.Sinking? ==>
              var t := Next(s, EndSink(x, ok));
              && |t.sinks| == |s.sinks| && t.flushes == s.flushes
              && t.sinks[x].phase == if ok then Flushed(s.sinks[x].phase.seen) else SinkFailed
    ensures g < |s.flushes| && s.flushes[g].phase.Flushing? && s.flushes[g].phase.on < |s.sinks| ==>
              var t, sink := Next(s, FinishFlush(g)), s.sinks[s.flushes[g].phase.on].phase;
              && |t.flushes| == |s.flushes|
              && (sink.Flushed? ==> t.flushes[g].phase.Succeeded? && t.completed >= t.flushes[g].target)
              && (sink.SinkFailed? ==> t.flushes[g].phase.Failed? && t.completed == s.completed)
              && (sink.Queued? || sink.Sinking? ==> t == s)
    ensures g < |s.flushes| && s.flushes[g].phase.Flushing? ==> Next(s, TimeOutFlush(g)).flushes[g].phase.Failed?
    ensures g < |s.flushes| && (s.flushes[g].phase.Succeeded? || s.flushes[g].phase.Failed?) ==>
              Next(s, RetireFlush(g)).current == if s.current == Some(g) then None else s.current
    ensures x < |s.sinks| && (s.sinks[x].phase.Flushed? || s.sinks[x].phase.SinkFailed?) ==>
              Next(s, RetireSink(x)).sinkCurrent == if s.sinkCurrent == Some(x) then None else s.sinkCurrent
  {
  }

  /** How a generation that may run goes on: it relies on a runtime generation that covers every report so far, or fails
      while 64 of those have not settled. */
  lemma GenerationsRun(steps: seq<Step>, g: nat)
    requires g < |Run(steps).flushes| && FlushReady(Run(steps), g)
    ensures var s, t := Run(steps), Next(Run(steps), RunFlush(g));
            && |t.flushes| == |s.flushes|
            && match t.flushes[g].phase
               case Flushing(x) => x < |t.sinks| && t.sinks[x].target == |s.reports|
               case Failed => t.sinks == s.sinks && |UnsettledSinks(s)| >= 64
               case _ => false
  {
    hide Run, Covers, HeldBack, CutoffAt, SinkCovers, FlushReady;
    EveryRunKeeps(steps);
    SinkAnswers(steps);
    SinkTargetIsNow(Run(steps));
  }

  /** When a generation may run, exactly, in terms of what it waits for. */
  lemma ReadyExactly(s: State, g: nat)
    requires g < |s.flushes|
    ensures FlushReady(s, g)
            <==>
            && s.flushes[g].phase.Waiting?
            && (forall h <- s.flushes[g].accepted :: h < |s.handles| ==> s.handles[h].phase.Settled?)
            && (s.flushes[g].predecessor.Some? ==>
                  var p := s.flushes[g].predecessor.value;
                  p < |s.flushes| && (s.flushes[p].phase.Succeeded? || s.flushes[p].phase.Failed?))
  {
    if forall h <- s.flushes[g].accepted :: h < |s.handles| ==> s.handles[h].phase.Settled? {
      assert s.flushes[g].accepted !! OpenHandles(s);
    }
    if FlushReady(s, g) {
      forall h <- s.flushes[g].accepted | h < |s.handles| ensures s.handles[h].phase.Settled? {
        assert h !in OpenHandles(s);
      }
    }
  }
}

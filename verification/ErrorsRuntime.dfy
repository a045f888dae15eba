/** The handler and report runtime as they keep their state: sets of open work, version counters and the current
    generation of each layer. The state with its whole history is a ghost the methods keep in step. */
module ErrorsRuntime {
  import opened Collections
  import opened ErrorsFlush
  import opened FlushSafety

  /** What the closure of a running generation holds. */
  datatype Generation = Generation(target: nat, accepted: set<nat>, predecessor: Option<nat>)

  function HandlerGenerations(s: State): seq<Generation> {
    seq(|s.flushes|, g requires 0 <= g < |s.flushes| =>
      Generation(s.flushes[g].target, s.flushes[g].accepted, s.flushes[g].predecessor))
  }

  function SinkGenerations(s: State): seq<Generation> {
    seq(|s.sinks|, x requires 0 <= x < |s.sinks| =>
      Generation(s.sinks[x].target, s.sinks[x].accepted, s.sinks[x].predecessor))
  }

  class Runtime {
    var activeHandles: set<nat>
    var admissionVersion: nat
    var generations: seq<Generation>
    var activeFlushes: set<nat>
    var flushPromise: Option<nat>
    var flushScheduled: int
    var flushCompleted: int

    var physicalReports: set<nat>
    var reportVersion: nat
    var sinkGenerations: seq<Generation>
    var activeSinkFlushes: set<nat>
    var runtimeFlush: Option<nat>
    var runtimeScheduled: int
    var runtimeCompleted: int

    ghost var steps: seq<Step>
    ghost var model: State

    ghost predicate HandlerTied(m: State)
      reads this
    {
      && activeHandles == OpenHandles(m) && admissionVersion == |m.handles|
      && activeFlushes == OpenFlushes(m) && flushPromise == m.current
      && flushScheduled == m.scheduled && flushCompleted == m.completed
      && generations == HandlerGenerations(m)
    }

    ghost predicate RuntimeTied(m: State)
      reads this
    {
      && physicalReports == OpenReports(m) && reportVersion == |m.reports|
      && activeSinkFlushes == OpenSinks(m) && runtimeFlush == m.sinkCurrent
      && runtimeScheduled == m.sinkScheduled && runtimeCompleted == m.sinkCompleted
      && sinkGenerations == SinkGenerations(m)
    }

    ghost predicate Valid()
      reads this
    {
      HandlerTied(model) && RuntimeTied(model) && model == Run(steps)
    }

    constructor ()
      ensures Valid() && model == INITIAL
    {
      activeHandles, admissionVersion, generations, activeFlushes := {}, 0, [], {};
      flushPromise, flushScheduled, flushCompleted := None, -1, -1;
      physicalReports, reportVersion, sinkGenerations, activeSinkFlushes := {}, 0, [], {};
      runtimeFlush, runtimeScheduled, runtimeCompleted := None, -1, -1;
      steps, model := [], INITIAL;
      NothingOpen(INITIAL);
    }

    ghost method TakeStep(step: Step)
      requires model == Run(steps)
      modifies `steps, `model
      ensures model == Next(old(model), step) && model == Run(steps)
    {
      RunOfAppended(steps, step);
      steps := steps + [step];
      model := Next(model, step);
    }

    /** `handle`: a handle is refused at capacity; one whose payload cannot be snapshot is released at once. */
    method Handle(snapshots: bool) returns (admitted: bool, barrier: Option<nat>)
      requires Valid()
      modifies `activeHandles, `admissionVersion, `steps, `model
      ensures Valid() && model == Next(old(model), Admit(snapshots))
      ensures admitted <==> |old(model).handles| < |model.handles|
      ensures admitted ==> model.handles[|model.handles| - 1].barrier == barrier
    {
      admitted, barrier := |activeHandles| < MAX_ACTIVE, flushPromise;
      if admitted {
        AdmittedHandles(model, snapshots);
        if snapshots { activeHandles := activeHandles + {admissionVersion}; }
        admissionVersion := admissionVersion + 1;
      }
      TakeStep(Admit(snapshots));
    }

    /** `report`, called by a handle whose barrier is open: refused at capacity, and only then not counted. */
    method Report(h: nat, wanted: bool, snapshots: bool)
      requires Valid() && h < |model.handles| && model.handles[h].phase.Admitted? && BarrierOpen(model, h)
      modifies `physicalReports, `reportVersion, `steps, `model
      ensures Valid() && model == Next(old(model), SendReport(h, wanted, snapshots))
    {
      hide OpenHandles, OpenReports, OpenFlushes, OpenSinks, HandlerGenerations, SinkGenerations, DoReport;
      HandleReports(model, h, wanted, snapshots);
      Unmoved(model, DoReport(model, h, wanted, snapshots));
      if wanted && |physicalReports| < MAX_ACTIVE {
        if snapshots { physicalReports := physicalReports + {reportVersion}; }
        reportVersion := reportVersion + 1;
      }
      TakeStep(SendReport(h, wanted, snapshots));
    }

    /** A handle's work has ended. */
    method Release(h: nat)
      requires Valid() && h < |model.handles| && model.handles[h].phase.Reporting?
      modifies `activeHandles, `steps, `model
      ensures Valid() && model == Next(old(model), SettleHandle(h))
    {
      HandleSettled(model, h);
      activeHandles := activeHandles - {h};
      TakeStep(SettleHandle(h));
    }

    method AddGeneration(target: nat)
      modifies `activeFlushes, `generations, `flushPromise, `flushScheduled
      ensures activeFlushes == old(activeFlushes) + {|old(generations)|}
      ensures generations == old(generations) + [Generation(target, activeHandles, old(flushPromise))]
      ensures flushPromise == Some(|old(generations)|) && flushScheduled == target
    {
      activeFlushes := activeFlushes + {|generations|};
      generations := generations + [Generation(target, activeHandles, flushPromise)];
      flushPromise, flushScheduled := Some(|generations| - 1), target;
    }

    /** `handler.flush`: decided by the version counters alone. */
    method Flush() returns (outcome: Outcome)
      requires Valid()
      modifies `activeFlushes, `generations, `flushPromise, `flushScheduled, `steps, `model
      ensures Valid() && model == Next(old(model), RequestFlush)
      ensures outcome == FlushOutcome(old(model))
    {
      var target := admissionVersion;
      if flushCompleted >= target {
        outcome := Already;
      } else if flushPromise.Some? && flushScheduled >= target {
        outcome := Joined(flushPromise.value);
      } else if |activeFlushes| >= MAX_FLUSHES {
        outcome := Refused;
      } else {
        outcome := Created(|generations|);
        FlushCreated(model);
        AddGeneration(target);
      }
      TakeStep(RequestFlush);
    }

    method AddSinkGeneration(target: nat)
      modifies `activeSinkFlushes, `sinkGenerations, `runtimeFlush, `runtimeScheduled
      ensures activeSinkFlushes == old(activeSinkFlushes) + {|old(sinkGenerations)|}
      ensures sinkGenerations == old(sinkGenerations) + [Generation(target, physicalReports, old(runtimeFlush))]
      ensures runtimeFlush == Some(|old(sinkGenerations)|) && runtimeScheduled == target
    {
      activeSinkFlushes := activeSinkFlushes + {|sinkGenerations|};
      sinkGenerations := sinkGenerations + [Generation(target, physicalReports, runtimeFlush)];
      runtimeFlush, runtimeScheduled := Some(|sinkGenerations| - 1), target;
    }

    /** `reportRuntime.flush`: the runtime's part of the state afterwards is that of `CallSinkFlush`. */
    method FlushReports() returns (outcome: Outcome)
      requires RuntimeTied(model)
      modifies `activeSinkFlushes, `sinkGenerations, `runtimeFlush, `runtimeScheduled
      ensures RuntimeTied(CallSinkFlush(model))
      ensures outcome == SinkOutcome(model)
    {
      var target := reportVersion;
      if runtimeCompleted >= target {
        outcome := Already;
      } else if runtimeFlush.Some? && runtimeScheduled >= target {
        outcome := Joined(runtimeFlush.value);
      } else if |activeSinkFlushes| >= MAX_FLUSHES {
        outcome := Refused;
      } else {
        outcome := Created(|sinkGenerations|);
        SinkFlushCreated(model);
        AddSinkGeneration(target);
      }
    }

    /** A generation may run when its predecessor has settled and its accepted handles are gone. */
    method MayRun(g: nat) returns (ready: bool)
      requires Valid() && g < |model.flushes| && model.flushes[g].phase.Waiting?
      ensures ready <==> FlushReady(model, g)
    {
      EveryRunKeeps(steps);
      assert generations[g]
             == Generation(model.flushes[g].target, model.flushes[g].accepted, model.flushes[g].predecessor);
      var p := generations[g].predecessor;
      ready := (p.None? || p.value !in activeFlushes) && generations[g].accepted !! activeHandles;
    }

    /** The body of a generation, up to its call of the runtime's flush. */
    method RunGeneration(g: nat)
      requires Valid() && g < |model.flushes| && FlushReady(model, g)
      modifies `activeFlushes, `activeSinkFlushes, `sinkGenerations, `runtimeFlush, `runtimeScheduled, `steps, `model
      ensures Valid() && model == Next(old(model), RunFlush(g))
    {
      hide OpenHandles, OpenReports, OpenFlushes, OpenSinks,
           HandlerGenerations, SinkGenerations, DoRun, CallSinkFlush, FlushReady;
      var outcome := FlushReports();
      GenerationRuns(steps, model, g);
      Unmoved(model, DoRun(model, g));
      if outcome.Refused? { activeFlushes := activeFlushes - {g}; }
      TakeStep(RunFlush(g));
    }

    /** The rest of a generation, when the runtime's flush has settled. */
    method FinishGeneration(g: nat, ok: bool)
      requires Valid() && g < |model.flushes| && model.flushes[g].phase.Flushing?
      requires model.flushes[g].phase.on < |model.sinks| && SinkSettled(model.sinks[model.flushes[g].phase.on])
      requires ok <==> model.sinks[model.flushes[g].phase.on].phase.Flushed?
      modifies `activeFlushes, `flushCompleted, `steps, `model
      ensures Valid() && model == Next(old(model), FinishFlush(g))
    {
      GenerationFinishes(model, g);
      if ok { flushCompleted := Max(flushCompleted, generations[g].target); }
      activeFlushes := activeFlushes - {g};
      TakeStep(FinishFlush(g));
    }

    /** The deadline of a generation's call of the runtime's flush. */
    method TimeOutGeneration(g: nat)
      requires Valid() && g < |model.flushes| && model.flushes[g].phase.Flushing?
      modifies `activeFlushes, `steps, `model
      ensures Valid() && model == Next(old(model), TimeOutFlush(g))
    {
      FlushMoved(model, g, Failed);
      activeFlushes := activeFlushes - {g};
      TakeStep(TimeOutFlush(g));
    }

    /** A report's physical work has ended. */
    method ReleaseReport(r: nat)
      requires Valid() && r < |model.reports|
      modifies `physicalReports, `steps, `model
      ensures Valid() && model == Next(old(model), SettleReport(r))
    {
      ReportSettled(model, r);
      physicalReports := physicalReports - {r};
      TakeStep(SettleReport(r));
    }

    /** A runtime generation may flush the sink when its predecessor has settled and its accepted reports are gone. */
    method MayFlushSink(x: nat) returns (ready: bool)
      requires Valid() && x < |model.sinks| && model.sinks[x].phase.Queued?
      ensures ready <==> SinkReady(model, x)
    {
      EveryRunKeeps(steps);
      assert sinkGenerations[x]
             == Generation(model.sinks[x].target, model.sinks[x].accepted, model.sinks[x].predecessor);
      var p := sinkGenerations[x].predecessor;
      ready := (p.None? || p.value !in activeSinkFlushes) && sinkGenerations[x].accepted !! physicalReports;
    }

    method StartSinkFlush(x: nat)
      requires Valid() && x < |model.sinks| && SinkReady(model, x)
      modifies `steps, `model
      ensures Valid() && model == Next(old(model), StartSink(x))
    {
      SinkMoved(model, x, Sinking(SettledReports(model)));
      TakeStep(StartSink(x));
    }

    /** The sink's flush has ended; success raises the completed version to the target, never lowering it. */
    method EndSinkFlush(x: nat, ok: bool)
      requires Valid() && x < |model.sinks| && model.sinks[x].phase.Sinking?
      modifies `activeSinkFlushes, `runtimeCompleted, `steps, `model
      ensures Valid() && model == Next(old(model), EndSink(x, ok))
    {
      SinkFinishes(model, x, ok);
      if ok { runtimeCompleted := Max(runtimeCompleted, sinkGenerations[x].target); }
      activeSinkFlushes := activeSinkFlushes - {x};
      TakeStep(EndSink(x, ok));
    }

    method RetireSinkFlush(x: nat)
      requires Valid() && x < |model.sinks| && SinkSettled(model.sinks[x])
      modifies `runtimeFlush, `steps, `model
      ensures Valid() && model == Next(old(model), RetireSink(x))
    {
      if runtimeFlush == Some(x) { runtimeFlush := None; }
      TakeStep(RetireSink(x));
    }

    /** The generation's promise settles: it is forgotten unless a later one took its place. */
    method Retire(g: nat)
      requires Valid() && g < |model.flushes| && FlushSettled(model.flushes[g])
      modifies `flushPromise, `steps, `model
      ensures Valid() && model == Next(old(model), RetireFlush(g))
    {
      if flushPromise == Some(g) { flushPromise := None; }
      TakeStep(RetireFlush(g));
    }
  }

  lemma HandleReports(s: State, h: nat, wanted: bool, snapshots: bool)
    requires h < |s.handles| && s.handles[h].phase.Admitted? && BarrierOpen(s, h)
    ensures var t, sent := DoReport(s, h, wanted, snapshots), wanted && |OpenReports(s)| < MAX_ACTIVE;
            && OpenHandles(t) == OpenHandles(s)
            && OpenReports(t) == (if sent && snapshots then OpenReports(s) + {|s.reports|} else OpenReports(s))
            && |t.reports| == (if sent then |s.reports| + 1 else |s.reports|)
            && t == s.(handles := t.handles, reports := t.reports) && |t.handles| == |s.handles|
  {
    var t := DoReport(s, h, wanted, snapshots);
    assert forall r | 0 <= r < |s.reports| :: t.reports[r] == s.reports[r];
    assert forall k | 0 <= k < |s.handles| :: t.handles[k].phase.Settled? == s.handles[k].phase.Settled?;
  }

  /** What a layer has open depends on its own part of the state. */
  lemma Unmoved(s: State, t: State)
    ensures t.handles == s.handles ==> OpenHandles(t) == OpenHandles(s)
    ensures t.reports == s.reports ==> OpenReports(t) == OpenReports(s)
    ensures t.flushes == s.flushes ==>
              OpenFlushes(t) == OpenFlushes(s) && HandlerGenerations(t) == HandlerGenerations(s)
    ensures t.sinks == s.sinks ==> OpenSinks(t) == OpenSinks(s) && SinkGenerations(t) == SinkGenerations(s)
  {
  }

  lemma ReportSettled(s: State, r: nat)
    requires r < |s.reports|
    ensures var t := Next(s, SettleReport(r)); OpenReports(t) == OpenReports(s) - {r} && |t.reports| == |s.reports|
  {
  }

  lemma SinkMoved(s: State, x: nat, phase: SinkPhase)
    requires x < |s.sinks| && !SinkSettled(s.sinks[x])
    ensures OpenSinks(SetSink(s, x, phase))
            == if phase.Flushed? || phase.SinkFailed? then OpenSinks(s) - {x} else OpenSinks(s)
    ensures SinkGenerations(SetSink(s, x, phase)) == SinkGenerations(s)
  {
  }

  lemma SinkFinishes(s: State, x: nat, ok: bool)
    requires x < |s.sinks| && s.sinks[x].phase.Sinking?
    ensures var t := DoEndSink(s, x, ok);
            && OpenSinks(t) == OpenSinks(s) - {x} && SinkGenerations(t) == SinkGenerations(s)
            && t.sinkCompleted == if ok then Max(s.sinkCompleted, s.sinks[x].target) else s.sinkCompleted
  {
    SinkMoved(s, x, if ok then Flushed(s.sinks[x].phase.seen) else SinkFailed);
  }

  lemma NothingOpen(s: State)
    requires s.handles == [] && s.reports == [] && s.flushes == [] && s.sinks == []
    ensures OpenHandles(s) == {} && OpenReports(s) == {} && OpenFlushes(s) == {} && OpenSinks(s) == {}
  {
  }

  lemma AdmittedHandles(s: State, snapshots: bool)
    requires |OpenHandles(s)| < MAX_ACTIVE
    ensures var t := Next(s, Admit(snapshots));
            OpenHandles(t) == if snapshots then OpenHandles(s) + {|s.handles|} else OpenHandles(s)
  {
    var t := Next(s, Admit(snapshots));
    assert forall h | 0 <= h < |s.handles| :: t.handles[h] == s.handles[h];
  }

  lemma HandleSettled(s: State, h: nat)
    requires h < |s.handles| && s.handles[h].phase.Reporting?
    ensures OpenHandles(Next(s, SettleHandle(h))) == OpenHandles(s) - {h}
  {
  }

  lemma FlushCreated(s: State)
    requires FlushOutcome(s).Created?
    ensures var t := CallFlush(s);
            && OpenFlushes(t) == OpenFlushes(s) + {|s.flushes|}
            && HandlerGenerations(t) == HandlerGenerations(s) + [Generation(|s.handles|, OpenHandles(s), s.current)]
  {
    assert forall g | 0 <= g < |s.flushes| :: CallFlush(s).flushes[g] == s.flushes[g];
  }

  lemma SinkFlushCreated(s: State)
    requires SinkOutcome(s).Created?
    ensures var t := CallSinkFlush(s);
            && OpenSinks(t) == OpenSinks(s) + {|s.sinks|}
            && SinkGenerations(t) == SinkGenerations(s) + [Generation(|s.reports|, OpenReports(s), s.sinkCurrent)]
  {
    assert forall x | 0 <= x < |s.sinks| :: CallSinkFlush(s).sinks[x] == s.sinks[x];
  }

  lemma FlushMoved(s: State, g: nat, phase: Phase)
    requires g < |s.flushes| && !FlushSettled(s.flushes[g])
    ensures OpenFlushes(SetFlush(s, g, phase))
            == if phase.Succeeded? || phase.Failed? then OpenFlushes(s) - {g} else OpenFlushes(s)
    ensures HandlerGenerations(SetFlush(s, g, phase)) == HandlerGenerations(s)
  {
  }

  /** What a generation that starts flushing leaves of the handler's bookkeeping. */
  lemma GenerationRuns(steps: seq<Step>, s: State, g: nat)
    requires s == Run(steps) && g < |s.flushes| && FlushReady(s, g)
    ensures var t := DoRun(s, g);
            && OpenFlushes(t) == (if SinkOutcome(s).Refused? then OpenFlushes(s) - {g} else OpenFlushes(s))
            && HandlerGenerations(t) == HandlerGenerations(s)
            && OpenSinks(t) == OpenSinks(CallSinkFlush(s)) && SinkGenerations(t) == SinkGenerations(CallSinkFlush(s))
            && OpenReports(t) == OpenReports(CallSinkFlush(s))
            && t == CallSinkFlush(s).(flushes := t.flushes)
            && CallSinkFlush(s) == s.(sinks := t.sinks, sinkCurrent := t.sinkCurrent, sinkScheduled := t.sinkScheduled)
  {
    EveryRunKeeps(steps);
    SinkTargetIsNow(s);
    FlushMoved(CallSinkFlush(s), g, DoRun(s, g).flushes[g].phase);
  }

  lemma GenerationFinishes(s: State, g: nat)
    requires g < |s.flushes| && s.flushes[g].phase.Flushing?
    requires s.flushes[g].phase.on < |s.sinks| && SinkSettled(s.sinks[s.flushes[g].phase.on])
    ensures var t := DoFinish(s, g);
            && OpenFlushes(t) == OpenFlushes(s) - {g} && HandlerGenerations(t) == HandlerGenerations(s)
            && t.completed
               == if s.sinks[s.flushes[g].phase.on].phase.Flushed? then Max(s.completed, s.flushes[g].target)
                  else s.completed
  {
    FlushMoved(s, g, DoFinish(s, g).flushes[g].phase);
  }
}

/** What every run of the flush protocol keeps, and the cutoff theorem it adds up to. */
module FlushSafety {
  import opened Collections
  import opened ErrorsFlush

  ghost predicate Shape(s: State) {
    && (forall g | 0 <= g < |s.flushes| :: s.flushes[g].target <= |s.handles|)
    && (forall g, k | 0 <= g < k < |s.flushes| :: s.flushes[g].target <= s.flushes[k].target)
    && (forall h | 0 <= h < |s.handles| && s.handles[h].barrier.Some? ::
          s.handles[h].barrier.value < |s.flushes| && s.flushes[s.handles[h].barrier.value].target <= h)
    && (s.current.Some? ==> s.current.value == |s.flushes| - 1 && s.scheduled == s.flushes[|s.flushes| - 1].target)
  }

  ghost predicate SinkShape(s: State) {
    && (forall x | 0 <= x < |s.sinks| :: s.sinks[x].target <= |s.reports|)
    && (s.sinkCurrent.Some? ==>
          s.sinkCurrent.value == |s.sinks| - 1 && s.sinkScheduled == s.sinks[|s.sinks| - 1].target)
    && (forall r | 0 <= r < |s.reports| ::
          s.reports[r].owner < |s.handles| && !s.handles[s.reports[r].owner].phase.Admitted?)
  }

  /** A generation accepted every handle of its target that was open, and has waited for all of them once it runs. */
  ghost predicate Covers(s: State, g: nat)
    requires g < |s.flushes|
  {
    && (forall h | h in s.flushes[g].accepted :: h < s.flushes[g].target)
    && (forall h | 0 <= h < s.flushes[g].target && h < |s.handles| ::
          s.handles[h].phase.Settled? || (s.flushes[g].phase.Waiting? && h in s.flushes[g].accepted))
  }

  ghost predicate SinkCovers(s: State, x: nat)
    requires x < |s.sinks|
  {
    var f := s.sinks[x];
    && (forall r | r in f.accepted :: r < f.target)
    && (forall r | 0 <= r < f.target && r < |s.reports| :: s.reports[r].settled || r in f.accepted)
    && (f.phase.Sinking? || f.phase.Flushed? ==>
          && (forall r | 0 <= r < f.target :: r in f.phase.seen)
          && (forall r | r in f.phase.seen :: r < |s.reports| && s.reports[r].settled))
  }

  /** Generations settle in order: nothing runs while an earlier generation is unsettled. */
  ghost predicate Chained(s: State) {
    && (forall g, k | 0 <= g < k < |s.flushes| && !FlushSettled(s.flushes[g]) :: s.flushes[k].phase.Waiting?)
    && (forall g | 0 <= g < |s.flushes| && !FlushSettled(s.flushes[g]) :: s.current.Some?)
    && (forall k | 0 <= k < |s.flushes| :: match s.flushes[k].predecessor
          case Some(p) => p == k - 1
          case None => forall g | 0 <= g < k :: FlushSettled(s.flushes[g]))
  }

  ghost predicate SinksChained(s: State) {
    && (forall x, y | 0 <= x < y < |s.sinks| && !SinkSettled(s.sinks[x]) :: s.sinks[y].phase.Queued?)
    && (forall x | 0 <= x < |s.sinks| && !SinkSettled(s.sinks[x]) :: s.sinkCurrent.Some?)
    && (forall y | 0 <= y < |s.sinks| :: match s.sinks[y].predecessor
          case Some(p) => p == y - 1
          case None => forall x | 0 <= x < y :: SinkSettled(s.sinks[x]))
  }

  /** While a generation is unsettled, later handles are behind a barrier and none of their reports is in. */
  ghost predicate HeldBack(s: State, g: nat)
    requires g < |s.flushes|
  {
    !FlushSettled(s.flushes[g]) ==>
      && (forall h | s.flushes[g].target <= h < |s.handles| ::
            s.handles[h].barrier.Some? && g <= s.handles[h].barrier.value)
      && (forall r | 0 <= r < |s.reports| :: s.reports[r].owner < s.flushes[g].target)
  }

  /** The runtime generation `x` separates exactly the reports of handles before `g` from the rest. */
  ghost predicate Separates(s: State, g: nat, x: nat)
    requires g < |s.flushes|
  {
    x < |s.sinks| && forall r | 0 <= r < |s.reports| ::
      s.reports[r].owner < s.flushes[g].target <==> r < s.sinks[x].target
  }

  ghost predicate CutoffAt(s: State, g: nat)
    requires g < |s.flushes|
  {
    match s.flushes[g].phase
    case Flushing(x) => Separates(s, g, x)
    case Succeeded(x) => Separates(s, g, x) && s.sinks[x].phase.Flushed?
    case _ => true
  }

  ghost predicate Completions(s: State) {
    && (match s.completedBy
        case None => s.completed == -1
        case Some(g) => g < |s.flushes| && s.flushes[g].phase.Succeeded? && s.completed == s.flushes[g].target)
    && (match s.sinkCompletedBy
        case None => s.sinkCompleted == -1
        case Some(x) => x < |s.sinks| && s.sinks[x].phase.Flushed? && s.sinkCompleted == s.sinks[x].target)
  }

  ghost predicate Invariant(s: State) {
    && Shape(s) && SinkShape(s) && Chained(s) && SinksChained(s) && Completions(s)
    && (forall g | 0 <= g < |s.flushes| :: Covers(s, g) && HeldBack(s, g) && CutoffAt(s, g))
    && (forall x | 0 <= x < |s.sinks| :: SinkCovers(s, x))
  }

  lemma SinkUnmoved(s: State, t: State, x: nat)
    requires t.reports == s.reports && t.sinks == s.sinks && x < |s.sinks| && SinkCovers(s, x)
    ensures SinkCovers(t, x)
  {
  }

  lemma AdmitKeeps(s: State, snapshots: bool)
    requires Invariant(s)
    ensures Invariant(Next(s, Admit(snapshots)))
  {
    hide Covers, HeldBack, CutoffAt, SinkCovers;
    var t := Next(s, Admit(snapshots));
    if t != s {
      assert forall h | 0 <= h < |s.handles| :: t.handles[h] == s.handles[h];
      assert t.handles[|s.handles|].barrier == s.current;
      forall g | 0 <= g < |t.flushes| ensures Covers(t, g) && HeldBack(t, g) && CutoffAt(t, g) {
        AdmitKeepsAt(s, t, g);
      }
      forall x | 0 <= x < |t.sinks| ensures SinkCovers(t, x) { SinkUnmoved(s, t, x); }
    }
  }

  lemma AdmitKeepsAt(s: State, t: State, g: nat)
    requires Shape(s) && Chained(s) && g < |s.flushes| && Covers(s, g) && HeldBack(s, g) && CutoffAt(s, g)
    requires exists phase :: t == s.(handles := s.handles + [Handle(s.current, phase)])
    ensures Covers(t, g) && HeldBack(t, g) && CutoffAt(t, g)
  {
    assert forall h | 0 <= h < |s.handles| :: t.handles[h] == s.handles[h];
  }

  /** Changing one handle to a later phase keeps everything but asks that its reports stay where they are. */
  lemma HandleMoves(s: State, h: nat, phase: HandlePhase)
    requires Invariant(s) && h < |s.handles| && !s.handles[h].phase.Settled? && !phase.Admitted?
    ensures Invariant(s.(handles := s.handles[h := s.handles[h].(phase := phase)]))
  {
    hide SinkCovers;
    var t := s.(handles := s.handles[h := s.handles[h].(phase := phase)]);
    assert forall k | 0 <= k < |s.handles| :: t.handles[k].barrier == s.handles[k].barrier;
    forall g | 0 <= g < |t.flushes| ensures Covers(t, g) && HeldBack(t, g) && CutoffAt(t, g) {
      assert Covers(s, g) && HeldBack(s, g) && CutoffAt(s, g);
    }
    forall x | 0 <= x < |t.sinks| ensures SinkCovers(t, x) { SinkUnmoved(s, t, x); }
  }

  /** A handle that may report is behind no unsettled generation, so its report belongs to all of them. */
  lemma OpenBarrierIsBeforeCutoffs(s: State, h: nat, g: nat)
    requires Invariant(s) && h < |s.handles| && BarrierOpen(s, h)
    requires g < |s.flushes| && !FlushSettled(s.flushes[g])
    ensures h < s.flushes[g].target
  {
    assert HeldBack(s, g);
    assert forall k | g < k < |s.flushes| :: s.flushes[k].phase.Waiting?;
  }

  lemma ReportKeeps(s: State, h: nat, wanted: bool, snapshots: bool)
    requires Invariant(s)
    ensures Invariant(Next(s, SendReport(h, wanted, snapshots)))
  {
    var t := Next(s, SendReport(h, wanted, snapshots));
    if h < |s.handles| && s.handles[h].phase.Admitted? && BarrierOpen(s, h) {
      if |t.reports| == |s.reports| {
        HandleMoves(s, h, Reporting(None));
      } else {
        HandleMoves(s, h, Reporting(Some(|s.reports|)));
        forall g | 0 <= g < |s.flushes| ensures s.flushes[g].phase.Waiting? || s.flushes[g].target <= h {
          assert Covers(s, g);
        }
        forall g | 0 <= g < |s.flushes| && !FlushSettled(s.flushes[g]) ensures h < s.flushes[g].target {
          OpenBarrierIsBeforeCutoffs(s, h, g);
        }
        AppendedReport(s.(handles := t.handles), h, !snapshots);
      }
    }
  }

  /** Once a generation flushes, no handle of its target is left to report; until it settles, no later one may. */
  lemma AppendedReport(s: State, h: nat, settled: bool)
    requires Invariant(s) && h < |s.handles| && !s.handles[h].phase.Admitted?
    requires forall g | 0 <= g < |s.flushes| :: s.flushes[g].phase.Waiting? || s.flushes[g].target <= h
    requires forall g | 0 <= g < |s.flushes| && !FlushSettled(s.flushes[g]) :: h < s.flushes[g].target
    ensures Invariant(s.(reports := s.reports + [Report(h, settled)]))
  {
    hide Covers, HeldBack, CutoffAt, SinkCovers;
    var t := s.(reports := s.reports + [Report(h, settled)]);
    assert forall r | 0 <= r < |s.reports| :: t.reports[r] == s.reports[r];
    forall g | 0 <= g < |t.flushes| ensures Covers(t, g) && HeldBack(t, g) && CutoffAt(t, g) {
      AppendedReportAt(s, t, Report(h, settled), g);
    }
    forall x | 0 <= x < |t.sinks| ensures SinkCovers(t, x) { AppendedReportAtSink(s, Report(h, settled), x); }
  }

  lemma AppendedReportAtSink(s: State, report: Report, x: nat)
    requires SinkShape(s) && x < |s.sinks| && SinkCovers(s, x)
    ensures SinkCovers(s.(reports := s.reports + [report]), x)
  {
  }

  lemma AppendedReportAt(s: State, t: State, report: Report, g: nat)
    requires Shape(s) && SinkShape(s) && t == s.(reports := s.reports + [report])
    requires g < |s.flushes| && Covers(s, g) && HeldBack(s, g) && CutoffAt(s, g)
    requires s.flushes[g].phase.Waiting? || s.flushes[g].target <= report.owner
    requires !FlushSettled(s.flushes[g]) ==> report.owner < s.flushes[g].target
    ensures Covers(t, g) && HeldBack(t, g) && CutoffAt(t, g)
  {
    assert forall r | 0 <= r < |s.reports| :: t.reports[r] == s.reports[r];
  }

  lemma SettleReportKeepsAt(s: State, t: State, g: nat)
    requires g < |s.flushes| && Covers(s, g) && HeldBack(s, g) && CutoffAt(s, g)
    requires t == s.(reports := t.reports) && |t.reports| == |s.reports|
    requires forall k | 0 <= k < |s.reports| :: t.reports[k].owner == s.reports[k].owner
    ensures Covers(t, g) && HeldBack(t, g) && CutoffAt(t, g)
  {
  }

  lemma SettleReportKeepsSink(s: State, r: nat, x: nat)
    requires r < |s.reports| && x < |s.sinks| && SinkCovers(s, x)
    ensures SinkCovers(s.(reports := s.reports[r := s.reports[r].(settled := true)]), x)
  {
  }

  lemma SettleReportKeeps(s: State, r: nat)
    requires Invariant(s)
    ensures Invariant(Next(s, SettleReport(r)))
  {
    hide Covers, HeldBack, CutoffAt, SinkCovers;
    var t := Next(s, SettleReport(r));
    if r < |s.reports| {
      assert forall k | 0 <= k < |s.reports| :: t.reports[k].owner == s.reports[k].owner;
      forall g | 0 <= g < |t.flushes| ensures Covers(t, g) && HeldBack(t, g) && CutoffAt(t, g) {
        SettleReportKeepsAt(s, t, g);
      }
      forall x | 0 <= x < |t.sinks| ensures SinkCovers(t, x) { SettleReportKeepsSink(s, r, x); }
    }
  }

  lemma CallFlushKeeps(s: State)
    requires Invariant(s)
    ensures Invariant(CallFlush(s))
  {
    var t := CallFlush(s);
    if t != s {
      var n := |s.flushes|;
      assert forall g | 0 <= g < n :: t.flushes[g] == s.flushes[g];
      forall g | 0 <= g < |t.flushes| ensures Covers(t, g) && HeldBack(t, g) && CutoffAt(t, g) {
        if g < n { assert Covers(s, g) && HeldBack(s, g) && CutoffAt(s, g); }
      }
      forall x | 0 <= x < |t.sinks| ensures SinkCovers(t, x) { assert SinkCovers(s, x); }
    }
  }

  lemma SinkMovesAt(s: State, t: State, g: nat)
    requires g < |s.flushes| && Covers(s, g) && HeldBack(s, g) && CutoffAt(s, g)
    requires t.handles == s.handles && t.flushes == s.flushes && t.reports == s.reports && |s.sinks| <= |t.sinks|
    requires forall y | 0 <= y < |s.sinks| ::
               t.sinks[y].target == s.sinks[y].target && (s.sinks[y].phase.Flushed? ==> t.sinks[y].phase.Flushed?)
    ensures Covers(t, g) && HeldBack(t, g) && CutoffAt(t, g)
  {
  }

  lemma CallSinkFlushKeeps(s: State)
    requires Invariant(s)
    ensures Invariant(CallSinkFlush(s))
  {
    hide Covers, HeldBack, CutoffAt;
    var t := CallSinkFlush(s);
    if t != s {
      assert forall x | 0 <= x < |s.sinks| :: t.sinks[x] == s.sinks[x];
      forall g | 0 <= g < |t.flushes| ensures Covers(t, g) && HeldBack(t, g) && CutoffAt(t, g) {
        SinkMovesAt(s, t, g);
      }
      forall x | 0 <= x < |t.sinks| ensures SinkCovers(t, x) {
        if x < |s.sinks| { assert SinkCovers(s, x); }
      }
    }
  }

  /** A generation moves on: it has waited for its target, and everything before it has settled. */
  lemma FlushMoves(s: State, g: nat, phase: Phase)
    requires Invariant(s) && g < |s.flushes| && !phase.Waiting?
    requires !FlushSettled(s.flushes[g])
    requires forall h | 0 <= h < s.flushes[g].target :: s.handles[h].phase.Settled?
    requires forall k | 0 <= k < g :: FlushSettled(s.flushes[k])
    requires phase.Flushing? ==> Separates(s, g, phase.on)
    requires phase.Succeeded? ==> Separates(s, g, phase.via) && s.sinks[phase.via].phase.Flushed?
    ensures Invariant(SetFlush(s, g, phase))
  {
    var t := SetFlush(s, g, phase);
    assert forall k | 0 <= k < |s.flushes| && k != g :: t.flushes[k] == s.flushes[k];
    forall k | 0 <= k < |t.flushes| ensures Covers(t, k) && HeldBack(t, k) && CutoffAt(t, k) {
      assert Covers(s, k) && HeldBack(s, k) && CutoffAt(s, k);
    }
    FlushMovesInTurn(s, g, phase);
    forall x | 0 <= x < |t.sinks| ensures SinkCovers(t, x) { assert SinkCovers(s, x); }
  }

  lemma FlushMovesInTurn(s: State, g: nat, phase: Phase)
    requires Shape(s) && Chained(s) && g < |s.flushes| && !phase.Waiting? && !FlushSettled(s.flushes[g])
    requires forall k | 0 <= k < g :: FlushSettled(s.flushes[k])
    ensures Shape(SetFlush(s, g, phase)) && Chained(SetFlush(s, g, phase))
  {
    var t := SetFlush(s, g, phase);
    assert forall k | 0 <= k < |s.flushes| && k != g :: t.flushes[k] == s.flushes[k];
  }

  /** The runtime's answer to a flush call names a generation whose target is every report so far. */
  lemma SinkTargetIsNow(s: State)
    requires Invariant(s)
    ensures match SinkOutcome(s)
            case Already => s.sinkCompletedBy.Some? && s.sinkCompletedBy.value < |s.sinks|
                            && s.sinks[s.sinkCompletedBy.value].target == |s.reports|
            case Joined(x) => x < |s.sinks| && s.sinks[x].target == |s.reports|
            case Created(x) => x < |CallSinkFlush(s).sinks| && CallSinkFlush(s).sinks[x].target == |s.reports|
            case Refused => true
  {
  }

  lemma FlushReadyMeans(s: State, g: nat)
    requires Invariant(s) && g < |s.flushes| && FlushReady(s, g)
    ensures forall h | 0 <= h < s.flushes[g].target :: s.handles[h].phase.Settled?
    ensures forall k | 0 <= k < g :: FlushSettled(s.flushes[k])
  {
    assert Covers(s, g);
    assert forall h | 0 <= h < |s.handles| :: h in OpenHandles(s) <==> !s.handles[h].phase.Settled?;
  }

  lemma RunFlushKeeps(s: State, g: nat)
    requires Invariant(s) && g < |s.flushes| && FlushReady(s, g)
    ensures Invariant(DoRun(s, g))
  {
    FlushReadyMeans(s, g);
    SinkTargetIsNow(s);
    assert HeldBack(s, g);
    match SinkOutcome(s)
    case Already => FlushMoves(s, g, Flushing(s.sinkCompletedBy.value));
    case Joined(x) => FlushMoves(s, g, Flushing(x));
    case Created(x) => CallSinkFlushKeeps(s); FlushMoves(CallSinkFlush(s), g, Flushing(x));
    case Refused => FlushMoves(s, g, Failed);
  }

  lemma FlushingMeans(s: State, g: nat)
    requires Invariant(s) && g < |s.flushes| && s.flushes[g].phase.Flushing?
    ensures forall h | 0 <= h < s.flushes[g].target :: s.handles[h].phase.Settled?
    ensures forall k | 0 <= k < g :: FlushSettled(s.flushes[k])
    ensures Separates(s, g, s.flushes[g].phase.on)
  {
    assert Covers(s, g) && CutoffAt(s, g);
  }

  lemma FinishFlushKeeps(s: State, g: nat)
    requires Invariant(s) && g < |s.flushes| && s.flushes[g].phase.Flushing?
    ensures Invariant(DoFinish(s, g))
  {
    FlushingMeans(s, g);
    var x := s.flushes[g].phase.on;
    match s.sinks[x].phase
    case Flushed(_) => FlushMoves(s, g, Succeeded(x)); CompletedMoves(SetFlush(s, g, Succeeded(x)), g);
    case SinkFailed => FlushMoves(s, g, Failed);
    case _ =>
  }

  lemma CompletedMoves(s: State, g: nat)
    requires Invariant(s) && g < |s.flushes| && s.flushes[g].phase.Succeeded?
    ensures Invariant(s.(completed := s.flushes[g].target, completedBy := Some(g)))
  {
    var t := s.(completed := s.flushes[g].target, completedBy := Some(g));
    forall k | 0 <= k < |t.flushes| ensures Covers(t, k) && HeldBack(t, k) && CutoffAt(t, k) {
      assert Covers(s, k) && HeldBack(s, k) && CutoffAt(s, k);
    }
    forall x | 0 <= x < |t.sinks| ensures SinkCovers(t, x) { assert SinkCovers(s, x); }
  }

  lemma RetireFlushKeeps(s: State, g: nat)
    requires Invariant(s) && s.current == Some(g) && FlushSettled(s.flushes[g])
    ensures Invariant(s.(current := None))
  {
    var t := s.(current := None);
    forall k | 0 <= k < |t.flushes| ensures Covers(t, k) && HeldBack(t, k) && CutoffAt(t, k) {
      assert Covers(s, k) && HeldBack(s, k) && CutoffAt(s, k);
    }
    forall x | 0 <= x < |t.sinks| ensures SinkCovers(t, x) { assert SinkCovers(s, x); }
  }

  lemma SinkMoves(s: State, x: nat, phase: SinkPhase)
    requires Invariant(s) && x < |s.sinks| && !phase.Queued? && !SinkSettled(s.sinks[x])
    requires forall y | 0 <= y < x :: SinkSettled(s.sinks[y])
    requires phase.Sinking? || phase.Flushed? ==>
               && (forall r | 0 <= r < s.sinks[x].target :: r in phase.seen)
               && (forall r | r in phase.seen :: r < |s.reports| && s.reports[r].settled)
    ensures Invariant(SetSink(s, x, phase))
  {
    hide Covers, HeldBack, CutoffAt;
    var t := SetSink(s, x, phase);
    assert forall y | 0 <= y < |s.sinks| && y != x :: t.sinks[y] == s.sinks[y];
    forall k | 0 <= k < |t.flushes| ensures Covers(t, k) && HeldBack(t, k) && CutoffAt(t, k) {
      SinkMovesAt(s, t, k);
    }
    forall y | 0 <= y < |t.sinks| ensures SinkCovers(t, y) { assert SinkCovers(s, y); }
  }

  lemma StartSinkKeeps(s: State, x: nat)
    requires Invariant(s) && x < |s.sinks| && SinkReady(s, x)
    ensures Invariant(SetSink(s, x, Sinking(SettledReports(s))))
  {
    assert SinkCovers(s, x);
    assert forall r | 0 <= r < |s.reports| :: r in OpenReports(s) <==> !s.reports[r].settled;
    SinkMoves(s, x, Sinking(SettledReports(s)));
  }

  lemma EndSinkKeeps(s: State, x: nat, ok: bool)
    requires Invariant(s) && x < |s.sinks| && s.sinks[x].phase.Sinking?
    ensures Invariant(DoEndSink(s, x, ok))
  {
    assert SinkCovers(s, x);
    if ok {
      var seen := s.sinks[x].phase.seen;
      SinkMoves(s, x, Flushed(seen));
      SinkCompletedMoves(SetSink(s, x, Flushed(seen)), x);
    } else {
      SinkMoves(s, x, SinkFailed);
    }
  }

  lemma SinkCompletedMoves(s: State, x: nat)
    requires Invariant(s) && x < |s.sinks| && s.sinks[x].phase.Flushed?
    ensures Invariant(s.(sinkCompleted := s.sinks[x].target, sinkCompletedBy := Some(x)))
  {
    var t := s.(sinkCompleted := s.sinks[x].target, sinkCompletedBy := Some(x));
    forall k | 0 <= k < |t.flushes| ensures Covers(t, k) && HeldBack(t, k) && CutoffAt(t, k) {
      assert Covers(s, k) && HeldBack(s, k) && CutoffAt(s, k);
    }
    forall y | 0 <= y < |t.sinks| ensures SinkCovers(t, y) { assert SinkCovers(s, y); }
  }

  lemma RetireSinkKeeps(s: State, x: nat)
    requires Invariant(s) && s.sinkCurrent == Some(x) && SinkSettled(s.sinks[x])
    ensures Invariant(s.(sinkCurrent := None))
  {
    var t := s.(sinkCurrent := None);
    forall k | 0 <= k < |t.flushes| ensures Covers(t, k) && HeldBack(t, k) && CutoffAt(t, k) {
      assert Covers(s, k) && HeldBack(s, k) && CutoffAt(s, k);
    }
    forall y | 0 <= y < |t.sinks| ensures SinkCovers(t, y) { assert SinkCovers(s, y); }
  }

  lemma StepKeeps(s: State, step: Step)
    requires Invariant(s)
    ensures Invariant(Next(s, step))
  {
    hide Invariant;
    match step
    case Admit(snapshots) => AdmitKeeps(s, snapshots);
    case SendReport(h, wanted, snapshots) => ReportKeeps(s, h, wanted, snapshots);
    case SettleHandle(h) => if h < |s.handles| && s.handles[h].phase.Reporting? { HandleMoves(s, h, Settled); }
    case SettleReport(r) => SettleReportKeeps(s, r);
    case RequestFlush => CallFlushKeeps(s);
    case RunFlush(g) => if g < |s.flushes| && FlushReady(s, g) { RunFlushKeeps(s, g); }
    case FinishFlush(g) => if g < |s.flushes| && s.flushes[g].phase.Flushing? { FinishFlushKeeps(s, g); }
    case TimeOutFlush(g) =>
      if g < |s.flushes| && s.flushes[g].phase.Flushing? { FlushingMeans(s, g); FlushMoves(s, g, Failed); }
    case RetireFlush(g) =>
      if s.current == Some(g) && g < |s.flushes| && FlushSettled(s.flushes[g]) { RetireFlushKeeps(s, g); }
    case StartSink(x) => if x < |s.sinks| && SinkReady(s, x) { StartSinkKeeps(s, x); }
    case EndSink(x, ok) => if x < |s.sinks| && s.sinks[x].phase.Sinking? { EndSinkKeeps(s, x, ok); }
    case RetireSink(x) =>
      if s.sinkCurrent == Some(x) && x < |s.sinks| && SinkSettled(s.sinks[x]) { RetireSinkKeeps(s, x); }
  }

  lemma RunOfAppended(steps: seq<Step>, step: Step)
    ensures Run(steps + [step]) == Next(Run(steps), step)
  {
    assert (steps + [step])[..|steps|] == steps;
  }

  lemma NothingYet(s: State)
    requires |s.handles| == |s.flushes| == |s.reports| == |s.sinks| == 0
    requires s.current.None? && s.sinkCurrent.None? && s.completedBy.None? && s.sinkCompletedBy.None?
    requires s.completed == s.sinkCompleted == -1
    ensures Invariant(s)
  {
    hide Covers, HeldBack, CutoffAt, SinkCovers;
  }

  lemma {:induction false} EveryRunKeeps(steps: seq<Step>)
    ensures Invariant(Run(steps))
  {
    hide Invariant, Next;
    NothingYet(INITIAL);
    if steps != [] {
      EveryRunKeeps(steps[..|steps| - 1]);
      StepKeeps(Run(steps[..|steps| - 1]), steps[|steps| - 1]);
    }
  }

  /** Generations, once created, keep their target. */
  lemma StepKeepsTargets(s: State, step: Step, g: nat)
    requires g < |s.flushes|
    ensures g < |Next(s, step).flushes| && Next(s, step).flushes[g].target == s.flushes[g].target
  {
  }

  lemma {:induction false} RunKeepsTargets(before: seq<Step>, after: seq<Step>, g: nat)
    requires g < |Run(before).flushes|
    ensures g < |Run(before + after).flushes| && Run(before + after).flushes[g].target == Run(before).flushes[g].target
  {
    if after == [] {
      assert before + after == before;
    } else {
      var all := before + after;
      assert all[..|all| - 1] == before + after[..|after| - 1];
      RunKeepsTargets(before, after[..|after| - 1], g);
      StepKeepsTargets(Run(all[..|all| - 1]), all[|all| - 1], g);
    }
  }

  /** The generation a flush call made in `s` relies on. */
  function Serving(s: State): Option<nat> {
    match FlushOutcome(s)
    case Already => s.completedBy
    case Joined(g) => Some(g)
    case Created(g) => Some(g)
    case Refused => None
  }

  lemma ServingTargetIsNow(s: State, g: nat)
    requires Invariant(s) && Serving(s) == Some(g)
    ensures g < |CallFlush(s).flushes| && CallFlush(s).flushes[g].target == |s.handles|
  {
  }

  /** The cutoff theorem. A flush is called at version v and served by generation g; whenever g succeeds, all
      handles before v have settled, and its sink flush started having seen all their reports settled and
      waiting for no report of a later handle. */
  lemma FlushCutoff(before: seq<Step>, after: seq<Step>, g: nat)
    requires Serving(Run(before)) == Some(g)
    requires var t := Run(before + [RequestFlush] + after);
             g < |t.flushes| && t.flushes[g].phase.Succeeded?
    ensures var v, t := |Run(before).handles|, Run(before + [RequestFlush] + after);
            && (forall h | 0 <= h < v :: h < |t.handles| && t.handles[h].phase.Settled?)
            && var x := t.flushes[g].phase.via;
            && x < |t.sinks| && t.sinks[x].phase.Flushed?
            && (forall r | 0 <= r < |t.reports| && t.reports[r].owner < v :: r in t.sinks[x].phase.seen)
            && (forall r | 0 <= r < |t.reports| && v <= t.reports[r].owner :: r !in t.sinks[x].accepted)
  {
    var s := Run(before);
    EveryRunKeeps(before);
    ServingTargetIsNow(s, g);
    var called := before + [RequestFlush];
    assert called[..|called| - 1] == before;
    RunKeepsTargets(called, after, g);
    EveryRunKeeps(called + after);
    var t := Run(called + after);
    assert Covers(t, g) && CutoffAt(t, g) && SinkCovers(t, t.flushes[g].phase.via);
  }
}

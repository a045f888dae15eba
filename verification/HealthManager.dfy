/** The health manager object: its methods change the checks and the run in place. */
module HealthManager {
  import opened Collections
  import opened HealthRuns
  import opened HealthTheorems

  lemma Stepped(steps: seq<Step>, step: Step)
    ensures Run(steps + [step]) == Next(Run(steps), step) && Sound(Run(steps)) && Sound(Run(steps + [step]))
  {
    assert (steps + [step])[..|steps|] == steps;
    EveryRunSound(steps);
    EveryRunSound(steps + [step]);
  }

  /** Some execution of the check, in whatever run it was started, has not settled. */
  ghost predicate AtWork(s: State, e: nat) {
    exists x :: 0 <= x < |s.executions| && s.executions[x] == Execution(e, false)
  }

  /** A run is on: every registered check is pending, and none has a verdict from it yet. */
  ghost predicate Begun(s: State, concurrency: nat) {
    && s.run.Some? && s.run.value.live && s.run.value.list == s.registered
    && (forall e: nat :: e in s.run.value.pending <==> e in s.registered)
    && |s.run.value.workers| == Min(concurrency, |s.registered|)
    && (forall w :: 0 <= w < |s.run.value.workers| ==> s.run.value.workers[w].Free?)
    && (forall e :: e in s.registered ==> e < |s.entries| && VerdictsIn(s.entries[e].verdicts, |s.concluded|) == 0)
  }

  lemma BeginMeans(s: State, concurrency: nat)
    requires Sound(s) && s.accepting && s.run.None? && concurrency > 0
    ensures Begun(Next(s, Begin(concurrency)), concurrency)
  {
  }

  /** What a worker's turn does: it ends, or its check is already at work and gets its one verdict of this run for that,
      or an execution of the check starts and nothing else of it is at work. */
  ghost predicate TakeOutcome(s: State, t: State, run: Active, w: nat) {
    && t.run.Some? && w < |t.run.value.workers|
    && if !s.accepting || !run.live || run.next >= |run.list| then t == s.(run := t.run) && t.run.value.workers[w].Done?
       else
         var e := run.list[run.next];
         && e < |s.entries| && |t.entries| == |s.entries|
         && (forall d: nat :: d < |s.entries| && d != e ==> t.entries[d] == s.entries[d])
         && if AtWork(s, e) then
              && t.executions == s.executions && t.run.value.workers[w].Free? && e !in t.run.value.pending
              && VerdictsIn(s.entries[e].verdicts, |s.concluded|) == 0
              && t.entries[e].verdicts == s.entries[e].verdicts + [Verdict(|s.concluded|, Unhealthy(false))]
            else
              && t.executions == s.executions + [Execution(e, false)] && e in t.run.value.pending
              && t.run.value.workers[w] == Checking(e, |s.executions|) && t.entries[e].verdicts == s.entries[e].verdicts
  }

  lemma TakeMeans(s: State, run: Active, w: nat)
    requires Sound(s) && s.run == Some(run) && w < |run.workers| && run.workers[w].Free?
    ensures TakeOutcome(s, Next(s, Take(w)), run, w)
  {
    hide VerdictsIn, Summarised, OneEach;
    if s.accepting && run.live && run.next < |run.list| {
      var e := run.list[run.next];
      assert e in run.pending && e < |s.entries| && Due(s.run, e) == 0;
      assert AtWork(s, e) <==> s.entries[e].physical.Some?;
    }
  }

  /** What an answer does: in a run that counts it is the check's one verdict, in another run it is nothing. */
  ghost predicate DeliverOutcome(s: State, t: State, run: Active, w: nat, outcome: Outcome)
    requires w < |run.workers| && run.workers[w].Checking?
  {
    var e := run.workers[w].entry;
    && t.run.Some? && e !in t.run.value.pending && w < |t.run.value.workers| && t.run.value.workers[w].Free?
    && t.executions == s.executions && e < |s.entries| && |t.entries| == |s.entries|
    && (forall d: nat :: d < |s.entries| && d != e ==> t.entries[d] == s.entries[d])
    && if !run.live then t.entries == s.entries && HealthOf(t) == HealthOf(s)
       else
         && VerdictsIn(s.entries[e].verdicts, |s.concluded|) == 0
         && t.entries[e].verdicts == s.entries[e].verdicts + [Verdict(|s.concluded|, outcome)]
  }

  lemma DeliverMeans(s: State, run: Active, w: nat, outcome: Outcome)
    requires Sound(s) && s.run == Some(run) && w < |run.workers| && run.workers[w].Checking?
    ensures DeliverOutcome(s, Next(s, Deliver(w, outcome)), run, w, outcome)
  {
    hide VerdictsIn, Summarised, OneEach, HealthOf;
    var e := run.workers[w].entry;
    assert e in run.pending && e < |s.entries| && Due(s.run, e) == 0;
    if !run.live {
      LateAnswersChangeNothing(s, w, outcome);
    }
  }

  lemma SettleMeans(s: State, x: nat)
    requires Sound(s) && x < |s.executions| && !s.executions[x].settled
    ensures !AtWork(Next(s, Settle(x)), s.executions[x].entry)
  {
    hide VerdictsIn, Summarised, OneEach, Counted, Working;
    var e, t := s.executions[x].entry, Next(s, Settle(x));
    forall y | 0 <= y < |t.executions| ensures t.executions[y] != Execution(e, false) {
      assert y != x ==> t.executions[y] == s.executions[y];
    }
  }

  /** What the deadline of a run does: each check that is pending and registered gets one more verdict, a failure; the
      others stay as they are. */
  ghost predicate TimeOutOutcome(s: State, t: State, pending: set<nat>) {
    && |t.entries| == |s.entries|
    && forall e: nat :: e < |s.entries| ==>
         t.entries[e] == if e in pending && e in s.registered
           then Recorded(s.entries[e], |s.concluded|, Unhealthy(false))
                         else s.entries[e]
  }

  lemma {:induction false} RecordAllMeans(s: State, checks: seq<nat>, pending: set<nat>, e: nat)
    requires Distinct(checks) && e < |s.entries|
    ensures var t := RecordAll(s, checks, pending);
            && t == s.(entries := t.entries) && |t.entries| == |s.entries|
            && t.entries[e] == if e in pending && e in checks
               then Recorded(s.entries[e], |s.concluded|, Unhealthy(false))
                               else s.entries[e]
  {
    if checks != [] {
      var front, last := checks[..|checks| - 1], checks[|checks| - 1];
      assert checks == front + [last] && last !in front;
      RecordAllMeans(s, front, pending, e);
    }
  }

  lemma TimeOutMeans(s: State)
    requires Sound(s) && s.run.Some? && s.run.value.live
    ensures TimeOutOutcome(s, Next(s, TimeOutRun), s.run.value.pending)
  {
    hide RecordAll, Recorded;
    var pending := s.run.value.pending;
    RecordAllFrame(s, s.registered, pending);
    RecordAllKeeps(s, s.registered, pending);
    forall e: nat | e < |s.entries|
      ensures RecordAll(s, s.registered, pending).entries[e]
              == if e in pending && e in s.registered then Recorded(s.entries[e], |s.concluded|, Unhealthy(false))
                 else s.entries[e]
    {
      RecordAllMeans(s, s.registered, pending, e);
    }
  }

  lemma SoundEach(s: State, k: nat)
    requires Sound(s) && k < |s.concluded|
    ensures OneEach(s, k)
  {
  }

  class Manager {
    var entries: seq<Entry>
    var registered: seq<nat>
    var executions: seq<Execution>
    var run: Option<Active>
    var accepting: bool
    var closed: bool
    var degradations: map<string, Severity>
    ghost var concluded: seq<Concluded>
    /** The number of runs concluded so far names the one in progress. */
    var runs: nat
    /** What has happened so far, as history. */
    ghost var steps: seq<Step>

    ghost function Abs(): State
      reads this
    {
      State(entries, registered, executions, run, accepting, closed, degradations, concluded)
    }

    /** The object is where its history leads, so everything proved about runs holds of it. */
    ghost predicate Valid()
      reads this
    {
      runs == |concluded| && Abs() == Run(steps) && Sound(Abs())
    }

    constructor ()
      ensures Valid() && steps == []
    {
      entries, registered, executions, run := [], [], [], None;
      accepting, closed, degradations, concluded, runs, steps := true, false, map[], [], 0, [];
    }

    method Register(required: bool) returns (admitted: bool)
      requires Valid()
      modifies `entries, `registered, `steps
      ensures Valid() && steps == old(steps) + [HealthRuns.Register(required)]
      ensures admitted <==> accepting && |old(registered)| < MAX_CHECKS
      ensures registered == if admitted then old(registered) + [|old(entries)|] else old(registered)
      ensures old(entries) <= entries
    {
      hide Sound;
      Stepped(steps, HealthRuns.Register(required));
      steps := steps + [HealthRuns.Register(required)];
      admitted := accepting && |registered| < MAX_CHECKS;
      if admitted {
        registered := registered + [|entries|];
        entries := entries + [Entry(required, true, 0, false, None, [])];
      }
    }

    method Unregister(e: nat)
      requires Valid()
      modifies `registered, `steps
      ensures Valid() && steps == old(steps) + [HealthRuns.Unregister(e)]
      ensures forall x :: x in registered <==> x in old(registered) && x != e
    {
      RemoveKeeps(registered, e);
      Stepped(steps, HealthRuns.Unregister(e));
      steps := steps + [HealthRuns.Unregister(e)];
      registered := Remove(registered, e);
    }

    /** `runOnce`: nothing happens while a run is in progress. */
    method RunOnce(concurrency: nat)
      requires Valid() && concurrency > 0
      modifies `run, `steps
      ensures Valid() && steps == old(steps) + [Begin(concurrency)]
      ensures if old(run).Some? || !accepting then run == old(run) else Begun(Abs(), concurrency)
    {
      hide Sound, Begun;
      Stepped(steps, Begin(concurrency));
      if accepting && run.None? { BeginMeans(Abs(), concurrency); }
      steps := steps + [Begin(concurrency)];
      if !accepting || run.Some? { return; }
      var workers := seq(Min(concurrency, |registered|), _ => Free);
      run := Some(Active(registered, 0, (set e | e in registered), workers, true));
    }

    method RecordFailure(e: nat, critical: bool)
      requires runs == |concluded|
      modifies `entries
      ensures Abs() == Record(old(Abs()), e, Unhealthy(critical))
    {
      if e < |entries| {
        var entry := entries[e];
        entry := entry.(healthy := false, failures := entry.failures + 1, critical := entry.critical || critical,
                        verdicts := entry.verdicts + [Verdict(runs, Unhealthy(critical))]);
        entries := entries[e := entry];
      }
    }

    method RecordHealthy(e: nat)
      requires runs == |concluded|
      modifies `entries
      ensures Abs() == Record(old(Abs()), e, Healthy)
    {
      if e < |entries| {
        var entry := entries[e];
        entry := entry.(healthy := true, failures := 0, critical := false,
                        verdicts := entry.verdicts + [Verdict(runs, Healthy)]);
        entries := entries[e := entry];
      }
    }

    /** One turn of a worker's loop, up to its next wait. */
    method Take(w: nat)
      requires Valid() && run.Some? && w < |run.value.workers| && run.value.workers[w].Free?
      modifies `run, `entries, `executions, `steps
      ensures Valid() && steps == old(steps) + [HealthRuns.Take(w)]
      ensures TakeOutcome(old(Abs()), Abs(), old(run).value, w)
    {
      hide Sound, TakeOutcome;
      var current := run.value;
      Stepped(steps, HealthRuns.Take(w));
      TakeMeans(Abs(), current, w);
      steps := steps + [HealthRuns.Take(w)];
      if !accepting || !current.live || current.next >= |current.list| {
        run := Some(current.(workers := current.workers[w := Done]));
        return;
      }
      var e := current.list[current.next];
      current := current.(next := current.next + 1);
      if e >= |entries| {
        run := Some(current);
      } else if entries[e].physical.Some? {
        RecordFailure(e, false);
        run := Some(current.(pending := current.pending - {e}));
      } else {
        var x := |executions|;
        entries := entries[e := entries[e].(physical := Some(x))];
        executions := executions + [Execution(e, false)];
        run := Some(current.(workers := current.workers[w := Checking(e, x)]));
      }
    }

    /** An execution is over, perhaps long after its run: it is no longer at work. */
    method Settle(x: nat)
      requires Valid() && x < |executions|
      modifies `entries, `executions, `steps
      ensures Valid() && steps == old(steps) + [HealthRuns.Settle(x)]
      ensures !AtWork(Abs(), old(executions)[x].entry) || old(executions)[x].settled
    {
      hide Sound, AtWork;
      if !executions[x].settled { SettleMeans(Abs(), x); }
      Stepped(steps, HealthRuns.Settle(x));
      steps := steps + [HealthRuns.Settle(x)];
      var e := executions[x].entry;
      executions := executions[x := executions[x].(settled := true)];
      if e < |entries| && entries[e].physical == Some(x) {
        entries := entries[e := entries[e].(physical := None)];
      }
    }

    /** A check's answer, its failure or its deadline reaches the worker. */
    method Deliver(w: nat, outcome: Outcome)
      requires Valid() && run.Some? && w < |run.value.workers| && run.value.workers[w].Checking?
      modifies `run, `entries, `steps
      ensures Valid() && steps == old(steps) + [HealthRuns.Deliver(w, outcome)]
      ensures DeliverOutcome(old(Abs()), Abs(), old(run).value, w, outcome)
    {
      hide Sound, DeliverOutcome;
      var current := run.value;
      Stepped(steps, HealthRuns.Deliver(w, outcome));
      DeliverMeans(Abs(), current, w, outcome);
      steps := steps + [HealthRuns.Deliver(w, outcome)];
      var e := current.workers[w].entry;
      if current.live {
        if outcome.Healthy? { RecordHealthy(e); } else { RecordFailure(e, outcome.critical); }
      }
      run := Some(current.(pending := current.pending - {e}, workers := current.workers[w := Free]));
    }

    ghost method ConcludeRun()
      requires run.Some?
      modifies `concluded
      ensures concluded == old(concluded) + [Concluded(run.value.list, (set e | e in registered), !accepting)]
    {
      concluded := concluded + [Concluded(run.value.list, (set e | e in registered), !accepting)];
    }

    /** The loop of the deadline, over the checks that are registered now. */
    method FailPending()
      requires runs == |concluded| && run.Some?
      modifies `entries
      ensures Abs() == RecordAll(old(Abs()), registered, run.value.pending)
    {
      ghost var before := Abs();
      for i := 0 to |registered|
        invariant runs == |concluded| && Abs() == RecordAll(before, registered[..i], run.value.pending)
      {
        assert registered[..i + 1][..i] == registered[..i];
        if registered[i] in run.value.pending { RecordFailure(registered[i], false); }
      }
      assert registered[..|registered|] == registered;
    }

    /** The deadline of the run: every check still pending and registered fails, and the run's answers no longer count.
        With that each check registered throughout has exactly one verdict from it. */
    method TimeOut()
      requires Valid() && run.Some? && run.value.live
      modifies `run, `entries, `concluded, `runs, `steps
      ensures Valid() && steps == old(steps) + [TimeOutRun]
      ensures |concluded| == |old(concluded)| + 1 && OneEach(Abs(), |old(concluded)|)
      ensures run == Some(old(run).value.(live := false))
      ensures TimeOutOutcome(old(Abs()), Abs(), old(run).value.pending)
    {
      hide Sound, OneEach, RecordAll, TimeOutOutcome;
      TimeOutMeans(Abs());
      Stepped(steps, TimeOutRun);
      steps := steps + [TimeOutRun];
      RecordAllFrame(Abs(), registered, run.value.pending);
      FailPending();
      ConcludeRun();
      runs := runs + 1;
      run := Some(run.value.(live := false));
      SoundEach(Abs(), |old(concluded)|);
    }

    /** All workers have ended; a run that had not timed out is concluded by that. */
    method Finish()
      requires Valid() && run.Some? && AllDone(run.value)
      modifies `run, `concluded, `runs, `steps
      ensures Valid() && steps == old(steps) + [HealthRuns.Finish]
      ensures run.None? && entries == old(entries)
      ensures |concluded| == |old(concluded)| + if old(run).value.live then 1 else 0
      ensures old(run).value.live ==> OneEach(Abs(), |old(concluded)|)
    {
      hide Sound, OneEach;
      Stepped(steps, HealthRuns.Finish);
      steps := steps + [HealthRuns.Finish];
      if run.value.live {
        ConcludeRun();
        runs := runs + 1;
      }
      run := None;
      if old(run).value.live { SoundEach(Abs(), |old(concluded)|); }
    }

    method RecordDegradation(code: string, severity: Severity) returns (ok: bool)
      requires Valid()
      modifies `degradations, `steps
      ensures Valid() && steps == old(steps) + [Degrade(code, severity)]
      ensures ok <==> !closed
      ensures ok && severity.Critical? ==> HealthOf(Abs()).IsUnhealthy?
    {
      hide Sound;
      Stepped(steps, Degrade(code, severity));
      steps := steps + [Degrade(code, severity)];
      ok := !closed;
      if ok {
        degradations := degradations[code := severity];
        assert degradations[code] == severity;
      }
    }

    method ClearDegradation(which: Option<string>) returns (ok: bool)
      requires Valid()
      modifies `degradations, `steps
      ensures Valid() && steps == old(steps) + [Restore(which)]
      ensures ok <==> !closed
    {
      hide Sound;
      Stepped(steps, Restore(which));
      steps := steps + [Restore(which)];
      ok := !closed;
      if ok { degradations := if which.Some? then degradations - {which.value} else map[]; }
    }

    method StartDrain()
      requires Valid()
      modifies `accepting, `steps
      ensures Valid() && steps == old(steps) + [BeginDrain] && !accepting
    {
      hide Sound;
      Stepped(steps, BeginDrain);
      steps := steps + [BeginDrain];
      accepting := false;
    }

    method Close()
      requires Valid()
      modifies `accepting, `closed, `steps
      ensures Valid() && steps == old(steps) + [HealthRuns.Close] && HealthOf(Abs()).Closed?
    {
      hide Sound;
      Stepped(steps, HealthRuns.Close);
      steps := steps + [HealthRuns.Close];
      accepting, closed := false, true;
    }

    /** Two passes over the checks, the required ones first. */
    method GetHealth() returns (health: Health)
      ensures health == HealthOf(Abs())
    {
      if closed { return Closed; }
      if exists code <- degradations :: degradations[code].Critical? { return IsUnhealthy; }
      for i := 0 to |registered|
        invariant forall j | 0 <= j < i :: registered[j] < |entries| ==> !Failing(entries[registered[j]])
      {
        if registered[i] < |entries| && Failing(entries[registered[i]]) { return IsUnhealthy; }
      }
      if degradations != map[] { return Degraded; }
      for i := 0 to |registered|
        invariant forall j | 0 <= j < i :: registered[j] < |entries| ==> entries[registered[j]].healthy
      {
        if registered[i] < |entries| && !entries[registered[i]].healthy { return Degraded; }
      }
      health := IsHealthy;
    }
  }

  lemma {:induction false} RecordAllFrame(s: State, checks: seq<nat>, pending: set<nat>)
    ensures RecordAll(s, checks, pending) == s.(entries := RecordAll(s, checks, pending).entries)
  {
    if checks != [] { RecordAllFrame(s, checks[..|checks| - 1], pending); }
  }
}

/** What every history of health runs keeps. */
module HealthTheorems {
  import opened Collections
  import opened HealthRuns

  // ------------------------------------------------ verdicts and counters

  function VerdictsIn(verdicts: seq<Verdict>, run: nat): nat {
    if verdicts == [] then 0
    else VerdictsIn(verdicts[..|verdicts| - 1], run) + if verdicts[|verdicts| - 1].run == run then 1 else 0
  }

  /** The failures since the last healthy verdict. */
  function TrailingFailures(verdicts: seq<Verdict>): nat {
    if verdicts == [] || verdicts[|verdicts| - 1].outcome.Healthy? then 0
    else TrailingFailures(verdicts[..|verdicts| - 1]) + 1
  }

  predicate TrailingCritical(verdicts: seq<Verdict>) {
    if verdicts == [] || verdicts[|verdicts| - 1].outcome.Healthy? then false
    else verdicts[|verdicts| - 1].outcome.critical || TrailingCritical(verdicts[..|verdicts| - 1])
  }

  predicate LastHealthy(verdicts: seq<Verdict>) { verdicts == [] || verdicts[|verdicts| - 1].outcome.Healthy? }

  predicate Summarised(e: Entry) {
    && e.healthy == LastHealthy(e.verdicts)
    && e.failures == TrailingFailures(e.verdicts)
    && e.critical == TrailingCritical(e.verdicts)
  }

  lemma RecordedVerdict(e: Entry, run: nat, outcome: Outcome, k: nat)
    ensures Summarised(e) ==> Summarised(Recorded(e, run, outcome))
    ensures VerdictsIn(Recorded(e, run, outcome).verdicts, k) == VerdictsIn(e.verdicts, k) + if k == run then 1 else 0
  {
    assert (e.verdicts + [Verdict(run, outcome)])[..|e.verdicts|] == e.verdicts;
  }

  // -------------------------------------------------------------- invariant

  ghost predicate Registered(s: State) {
    Distinct(s.registered) && forall i | 0 <= i < |s.registered| :: s.registered[i] < |s.entries|
  }

  /** Each check has at most the one execution its entry points to. */
  ghost predicate Physical(s: State) {
    && (forall e | 0 <= e < |s.entries| && s.entries[e].physical.Some? ::
          && s.entries[e].physical.value < |s.executions|
          && s.executions[s.entries[e].physical.value] == Execution(e, false))
    && (forall x | 0 <= x < |s.executions| ::
          && s.executions[x].entry < |s.entries|
          && (!s.executions[x].settled ==> s.entries[s.executions[x].entry].physical == Some(x)))
  }

  /** The checks of a run are waiting to be taken, held by one worker, or no longer pending. */
  ghost predicate Working(entries: nat, accepting: bool, run: Active) {
    && Distinct(run.list) && run.next <= |run.list| && (run.workers != [] || run.list == [])
    && (forall i | 0 <= i < |run.list| :: run.list[i] < entries)
    && (forall e | e in run.pending :: e in run.list)
    && (forall i | run.next <= i < |run.list| :: run.list[i] in run.pending)
    && (forall w | 0 <= w < |run.workers| && run.workers[w].Checking? ::
          run.workers[w].entry in run.list[..run.next] && run.workers[w].entry in run.pending)
    && (forall w, v | 0 <= w < v < |run.workers| && run.workers[w].Checking? && run.workers[v].Checking? ::
          run.workers[w].entry != run.workers[v].entry)
    && (forall e | e in run.list[..run.next] && e in run.pending ::
          exists w :: 0 <= w < |run.workers| && run.workers[w].Checking? && run.workers[w].entry == e)
    && (forall w | 0 <= w < |run.workers| && run.workers[w].Done? && run.live && accepting :: run.next >= |run.list|)
  }

  /** The verdicts a check has from the run that is not concluded yet. */
  function Due(run: Option<Active>, e: nat): nat {
    if run.Some? && run.value.live && e in run.value.list && e !in run.value.pending then 1 else 0
  }

  ghost predicate Counted(s: State) {
    && (forall e | 0 <= e < |s.entries| :: VerdictsIn(s.entries[e].verdicts, |s.concluded|) == Due(s.run, e))
    && (forall e, k | 0 <= e < |s.entries| && k > |s.concluded| :: VerdictsIn(s.entries[e].verdicts, k) == 0)
  }

  /** A concluded run gave each check that was registered from its start to its end exactly one verdict. */
  ghost predicate OneEach(s: State, k: nat)
    requires k < |s.concluded|
  {
    !s.concluded[k].drained ==>
      forall e | e in s.concluded[k].list && e in s.concluded[k].registered ::
        e < |s.entries| && VerdictsIn(s.entries[e].verdicts, k) == 1
  }

  ghost predicate Sound(s: State) {
    && Registered(s) && Physical(s) && Counted(s)
    && (s.run.Some? ==> Working(|s.entries|, s.accepting, s.run.value))
    && (forall e | 0 <= e < |s.entries| :: Summarised(s.entries[e]))
    && (forall k | 0 <= k < |s.concluded| :: OneEach(s, k))
  }

  // ------------------------------------------------------------ its steps

  lemma {:induction false} RemoveKeeps(order: seq<nat>, e: nat)
    requires Distinct(order)
    ensures Distinct(Remove(order, e)) && forall x :: x in Remove(order, e) <==> x in order && x != e
  {
    if order != [] {
      var front, last := order[..|order| - 1], order[|order| - 1];
      RemoveKeeps(front, e);
      assert order == front + [last];
      assert last !in front;
      assert last !in Remove(front, e);
    }
  }

  lemma RegisterSound(s: State, required: bool)
    requires Sound(s)
    ensures Sound(Next(s, Register(required)))
  {
    hide Recorded;
    var t := Next(s, Register(required));
    assert forall e | 0 <= e < |s.entries| :: t.entries[e] == s.entries[e];
    forall k | 0 <= k < |t.concluded| ensures OneEach(t, k) { assert OneEach(s, k); }
    if s.run.Some? { assert forall i | 0 <= i < |s.run.value.list| :: s.run.value.list[i] != |s.entries|; }
  }

  lemma UnregisterSound(s: State, e: nat)
    requires Sound(s)
    ensures Sound(Next(s, Unregister(e)))
  {
    var t := Next(s, Unregister(e));
    RemoveKeeps(s.registered, e);
    forall i | 0 <= i < |t.registered| ensures t.registered[i] < |t.entries| {
      assert t.registered[i] in s.registered;
    }
    forall k | 0 <= k < |t.concluded| ensures OneEach(t, k) { assert OneEach(s, k); }
  }

  lemma BeginSound(s: State, concurrency: nat)
    requires Sound(s) && s.run.None? && concurrency > 0
    ensures Sound(DoBegin(s, concurrency))
  {
    var t := DoBegin(s, concurrency);
    assert t.run.value.list[..0] == [];
    forall e | 0 <= e < |t.entries| ensures Due(t.run, e) == 0 { }
    forall k | 0 <= k < |t.concluded| ensures OneEach(t, k) { assert OneEach(s, k); }
  }

  /** A verdict of the run in progress changes no concluded one. */
  lemma RecordKeepsPast(s: State, e: nat, outcome: Outcome, k: nat)
    requires k < |s.concluded| && OneEach(s, k)
    ensures OneEach(Record(s, e, outcome), k)
  {
    hide VerdictsIn, Summarised, Recorded;
    if e < |s.entries| { RecordedVerdict(s.entries[e], |s.concluded|, outcome, k); }
  }

  lemma RecordKeepsRest(s: State, e: nat, outcome: Outcome)
    requires Registered(s) && Physical(s) && forall i | 0 <= i < |s.entries| :: Summarised(s.entries[i])
    ensures var t := Record(s, e, outcome);
            && Registered(t) && Physical(t) && |t.entries| == |s.entries|
            && forall i | 0 <= i < |t.entries| :: Summarised(t.entries[i])
  {
    if e < |s.entries| { RecordedVerdict(s.entries[e], |s.concluded|, outcome, 0); }
  }

  lemma RecordCounts(s: State, e: nat, outcome: Outcome, i: nat, k: nat)
    requires e < |s.entries| && i < |s.entries|
    ensures VerdictsIn(Record(s, e, outcome).entries[i].verdicts, k)
         == VerdictsIn(s.entries[i].verdicts, k) + if i == e && k == |s.concluded| then 1 else 0
  {
    RecordedVerdict(s.entries[e], |s.concluded|, outcome, k);
  }

  /** A pending check of the live run gets its verdict and is pending no more. */
  lemma VerdictCounted(s: State, run: Active, e: nat, outcome: Outcome, more: Active)
    requires Counted(s) && s.run == Some(run) && run.live && e in run.pending && e in run.list && e < |s.entries|
    requires more.live && more.list == run.list && more.pending == run.pending - {e}
    ensures Counted(Record(s, e, outcome).(run := Some(more)))
  {
    var t := Record(s, e, outcome).(run := Some(more));
    forall i | 0 <= i < |t.entries| ensures VerdictsIn(t.entries[i].verdicts, |t.concluded|) == Due(t.run, i) {
      RecordCounts(s, e, outcome, i, |s.concluded|);
    }
    forall i, k | 0 <= i < |t.entries| && k > |t.concluded| ensures VerdictsIn(t.entries[i].verdicts, k) == 0 {
      RecordCounts(s, e, outcome, i, k);
    }
  }

  /** The next check leaves the list and is no longer pending. */
  lemma SkippedWorks(n: nat, accepting: bool, run: Active)
    requires Working(n, accepting, run) && run.next < |run.list|
    ensures Working(n, accepting, run.(next := run.next + 1, pending := run.pending - {run.list[run.next]}))
  {
    assert run.list[..run.next + 1] == run.list[..run.next] + [run.list[run.next]];
  }

  /** The next check leaves the list and a worker holds it now. */
  lemma TakenWorks(n: nat, accepting: bool, run: Active, w: nat, x: nat)
    requires Working(n, accepting, run) && run.next < |run.list| && w < |run.workers| && run.workers[w].Free?
    ensures Working(n, accepting,
                    run.(next := run.next + 1, workers := run.workers[w := Checking(run.list[run.next], x)]))
  {
    var e := run.list[run.next];
    assert run.list[..run.next + 1] == run.list[..run.next] + [e];
    var more := run.(next := run.next + 1, workers := run.workers[w := Checking(e, x)]);
    forall d | d in more.list[..more.next] && d in more.pending
      ensures exists v :: 0 <= v < |more.workers| && more.workers[v].Checking? && more.workers[v].entry == d
    {
      if d == e {
        assert more.workers[w].entry == d;
      } else {
        var v :| 0 <= v < |run.workers| && run.workers[v].Checking? && run.workers[v].entry == d;
        assert more.workers[v] == run.workers[v];
      }
    }
  }

  lemma WorkingListed(n: nat, accepting: bool, run: Active)
    requires Working(n, accepting, run)
    ensures run.next <= |run.list| && forall i | 0 <= i < |run.list| :: run.list[i] < n
    ensures forall i | run.next <= i < |run.list| :: run.list[i] in run.pending
  {
  }

  lemma TakeSound(s: State, run: Active, w: nat)
    requires Sound(s) && s.run == Some(run) && w < |run.workers| && run.workers[w].Free?
    ensures Sound(DoTake(s, run, w))
  {
    hide VerdictsIn, Summarised, Recorded, Working;
    WorkingListed(|s.entries|, s.accepting, run);
    var t := DoTake(s, run, w);
    if !s.accepting || !run.live || run.next >= |run.list| {
      DoneWorks(|s.entries|, s.accepting, run, w);
      SameEntries(s, t);
    } else {
      var e := run.list[run.next];
      assert e in run.list;
      if s.entries[e].physical.Some? {
        SkippedWorks(|s.entries|, s.accepting, run);
        RecordKeepsRest(s, e, Unhealthy(false));
        VerdictCounted(s, run, e, Unhealthy(false), t.run.value);
        forall k | 0 <= k < |s.concluded| ensures OneEach(t, k) { RecordKeepsPast(s, e, Unhealthy(false), k); }
      } else {
        TakenWorks(|s.entries|, s.accepting, run, w, |s.executions|);
        ExecutionStarts(s, e);
        SameVerdicts(s, t);
      }
    }
  }

  lemma DoneWorks(n: nat, accepting: bool, run: Active, w: nat)
    requires Working(n, accepting, run) && w < |run.workers| && run.workers[w].Free?
    requires !accepting || !run.live || run.next >= |run.list|
    ensures Working(n, accepting, run.(workers := run.workers[w := Done]))
  {
    var more := run.(workers := run.workers[w := Done]);
    forall e | e in more.list[..more.next] && e in more.pending
      ensures exists v :: 0 <= v < |more.workers| && more.workers[v].Checking? && more.workers[v].entry == e
    {
      var v :| 0 <= v < |run.workers| && run.workers[v].Checking? && run.workers[v].entry == e;
      assert more.workers[v] == run.workers[v];
    }
  }

  /** What depends only on entries and past runs. */
  lemma SameEntries(s: State, t: State)
    requires Sound(s) && t.entries == s.entries && t.concluded == s.concluded
             && t.executions == s.executions && t.registered == s.registered
    requires forall e: nat :: Due(t.run, e) == Due(s.run, e)
    ensures Registered(t) && Physical(t) && Counted(t) && (forall e | 0 <= e < |t.entries| :: Summarised(t.entries[e]))
    ensures forall k | 0 <= k < |t.concluded| :: OneEach(t, k)
  {
    forall k | 0 <= k < |t.concluded| ensures OneEach(t, k) { assert OneEach(s, k); }
  }

  /** Starting or settling an execution gives no verdict. */
  lemma SameVerdicts(s: State, t: State)
    requires Sound(s) && |t.entries| == |s.entries| && t.concluded == s.concluded && t.registered == s.registered
    requires forall e | 0 <= e < |s.entries| :: t.entries[e] == s.entries[e].(physical := t.entries[e].physical)
    requires forall e: nat :: Due(t.run, e) == Due(s.run, e)
    ensures Registered(t) && Counted(t) && (forall e | 0 <= e < |t.entries| :: Summarised(t.entries[e]))
    ensures forall k | 0 <= k < |t.concluded| :: OneEach(t, k)
  {
    forall k | 0 <= k < |t.concluded| ensures OneEach(t, k) { assert OneEach(s, k); }
  }

  lemma ExecutionStarts(s: State, e: nat)
    requires Physical(s) && e < |s.entries| && s.entries[e].physical.None?
    ensures var x := |s.executions|;
            Physical(StartExecution(s, e))
  {
    var x := |s.executions|;
    var t := StartExecution(s, e);
    assert forall y | 0 <= y < x :: t.executions[y] == s.executions[y];
    assert forall d | 0 <= d < |s.entries| && d != e :: t.entries[d] == s.entries[d];
  }

  lemma SettlePhysical(s: State, x: nat)
    requires Physical(s) && x < |s.executions|
    ensures Physical(DoSettle(s, x))
  {
  }

  lemma SettleSound(s: State, x: nat)
    requires Sound(s) && x < |s.executions|
    ensures Sound(DoSettle(s, x))
  {
    hide VerdictsIn, Summarised, Working, OneEach;
    SettlePhysical(s, x);
    SameVerdicts(s, DoSettle(s, x));
  }

  lemma FreedWorks(n: nat, accepting: bool, run: Active, w: nat)
    requires Working(n, accepting, run) && w < |run.workers| && run.workers[w].Checking?
    ensures Working(n, accepting,
                    run.(pending := run.pending - {run.workers[w].entry}, workers := run.workers[w := Free]))
  {
    var e := run.workers[w].entry;
    var more := run.(pending := run.pending - {e}, workers := run.workers[w := Free]);
    assert forall i | run.next <= i < |run.list| :: run.list[i] != e by {
      var j :| 0 <= j < run.next && run.list[j] == e;
    }
    forall d | d in more.list[..more.next] && d in more.pending
      ensures exists v :: 0 <= v < |more.workers| && more.workers[v].Checking? && more.workers[v].entry == d
    {
      var v :| 0 <= v < |run.workers| && run.workers[v].Checking? && run.workers[v].entry == d;
      assert more.workers[v] == run.workers[v];
    }
  }

  lemma DeliverSound(s: State, run: Active, w: nat, outcome: Outcome)
    requires Sound(s) && s.run == Some(run) && w < |run.workers| && run.workers[w].Checking?
    ensures Sound(DoDeliver(s, run, w, outcome))
  {
    hide VerdictsIn, Summarised, Recorded;
    var t, e := DoDeliver(s, run, w, outcome), run.workers[w].entry;
    FreedWorks(|s.entries|, s.accepting, run, w);
    assert e in run.list;
    if run.live {
      RecordKeepsRest(s, e, outcome);
      VerdictCounted(s, run, e, outcome, t.run.value);
      forall k | 0 <= k < |s.concluded| ensures OneEach(t, k) { RecordKeepsPast(s, e, outcome, k); }
    } else {
      SameEntries(s, t);
    }
  }

  // --------------------------------------------------- ends of a run

  lemma {:induction false} RecordAllKeeps(s: State, checks: seq<nat>, pending: set<nat>)
    requires Registered(s) && Physical(s) && forall i | 0 <= i < |s.entries| :: Summarised(s.entries[i])
    ensures var t := RecordAll(s, checks, pending);
            && Registered(t) && Physical(t) && |t.entries| == |s.entries|
            && (forall i | 0 <= i < |t.entries| :: Summarised(t.entries[i]))
            && t == s.(entries := t.entries)
  {
    if checks != [] {
      RecordAllKeeps(s, checks[..|checks| - 1], pending);
      RecordKeepsRest(RecordAll(s, checks[..|checks| - 1], pending), checks[|checks| - 1], Unhealthy(false));
    }
  }

  lemma {:induction false} RecordAllCounts(s: State, checks: seq<nat>, pending: set<nat>, i: nat, k: nat)
    requires Distinct(checks) && i < |s.entries| && forall j | 0 <= j < |checks| :: checks[j] < |s.entries|
    ensures var t := RecordAll(s, checks, pending);
            && |t.entries| == |s.entries| && t.concluded == s.concluded
            && VerdictsIn(t.entries[i].verdicts, k)
               == VerdictsIn(s.entries[i].verdicts, k)
                  + if i in checks && i in pending && k == |s.concluded| then 1 else 0
  {
    hide VerdictsIn;
    if checks != [] {
      var front, e := checks[..|checks| - 1], checks[|checks| - 1];
      assert checks == front + [e];
      RecordAllCounts(s, front, pending, i, k);
      RecordCounts(RecordAll(s, front, pending), e, Unhealthy(false), i, k);
    }
  }

  lemma TimeOutSound(s: State, run: Active)
    requires Sound(s) && s.run == Some(run) && run.live
    ensures Sound(DoTimeOut(s, run))
  {
    hide VerdictsIn, Summarised, Recorded;
    var t, n := DoTimeOut(s, run), |s.concluded|;
    RecordAllKeeps(s, s.registered, run.pending);
    forall e, k: nat | 0 <= e < |s.entries|
      ensures VerdictsIn(t.entries[e].verdicts, k)
           == VerdictsIn(s.entries[e].verdicts, k) + if e in s.registered && e in run.pending && k == n then 1 else 0
    {
      RecordAllCounts(s, s.registered, run.pending, e, k);
    }
    forall k | 0 <= k < |t.concluded| ensures OneEach(t, k) {
      if k < n { assert OneEach(s, k) && t.concluded[k] == s.concluded[k]; }
    }
  }

  /** A live run in which every worker is done, and no drain began, has nothing pending. */
  lemma DoneIsComplete(n: nat, run: Active)
    requires Working(n, true, run) && run.live && AllDone(run)
    ensures run.pending == {}
  {
    assert run.list != [] ==> run.workers[0].Done?;
    assert run.next == |run.list| && run.list[..run.next] == run.list;
    assert forall w | 0 <= w < |run.workers| :: !run.workers[w].Checking?;
    assert forall e :: e !in run.pending;
  }

  lemma FinishSound(s: State, run: Active)
    requires Sound(s) && s.run == Some(run) && AllDone(run)
    ensures Sound(DoFinish(s, run))
  {
    hide VerdictsIn, Summarised;
    var t, n := DoFinish(s, run), |s.concluded|;
    if run.live && s.accepting { DoneIsComplete(|s.entries|, run); }
    forall k | 0 <= k < |t.concluded| ensures OneEach(t, k) {
      if k < n { assert OneEach(s, k) && t.concluded[k] == s.concluded[k]; }
    }
  }

  lemma OtherSound(s: State, step: Step)
    requires Sound(s) && (step.BeginDrain? || step.Close? || step.Degrade? || step.Restore?)
    ensures Sound(Next(s, step))
  {
    SameEntries(s, Next(s, step));
  }

  lemma StepSound(s: State, step: Step)
    requires Sound(s)
    ensures Sound(Next(s, step))
  {
    hide Sound, DoBegin, DoTake, DoSettle, DoDeliver, DoTimeOut, DoFinish;
    match step
    case Register(required) => RegisterSound(s, required);
    case Unregister(e) => UnregisterSound(s, e);
    case Begin(concurrency) => if s.accepting && s.run.None? && concurrency > 0 { BeginSound(s, concurrency); }
    case Take(w) =>
      if s.run.Some? && w < |s.run.value.workers| && s.run.value.workers[w].Free? { TakeSound(s, s.run.value, w); }
    case Settle(x) => if x < |s.executions| { SettleSound(s, x); }
    case Deliver(w, outcome) =>
      if s.run.Some? && w < |s.run.value.workers| && s.run.value.workers[w].Checking? {
        DeliverSound(s, s.run.value, w, outcome);
      }
    case TimeOutRun => if s.run.Some? && s.run.value.live { TimeOutSound(s, s.run.value); }
    case Finish => if s.run.Some? && AllDone(s.run.value) { FinishSound(s, s.run.value); }
    case _ => OtherSound(s, step);
  }

  lemma {:induction false} EveryRunSound(steps: seq<Step>)
    ensures Sound(Run(steps))
  {
    if steps != [] {
      EveryRunSound(steps[..|steps| - 1]);
      StepSound(Run(steps[..|steps| - 1]), steps[|steps| - 1]);
    }
  }

  // --------------------------------------------------------------- results

  /** Whether a run finishes or times out: each check registered at its start and at its end has exactly one verdict
      from it, and no later step ever adds another. */
  lemma ExactlyOneVerdict(steps: seq<Step>, k: nat, e: nat)
    requires k < |Run(steps).concluded| && !Run(steps).concluded[k].drained
    requires e in Run(steps).concluded[k].list && e in Run(steps).concluded[k].registered
    ensures e < |Run(steps).entries| && VerdictsIn(Run(steps).entries[e].verdicts, k) == 1
  {
    EveryRunSound(steps);
    assert OneEach(Run(steps), k);
  }

  /** No check is executed twice at the same time, however many runs time out while it is still at work. */
  lemma SingleExecution(steps: seq<Step>, x: nat, y: nat)
    requires x < |Run(steps).executions| && y < |Run(steps).executions| && x != y
    requires Run(steps).executions[x].entry == Run(steps).executions[y].entry
    ensures Run(steps).executions[x].settled || Run(steps).executions[y].settled
  {
    EveryRunSound(steps);
  }

  /** The counters a check keeps are those of its verdicts since the last healthy one. */
  lemma CountersAreExact(steps: seq<Step>, e: nat)
    requires e < |Run(steps).entries|
    ensures var entry := Run(steps).entries[e];
            && entry.failures == TrailingFailures(entry.verdicts) && entry.critical == TrailingCritical(entry.verdicts)
            && entry.healthy == LastHealthy(entry.verdicts)
  {
    EveryRunSound(steps);
  }

  /** After a run has timed out, what its checks still answer changes no check and no health. */
  lemma LateAnswersChangeNothing(s: State, w: nat, outcome: Outcome)
    requires s.run.Some? && !s.run.value.live
    ensures var t := Next(s, Deliver(w, outcome)); t.entries == s.entries && HealthOf(t) == HealthOf(s)
  {
    LateAnswerKeepsEntries(s, w, outcome);
    SameHealth(s, Next(s, Deliver(w, outcome)));
  }

  lemma LateAnswerKeepsEntries(s: State, w: nat, outcome: Outcome)
    requires s.run.Some? && !s.run.value.live
    ensures Next(s, Deliver(w, outcome)) == s.(run := Next(s, Deliver(w, outcome)).run)
  {
  }

  lemma SameHealth(s: State, t: State)
    requires t == s.(run := t.run)
    ensures HealthOf(t) == HealthOf(s)
  {
  }

  /** The system is unhealthy exactly while a critical degradation stands, or a required check that is registered has
      failed three times in a row, or critically, since it was last healthy. */
  lemma UnhealthyExactly(steps: seq<Step>)
    ensures var s := Run(steps);
            HealthOf(s).IsUnhealthy? <==>
              && !s.closed
              && (|| (exists code <- s.degradations :: s.degradations[code].Critical?)
                  || exists e :: e in s.registered && e < |s.entries| && s.entries[e].required
                       && (TrailingCritical(s.entries[e].verdicts)
                           || TrailingFailures(s.entries[e].verdicts) >= FAILURE_THRESHOLD))
  {
    EveryRunSound(steps);
    var s := Run(steps);
    forall e | e in s.registered && e < |s.entries|
      ensures var c := s.entries[e];
              Failing(c)
                == (c.required && (TrailingCritical(c.verdicts) || TrailingFailures(c.verdicts) >= FAILURE_THRESHOLD))
    {
      assert Summarised(s.entries[e]);
    }
  }
}

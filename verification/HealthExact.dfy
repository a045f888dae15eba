/** The answers of the health manager, told by its steps alone. */
module HealthExact {
  import opened Collections
  import opened HealthRuns
  import opened HealthTheorems

  /** How bad the degradation with this code is, if it was recorded and not cleared since, before the closing. */
  function Standing(steps: seq<Step>, code: string): Option<Severity> {
    if steps == [] then None
    else
      var front, before := steps[..|steps| - 1], Standing(steps[..|steps| - 1], code);
      if HasClosed(front) then before
      else match steps[|steps| - 1]
        case Degrade(other, severity) => if other == code then Some(severity) else before
        case Restore(None) => None
        case Restore(Some(other)) => if other == code then None else before
        case _ => before
  }

  predicate HasClosed(steps: seq<Step>) { exists i :: 0 <= i < |steps| && steps[i].Close? }

  predicate HasDrained(steps: seq<Step>) { exists i :: 0 <= i < |steps| && (steps[i].Close? || steps[i].BeginDrain?) }

  lemma RunLast(steps: seq<Step>)
    requires steps != []
    ensures var front, step := steps[..|steps| - 1], steps[|steps| - 1];
            && Run(steps) == Next(Run(front), step)
            && (HasClosed(steps) <==> HasClosed(front) || step.Close?)
            && (HasDrained(steps) <==> HasDrained(front) || step.Close? || step.BeginDrain?)
  {
    var front, n := steps[..|steps| - 1], |steps| - 1;
    assert forall i | 0 <= i < n :: front[i] == steps[i];
    if steps[n].Close? || steps[n].BeginDrain? { assert steps[n] == steps[|steps| - 1]; }
  }

  lemma Untouched(s: State, step: Step)
    ensures var t := Next(s, step);
            && (!step.Degrade? && !step.Restore? ==> t.degradations == s.degradations)
            && (!step.Close? && !step.BeginDrain? ==> t.accepting == s.accepting)
            && (!step.Close? ==> t.closed == s.closed)
            && (!step.Register? && !step.Unregister? ==> t.registered == s.registered && |t.entries| == |s.entries|)
  {
    hide Recorded;
    if step.TimeOutRun? && s.run.Some? { RecordAllRest(s, s.registered, s.run.value.pending); }
  }

  lemma {:induction false} RecordAllRest(s: State, checks: seq<nat>, pending: set<nat>)
    ensures var t := RecordAll(s, checks, pending); t == s.(entries := t.entries) && |t.entries| == |s.entries|
  {
    if checks != [] { RecordAllRest(s, checks[..|checks| - 1], pending); }
  }

  /** The closing, the end of admissions and the degradations that stand. */
  lemma {:induction false} SwitchesAreHistory(steps: seq<Step>)
    ensures var s := Run(steps);
            && (s.closed <==> HasClosed(steps)) && (s.accepting <==> !HasDrained(steps))
            && (forall code ::
                  Standing(steps, code) == if code in s.degradations then Some(s.degradations[code]) else None)
  {
    if steps != [] {
      SwitchesAreHistory(steps[..|steps| - 1]);
      RunLast(steps);
      Untouched(Run(steps[..|steps| - 1]), steps[|steps| - 1]);
    }
  }

  /** The registrations that were admitted: they number the checks. */
  ghost function Registrations(steps: seq<Step>): nat {
    if steps == [] then 0
    else
      var front, step := steps[..|steps| - 1], steps[|steps| - 1];
      Registrations(front) + if step.Register? && !HasDrained(front) && |Registered(front)| < 128 then 1 else 0
  }

  /** The checks that were registered and not unregistered since. */
  ghost function Registered(steps: seq<Step>): set<nat>
    decreases steps, 0
  {
    if steps == [] then {}
    else
      var front, step := steps[..|steps| - 1], steps[|steps| - 1];
      if step.Register? && !HasDrained(front) && |Registered(front)| < 128
        then Registered(front) + {Registrations(front)}
      else if step.Unregister? then Registered(front) - {step.e}
      else Registered(front)
  }

  ghost function Elements(order: seq<nat>): set<nat> { set e | e in order }

  lemma {:induction false} ElementsCount(order: seq<nat>)
    requires Distinct(order)
    ensures |Elements(order)| == |order|
  {
    if order != [] {
      var front, last := order[..|order| - 1], order[|order| - 1];
      ElementsCount(front);
      assert order == front + [last];
      assert Elements(order) == Elements(front) + {last} && last !in Elements(front);
    }
  }

  /** Exactly the checks that were registered and not unregistered since are registered, at most 128 at a time. */
  lemma {:induction false} RegisteredIsHistory(steps: seq<Step>)
    ensures var s := Run(steps);
            |s.entries| == Registrations(steps) && Elements(s.registered) == Registered(steps)
              && |Registered(steps)| <= 128
    decreases steps
  {
    hide Next, Sound;
    if steps != [] {
      var front, step := steps[..|steps| - 1], steps[|steps| - 1];
      var s := Run(front);
      RegisteredIsHistory(front);
      SwitchesAreHistory(front);
      RunLast(steps);
      Untouched(s, step);
      EveryRunSound(front);
      EveryRunSound(steps);
      SoundDistinct(s);
      SoundDistinct(Run(steps));
      ElementsCount(s.registered);
      ElementsCount(Run(steps).registered);
      if step.Register? || step.Unregister? { Registering(s, step); }
    }
  }

  lemma SoundDistinct(s: State)
    requires Sound(s)
    ensures Distinct(s.registered)
  {
  }

  lemma Registering(s: State, step: Step)
    requires Distinct(s.registered) && (step.Register? || step.Unregister?)
    ensures var t := Next(s, step);
            if step.Unregister? then
              |t.entries| == |s.entries| && Elements(t.registered) == Elements(s.registered) - {step.e}
            else if s.accepting && |s.registered| < 128 then
              |t.entries| == |s.entries| + 1 && Elements(t.registered) == Elements(s.registered) + {|s.entries|}
            else t == s
  {
    if step.Unregister? { RemoveKeeps(s.registered, step.e); }
  }

  /** What a run's history makes of a check. */
  ghost predicate FailsBadly(steps: seq<Step>, e: nat) {
    && e < |Run(steps).entries| && Run(steps).entries[e].required
    && (TrailingCritical(Run(steps).entries[e].verdicts) || TrailingFailures(Run(steps).entries[e].verdicts) >= 3)
  }

  ghost predicate FailedLast(steps: seq<Step>, e: nat) {
    e < |Run(steps).entries| && !LastHealthy(Run(steps).entries[e].verdicts)
  }

  ghost predicate StandsAs(steps: seq<Step>, code: string, severity: Severity) {
    Standing(steps, code) == Some(severity)
  }

  ghost predicate Stands(steps: seq<Step>, code: string) { Standing(steps, code).Some? }

  lemma DegradationStands(steps: seq<Step>, code: string)
    ensures var s := Run(steps);
            && (code in s.degradations <==> Stands(steps, code))
            && (code in s.degradations && s.degradations[code].Critical? <==> StandsAs(steps, code, Critical))
  {
    SwitchesAreHistory(steps);
  }

  lemma DegradationsStand(steps: seq<Step>)
    ensures var s := Run(steps);
            && ((exists code <- s.degradations :: s.degradations[code].Critical?)
                <==> exists code :: StandsAs(steps, code, Critical))
            && (s.degradations != map[] <==> exists code :: Stands(steps, code))
  {
    hide Run, Stands, StandsAs;
    var s := Run(steps);
    forall code
      ensures code in s.degradations <==> Stands(steps, code)
      ensures code in s.degradations && s.degradations[code].Critical? <==> StandsAs(steps, code, Critical)
    {
      DegradationStands(steps, code);
    }
    if s.degradations.Keys != {} {
      var code :| code in s.degradations.Keys;
      assert Stands(steps, code);
    }
    if exists code :: StandsAs(steps, code, Critical) {
      var code :| StandsAs(steps, code, Critical);
      DegradationStands(steps, code);
      assert s.degradations[code].Critical?;
    }
    assert s.degradations == map[] <==> s.degradations.Keys == {};
  }

  lemma ChecksFail(steps: seq<Step>)
    ensures var s := Run(steps);
            && (forall i | 0 <= i < |s.registered| :: s.registered[i] < |s.entries|)
            && ((exists i :: 0 <= i < |s.registered| && Failing(s.entries[s.registered[i]]))
                <==> exists e <- Registered(steps) :: FailsBadly(steps, e))
            && ((exists i :: 0 <= i < |s.registered| && !s.entries[s.registered[i]].healthy)
                <==> exists e <- Registered(steps) :: FailedLast(steps, e))
  {
    hide Run, Sound, TrailingCritical, TrailingFailures, LastHealthy, Summarised;
    var s := Run(steps);
    RegisteredIsHistory(steps);
    EveryRunSound(steps);
    forall i | 0 <= i < |s.registered|
      ensures s.registered[i] in Registered(steps) && s.registered[i] < |s.entries|
      ensures Failing(s.entries[s.registered[i]]) == FailsBadly(steps, s.registered[i])
      ensures s.entries[s.registered[i]].healthy == !FailedLast(steps, s.registered[i])
    {
      assert s.registered[i] in Elements(s.registered);
      SummarisedAt(s, i);
    }
    hide FailsBadly, FailedLast, Failing, Registered;
    forall e <- Registered(steps) ensures exists i :: 0 <= i < |s.registered| && s.registered[i] == e {
      assert e in Elements(s.registered);
    }
  }

  /** The health, exactly, after every sequence of steps: closed once it was closed; unhealthy while a critical
      degradation stands or a required check that is registered failed critically, or three times, since it was last
      healthy; degraded while any degradation stands or a registered check failed last; healthy otherwise. */
  lemma HealthExactly(steps: seq<Step>)
    ensures HealthOf(Run(steps))
            == if HasClosed(steps) then Closed
               else if (exists code :: StandsAs(steps, code, Critical))
                       || (exists e <- Registered(steps) :: FailsBadly(steps, e)) then IsUnhealthy
               else if (exists code :: Stands(steps, code))
                       || (exists e <- Registered(steps) :: FailedLast(steps, e)) then Degraded
               else IsHealthy
  {
    hide Run, Failing, FailsBadly, FailedLast, Registered, Stands, StandsAs;
    SwitchesAreHistory(steps);
    DegradationsStand(steps);
    ChecksFail(steps);
  }

  lemma SummarisedAt(s: State, i: nat)
    requires Sound(s) && i < |s.registered|
    ensures s.registered[i] < |s.entries|
    ensures var e := s.entries[s.registered[i]];
            && e.healthy == LastHealthy(e.verdicts) && e.failures == TrailingFailures(e.verdicts)
            && e.critical == TrailingCritical(e.verdicts)
  {
    assert Summarised(s.entries[s.registered[i]]);
  }
}

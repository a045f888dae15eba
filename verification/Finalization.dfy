/** Shutting the events manager down: an ordered list of steps that any number of attempts
    work through, each attempt joining what an earlier one left running. */
module Finalization {
  import opened Collections

  datatype Event = Started(k: nat) | Succeeded(k: nat) | Failed(k: nat)

  /** `awaiting` is the step that the current attempt waits for; `trace` is history. */
  datatype State = State(
    completed: set<nat>, running: set<nat>, awaiting: Option<nat>, closed: bool, trace: seq<Event>)

  const IDLE := State({}, {}, None, false, [])

  /** `WaitFails` is an attempt that gives up on a pending start or flush before the first step. */
  datatype Op = Shutdown | WaitFails | StepSucceeds(k: nat) | StepFails(k: nat) | TimesOut

  /** The attempt goes on from step `k` of `n`: completed steps are skipped, a running one is joined. */
  function Advance(n: nat, s: State, k: nat): State
    requires k <= n
    decreases n - k
  {
    if k == n then s.(closed := true, awaiting := None)
    else if k in s.completed then Advance(n, s, k + 1)
    else if k in s.running then s.(awaiting := Some(k))
    else Start(s, k)
  }

  function Next(n: nat, s: State, op: Op): State {
    match op
    case Shutdown => if s.closed || s.awaiting.Some? then s else Advance(n, s, 0)
    case WaitFails => s
    case StepSucceeds(k) =>
      if k !in s.running || k >= n then s
      else if s.awaiting == Some(k) then Advance(n, Succeed(s, k), k + 1)
      else Succeed(s, k)
    case StepFails(k) =>
      if k !in s.running then s
      else s.(running := s.running - {k}, trace := s.trace + [Failed(k)],
           awaiting := if s.awaiting == Some(k) then None else s.awaiting)
    case TimesOut => s.(awaiting := None)
  }

  function Run(n: nat, ops: seq<Op>): State {
    if ops == [] then IDLE else Next(n, Run(n, ops[..|ops| - 1]), ops[|ops| - 1])
  }

  function Count(trace: seq<Event>, e: Event): nat {
    if trace == [] then 0 else Count(trace[..|trace| - 1], e) + if trace[|trace| - 1] == e then 1 else 0
  }

  /** A step starts only when every earlier step has succeeded, it has not succeeded itself,
      and every earlier start of it has failed. */
  ghost predicate StartsInOrder(trace: seq<Event>) {
    forall i :: 0 <= i < |trace| && trace[i].Started? ==>
                  var k, before := trace[i].k, trace[..i];
                  && Succeeded(k) !in before
                  && Count(before, Started(k)) == Count(before, Failed(k))
                  && forall j: nat :: j < k ==> Succeeded(j) in before
  }

  /** What the trace says about the steps that completed and the steps that run. */
  ghost predicate Tracked(running: set<nat>, completed: set<nat>, trace: seq<Event>) {
    && running !! completed
    && (forall k: nat :: k in completed <==> Succeeded(k) in trace)
    && (forall k: nat :: Count(trace, Started(k)) ==
                         Count(trace, Failed(k)) + if k in running || k in completed then 1 else 0)
    && StartsInOrder(trace)
  }

  ghost predicate Inv(n: nat, s: State) {
    && Tracked(s.running, s.completed, s.trace)
    && (forall k <- s.running :: k < n)
    && (forall k, j: nat :: (k in s.completed || k in s.running) && j < k ==> j in s.completed)
    && (s.awaiting.Some? ==> s.awaiting.value in s.running)
    && (s.closed ==> forall k: nat :: k < n ==> k in s.completed)
  }

  lemma Appended(trace: seq<Event>, e: Event)
    ensures forall f :: Count(trace + [e], f) == Count(trace, f) + if f == e then 1 else 0
    ensures forall f :: f in trace + [e] <==> f in trace || f == e
  {
    assert (trace + [e])[..|trace|] == trace;
  }

  lemma OrderAppended(trace: seq<Event>, e: Event)
    requires StartsInOrder(trace)
    requires e.Started? ==> && Succeeded(e.k) !in trace && Count(trace, Started(e.k)) == Count(trace, Failed(e.k))
                            && forall j: nat :: j < e.k ==> Succeeded(j) in trace
    ensures StartsInOrder(trace + [e])
  {
    var longer := trace + [e];
    forall i | 0 <= i < |longer| && longer[i].Started?
      ensures var k, before := longer[i].k, longer[..i];
              && Succeeded(k) !in before
              && Count(before, Started(k)) == Count(before, Failed(k))
              && forall j: nat :: j < k ==> Succeeded(j) in before
    {
      assert longer[..i] == trace[..i];
      if i == |trace| {
        assert trace[..i] == trace;
      }
    }
  }

  lemma StartTracked(running: set<nat>, completed: set<nat>, trace: seq<Event>, k: nat)
    requires Tracked(running, completed, trace) && k !in running && k !in completed
    requires forall j: nat :: j < k ==> j in completed
    ensures Tracked(running + {k}, completed, trace + [Started(k)])
  {
    hide Count, StartsInOrder;
    Appended(trace, Started(k));
    OrderAppended(trace, Started(k));
  }

  lemma SucceedTracked(running: set<nat>, completed: set<nat>, trace: seq<Event>, k: nat)
    requires Tracked(running, completed, trace) && k in running
    ensures Tracked(running - {k}, completed + {k}, trace + [Succeeded(k)])
  {
    hide Count, StartsInOrder;
    Appended(trace, Succeeded(k));
    OrderAppended(trace, Succeeded(k));
  }

  lemma FailTracked(running: set<nat>, completed: set<nat>, trace: seq<Event>, k: nat)
    requires Tracked(running, completed, trace) && k in running
    ensures Tracked(running - {k}, completed, trace + [Failed(k)])
  {
    hide Count, StartsInOrder;
    Appended(trace, Failed(k));
    OrderAppended(trace, Failed(k));
  }

  /** Every step below `k` has completed, as far as an attempt at `k` can tell. */
  ghost predicate DoneBelow(s: State, k: nat) { forall j: nat :: j < k ==> j in s.completed }

  function Start(s: State, k: nat): State {
    s.(running := s.running + {k}, awaiting := Some(k), trace := s.trace + [Started(k)])
  }

  lemma StartKeeps(n: nat, s: State, k: nat)
    requires k < n && Inv(n, s) && DoneBelow(s, k) && k !in s.completed && k !in s.running
    ensures Inv(n, Start(s, k))
  {
    StartTracked(s.running, s.completed, s.trace, k);
  }

  lemma {:induction false} AdvanceKeeps(n: nat, s: State, k: nat)
    requires k <= n && Inv(n, s) && DoneBelow(s, k)
    ensures Inv(n, Advance(n, s, k))
    decreases n - k
  {
    if k == n {
      assert Inv(n, s.(closed := true, awaiting := None));
    } else if k in s.completed {
      AdvanceKeeps(n, s, k + 1);
    } else if k in s.running {
      assert Inv(n, s.(awaiting := Some(k)));
    } else {
      StartKeeps(n, s, k);
    }
  }

  /** The step is over with success; the attempt that awaited it has not gone on yet. */
  function Succeed(s: State, k: nat): State {
    s.(completed := s.completed + {k}, running := s.running - {k}, trace := s.trace + [Succeeded(k)],
    awaiting := if s.awaiting == Some(k) then None else s.awaiting)
  }

  lemma SucceedKeeps(n: nat, s: State, k: nat)
    requires Inv(n, s) && k in s.running
    ensures Inv(n, Succeed(s, k))
  {
    SucceedTracked(s.running, s.completed, s.trace, k);
  }

  lemma FailKeeps(n: nat, s: State, k: nat)
    requires Inv(n, s) && k in s.running
    ensures Inv(n, Next(n, s, StepFails(k)))
  {
    FailTracked(s.running, s.completed, s.trace, k);
  }

  lemma SucceedStepKeeps(n: nat, s: State, k: nat)
    requires Inv(n, s) && k in s.running
    ensures Inv(n, Next(n, s, StepSucceeds(k)))
  {
    hide Tracked;
    SucceedKeeps(n, s, k);
    if s.awaiting == Some(k) {
      assert DoneBelow(Succeed(s, k), k + 1);
      AdvanceKeeps(n, Succeed(s, k), k + 1);
    }
  }

  lemma NextKeeps(n: nat, s: State, op: Op)
    requires Inv(n, s)
    ensures Inv(n, Next(n, s, op))
  {
    match op
    case Shutdown => if !s.closed && s.awaiting.None? { AdvanceKeeps(n, s, 0); }
    case StepSucceeds(k) => if k in s.running { SucceedStepKeeps(n, s, k); }
    case StepFails(k) => if k in s.running { FailKeeps(n, s, k); }
    case WaitFails =>
    case TimesOut => assert Inv(n, s.(awaiting := None));
  }

  lemma {:induction false} EveryRunKeeps(n: nat, ops: seq<Op>)
    ensures Inv(n, Run(n, ops))
  {
    if ops != [] {
      EveryRunKeeps(n, ops[..|ops| - 1]);
      NextKeeps(n, Run(n, ops[..|ops| - 1]), ops[|ops| - 1]);
    }
  }

  /** Across any number of attempts, timeouts and failures: steps start in order, never beside
      themselves and never again after success; at most one runs; closed means all succeeded. */
  lemma ShutdownIsOrdered(n: nat, ops: seq<Op>)
    ensures var s := Run(n, ops);
            && StartsInOrder(s.trace)
            && (forall j, k :: j in s.running && k in s.running ==> j == k)
            && (s.closed ==> forall k: nat :: k < n ==> Succeeded(k) in s.trace)
  {
    EveryRunKeeps(n, ops);
    assert Inv(n, Run(n, ops));
  }

  /** The steps of an attempt that starts at `k` and in which everything it awaits succeeds. */
  function Succeeding(n: nat, k: nat): seq<Op>
    requires k <= n
    decreases n - k
  {
    if k == n then [] else [StepSucceeds(k)] + Succeeding(n, k + 1)
  }

  function Resume(n: nat, s: State, ops: seq<Op>): State
    decreases |ops|
  {
    if ops == [] then s else Resume(n, Next(n, s, ops[0]), ops[1..])
  }

  /** The attempt under way awaits a running step from `k` on, or has closed. */
  predicate Ahead(n: nat, s: State, k: nat) {
    s.closed || (s.awaiting.Some? && k <= s.awaiting.value < n && s.awaiting.value in s.running)
  }

  lemma {:induction false} AdvanceAhead(n: nat, s: State, k: nat)
    requires k <= n
    ensures Ahead(n, Advance(n, s, k), k)
    decreases n - k
  {
    if k < n && k in s.completed {
      AdvanceAhead(n, s, k + 1);
    }
  }

  lemma {:induction false} SucceedingCloses(n: nat, s: State, k: nat)
    requires k <= n && Ahead(n, s, k)
    ensures Resume(n, s, Succeeding(n, k)).closed
    decreases n - k
  {
    if k < n {
      if s.awaiting == Some(k) {
        AdvanceAhead(n, Succeed(s, k), k + 1);
      }
      SucceedingCloses(n, Next(n, s, StepSucceeds(k)), k + 1);
      assert Succeeding(n, k)[1..] == Succeeding(n, k + 1);
    }
  }

  /** Shutdown is retryable: whatever earlier attempts left behind, one more attempt whose
      awaited steps succeed ends closed. */
  lemma ShutdownResumes(n: nat, ops: seq<Op>)
    requires Run(n, ops).awaiting.None?
    ensures Resume(n, Next(n, Run(n, ops), Shutdown), Succeeding(n, 0)).closed
  {
    var s := Run(n, ops);
    if !s.closed {
      AdvanceAhead(n, s, 0);
    }
    SucceedingCloses(n, Next(n, s, Shutdown), 0);
  }

  lemma RunNext(n: nat, ops: seq<Op>, op: Op)
    ensures Run(n, ops + [op]) == Next(n, Run(n, ops), op)
    ensures Inv(n, Run(n, ops + [op])) && StartsInOrder(Run(n, ops + [op]).trace)
  {
    assert (ops + [op])[..|ops|] == ops;
    EveryRunKeeps(n, ops + [op]);
  }

  /** The attempt goes on: all `n` steps have succeeded and it has closed, or it awaits the only running step, and
      that is the first one which has not succeeded. */
  ghost predicate Underway(n: nat, s: State) {
    if s.awaiting.None? then s.closed && s.running == {} && (forall k: nat :: k < n ==> k in s.completed)
    else
      && !s.closed && s.awaiting.value < n && s.running == {s.awaiting.value}
      && s.awaiting.value !in s.completed && DoneBelow(s, s.awaiting.value)
  }

  lemma {:induction false} AdvanceUnderway(n: nat, s: State, k: nat)
    requires k <= n && Inv(n, s) && DoneBelow(s, k) && !s.closed && s.awaiting.None?
    ensures Underway(n, Advance(n, s, k)) && Advance(n, s, k).completed == s.completed
    decreases n - k
  {
    if k < n && k in s.completed {
      AdvanceUnderway(n, s, k + 1);
    } else if k < n {
      assert forall j <- s.running :: j == k;
    }
  }

  /** Only one step runs at a time, so nothing runs once it is over. */
  lemma OverUnderway(n: nat, s: State, k: nat)
    requires Inv(n, s) && k in s.running
    ensures k < n && !s.closed && s.running == {k} && k !in s.completed && DoneBelow(s, k)
    ensures Inv(n, Succeed(s, k))
    ensures s.awaiting == Some(k) ==> Underway(n, Advance(n, Succeed(s, k), k + 1))
    ensures s.awaiting == Some(k) ==> var t := Advance(n, Succeed(s, k), k + 1);
                                      t.completed == s.completed + {k} && k !in t.running
    ensures s.awaiting.Some? ==> s.awaiting == Some(k)
  {
    assert forall j <- s.running :: j == k;
    SucceedKeeps(n, s, k);
    if s.awaiting == Some(k) {
      AdvanceUnderway(n, Succeed(s, k), k + 1);
    }
  }

  /** The closure state of the manager; every method is one uninterrupted stretch of the shutdown code. */
  class Finalizer {
    const n: nat
    var completed: set<nat>
    var running: set<nat>
    var awaiting: Option<nat>
    var closed: bool
    ghost var trace: seq<Event>
    /** What has happened so far, as history. */
    ghost var ops: seq<Op>

    ghost function Abs(): State
      reads this
    {
      State(completed, running, awaiting, closed, trace)
    }

    /** The object is where the history leads, so everything proved about runs holds of it. */
    ghost predicate Valid()
      reads this
    {
      Abs() == Run(n, ops) && Inv(n, Abs())
    }

    constructor (n: nat)
      ensures Valid() && ops == [] && this.n == n
    {
      this.n := n;
      completed, running, awaiting, closed, trace, ops := {}, {}, None, false, [], [];
    }

    /** The loop over the steps, up to the first one that has to be awaited. */
    method GoOn(from: nat)
      requires from <= n
      modifies `running, `awaiting, `closed, `trace
      ensures Abs() == Advance(n, old(Abs()), from)
    {
      ghost var s := Abs();
      var k := from;
      while k < n && k in completed
        invariant from <= k <= n && Abs() == s
        invariant Advance(n, s, from) == Advance(n, s, k)
      {
        k := k + 1;
      }
      if k == n {
        closed, awaiting := true, None;
      } else {
        if k !in running {
          running, trace := running + {k}, trace + [Started(k)];
        }
        awaiting := Some(k);
      }
    }

    /** An attempt closes, or starts or joins the first step that has not succeeded; a second one joins the first. */
    method BeginShutdown()
      requires Valid()
      modifies this
      ensures Valid() && ops == old(ops) + [Shutdown] && StartsInOrder(trace)
      ensures Underway(n, Abs()) && completed == old(completed)
      ensures old(closed) || old(awaiting).Some? ==> Abs() == old(Abs())
    {
      RunNext(n, ops, Shutdown);
      ops := ops + [Shutdown];
      if closed || awaiting.Some? {
        return;
      }
      AdvanceUnderway(n, Abs(), 0);
      GoOn(0);
    }

    /** A step that has succeeded never runs again, and the attempt that awaited it goes on. */
    method OnSuccess(k: nat)
      requires Valid() && k in running
      modifies this
      ensures Valid() && ops == old(ops) + [StepSucceeds(k)] && StartsInOrder(trace)
      ensures completed == old(completed) + {k} && k !in running
      ensures if old(awaiting) == Some(k) then Underway(n, Abs()) else running == {} && awaiting.None? && !closed
    {
      hide Run, Inv, StartsInOrder, Advance, Underway;
      RunNext(n, ops, StepSucceeds(k));
      OverUnderway(n, Abs(), k);
      ops := ops + [StepSucceeds(k)];
      var resumes := awaiting == Some(k);
      completed, running, trace := completed + {k}, running - {k}, trace + [Succeeded(k)];
      awaiting := if resumes then None else awaiting;
      if resumes {
        GoOn(k + 1);
      }
    }

    /** A step that has failed leaves nothing running: the attempt that awaited it fails, another may start it. */
    method OnFailure(k: nat) returns (rejects: bool)
      requires Valid() && k in running
      modifies this
      ensures Valid() && ops == old(ops) + [StepFails(k)]
      ensures running == {} && completed == old(completed) && k !in completed && !closed && awaiting.None?
      ensures rejects <==> old(awaiting) == Some(k)
    {
      RunNext(n, ops, StepFails(k));
      OverUnderway(n, Abs(), k);
      ops := ops + [StepFails(k)];
      running, trace := running - {k}, trace + [Failed(k)];
      rejects := awaiting == Some(k);
      awaiting := if rejects then None else awaiting;
    }

    /** The attempt gives up, but the step it awaited runs on. */
    method OnTimeout()
      requires Valid()
      modifies `awaiting, `ops
      ensures Valid() && ops == old(ops) + [TimesOut] && awaiting.None?
    {
      RunNext(n, ops, TimesOut);
      ops := ops + [TimesOut];
      awaiting := None;
    }
  }
}

/** What every run of the delivery protocol keeps: a completed event was consumed by every
    consumer of the worker that completed it, and each consumer succeeded once. */
module DeliverySafety {
  import opened Collections
  import opened OutboxRows
  import opened DeliveryProtocol
  import Inbox

  predicate ConsumedIn(s: System, c: string, id: string) {
    (c, id) in s.inbox && s.inbox[(c, id)].complete
  }

  /** What the runs of a delivery say about the inbox, except those whose consumption was forgotten. */
  ghost predicate RunsRecorded(s: System, d: nat)
    requires d < |s.deliveries|
  {
    var v := s.deliveries[d];
    forall c <- v.runs | (d, c) !in s.forgotten ::
      && (v.runs[c].Succeeded? ==> ConsumedIn(s, c, v.id) && s.inbox[(c, v.id)].owner == d)
      && (v.runs[c].Duplicate? ==> ConsumedIn(s, c, v.id))
  }

  /** The delivery that completed the event ran every matching consumer to the end. */
  ghost predicate CompletionJustified(s: System, id: string) {
    && id in s.completedBy && s.completedBy[id] < |s.deliveries|
    && var v := s.deliveries[s.completedBy[id]];
       v.id == id && AllConsumed(v) && (v.bound || v.runs != map[])
  }

  ghost predicate DeliveriesInv(cfg: Config, s: System) {
    && (forall p <- s.forgotten ::
          p.0 < |s.deliveries| && p.1 in s.deliveries[p.0].runs && Consumed(s.deliveries[p.0].runs[p.1]))
    && (forall d :: 0 <= d < |s.deliveries| ==>
                      s.deliveries[d].runs.Keys == cfg.matching(s.deliveries[d].worker, s.deliveries[d].etype))
    && (forall d :: 0 <= d < |s.deliveries| && s.deliveries[d].phase.Delivered? ==> AllConsumed(s.deliveries[d]))
    && (forall d :: 0 <= d < |s.deliveries| ==> RunsRecorded(s, d))
  }

  ghost predicate DispatchedInv(s: System) {
    forall id <- s.outbox :: SlotStatus(s.outbox[id]).Dispatched? ==> CompletionJustified(s, id)
  }

  /** No inbox call that is not a replay or a purge undoes a completion. */
  lemma InboxCallKeeps(s: System, key: Inbox.Key, op: Inbox.InboxOp<nat>)
    requires !op.Forget?
    ensures var s' := CallInbox(s, key, op).1;
            && s' == s.(inbox := s'.inbox)
            && forall k <- s.inbox :: s.inbox[k].complete ==> k in s'.inbox && s'.inbox[k] == s.inbox[k]
  {
  }

  lemma SetRunKeeps(cfg: Config, s: System, s0: System, d: nat, c: string, phase: RunPhase)
    requires DeliveriesInv(cfg, s0) && DispatchedInv(s0)
    requires s == s0.(inbox := s.inbox)
    requires forall k <- s0.inbox :: s0.inbox[k].complete ==> k in s.inbox && s.inbox[k] == s0.inbox[k]
    requires RunAt(s0, d, c, Waiting) || RunAt(s0, d, c, Holding)
    requires phase.Succeeded? ==> ConsumedIn(s, c, s0.deliveries[d].id) && s.inbox[(c, s0.deliveries[d].id)].owner == d
    requires phase.Duplicate? ==> ConsumedIn(s, c, s0.deliveries[d].id)
    ensures DeliveriesInv(cfg, SetRun(s, d, c, phase)) && DispatchedInv(SetRun(s, d, c, phase))
  {
    var s' := SetRun(s, d, c, phase);
    assert !AllConsumed(s0.deliveries[d]);
    forall e | 0 <= e < |s'.deliveries| ensures RunsRecorded(s', e) {
      assert RunsRecorded(s0, e);
    }
    forall id <- s'.outbox | SlotStatus(s'.outbox[id]).Dispatched? ensures CompletionJustified(s', id) {
      assert CompletionJustified(s0, id);
      assert s0.completedBy[id] != d;
    }
  }

  /** Only completing a row dispatches it. */
  lemma OutboxCallDispatches(s: System, id: string, op: RowOp)
    requires CallOutbox(s, id, op).Some?
    ensures var s' := CallOutbox(s, id, op).value;
            && s' == s.(outbox := s'.outbox) && s'.outbox.Keys == s.outbox.Keys
            && (forall k <- s'.outbox :: k != id ==> s'.outbox[k] == s.outbox[k])
            && (!op.Complete? && SlotStatus(s'.outbox[id]).Dispatched? ==> SlotStatus(s.outbox[id]).Dispatched?)
  {
  }

  /** The deliveries differ only in the phase of one of them, and the inbox is the same. */
  lemma PhaseKeeps(cfg: Config, s: System, s': System, d: nat, phase: Phase)
    requires DeliveriesInv(cfg, s) && d < |s.deliveries|
    requires phase.Delivered? ==> AllConsumed(s.deliveries[d])
    requires s'.inbox == s.inbox && s'.forgotten == s.forgotten
    requires s'.deliveries == s.deliveries[d := s.deliveries[d].(phase := phase)]
    ensures DeliveriesInv(cfg, s')
  {
    forall e | 0 <= e < |s'.deliveries| ensures RunsRecorded(s', e) {
      assert RunsRecorded(s, e);
    }
  }

  lemma SameDeliveriesKeep(cfg: Config, s: System, s': System)
    requires DeliveriesInv(cfg, s) && s'.deliveries == s.deliveries
             && s'.forgotten == s.forgotten && s'.inbox == s.inbox
    ensures DeliveriesInv(cfg, s')
  {
    forall e | 0 <= e < |s'.deliveries| ensures RunsRecorded(s', e) {
      assert RunsRecorded(s, e);
    }
  }

  lemma ForgetKeeps(cfg: Config, s: System, s': System, id: string)
    requires DeliveriesInv(cfg, s) && s'.deliveries == s.deliveries
    requires s'.inbox == ForgetEvent(s, id).inbox && s'.forgotten == ForgetEvent(s, id).forgotten
    ensures DeliveriesInv(cfg, s')
  {
    forall e | 0 <= e < |s'.deliveries| ensures RunsRecorded(s', e) {
      assert RunsRecorded(s, e);
    }
  }

  /** Completions stay justified when deliveries are only added or change phase. */
  lemma JustifiedKeeps(s: System, s': System, id: string)
    requires CompletionJustified(s, id)
    requires id in s'.completedBy && s'.completedBy[id] == s.completedBy[id]
    requires |s.deliveries| <= |s'.deliveries|
    requires forall e :: 0 <= e < |s.deliveries| ==>
             s'.deliveries[e] == s.deliveries[e].(phase := s'.deliveries[e].phase)
    ensures CompletionJustified(s', id)
  {
  }

  lemma DispatchedKeeps(s: System, s': System)
    requires DispatchedInv(s)
    requires forall id <- s'.outbox :: SlotStatus(s'.outbox[id]).Dispatched? ==>
                                         id in s.outbox && SlotStatus(s.outbox[id]).Dispatched?
    requires s'.completedBy == s.completedBy && |s.deliveries| <= |s'.deliveries|
    requires forall e :: 0 <= e < |s.deliveries| ==>
             s'.deliveries[e] == s.deliveries[e].(phase := s'.deliveries[e].phase)
    ensures DispatchedInv(s')
  {
    forall id <- s'.outbox | SlotStatus(s'.outbox[id]).Dispatched? ensures CompletionJustified(s', id) {
      JustifiedKeeps(s, s', id);
    }
  }

  lemma StoreStepKeeps(cfg: Config, s: System, call: StoreCall)
    requires DeliveriesInv(cfg, s) && DispatchedInv(s) && !call.ClaimDue?
    ensures DeliveriesInv(cfg, StoreNext(cfg, s, call)) && DispatchedInv(StoreNext(cfg, s, call))
  {
    var s' := StoreNext(cfg, s, call);
    if s' != s {
      match call
      case Append(id, etype, bound, availableAt, expiry, now) =>
        SameDeliveriesKeep(cfg, s, s');
      case CancelScheduled(id, now) =>
        OutboxCallDispatches(s, id, Cancel(now));
        SameDeliveriesKeep(cfg, s, s');
      case RetryDeadLetter(id, now) =>
        OutboxCallDispatches(s, id, RetryDead(now));
        SameDeliveriesKeep(cfg, s, s');
      case Replay(id, now, cleaned) =>
        OutboxCallDispatches(s, id, Reset(now));
        if cleaned { ForgetKeeps(cfg, s, s', id); } else { SameDeliveriesKeep(cfg, s, s'); }
      case Purge(id, now) =>
        ForgetKeeps(cfg, s, s', id);
      DispatchedKeeps(s, s');
    }
  }

  lemma ClaimStepKeeps(cfg: Config, s: System, call: StoreCall)
    requires DeliveriesInv(cfg, s) && DispatchedInv(s) && call.ClaimDue?
    ensures DeliveriesInv(cfg, StoreNext(cfg, s, call)) && DispatchedInv(StoreNext(cfg, s, call))
  {
    hide SlotStep, SlotGeneration, SlotBound, SlotAttempts;
    var s' := StoreNext(cfg, s, call);
    if s' != s {
      OutboxCallDispatches(s, call.id, Claim(call.now, call.worker, call.leaseMs));
      forall e | 0 <= e < |s'.deliveries| ensures RunsRecorded(s', e) {
        if e < |s.deliveries| {
          assert RunsRecorded(s, e);
        }
      }
      DispatchedKeeps(s, s');
    }
  }

  /** A busy or duplicate answer changes nothing, and a duplicate means completed. */
  lemma InboxClaimAnswers(s: System, c: string, id: string, d: nat, expiresAt: int, now: int)
    ensures var (reply, next) := CallInbox(s, (c, id), Inbox.Claim(d, expiresAt, now));
            && (reply.Claimed? || reply.Duplicate? || reply.Busy?)
            && (!reply.Claimed? ==> next == s)
            && (reply.Duplicate? ==> ConsumedIn(s, c, id))
  {
    var (reply, next) := CallInbox(s, (c, id), Inbox.Claim(d, expiresAt, now));
    if !reply.Claimed? {
      assert next.inbox == s.inbox[(c, id) := s.inbox[(c, id)]] == s.inbox;
    }
  }

  lemma InboxClaimKeeps(cfg: Config, s: System, d: nat, c: string, now: int, received: bool)
    requires DeliveriesInv(cfg, s) && DispatchedInv(s) && RunAt(s, d, c, Waiting)
    ensures var s' := ConsumerNext(s, d, c, InboxClaim(now, received)); DeliveriesInv(cfg, s') && DispatchedInv(s')
  {
    var id := s.deliveries[d].id;
    InboxCallKeeps(s, (c, id), Inbox.Claim(d, now + 30_000, now));
    InboxClaimAnswers(s, c, id, d, now + 30_000, now);
    var (reply, next) := CallInbox(s, (c, id), Inbox.Claim(d, now + 30_000, now));
    var phase := if !received then RunFailed else if reply.Claimed? then Holding else Duplicate;
    if !received || !reply.Busy? {
      SetRunKeeps(cfg, next, s, d, c, phase);
      assert ConsumerNext(s, d, c, InboxClaim(now, received)) == SetRun(next, d, c, phase);
    }
  }

  lemma InboxRenewKeeps(cfg: Config, s: System, d: nat, c: string, leaseUntil: int)
    requires DeliveriesInv(cfg, s) && DispatchedInv(s) && RunAt(s, d, c, Holding)
    ensures var s' := ConsumerNext(s, d, c, InboxRenew(leaseUntil)); DeliveriesInv(cfg, s') && DispatchedInv(s')
  {
    var s' := ConsumerNext(s, d, c, InboxRenew(leaseUntil));
    InboxCallKeeps(s, (c, s.deliveries[d].id), Inbox.Renew(d, leaseUntil));
    SetRunKeeps(cfg, s', s, d, c, Holding);
    assert s.deliveries[d].runs[c := Holding] == s.deliveries[d].runs;
    assert SetRun(s', d, c, Holding) == s';
  }

  lemma InboxCompleteKeeps(cfg: Config, s: System, d: nat, c: string, received: bool)
    requires DeliveriesInv(cfg, s) && DispatchedInv(s) && RunAt(s, d, c, Holding)
    ensures var s' := ConsumerNext(s, d, c, InboxComplete(received)); DeliveriesInv(cfg, s') && DispatchedInv(s')
  {
    var key := (c, s.deliveries[d].id);
    InboxCallKeeps(s, key, Inbox.Complete(d));
    var (reply, next) := CallInbox(s, key, Inbox.Complete(d));
    if received && reply.Yes? {
      SetRunKeeps(cfg, next, s, d, c, Succeeded);
    } else {
      InboxCallKeeps(next, key, Inbox.Release(d));
      SetRunKeeps(cfg, CallInbox(next, key, Inbox.Release(d)).1, s, d, c, RunFailed);
    }
  }

  lemma FailRunKeeps(cfg: Config, s: System, d: nat, c: string)
    requires DeliveriesInv(cfg, s) && DispatchedInv(s) && (RunAt(s, d, c, Waiting) || RunAt(s, d, c, Holding))
    ensures var s' := ConsumerNext(s, d, c, FailRun); DeliveriesInv(cfg, s') && DispatchedInv(s')
  {
    if RunAt(s, d, c, Waiting) {
      SetRunKeeps(cfg, s, s, d, c, RunFailed);
    } else {
      var key := (c, s.deliveries[d].id);
      InboxCallKeeps(s, key, Inbox.Release(d));
      SetRunKeeps(cfg, CallInbox(s, key, Inbox.Release(d)).1, s, d, c, RunFailed);
    }
  }

  lemma ConsumerStepKeeps(cfg: Config, s: System, d: nat, c: string, call: ConsumerCall)
    requires DeliveriesInv(cfg, s) && DispatchedInv(s) && d < |s.deliveries|
    ensures DeliveriesInv(cfg, ConsumerNext(s, d, c, call)) && DispatchedInv(ConsumerNext(s, d, c, call))
  {
    match call
    case InboxClaim(now, received) =>
      if RunAt(s, d, c, Waiting) { InboxClaimKeeps(cfg, s, d, c, now, received); }
    case InboxRenew(leaseUntil) =>
      if RunAt(s, d, c, Holding) { InboxRenewKeeps(cfg, s, d, c, leaseUntil); }
    case InboxComplete(received) =>
      if RunAt(s, d, c, Holding) { InboxCompleteKeeps(cfg, s, d, c, received); }
    case FailRun =>
      if RunAt(s, d, c, Waiting) || RunAt(s, d, c, Holding) { FailRunKeeps(cfg, s, d, c); }
  }

  /** The delivery `d` completes its event and takes the credit for it. */
  lemma CreditedKeeps(s: System, s': System, d: nat)
    requires DispatchedInv(s) && d < |s.deliveries| == |s'.deliveries|
    requires AllConsumed(s.deliveries[d]) && (s.deliveries[d].bound || s.deliveries[d].runs != map[])
    requires forall e :: 0 <= e < |s.deliveries| ==>
               s'.deliveries[e] == s.deliveries[e].(phase := s'.deliveries[e].phase)
    requires s'.completedBy == s.completedBy[s.deliveries[d].id := d]
    requires forall k <- s'.outbox :: k != s.deliveries[d].id ==> k in s.outbox && s'.outbox[k] == s.outbox[k]
    ensures DispatchedInv(s')
  {
    hide AllConsumed, SlotStatus;
    var v, w := s.deliveries[d], s'.deliveries[d];
    assert AllConsumed(w) by { SameRuns(v, w); }
    forall k <- s'.outbox | SlotStatus(s'.outbox[k]).Dispatched? ensures CompletionJustified(s', k) {
      if k != v.id {
        SameRuns(s.deliveries[s.completedBy[k]], s'.deliveries[s.completedBy[k]]);
      }
    }
  }

  lemma SameRuns(v: Delivery, w: Delivery)
    requires v.runs == w.runs
    ensures AllConsumed(w) == AllConsumed(v)
  {
  }

  lemma ReadyIsConsumed(cfg: Config, s: System, d: nat)
    requires DeliveriesInv(cfg, s) && d < |s.deliveries| && ReadyToComplete(s.deliveries[d])
    ensures AllConsumed(s.deliveries[d]) && (s.deliveries[d].bound || s.deliveries[d].runs != map[])
  {
  }

  lemma CompleteStepKeeps(cfg: Config, s: System, d: nat, now: int, received: bool)
    requires DeliveriesInv(cfg, s) && DispatchedInv(s) && d < |s.deliveries|
    ensures DeliveriesInv(cfg, DeliveryNext(cfg, s, d, CompleteDelivery(now, received)))
    ensures DispatchedInv(DeliveryNext(cfg, s, d, CompleteDelivery(now, received)))
  {
    hide SlotStep, DeliveriesInv, DispatchedInv, ReadyToComplete, AllConsumed;
    var v := s.deliveries[d];
    var s' := DeliveryNext(cfg, s, d, CompleteDelivery(now, received));
    if ReadyToComplete(v) {
      ReadyIsConsumed(cfg, s, d);
      PhaseKeeps(cfg, s, s', d, s'.deliveries[d].phase);
      if CallOutbox(s, v.id, Complete(v.worker, v.generation, now)).Some? {
        OutboxCallDispatches(s, v.id, Complete(v.worker, v.generation, now));
        CreditedKeeps(s, s', d);
      } else {
        DispatchedKeeps(s, s');
      }
    }
  }

  /** The calls of a delivery other than completing its event dispatch nothing. */
  lemma DeliveryCallDispatches(cfg: Config, s: System, d: nat, call: DeliveryCall)
    requires d < |s.deliveries| && !call.CompleteDelivery?
    ensures var s' := DeliveryNext(cfg, s, d, call);
            && s'.completedBy == s.completedBy
            && forall id <- s'.outbox ::
                 SlotStatus(s'.outbox[id]).Dispatched? ==> id in s.outbox && SlotStatus(s.outbox[id]).Dispatched?
  {
    hide SlotStep, Backoff, ReadyToComplete, AllConsumed, Settled, Delivering;
    var s' := DeliveryNext(cfg, s, d, call);
    var v := s.deliveries[d];
    if s'.outbox != s.outbox {
      OutboxCallDispatches(s, v.id, match call
        case RenewLease(leaseUntil, now) => Renew(v.worker, v.generation, leaseUntil, now)
        case Poison(code, now) => DeadLetter(v.worker, v.generation, code, now)
        case SettleFailure(permanent, retryAfter, code, now) => SettleOp(cfg, v, permanent, retryAfter, code, now)
        case _ => Reset(0));
    }
  }

  lemma DeliveryCallFrame(cfg: Config, s: System, d: nat, call: DeliveryCall)
    requires d < |s.deliveries|
    ensures var s' := DeliveryNext(cfg, s, d, call); s'.inbox == s.inbox && s'.forgotten == s.forgotten
  {
    hide SlotStep, SettleOp, ReadyToComplete, AllConsumed, Settled, Delivering;
  }

  lemma DeliveryCallPhase(cfg: Config, s: System, d: nat, call: DeliveryCall)
    requires d < |s.deliveries|
    ensures var s' := DeliveryNext(cfg, s, d, call);
            && s'.deliveries == s.deliveries[d := s.deliveries[d].(phase := s'.deliveries[d].phase)]
            && (s'.deliveries[d].phase.Delivered? ==> s.deliveries[d].phase.Delivered? || AllConsumed(s.deliveries[d]))
  {
    hide SlotStep, SettleOp, ReadyToComplete, AllConsumed, Settled, Delivering;
    assert s.deliveries[d := s.deliveries[d]] == s.deliveries;
  }

  lemma DeliveryStepKeeps(cfg: Config, s: System, d: nat, call: DeliveryCall)
    requires DeliveriesInv(cfg, s) && DispatchedInv(s) && d < |s.deliveries| && !call.CompleteDelivery?
    ensures DeliveriesInv(cfg, DeliveryNext(cfg, s, d, call)) && DispatchedInv(DeliveryNext(cfg, s, d, call))
  {
    hide DeliveryNext, DispatchedInv;
    var s' := DeliveryNext(cfg, s, d, call);
    DeliveryCallDispatches(cfg, s, d, call);
    DeliveryCallFrame(cfg, s, d, call);
    DeliveryCallPhase(cfg, s, d, call);
    PhaseKeeps(cfg, s, s', d, s'.deliveries[d].phase);
    DispatchedKeeps(s, s');
  }

  lemma {:induction false} EveryRunKeeps(cfg: Config, steps: seq<Step>)
    ensures DeliveriesInv(cfg, Run(cfg, steps)) && DispatchedInv(Run(cfg, steps))
  {
    if steps != [] {
      var front, step := steps[..|steps| - 1], steps[|steps| - 1];
      EveryRunKeeps(cfg, front);
      var s := Run(cfg, front);
      match step
      case AtStore(call) =>
        if call.ClaimDue? { ClaimStepKeeps(cfg, s, call); } else { StoreStepKeeps(cfg, s, call); }
      case AtConsumer(d, c, call) =>
        if d < |s.deliveries| { ConsumerStepKeeps(cfg, s, d, c, call); }
      case AtDelivery(d, call) =>
        if d < |s.deliveries| {
          if call.CompleteDelivery? { CompleteStepKeeps(cfg, s, d, call.now, call.received); }
          else { DeliveryStepKeeps(cfg, s, d, call); }
        }
    }
  }

  /** The step may forget what was consumed of the event. */
  predicate Clears(step: Step, id: string) {
    step.AtStore? && (step.store.Replay? || step.store.Purge?) && step.store.id == id
  }

  ghost predicate Unforgotten(s: System, id: string) {
    forall p <- s.forgotten :: p.0 < |s.deliveries| && s.deliveries[p.0].id != id
  }

  lemma StoreForgets(cfg: Config, s: System, call: StoreCall, id: string)
    requires Unforgotten(s, id) && !Clears(AtStore(call), id)
    ensures Unforgotten(StoreNext(cfg, s, call), id)
  {
    hide SlotStep, NewSlot, Purgeable, Begin;
  }

  lemma ConsumerForgets(s: System, d: nat, c: string, call: ConsumerCall, id: string)
    requires Unforgotten(s, id) && d < |s.deliveries|
    ensures Unforgotten(ConsumerNext(s, d, c, call), id)
  {
  }

  lemma {:induction false} NothingForgotten(cfg: Config, steps: seq<Step>, id: string)
    requires forall i :: 0 <= i < |steps| ==> !Clears(steps[i], id)
    ensures Unforgotten(Run(cfg, steps), id)
  {
    hide StoreNext, ConsumerNext, DeliveryNext;
    if steps != [] {
      var front, step := steps[..|steps| - 1], steps[|steps| - 1];
      NothingForgotten(cfg, front, id);
      var s := Run(cfg, front);
      assert !Clears(step, id);
      match step
      case AtStore(call) => StoreForgets(cfg, s, call, id);
      case AtConsumer(d, c, call) => if d < |s.deliveries| { ConsumerForgets(s, d, c, call, id); }
      case AtDelivery(d, call) =>
        if d < |s.deliveries| {
          DeliveryCallFrame(cfg, s, d, call);
          DeliveryCallPhase(cfg, s, d, call);
        }
    }
  }

  /** The outbox accepts the completion that this delivery asks for. */
  ghost predicate CompletionAccepted(s: System, d: nat, now: int) {
    && d < |s.deliveries| && ReadyToComplete(s.deliveries[d])
    && CallOutbox(s, s.deliveries[d].id, Complete(s.deliveries[d].worker, s.deliveries[d].generation, now)).Some?
  }

  /** Main theorem. Whenever the outbox accepts a completion, every consumer that the worker
      registered for the type has a completed inbox entry, provided no replay or purge forgot
      the event after that consumer's run had ended. */
  lemma CompletionMeansConsumed(cfg: Config, steps: seq<Step>, d: nat, now: int, c: string)
    requires CompletionAccepted(Run(cfg, steps), d, now)
    requires (d, c) !in Run(cfg, steps).forgotten
    requires c in cfg.matching(Run(cfg, steps).deliveries[d].worker, Run(cfg, steps).deliveries[d].etype)
    ensures ConsumedIn(Run(cfg, steps), c, Run(cfg, steps).deliveries[d].id)
  {
    EveryRunKeeps(cfg, steps);
    assert RunsRecorded(Run(cfg, steps), d);
  }

  /** A dispatched event was routed somewhere and completed by a delivery all of whose consumers have consumed it, but
      for those whose consumption was forgotten; if no replay or purge named the event, there are none of these. */
  lemma DispatchedMeansConsumed(cfg: Config, steps: seq<Step>, id: string)
    requires id in Run(cfg, steps).outbox && SlotStatus(Run(cfg, steps).outbox[id]).Dispatched?
    ensures var s := Run(cfg, steps);
            && id in s.completedBy && s.completedBy[id] < |s.deliveries|
            && var d := s.completedBy[id];
               var v := s.deliveries[d];
               && v.id == id && (v.bound || cfg.matching(v.worker, v.etype) != {})
               && (forall c :: c in cfg.matching(v.worker, v.etype) && (d, c) !in s.forgotten ==> ConsumedIn(s, c, id))
               && ((forall i :: 0 <= i < |steps| ==> !Clears(steps[i], id)) ==>
                     forall c :: c in cfg.matching(v.worker, v.etype) ==> ConsumedIn(s, c, id))
  {
    EveryRunKeeps(cfg, steps);
    var s := Run(cfg, steps);
    assert CompletionJustified(s, id);
    assert RunsRecorded(s, s.completedBy[id]);
    var v := s.deliveries[s.completedBy[id]];
    assert v.runs.Keys == cfg.matching(v.worker, v.etype);
    if v.runs != map[] {
      assert exists c :: c in v.runs.Keys;
    }
    if forall i :: 0 <= i < |steps| ==> !Clears(steps[i], id) {
      NothingForgotten(cfg, steps, id);
    }
  }

  /** Each consumer succeeds at most once per event: two deliveries of an event never both report
      success for the same consumer, unless a replay or purge forgot one of the successes. */
  lemma ConsumerSucceedsOnce(cfg: Config, steps: seq<Step>, d: nat, e: nat, c: string)
    requires var s := Run(cfg, steps);
             && d < |s.deliveries| && e < |s.deliveries| && (d, c) !in s.forgotten && (e, c) !in s.forgotten
             && s.deliveries[d].id == s.deliveries[e].id
             && c in s.deliveries[d].runs && s.deliveries[d].runs[c].Succeeded?
             && c in s.deliveries[e].runs && s.deliveries[e].runs[c].Succeeded?
    ensures d == e
  {
    EveryRunKeeps(cfg, steps);
    assert RunsRecorded(Run(cfg, steps), d) && RunsRecorded(Run(cfg, steps), e);
  }
}

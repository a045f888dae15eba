/** Exactly when an inbox entry is complete: when the last thing that completed or forgot it completed it. */
module ConsumptionHistory {
  import opened Collections
  import opened OutboxRows
  import opened DeliveryProtocol
  import opened DeliverySafety
  import Inbox

  /** The step carries out an accepted `complete` on the entry. */
  predicate Completes(s: System, step: Step, c: string, id: string) {
    && step.AtConsumer? && step.consumer.InboxComplete? && step.c == c
    && RunAt(s, step.d, c, Holding) && s.deliveries[step.d].id == id
    && (c, id) in s.inbox && s.inbox[(c, id)].owner == step.d
  }

  /** The step is an accepted replay or purge of the event that deletes its entries. */
  predicate Forgets(s: System, step: Step, id: string) {
    && step.AtStore?
    && match step.store
       case Replay(i, now, cleaned) => cleaned && i == id && CallOutbox(s, i, Reset(now)).Some?
       case Purge(i, now) => i == id && i in s.outbox && Purgeable(s.outbox[i], now)
       case _ => false
  }

  /** Whether the last step that completed or forgot the entry completed it. */
  ghost predicate LastCompleted(cfg: Config, steps: seq<Step>, c: string, id: string) {
    steps != [] &&
    var front, step := steps[..|steps| - 1], steps[|steps| - 1];
    || Completes(Run(cfg, front), step, c, id)
    || (!Forgets(Run(cfg, front), step, id) && LastCompleted(cfg, front, c, id))
  }

  lemma StoreMarks(cfg: Config, s: System, call: StoreCall, c: string, id: string)
    ensures ConsumedIn(StoreNext(cfg, s, call), c, id) <==> !Forgets(s, AtStore(call), id) && ConsumedIn(s, c, id)
  {
    hide SlotStep, Begin;
  }

  lemma InboxMarks(s: System, key: Inbox.Key, op: Inbox.InboxOp<nat>, c: string, id: string)
    requires !op.Forget?
    ensures CallInbox(s, key, op).1.deliveries == s.deliveries
    ensures ConsumedIn(CallInbox(s, key, op).1, c, id)
            <==>
            ConsumedIn(s, c, id) || (key == (c, id) && op.Complete? && key in s.inbox && s.inbox[key].owner == op.owner)
  {
  }

  lemma SetRunMarks(s: System, d: nat, run: string, phase: RunPhase, c: string, id: string)
    requires d < |s.deliveries|
    ensures ConsumedIn(SetRun(s, d, run, phase), c, id) == ConsumedIn(s, c, id)
  {
  }

  lemma ConsumerMarks(s: System, d: nat, run: string, call: ConsumerCall, c: string, id: string)
    requires d < |s.deliveries|
    ensures ConsumedIn(ConsumerNext(s, d, run, call), c, id)
            <==> Completes(s, AtConsumer(d, run, call), c, id) || ConsumedIn(s, c, id)
  {
    hide CallInbox, ConsumedIn, SetRun;
    var key := (run, s.deliveries[d].id);
    match call
    case InboxClaim(now, received) =>
      var (reply, next) := CallInbox(s, key, Inbox.Claim(d, now + 30_000, now));
      InboxMarks(s, key, Inbox.Claim(d, now + 30_000, now), c, id);
      SetRunMarks(next, d, run, RunFailed, c, id);
      SetRunMarks(next, d, run, Holding, c, id);
      SetRunMarks(next, d, run, Duplicate, c, id);
    case InboxRenew(leaseUntil) => InboxMarks(s, key, Inbox.Renew(d, leaseUntil), c, id);
    case InboxComplete(received) =>
      var next := CallInbox(s, key, Inbox.Complete(d)).1;
      InboxMarks(s, key, Inbox.Complete(d), c, id);
      InboxMarks(next, key, Inbox.Release(d), c, id);
      SetRunMarks(next, d, run, Succeeded, c, id);
      SetRunMarks(CallInbox(next, key, Inbox.Release(d)).1, d, run, RunFailed, c, id);
    case FailRun =>
      InboxMarks(s, key, Inbox.Release(d), c, id);
      SetRunMarks(s, d, run, RunFailed, c, id);
      SetRunMarks(CallInbox(s, key, Inbox.Release(d)).1, d, run, RunFailed, c, id);
  }

  lemma StepMarks(cfg: Config, s: System, step: Step, c: string, id: string)
    ensures ConsumedIn(Next(cfg, s, step), c, id)
            <==> Completes(s, step, c, id) || (!Forgets(s, step, id) && ConsumedIn(s, c, id))
  {
    hide StoreNext, ConsumerNext, DeliveryNext, ConsumedIn;
    match step
    case AtStore(call) => StoreMarks(cfg, s, call, c, id);
    case AtConsumer(d, run, call) => if d < |s.deliveries| { ConsumerMarks(s, d, run, call, c, id); }
    case AtDelivery(d, call) => if d < |s.deliveries| { DeliveryMarks(cfg, s, d, call, c, id); }
  }

  lemma DeliveryMarks(cfg: Config, s: System, d: nat, call: DeliveryCall, c: string, id: string)
    requires d < |s.deliveries|
    ensures ConsumedIn(DeliveryNext(cfg, s, d, call), c, id) == ConsumedIn(s, c, id)
  {
    hide DeliveryNext;
    DeliveryCallFrame(cfg, s, d, call);
  }

  /** In every run an entry is complete exactly when it was completed and not forgotten since. */
  lemma {:induction false} ConsumedExactly(cfg: Config, steps: seq<Step>, c: string, id: string)
    ensures ConsumedIn(Run(cfg, steps), c, id) <==> LastCompleted(cfg, steps, c, id)
  {
    hide Next, Completes, Forgets;
    if steps != [] {
      ConsumedExactly(cfg, steps[..|steps| - 1], c, id);
      StepMarks(cfg, Run(cfg, steps[..|steps| - 1]), steps[|steps| - 1], c, id);
    } else {
      NothingConsumed(cfg, c, id);
    }
  }

  lemma NothingConsumed(cfg: Config, c: string, id: string)
    ensures !ConsumedIn(Run(cfg, []), c, id)
  {
  }

  /** What a replay or purge can undo. At the moment the outbox accepts a completion, the consumption of a consumer
      that the worker registered still stands if its run was not forgotten; if it was, it stands exactly when some
      delivery has completed the entry again since. */
  lemma CompletionStandsExactly(cfg: Config, steps: seq<Step>, d: nat, now: int, c: string)
    requires CompletionAccepted(Run(cfg, steps), d, now)
    requires c in cfg.matching(Run(cfg, steps).deliveries[d].worker, Run(cfg, steps).deliveries[d].etype)
    ensures var s := Run(cfg, steps); var id := s.deliveries[d].id;
            && (ConsumedIn(s, c, id) <==> LastCompleted(cfg, steps, c, id))
            && ((d, c) !in s.forgotten ==> LastCompleted(cfg, steps, c, id))
  {
    ConsumedExactly(cfg, steps, c, Run(cfg, steps).deliveries[d].id);
    if (d, c) !in Run(cfg, steps).forgotten { CompletionMeansConsumed(cfg, steps, d, now, c); }
  }
}

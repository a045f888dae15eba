/** When an event is claimed, told from what was asked of the store: the last append, retry or replay says from when
    on it may be, the append says until when, and the last claim or renewal says how long somebody else has it. */
module ClaimTiming {
  import opened Collections
  import opened OutboxRows
  import opened DeliveryProtocol
  import BoundedRetries

  /** The delays of the first retry and the following ones, in milliseconds. */
  const DELAYS: seq<int> := [250, 500, 1_000, 2_000, 4_000, 8_000, 16_000, 32_000, 64_000]

  /** How long a retry is put off: a delivery that failed at its n-th attempt waits for the n-th delay, or for as long
      as the failure asks for, but never for more than a minute. */
  function Wait(attempts: nat, retryAfter: int): int {
    var own := DELAYS[if attempts == 0 then 0 else if attempts > 8 then 8 else attempts - 1];
    var asked := if retryAfter > own then retryAfter else own;
    if asked > 60_000 then 60_000 else asked
  }

  /** The time from which on the last accepted append, retry or replay made the event available. */
  ghost function AvailableFrom(cfg: Config, steps: seq<Step>, id: string): int {
    if steps == [] then 0
    else
      var front, step := steps[..|steps| - 1], steps[|steps| - 1];
      var s, t, before := Run(cfg, front), Run(cfg, steps), AvailableFrom(cfg, front, id);
      match step
      case AtStore(Append(i, _, _, availableAt, _, _)) => if i == id && id !in s.outbox then availableAt else before
      case AtStore(RetryDeadLetter(i, now)) =>
        if i == id && CallOutbox(s, i, RetryDead(now)).Some? then now else before
      case AtStore(Replay(i, now, _)) => if i == id && CallOutbox(s, i, Reset(now)).Some? then now else before
      case AtDelivery(d, SettleFailure(_, retryAfter, _, now)) =>
        if d < |s.deliveries| == |t.deliveries| && s.deliveries[d].id == id
           && !s.deliveries[d].phase.Retried? && t.deliveries[d].phase.Retried?
        then now + Wait(s.deliveries[d].attempts, retryAfter) else before
      case _ => before
  }

  /** When the event expires, if it does: what its last accepted append said. */
  ghost function Expiry(cfg: Config, steps: seq<Step>, id: string): Option<int> {
    if steps == [] then None
    else
      var front, step := steps[..|steps| - 1], steps[|steps| - 1];
      match step
      case AtStore(Append(i, _, _, _, expiry, _)) =>
        if i == id && id !in Run(cfg, front).outbox then expiry else Expiry(cfg, front, id)
      case _ => Expiry(cfg, front, id)
  }

  /** The end of the last lease that a claim or a renewal was granted. */
  ghost function LeaseEnd(cfg: Config, steps: seq<Step>, id: string): int {
    if steps == [] then 0
    else
      var front, step := steps[..|steps| - 1], steps[|steps| - 1];
      var s, before := Run(cfg, front), LeaseEnd(cfg, front, id);
      match step
      case AtStore(ClaimDue(worker, i, now, leaseMs, _)) =>
        if i == id && CallOutbox(s, i, Claim(now, worker, leaseMs)).Some? then now + leaseMs else before
      case AtDelivery(d, RenewLease(leaseUntil, now)) =>
        if Renews(s, d, leaseUntil, now, id) then leaseUntil else before
      case _ => before
  }

  predicate Renews(s: System, d: nat, leaseUntil: int, now: int, id: string) {
    && Delivering(s, d) && s.deliveries[d].id == id
    && CallOutbox(s, id, Renew(s.deliveries[d].worker, s.deliveries[d].generation, leaseUntil, now)).Some?
  }

  // ------------------------------------------------------------ what is stored

  function SlotAvailable(x: Slot): int {
    match x
    case MemorySlot(r) => r.availableAt
    case PostgresSlot(_, _, r) => if r.nextAttemptAt.Some? then r.nextAttemptAt.value else r.createdAt
  }

  function SlotExpiry(x: Slot): Option<int> { if x.MemorySlot? then x.record.expiresAt else x.row.expiresAt }

  predicate LeasedUntil(x: Slot, until: int) {
    match x
    case MemorySlot(r) => r.lease.Some? && r.lease.value.expiresAt == until
    case PostgresSlot(_, _, r) => r.processingBy.Some? && r.processingStartedAt == Some(until)
  }

  predicate Shaped(backend: Backend, x: Slot) {
    match x
    case MemorySlot(r) => backend.Memory? && (r.status.Dispatching? <==> r.lease.Some?)
    case PostgresSlot(_, _, r) => backend.Postgres? && (r.status.Dispatching? <==> r.processingBy.Some?)
  }

  /** The slot holds what the history says. */
  predicate Told(backend: Backend, x: Slot, available: int, expiry: Option<int>, until: int) {
    && Shaped(backend, x) && SlotAvailable(x) == available && SlotExpiry(x) == expiry
    && (SlotStatus(x).Dispatching? ==> LeasedUntil(x, until))
  }

  /** What a granted call makes of the three times. */
  lemma CallTold(backend: Backend, x: Slot, op: RowOp, available: int, expiry: Option<int>, until: int)
    requires Told(backend, x, available, expiry, until) && SlotStep(x, op).Some?
    ensures Told(backend, SlotStep(x, op).value,
                 match op
                 case Retry(_, _, availableAt, _, _) => availableAt
                 case Reset(now) => now
                 case RetryDead(now) => now
                 case _ => available,
                 expiry,
                 match op
                 case Claim(now, _, leaseMs) => now + leaseMs
                 case Renew(_, _, expiresAt, _) => expiresAt
                 case _ => until)
  {
  }

  lemma NewTold(backend: Backend, id: string, etype: string, bound: bool, availableAt: int, expiry: Option<int>,
                now: int, until: int)
    ensures Told(backend, NewSlot(backend, id, etype, bound, availableAt, expiry, now), availableAt, expiry, until)
  {
  }

  // ------------------------------------------------------------------- runs

  ghost predicate ToldAt(cfg: Config, steps: seq<Step>, id: string) {
    id in Run(cfg, steps).outbox ==>
      Told(cfg.backend, Run(cfg, steps).outbox[id], AvailableFrom(cfg, steps, id), Expiry(cfg, steps, id),
           LeaseEnd(cfg, steps, id))
  }

  lemma TimesNext(cfg: Config, front: seq<Step>, step: Step, id: string)
    ensures Run(cfg, front + [step]) == Next(cfg, Run(cfg, front), step)
  {
    assert (front + [step])[..|front|] == front;
  }

  lemma StoreTold(cfg: Config, front: seq<Step>, call: StoreCall, id: string)
    requires ToldAt(cfg, front, id)
    ensures ToldAt(cfg, front + [AtStore(call)], id)
  {
    hide Told, SlotStep, Begin, NewSlot, Run;
    var steps, s := front + [AtStore(call)], Run(cfg, front);
    assert steps[..|front|] == front;
    TimesNext(cfg, front, AtStore(call), id);
    match call {
      case Append(i, etype, bound, availableAt, expiry, now) =>
        if i == id && id !in s.outbox {
          NewTold(cfg.backend, id, etype, bound, availableAt, expiry, now, LeaseEnd(cfg, front, id));
        }
      case ClaimDue(worker, i, now, leaseMs, _) => SlotTold(cfg, front, i, Claim(now, worker, leaseMs), id);
      case CancelScheduled(i, now) => SlotTold(cfg, front, i, Cancel(now), id);
      case RetryDeadLetter(i, now) => SlotTold(cfg, front, i, RetryDead(now), id);
      case Replay(i, now, _) => SlotTold(cfg, front, i, Reset(now), id);
      case Purge(_, _) =>
    }
  }

  lemma SlotTold(cfg: Config, front: seq<Step>, i: string, op: RowOp, id: string)
    requires ToldAt(cfg, front, id)
    ensures var s := Run(cfg, front);
            i == id && id in s.outbox && SlotStep(s.outbox[id], op).Some? ==>
              Told(cfg.backend, SlotStep(s.outbox[id], op).value,
                   match op
                   case Retry(_, _, availableAt, _, _) => availableAt
                   case Reset(now) => now
                   case RetryDead(now) => now
                   case _ => AvailableFrom(cfg, front, id),
                   Expiry(cfg, front, id),
                   match op
                   case Claim(now, _, leaseMs) => now + leaseMs
                   case Renew(_, _, expiresAt, _) => expiresAt
                   case _ => LeaseEnd(cfg, front, id))
  {
    hide Told, SlotStep, Run;
    var s := Run(cfg, front);
    if i == id && id in s.outbox && SlotStep(s.outbox[id], op).Some? {
      CallTold(cfg.backend, s.outbox[id], op, AvailableFrom(cfg, front, id), Expiry(cfg, front, id),
               LeaseEnd(cfg, front, id));
    }
  }

  lemma ConsumerTold(cfg: Config, front: seq<Step>, d: nat, c: string, call: ConsumerCall, id: string)
    requires ToldAt(cfg, front, id)
    ensures ToldAt(cfg, front + [AtConsumer(d, c, call)], id)
  {
    hide Told, ConsumerNext, Run;
    var steps, s := front + [AtConsumer(d, c, call)], Run(cfg, front);
    assert steps[..|front|] == front;
    TimesNext(cfg, front, AtConsumer(d, c, call), id);
    if d < |s.deliveries| { BoundedRetries.ConsumerFrame(s, d, c, call); }
  }

  lemma WaitIsBackoff(attempts: nat, retryAfter: int)
    requires attempts >= 1
    ensures Wait(attempts, retryAfter) == Backoff(attempts, retryAfter)
  {
    assert Power2(4) == 16 by { assert Power2(2) == 4; }
    assert Power2(8) == 256 by { assert Power2(6) == 64; }
    assert Power2(3) == 8 && Power2(5) == 32 && Power2(7) == 128;
  }

  /** A delivery carries the number of the attempt it is. */
  ghost predicate Attempted(s: System) { forall d | 0 <= d < |s.deliveries| :: s.deliveries[d].attempts >= 1 }

  lemma ClaimAttempts(s: System, call: StoreCall)
    requires call.ClaimDue? && CallOutbox(s, call.id, Claim(call.now, call.worker, call.leaseMs)).Some?
    ensures SlotAttempts(CallOutbox(s, call.id, Claim(call.now, call.worker, call.leaseMs)).value.outbox[call.id]) >= 1
  {
  }

  lemma StoreAttempted(cfg: Config, s: System, call: StoreCall)
    requires Attempted(s)
    ensures Attempted(StoreNext(cfg, s, call))
  {
    hide SlotStep, SlotAttempts;
    if call.ClaimDue? && CallOutbox(s, call.id, Claim(call.now, call.worker, call.leaseMs)).Some? {
      ClaimAttempts(s, call);
    }
  }

  lemma {:induction false} EveryDeliveryAttempted(cfg: Config, steps: seq<Step>)
    ensures Attempted(Run(cfg, steps))
  {
    hide StoreNext, ConsumerNext, DeliveryNext;
    if steps != [] {
      var front, step := steps[..|steps| - 1], steps[|steps| - 1];
      EveryDeliveryAttempted(cfg, front);
      var s := Run(cfg, front);
      match step
      case AtStore(call) => StoreAttempted(cfg, s, call);
      case AtConsumer(d, c, call) => if d < |s.deliveries| { BoundedRetries.ConsumerFrame(s, d, c, call); }
      case AtDelivery(d, call) => if d < |s.deliveries| { BoundedRetries.DeliveryFrame(cfg, s, d, call); }
    }
  }

  /** What a failure writes: a retry after the wait, or the end. */
  lemma FailureTold(cfg: Config, front: seq<Step>, d: nat, call: DeliveryCall, id: string)
    requires ToldAt(cfg, front, id) && call.SettleFailure? && d < |Run(cfg, front).deliveries|
    ensures ToldAt(cfg, front + [AtDelivery(d, call)], id)
  {
    hide Told, SlotStep, Run, Wait, Backoff;
    var steps, s := front + [AtDelivery(d, call)], Run(cfg, front);
    assert steps[..|front|] == front;
    TimesNext(cfg, front, AtDelivery(d, call), id);
    EveryDeliveryAttempted(cfg, front);
    var v := s.deliveries[d];
    WaitIsBackoff(v.attempts, call.retryAfter);
    SlotTold(cfg, front, v.id, SettleOp(cfg, v, call.permanent, call.retryAfter, call.code, call.now), id);
  }

  lemma OtherCallTold(cfg: Config, front: seq<Step>, d: nat, call: DeliveryCall, id: string)
    requires ToldAt(cfg, front, id) && !call.SettleFailure? && d < |Run(cfg, front).deliveries|
    ensures ToldAt(cfg, front + [AtDelivery(d, call)], id)
  {
    hide Told, SlotStep, Run, AllConsumed, Settled, ReadyToComplete;
    var steps, s := front + [AtDelivery(d, call)], Run(cfg, front);
    assert steps[..|front|] == front;
    TimesNext(cfg, front, AtDelivery(d, call), id);
    var v := s.deliveries[d];
    match call {
      case RenewLease(leaseUntil, now) =>
        SlotTold(cfg, front, v.id, Renew(v.worker, v.generation, leaseUntil, now), id);
      case Poison(code, now) => SlotTold(cfg, front, v.id, DeadLetter(v.worker, v.generation, code, now), id);
      case CompleteDelivery(now, _) => SlotTold(cfg, front, v.id, Complete(v.worker, v.generation, now), id);
      case Deliver =>
      case FailDelivery =>
    }
  }

  lemma {:induction false} EveryRunTold(cfg: Config, steps: seq<Step>, id: string)
    ensures ToldAt(cfg, steps, id)
  {
    hide ToldAt, Next;
    if steps == [] {
      assert id !in Run(cfg, steps).outbox;
      NothingTold(cfg, id);
    } else {
      var front, step := steps[..|steps| - 1], steps[|steps| - 1];
      assert steps == front + [step];
      EveryRunTold(cfg, front, id);
      match step
      case AtStore(call) => StoreTold(cfg, front, call, id);
      case AtConsumer(d, c, call) => ConsumerTold(cfg, front, d, c, call, id);
      case AtDelivery(d, call) =>
        if d >= |Run(cfg, front).deliveries| {
          NobodyTold(cfg, front, d, call, id);
        } else if call.SettleFailure? {
          FailureTold(cfg, front, d, call, id);
        } else {
          OtherCallTold(cfg, front, d, call, id);
        }
    }
  }

  lemma NothingTold(cfg: Config, id: string)
    ensures ToldAt(cfg, [], id)
  {
  }

  lemma NobodyTold(cfg: Config, front: seq<Step>, d: nat, call: DeliveryCall, id: string)
    requires ToldAt(cfg, front, id) && d >= |Run(cfg, front).deliveries|
    ensures ToldAt(cfg, front + [AtDelivery(d, call)], id)
  {
    hide Told;
    var steps := front + [AtDelivery(d, call)];
    assert steps[..|front|] == front;
    TimesNext(cfg, front, AtDelivery(d, call), id);
  }

  // ---------------------------------------------------------------- results

  /** When a claim is granted, exactly, on either backend and after every run: the event has not expired, and it either
      waits and its time has come, or is being delivered and its last granted lease is over. (At the very instant of
      that end memory grants the claim and Postgres does not.) */
  lemma ClaimsExactly(cfg: Config, steps: seq<Step>, id: string, worker: string, now: int, leaseMs: int)
    ensures var s := Run(cfg, steps);
            CallOutbox(s, id, Claim(now, worker, leaseMs)).Some?
            <==>
            && id in s.outbox
            && (Expiry(cfg, steps, id).Some? ==> now < Expiry(cfg, steps, id).value)
            && match SlotStatus(s.outbox[id])
               case Queued => AvailableFrom(cfg, steps, id) <= now
               case Failed => AvailableFrom(cfg, steps, id) <= now
               case Dispatching =>
                 LeaseEnd(cfg, steps, id) < now || (LeaseEnd(cfg, steps, id) == now && cfg.backend.Memory?)
               case _ => false
  {
    hide Run;
    EveryRunTold(cfg, steps, id);
  }

  /** The clocks of the workers agree well enough that no lease of the event is shortened. */
  ghost predicate LeasesExtend(cfg: Config, steps: seq<Step>, id: string) {
    steps == [] ||
    (var front, step := steps[..|steps| - 1], steps[|steps| - 1];
     && LeasesExtend(cfg, front, id)
     && (Grants(Run(cfg, front), step, id) ==> step.store.leaseMs >= 0)
     && (step.AtDelivery? && step.delivery.RenewLease?
         && Renews(Run(cfg, front), step.d, step.delivery.leaseUntil, step.delivery.now, id) ==>
           step.delivery.leaseUntil >= LeaseEnd(cfg, front, id)))
  }

  /** When a purge removes the event, exactly: it has expired, and no lease of it still runs. */
  lemma PurgesExactly(cfg: Config, steps: seq<Step>, id: string, now: int)
    ensures var s := Run(cfg, steps);
            id in s.outbox && id !in StoreNext(cfg, s, Purge(id, now)).outbox
            <==>
            && id in s.outbox
            && Expiry(cfg, steps, id).Some? && Expiry(cfg, steps, id).value <= now
            && !(SlotStatus(s.outbox[id]).Dispatching? && LeaseEnd(cfg, steps, id) > now)
  {
    hide Run;
    EveryRunTold(cfg, steps, id);
  }

  predicate Grants(s: System, step: Step, id: string) {
    && step.AtStore? && step.store.ClaimDue? && step.store.id == id
    && CallOutbox(s, id, Claim(step.store.now, step.store.worker, step.store.leaseMs)).Some?
  }

  lemma OnlyClaimsDispatch(x: Slot, op: RowOp)
    requires SlotStep(x, op).Some? && !op.Claim? && !op.Renew?
    ensures !SlotStatus(SlotStep(x, op).value).Dispatching?
  {
  }

  lemma RenewalsKeepStatus(x: Slot, op: RowOp)
    requires SlotStep(x, op).Some? && op.Renew?
    ensures SlotStatus(SlotStep(x, op).value) == SlotStatus(x)
  {
  }

  /** An event is being delivered because a claim or a renewal was just granted, or because it was before. */
  lemma DispatchingStays(cfg: Config, s: System, step: Step, id: string)
    requires var t := Next(cfg, s, step); id in t.outbox && SlotStatus(t.outbox[id]).Dispatching?
    ensures var t := Next(cfg, s, step);
            || Grants(s, step, id)
            || (step.AtDelivery? && step.delivery.RenewLease?
                && Renews(s, step.d, step.delivery.leaseUntil, step.delivery.now, id))
            || (id in s.outbox && t.outbox[id] == s.outbox[id])
  {
    hide SlotStep, SlotStatus, ConsumerNext, Begin, AllConsumed, Settled, ReadyToComplete, Backoff;
    match step {
      case AtConsumer(d, c, call) => if d < |s.deliveries| { BoundedRetries.ConsumerFrame(s, d, c, call); }
      case AtStore(call) => StoreDispatches(cfg, s, call, id);
      case AtDelivery(d, call) => if d < |s.deliveries| { DeliveryDispatches(cfg, s, d, call, id); }
    }
  }

  lemma StoreDispatches(cfg: Config, s: System, call: StoreCall, id: string)
    requires var t := StoreNext(cfg, s, call); id in t.outbox && SlotStatus(t.outbox[id]).Dispatching?
    ensures var t := StoreNext(cfg, s, call);
            Grants(s, AtStore(call), id) || (id in s.outbox && t.outbox[id] == s.outbox[id])
  {
    hide SlotStep, Begin;
    if id in s.outbox {
      var x := s.outbox[id];
      match call {
        case CancelScheduled(_, now) => if SlotStep(x, Cancel(now)).Some? { OnlyClaimsDispatch(x, Cancel(now)); }
        case RetryDeadLetter(_, now) => if SlotStep(x, RetryDead(now)).Some? { OnlyClaimsDispatch(x, RetryDead(now)); }
        case Replay(_, now, _) => if SlotStep(x, Reset(now)).Some? { OnlyClaimsDispatch(x, Reset(now)); }
        case _ =>
      }
    }
  }

  lemma DeliveryDispatches(cfg: Config, s: System, d: nat, call: DeliveryCall, id: string)
    requires d < |s.deliveries|
    requires var t := DeliveryNext(cfg, s, d, call); id in t.outbox && SlotStatus(t.outbox[id]).Dispatching?
    ensures var t := DeliveryNext(cfg, s, d, call);
            || (call.RenewLease? && Renews(s, d, call.leaseUntil, call.now, id))
            || (id in s.outbox && t.outbox[id] == s.outbox[id])
  {
    hide SlotStep, SlotStatus, AllConsumed, Settled, ReadyToComplete, Backoff;
    var v := s.deliveries[d];
    if !call.RenewLease? {
      hide DeliveryNext;
      BoundedRetries.DeliveryFrame(cfg, s, d, call);
      var op := BoundedRetries.OutboxOpOf(cfg, v, call);
      if op.Some? && CallOutbox(s, v.id, op.value).Some? { OnlyClaimsDispatch(s.outbox[v.id], op.value); }
    }
  }

  lemma RenewedSlot(cfg: Config, s: System, d: nat, call: DeliveryCall, id: string)
    requires d < |s.deliveries| && call.RenewLease? && Renews(s, d, call.leaseUntil, call.now, id)
    ensures var v, t := s.deliveries[d], DeliveryNext(cfg, s, d, call);
            && id in t.outbox
            && t.outbox[id] == SlotStep(s.outbox[id], Renew(v.worker, v.generation, call.leaseUntil, call.now)).value
  {
    hide SlotStep;
  }

  lemma RenewedWasDispatching(cfg: Config, s: System, step: Step, id: string)
    requires step.AtDelivery? && step.delivery.RenewLease?
    requires Renews(s, step.d, step.delivery.leaseUntil, step.delivery.now, id)
    requires var t := Next(cfg, s, step); id in t.outbox && SlotStatus(t.outbox[id]).Dispatching?
    ensures id in s.outbox && SlotStatus(s.outbox[id]).Dispatching?
  {
    var v := s.deliveries[step.d];
    RenewalsKeepStatus(s.outbox[id], Renew(v.worker, v.generation, step.delivery.leaseUntil, step.delivery.now));
    RenewedSlot(cfg, s, step.d, step.delivery, id);
  }

  lemma {:induction false} LeasesEndLater(cfg: Config, steps: seq<Step>, id: string)
    requires LeasesExtend(cfg, steps, id)
    requires id in Run(cfg, steps).outbox && SlotStatus(Run(cfg, steps).outbox[id]).Dispatching?
    ensures AvailableFrom(cfg, steps, id) <= LeaseEnd(cfg, steps, id)
  {
    hide SlotStatus, Next, SlotAvailable, SlotExpiry, Shaped;
    if steps == [] {
      assert false;
    } else {
      var front, step := steps[..|steps| - 1], steps[|steps| - 1];
      var s := Run(cfg, front);
      DispatchingStays(cfg, s, step, id);
      if Grants(s, step, id) {
        ClaimsExactly(cfg, front, id, step.store.worker, step.store.now, step.store.leaseMs);
        if SlotStatus(s.outbox[id]).Dispatching? { LeasesEndLater(cfg, front, id); }
      } else if step.AtDelivery? && step.delivery.RenewLease?
                && Renews(s, step.d, step.delivery.leaseUntil, step.delivery.now, id) {
        RenewedWasDispatching(cfg, s, step, id);
        LeasesEndLater(cfg, front, id);
      } else {
        EveryRunTold(cfg, front, id);
        EveryRunTold(cfg, steps, id);
        LeasesEndLater(cfg, front, id);
      }
    }
  }

  /** So no event is ever claimed before the time that its last append, retry or replay set, nor once it has expired. */
  lemma NeverEarlyNorExpired(cfg: Config, steps: seq<Step>, id: string, worker: string, now: int, leaseMs: int)
    requires LeasesExtend(cfg, steps, id) && CallOutbox(Run(cfg, steps), id, Claim(now, worker, leaseMs)).Some?
    ensures AvailableFrom(cfg, steps, id) <= now
    ensures Expiry(cfg, steps, id).Some? ==> now < Expiry(cfg, steps, id).value
  {
    hide Run;
    ClaimsExactly(cfg, steps, id, worker, now, leaseMs);
    if SlotStatus(Run(cfg, steps).outbox[id]).Dispatching? { LeasesEndLater(cfg, steps, id); }
  }

  // ------------------------------------------------------- when it can be early

  /** The first instant at which an event that is being delivered is free to be claimed again. */
  ghost function FreeFrom(cfg: Config, steps: seq<Step>, id: string): int {
    LeaseEnd(cfg, steps, id) + if cfg.backend.Memory? then 0 else 1
  }

  ghost predicate ClaimableAt(cfg: Config, steps: seq<Step>, id: string, now: int) {
    exists worker, leaseMs :: CallOutbox(Run(cfg, steps), id, Claim(now, worker, leaseMs)).Some?
  }

  /** An event can be claimed before its time exactly when it is being delivered under a lease that ends before that
      time, and before the event expires. */
  lemma EarlyExactly(cfg: Config, steps: seq<Step>, id: string)
    ensures (exists now :: now < AvailableFrom(cfg, steps, id) && ClaimableAt(cfg, steps, id, now))
            <==>
            && id in Run(cfg, steps).outbox && SlotStatus(Run(cfg, steps).outbox[id]).Dispatching?
            && FreeFrom(cfg, steps, id) < AvailableFrom(cfg, steps, id)
            && (Expiry(cfg, steps, id).Some? ==> FreeFrom(cfg, steps, id) < Expiry(cfg, steps, id).value)
  {
    hide Run, SlotStatus;
    var free := FreeFrom(cfg, steps, id);
    ClaimsExactly(cfg, steps, id, "", free, 0);
    assert CallOutbox(Run(cfg, steps), id, Claim(free, "", 0)).Some? ==> ClaimableAt(cfg, steps, id, free);
    forall now | now < AvailableFrom(cfg, steps, id) && ClaimableAt(cfg, steps, id, now)
      ensures id in Run(cfg, steps).outbox && SlotStatus(Run(cfg, steps).outbox[id]).Dispatching? && free <= now
      ensures Expiry(cfg, steps, id).Some? ==> now < Expiry(cfg, steps, id).value
    {
      var worker, leaseMs :| CallOutbox(Run(cfg, steps), id, Claim(now, worker, leaseMs)).Some?;
      ClaimsExactly(cfg, steps, id, worker, now, leaseMs);
    }
  }

  /** The renewing worker's clock is 31 seconds behind the one that claimed. */
  function SlowClock(a: string, id: string, etype: string): seq<Step> {
    [AtStore(Append(id, etype, true, 100_000, None, 0)),
     AtStore(ClaimDue(a, id, 100_000, 30_000, true)),
     AtDelivery(0, RenewLease(99_000, 69_000))]
  }

  lemma Appended(cfg: Config, a: string, id: string, etype: string)
    ensures var s := Run(cfg, SlowClock(a, id, etype)[..1]);
            && s.outbox == map[id := NewSlot(cfg.backend, id, etype, true, 100_000, None, 0)] && s.deliveries == []
    ensures AvailableFrom(cfg, SlowClock(a, id, etype)[..1], id) == 100_000
    ensures Expiry(cfg, SlowClock(a, id, etype)[..1], id) == None
  {
    var steps := SlowClock(a, id, etype);
    assert steps[..0] == [] && steps[..1][..0] == [];
    RunPrefix(cfg, steps, 0);
  }

  lemma Claimed(cfg: Config, s: System, a: string, id: string, etype: string)
    requires s.outbox == map[id := NewSlot(cfg.backend, id, etype, true, 100_000, None, 0)] && s.deliveries == []
    ensures CallOutbox(s, id, Claim(100_000, a, 30_000)).Some?
    ensures var t := StoreNext(cfg, s, ClaimDue(a, id, 100_000, 30_000, true));
            Renews(t, 0, 99_000, 69_000, id) && SlotStatus(t.outbox[id]).Dispatching?
  {
  }

  /** So the event is claimed again a second before the time its producer set, on either backend. */
  lemma SlowClockClaimsEarly(cfg: Config, a: string, b: string, id: string, etype: string)
    ensures var steps := SlowClock(a, id, etype);
            && AvailableFrom(cfg, steps, id) == 100_000
            && CallOutbox(Run(cfg, steps), id, Claim(99_001, b, 30_000)).Some?
  {
    hide Run, NewSlot, StoreNext, DeliveryNext, SlotStatus, SlotStep;
    var steps := SlowClock(a, id, etype);
    assert steps[..3] == steps && steps[..2] == steps[..3][..2] && steps[..2][..1] == steps[..1];
    Appended(cfg, a, id, etype);
    RunPrefix(cfg, steps, 1);
    Claimed(cfg, Run(cfg, steps[..1]), a, id, etype);
    RunPrefix(cfg, steps, 2);
    var s := Run(cfg, steps[..2]);
    RenewedSlot(cfg, s, 0, RenewLease(99_000, 69_000), id);
    RenewalsKeepStatus(s.outbox[id], Renew(s.deliveries[0].worker, s.deliveries[0].generation, 99_000, 69_000));
    assert LeaseEnd(cfg, steps, id) == 99_000;
    assert Expiry(cfg, steps, id) == Expiry(cfg, steps[..2], id) == Expiry(cfg, steps[..1], id);
    ClaimsExactly(cfg, steps, id, b, 99_001, 30_000);
  }
}

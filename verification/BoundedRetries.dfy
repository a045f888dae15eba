/** How often an event is retried, and how long the retries are put off. */
module BoundedRetries {
  import opened Collections
  import opened OutboxRows
  import opened DeliveryProtocol
  import DeliverySafety
  import Inbox

  predicate PostgresConfig(cfg: Config) { cfg.backend.Postgres? && 1 <= cfg.maxAttempts <= 100 }

  /** Every granted retry used up an attempt below the bound, and so will the current claim. */
  predicate RowBounded(maxAttempts: nat, retries: nat, r: Row) {
    && r.attempts <= ATTEMPTS_CAP
    && retries <= maxAttempts - 1
    && retries + (if r.processingBy.Some? then 1 else 0) <= r.attempts
    && (r.processingBy.Some? ==> r.status.Dispatching?)
  }

  ghost predicate RetriesBounded(cfg: Config, s: System) {
    && (forall id <- s.outbox ::
          s.outbox[id].PostgresSlot? && RowBounded(cfg.maxAttempts, RetriesOf(s, id), s.outbox[id].row))
    && (forall d :: 0 <= d < |s.deliveries| ==> s.deliveries[d].generation == s.deliveries[d].attempts)
  }

  /** One accepted call on a row: only a retry counts, and only at a current token below the bound. */
  lemma RowStepBounded(maxAttempts: nat, retries: nat, r: Row, op: RowOp)
    requires 1 <= maxAttempts <= 100 && RowBounded(maxAttempts, retries, r) && PostgresStep(r, op).Some?
    requires op.Retry? ==> op.generation < maxAttempts
    ensures RowBounded(maxAttempts,
                       if op.Retry? then retries + 1 else if op.Reset? || op.RetryDead? then 0 else retries,
                       PostgresStep(r, op).value)
  {
  }

  lemma NewRowBounded(maxAttempts: nat)
    requires 1 <= maxAttempts
    ensures forall row: Row | FreshRow(row) :: RowBounded(maxAttempts, 0, row)
  {
  }

  lemma StoreKeepsBound(cfg: Config, s: System, call: StoreCall)
    requires PostgresConfig(cfg) && RetriesBounded(cfg, s)
    ensures RetriesBounded(cfg, StoreNext(cfg, s, call))
  {
    hide PostgresStep, MemoryStep, RowBounded;
    NewRowBounded(cfg.maxAttempts);
    var s' := StoreNext(cfg, s, call);
    if s' != s && !call.Append? && !call.Purge? {
      var op := match call
        case ClaimDue(worker, _, now, leaseMs, _) => Claim(now, worker, leaseMs)
        case CancelScheduled(_, now) => Cancel(now)
        case RetryDeadLetter(_, now) => RetryDead(now)
        case _ => Reset(call.now);
      assert CallOutbox(s, call.id, op).Some?;
      RowStepBounded(cfg.maxAttempts, RetriesOf(s, call.id), s.outbox[call.id].row, op);
    }
  }

  /** Consumer runs touch neither the outbox nor any token. */
  lemma ConsumerFrame(s: System, d: nat, c: string, call: ConsumerCall)
    requires d < |s.deliveries|
    ensures var s' := ConsumerNext(s, d, c, call);
            && s'.outbox == s.outbox && s'.retries == s.retries && |s'.deliveries| == |s.deliveries|
            && s'.deliveries == s.deliveries[d := s.deliveries[d].(runs := s'.deliveries[d].runs)]
  {
    hide Inbox.EntryStep, Inbox.Store, Inbox.Lookup;
    assert s.deliveries[d := s.deliveries[d].(runs := s.deliveries[d].runs)] == s.deliveries;
  }

  lemma ConsumerKeepsBound(cfg: Config, s: System, d: nat, c: string, call: ConsumerCall)
    requires RetriesBounded(cfg, s) && d < |s.deliveries|
    ensures RetriesBounded(cfg, ConsumerNext(s, d, c, call))
  {
    ConsumerFrame(s, d, c, call);
    var s' := ConsumerNext(s, d, c, call);
    forall id <- s'.outbox ensures RowBounded(cfg.maxAttempts, RetriesOf(s', id), s'.outbox[id].row) {
      assert RetriesOf(s', id) == RetriesOf(s, id);
    }
  }

  /** The call a delivery makes on its own row, if it makes one. */
  function OutboxOpOf(cfg: Config, v: Delivery, call: DeliveryCall): Option<RowOp> {
    match call
    case RenewLease(leaseUntil, now) => Some(Renew(v.worker, v.generation, leaseUntil, now))
    case Poison(code, now) => Some(DeadLetter(v.worker, v.generation, code, now))
    case CompleteDelivery(now, _) => Some(Complete(v.worker, v.generation, now))
    case SettleFailure(permanent, retryAfter, code, now) => Some(SettleOp(cfg, v, permanent, retryAfter, code, now))
    case _ => None
  }

  lemma DeliveryFrame(cfg: Config, s: System, d: nat, call: DeliveryCall)
    requires d < |s.deliveries|
    ensures var s' := DeliveryNext(cfg, s, d, call); var v := s.deliveries[d]; var op := OutboxOpOf(cfg, v, call);
            && s'.deliveries == s.deliveries[d := v.(phase := s'.deliveries[d].phase)]
            && (|| (s'.outbox == s.outbox && s'.retries == s.retries)
                || (&& op.Some? && CallOutbox(s, v.id, op.value).Some?
                    && s'.outbox == CallOutbox(s, v.id, op.value).value.outbox
                    && s'.retries == if op.value.Retry? then s.retries[v.id := RetriesOf(s, v.id) + 1] else s.retries))
  {
    hide SlotStep, Backoff, ReadyToComplete, AllConsumed, Settled, Delivering;
    DeliverySafety.DeliveryCallPhase(cfg, s, d, call);
  }

  lemma DeliveryKeepsBound(cfg: Config, s: System, d: nat, call: DeliveryCall)
    requires PostgresConfig(cfg) && RetriesBounded(cfg, s) && d < |s.deliveries|
    ensures RetriesBounded(cfg, DeliveryNext(cfg, s, d, call))
  {
    DeliveryFrame(cfg, s, d, call);
    var s' := DeliveryNext(cfg, s, d, call);
    var v := s.deliveries[d];
    var op := OutboxOpOf(cfg, v, call);
    if !(s'.outbox == s.outbox && s'.retries == s.retries) {
      RowStepBounded(cfg.maxAttempts, RetriesOf(s, v.id), s.outbox[v.id].row, op.value);
    }
    forall id <- s'.outbox
      ensures s'.outbox[id].PostgresSlot? && RowBounded(cfg.maxAttempts, RetriesOf(s', id), s'.outbox[id].row)
    {
      if id != v.id {
        assert s'.outbox[id] == s.outbox[id] && RetriesOf(s', id) == RetriesOf(s, id);
      }
    }
  }

  lemma {:induction false} EveryRunBounded(cfg: Config, steps: seq<Step>)
    requires PostgresConfig(cfg)
    ensures RetriesBounded(cfg, Run(cfg, steps))
  {
    if steps != [] {
      var front, step := steps[..|steps| - 1], steps[|steps| - 1];
      EveryRunBounded(cfg, front);
      var s := Run(cfg, front);
      match step
      case AtStore(call) => StoreKeepsBound(cfg, s, call);
      case AtConsumer(d, c, call) => if d < |s.deliveries| { ConsumerKeepsBound(cfg, s, d, c, call); }
      case AtDelivery(d, call) => if d < |s.deliveries| { DeliveryKeepsBound(cfg, s, d, call); }
    }
  }

  /** In Postgres an event is retried successfully at most `maxAttempts - 1` times between
      two resets, whatever stale deliveries from before the reset still do. */
  lemma RetriesAtMost(cfg: Config, steps: seq<Step>, id: string)
    requires PostgresConfig(cfg) && id in Run(cfg, steps).outbox
    ensures RetriesOf(Run(cfg, steps), id) <= cfg.maxAttempts - 1
    ensures RetriesOf(Run(cfg, steps), id) <= SlotAttempts(Run(cfg, steps).outbox[id])
  {
    EveryRunBounded(cfg, steps);
  }

  /** A failure at `attempts >= maxAttempts`, when the store accepts it, leaves the event dead;
      below that bound a failure that is not permanent leaves it failed and counts as a retry. */
  lemma FailureOutcome(cfg: Config, s: System, d: nat, permanent: bool, retryAfter: int, code: string, now: int)
    requires d < |s.deliveries| && s.deliveries[d].phase.Failing?
    ensures var v := s.deliveries[d];
            var s' := DeliveryNext(cfg, s, d, SettleFailure(permanent, retryAfter, code, now));
            if s'.deliveries[d].phase.LeaseLost? then s'.outbox == s.outbox && s'.retries == s.retries
            else
              && v.id in s'.outbox
              && (SlotStatus(s'.outbox[v.id]).Dead? <==> permanent || v.attempts >= cfg.maxAttempts)
              && (SlotStatus(s'.outbox[v.id]).Failed? <==> !(permanent || v.attempts >= cfg.maxAttempts))
              && RetriesOf(s', v.id) == RetriesOf(s, v.id) + (if SlotStatus(s'.outbox[v.id]).Failed? then 1 else 0)
  {
  }

  lemma {:induction false} Power2Grows(m: nat, n: nat)
    requires m <= n
    ensures 1 <= Power2(m) <= Power2(n)
    decreases n
  {
    if n > 0 {
      Power2Grows(if m == n then n - 1 else m, n - 1);
    }
  }

  /** The delay before a retry lies in [250, 60000] ms exactly when the record was ever
      claimed or the failure asks for at least 250 ms, and never shrinks from one attempt to the next. */
  lemma BackoffBounds(attempts: nat, later: nat, retryAfter: int)
    requires attempts <= later
    ensures 250 <= Backoff(attempts, retryAfter) <= 60_000 <==> attempts >= 1 || retryAfter >= 250
    ensures Backoff(attempts, retryAfter) <= Backoff(later, retryAfter)
    ensures retryAfter <= 60_000 ==> retryAfter <= Backoff(attempts, retryAfter)
  {
    if attempts >= 1 {
      Power2Grows(0, Min(8, attempts - 1));
      Power2Grows(Min(8, attempts - 1), Min(8, later - 1));
    } else if later >= 1 {
      Power2Grows(0, Min(8, later - 1));
    }
  }
}

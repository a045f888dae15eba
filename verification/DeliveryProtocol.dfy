/** Any number of workers delivering events out of one shared store. A run is a sequence of
    atomic steps: a backend call together with the worker receiving its answer, or losing it.
    A step that is not enabled changes nothing, so every sequence of steps is a run. */
module DeliveryProtocol {
  import opened Collections
  import opened OutboxRows
  import Inbox

  datatype Slot = MemorySlot(record: Record) | PostgresSlot(etype: string, bound: bool, row: Row)

  datatype Backend = Memory | Postgres

  /** `matching` gives the consumers that a worker registered for an event type. */
  datatype Config = Config(backend: Backend, maxAttempts: nat, matching: (string, string) -> set<string>)

  datatype RunPhase = Waiting | Holding | Succeeded | Duplicate | RunFailed

  datatype Phase = Consuming | Delivered | Failing | Completed | Retried | DeadLettered | LeaseLost

  /** One `processRecord`: the token it was handed and one run per matching consumer. */
  datatype Delivery = Delivery(
    worker: string, id: string, etype: string, bound: bool, generation: nat, attempts: nat,
    runs: map<string, RunPhase>, phase: Phase)

  /** A consumer run owns its inbox entry under the number of its delivery.
      The last three fields are history that no step reads: the runs whose finished consumption
      was forgotten when their event was replayed or purged, the delivery that completed an
      event, and the successful retries of an event since it was last reset. */
  datatype System = System(
    outbox: map<string, Slot>,
    inbox: map<Inbox.Key, Inbox.Entry<nat>>,
    deliveries: seq<Delivery>,
    forgotten: set<(nat, string)>,
    completedBy: map<string, nat>,
    retries: map<string, nat>)

  datatype StoreCall =
    | Append(id: string, etype: string, bound: bool, availableAt: int, expiry: Option<int>, now: int)
    | ClaimDue(worker: string, id: string, now: int, leaseMs: int, received: bool)
    | CancelScheduled(id: string, now: int)
    | RetryDeadLetter(id: string, now: int)
    | Replay(id: string, now: int, cleaned: bool)
    | Purge(id: string, now: int)

  datatype ConsumerCall =
    | InboxClaim(now: int, received: bool)
    | InboxRenew(leaseUntil: int)
    | InboxComplete(received: bool)
    | FailRun

  datatype DeliveryCall =
    | RenewLease(leaseUntil: int, now: int)
    | Poison(code: string, now: int)
    | Deliver
    | FailDelivery
    | CompleteDelivery(now: int, received: bool)
    | SettleFailure(permanent: bool, retryAfter: int, code: string, now: int)

  /** `received` is whether the worker gets the answer of a call that the store carried out. */
  datatype Step =
    | AtStore(store: StoreCall)
    | AtConsumer(d: nat, c: string, consumer: ConsumerCall)
    | AtDelivery(d: nat, delivery: DeliveryCall)

  const INITIAL := System(map[], map[], [], {}, map[], map[])

  // ------------------------------------------------------------------ store

  function SlotStep(x: Slot, op: RowOp): Option<Slot> {
    match x
    case MemorySlot(r) => (var n := MemoryStep(r, op); if n.Some? then Some(MemorySlot(n.value)) else None)
    case PostgresSlot(t, b, r) => (
      var n := PostgresStep(r, op);
      if n.Some? then Some(PostgresSlot(t, b, n.value)) else None)
  }

  function SlotStatus(x: Slot): Status { if x.MemorySlot? then x.record.status else x.row.status }

  function SlotType(x: Slot): string { if x.MemorySlot? then x.record.envelope.etype else x.etype }

  function SlotBound(x: Slot): bool { if x.MemorySlot? then x.record.binding.Some? else x.bound }

  function SlotAttempts(x: Slot): nat { if x.MemorySlot? then x.record.attempts else x.row.attempts }

  /** The generation that the store hands out with a claimed event. */
  function SlotGeneration(x: Slot): nat {
    match x
    case MemorySlot(r) => if r.lease.Some? then r.lease.value.generation else 0
    case PostgresSlot(_, _, r) => r.attempts
  }

  predicate Purgeable(x: Slot, now: int) {
    match x
    case MemorySlot(r) =>
      !Live(r.expiresAt, now)
      && (!r.status.Dispatching? || (if r.lease.Some? then r.lease.value.expiresAt else 0) <= now)
    case PostgresSlot(_, _, r) =>
      !Live(r.expiresAt, now)
      && (!r.status.Dispatching? || r.processingStartedAt.None? || r.processingStartedAt.value <= now)
  }

  function NewSlot(backend: Backend, id: string, etype: string, bound: bool,
                   availableAt: int, expiresAt: Option<int>, now: int): Slot
  {
    match backend
    case Memory =>
      MemorySlot(Record(Envelope(id, etype, ""), true, if bound then Some("") else None, None, Queued, 0, availableAt,
                        expiresAt, now, now, None, None))
    case Postgres =>
      PostgresSlot(etype, bound, Row(Queued, 0, Some(availableAt), None, None, expiresAt, now, now, None))
  }

  function CallOutbox(s: System, id: string, op: RowOp): Option<System> {
    if id !in s.outbox then None
    else
      var next := SlotStep(s.outbox[id], op);
      if next.None? then None else Some(s.(outbox := s.outbox[id := next.value]))
  }

  function CallInbox(s: System, key: Inbox.Key, op: Inbox.InboxOp<nat>): (Inbox.InboxReply, System) {
    var (reply, e) := Inbox.EntryStep(key, Inbox.Lookup(s.inbox, key), op);
    (reply, s.(inbox := Inbox.Store(s.inbox, key, e)))
  }

  function ForgetEvent(s: System, id: string): System {
    s.(inbox := map k | k in s.inbox && k.1 != id :: s.inbox[k],
    forgotten := s.forgotten
                 + set d, c | 0 <= d < |s.deliveries| && s.deliveries[d].id == id && c in s.deliveries[d].runs
                                          && Consumed(s.deliveries[d].runs[c]) :: (d, c))
  }

  function RetriesOf(s: System, id: string): nat { if id in s.retries then s.retries[id] else 0 }

  function ResetRetries(s: System, id: string): System { s.(retries := s.retries[id := 0]) }

  // ------------------------------------------------------------------ workers

  function SetRun(s: System, d: nat, c: string, phase: RunPhase): System
    requires d < |s.deliveries|
  {
    s.(deliveries := s.deliveries[d := s.deliveries[d].(runs := s.deliveries[d].runs[c := phase])])
  }

  function SetPhase(s: System, d: nat, phase: Phase): System
    requires d < |s.deliveries|
  {
    s.(deliveries := s.deliveries[d := s.deliveries[d].(phase := phase)])
  }

  predicate Delivering(s: System, d: nat) {
    d < |s.deliveries| && (s.deliveries[d].phase.Consuming? || s.deliveries[d].phase.Delivered?)
  }

  predicate RunAt(s: System, d: nat, c: string, phase: RunPhase) {
    Delivering(s, d) && c in s.deliveries[d].runs && s.deliveries[d].runs[c] == phase
  }

  predicate Settled(v: Delivery) { forall c <- v.runs :: !v.runs[c].Waiting? && !v.runs[c].Holding? }

  predicate Consumed(phase: RunPhase) { phase.Succeeded? || phase.Duplicate? }

  predicate AllConsumed(v: Delivery) { forall c <- v.runs :: Consumed(v.runs[c]) }

  /** `Math.min(60_000, Math.max(retryAfter, 250 * 2 ** Math.min(8, attempts - 1)))`;
      a record that was never claimed has exponent -1. */
  function Backoff(attempts: nat, retryAfter: int): int {
    Min(60_000, Max(retryAfter, if attempts == 0 then 125 else 250 * Power2(Min(8, attempts - 1))))
  }

  function Power2(n: nat): nat { if n == 0 then 1 else 2 * Power2(n - 1) }

  /** A new delivery with a run for every consumer its worker registered for the type. */
  function Begin(cfg: Config, worker: string, id: string, x: Slot): Delivery {
    Delivery(worker, id, SlotType(x), SlotBound(x), SlotGeneration(x), SlotAttempts(x),
             map c | c in cfg.matching(worker, SlotType(x)) :: Waiting, Consuming)
  }

  /** An unbound event without consumers is unrouted; a bound one is delivered after its consumers. */
  predicate ReadyToComplete(v: Delivery) {
    if v.bound then v.phase.Delivered? else v.phase.Consuming? && v.runs != map[] && AllConsumed(v)
  }

  function SettleOp(cfg: Config, v: Delivery, permanent: bool, retryAfter: int, code: string, now: int): RowOp {
    if permanent || v.attempts >= cfg.maxAttempts then DeadLetter(v.worker, v.generation, code, now)
    else Retry(v.worker, v.generation, now + Backoff(v.attempts, retryAfter), code, now)
  }

  function StoreNext(cfg: Config, s: System, call: StoreCall): System {
    match call
    case Append(id, etype, bound, availableAt, expiry, now) =>
      if id in s.outbox then s
      else
        var slot := NewSlot(cfg.backend, id, etype, bound, availableAt, expiry, now);
        ResetRetries(s, id).(outbox := s.outbox[id := slot])
    case ClaimDue(worker, id, now, leaseMs, received) =>
      var next := CallOutbox(s, id, Claim(now, worker, leaseMs));
      if next.None? then s
      else if !received then next.value
      else next.value.(deliveries := s.deliveries + [Begin(cfg, worker, id, next.value.outbox[id])])
    case CancelScheduled(id, now) =>
      var next := CallOutbox(s, id, Cancel(now));
      if next.Some? then next.value else s
    case RetryDeadLetter(id, now) =>
      var next := CallOutbox(s, id, RetryDead(now));
      if next.Some? then ResetRetries(next.value, id) else s
    case Replay(id, now, cleaned) =>
      var next := CallOutbox(s, id, Reset(now));
      if next.None? then s
      else if cleaned then ForgetEvent(ResetRetries(next.value, id), id)
      else ResetRetries(next.value, id)
    case Purge(id, now) =>
      if id !in s.outbox || !Purgeable(s.outbox[id], now) then s
      else ForgetEvent(ResetRetries(s, id), id).(outbox := s.outbox - {id})
  }

  function ConsumerNext(s: System, d: nat, c: string, call: ConsumerCall): System
    requires d < |s.deliveries|
  {
    var key := (c, s.deliveries[d].id);
    match call
    case InboxClaim(now, received) =>
      if !RunAt(s, d, c, Waiting) then s
      else
        var (reply, next) := CallInbox(s, key, Inbox.Claim(d, now + 30_000, now));
        if !received then SetRun(next, d, c, RunFailed)
        else if reply.Claimed? then SetRun(next, d, c, Holding)
        else if reply.Duplicate? then SetRun(next, d, c, Duplicate)
        else next
    case InboxRenew(leaseUntil) =>
      if !RunAt(s, d, c, Holding) then s else CallInbox(s, key, Inbox.Renew(d, leaseUntil)).1
    case InboxComplete(received) =>
      if !RunAt(s, d, c, Holding) then s
      else
        var (reply, next) := CallInbox(s, key, Inbox.Complete(d));
        if received && reply.Yes? then SetRun(next, d, c, Succeeded)
        else SetRun(CallInbox(next, key, Inbox.Release(d)).1, d, c, RunFailed)
    case FailRun =>
      if RunAt(s, d, c, Waiting) then SetRun(s, d, c, RunFailed)
      else if RunAt(s, d, c, Holding) then SetRun(CallInbox(s, key, Inbox.Release(d)).1, d, c, RunFailed)
      else s
  }

  function DeliveryNext(cfg: Config, s: System, d: nat, call: DeliveryCall): System
    requires d < |s.deliveries|
  {
    var v := s.deliveries[d];
    match call
    case RenewLease(leaseUntil, now) =>
      var next := CallOutbox(s, v.id, Renew(v.worker, v.generation, leaseUntil, now));
      if Delivering(s, d) && next.Some? then next.value else s
    case Poison(code, now) =>
      var next := CallOutbox(s, v.id, DeadLetter(v.worker, v.generation, code, now));
      if !v.phase.Consuming? || exists c <- v.runs :: !v.runs[c].Waiting? then s
      else if next.Some? then SetPhase(next.value, d, DeadLettered)
      else SetPhase(s, d, LeaseLost)
    case Deliver =>
      if v.phase.Consuming? && v.bound && AllConsumed(v) then SetPhase(s, d, Delivered) else s
    case FailDelivery =>
      if Delivering(s, d) && Settled(v) then SetPhase(s, d, Failing) else s
    case CompleteDelivery(now, received) =>
      var next := CallOutbox(s, v.id, Complete(v.worker, v.generation, now));
      if !ReadyToComplete(v) then s
      else if next.None? then SetPhase(s, d, Failing)
      else SetPhase(next.value, d, if received then Completed else Failing).(completedBy := s.completedBy[v.id := d])
    case SettleFailure(permanent, retryAfter, code, now) =>
      var op := SettleOp(cfg, v, permanent, retryAfter, code, now);
      var next := CallOutbox(s, v.id, op);
      if !v.phase.Failing? then s
      else if next.None? then SetPhase(s, d, LeaseLost)
      else if op.DeadLetter? then SetPhase(next.value, d, DeadLettered)
      else SetPhase(next.value, d, Retried).(retries := s.retries[v.id := RetriesOf(s, v.id) + 1])
  }

  /** The system after one step; a step that is not enabled leaves it alone. */
  function Next(cfg: Config, s: System, step: Step): System {
    match step
    case AtStore(call) => StoreNext(cfg, s, call)
    case AtConsumer(d, c, call) => if d < |s.deliveries| then ConsumerNext(s, d, c, call) else s
    case AtDelivery(d, call) => if d < |s.deliveries| then DeliveryNext(cfg, s, d, call) else s
  }

  function Run(cfg: Config, steps: seq<Step>): System {
    if steps == [] then INITIAL else Next(cfg, Run(cfg, steps[..|steps| - 1]), steps[|steps| - 1])
  }

  lemma RunPrefix(cfg: Config, steps: seq<Step>, n: nat)
    requires n < |steps|
    ensures Run(cfg, steps[..n + 1]) == Next(cfg, Run(cfg, steps[..n]), steps[n])
  {
    assert steps[..n + 1][..n] == steps[..n];
  }
}

/** Bounded retries without fencing: in memory, where a superseded token can become good again, an event that is never
    reset is still retried fewer than `maxAttempts` times, because its deliveries all have different attempt numbers. */
module MemoryRetries {
  import opened Collections
  import opened OutboxRows
  import opened DeliveryProtocol
  import BoundedRetries

  predicate MemoryConfig(cfg: Config) { cfg.backend.Memory? && 1 <= cfg.maxAttempts <= 100 }

  /** The attempt numbers whose deliveries of the event were granted a retry. */
  ghost function RetriedAttempts(s: System, id: string): set<nat> {
    set d | 0 <= d < |s.deliveries| && s.deliveries[d].id == id && s.deliveries[d].phase.Retried? ::
      s.deliveries[d].attempts
  }

  ghost predicate MemoryOnly(s: System) { forall i <- s.outbox :: s.outbox[i].MemorySlot? }

  /** The deliveries of the event are numbered by the attempts they were claimed with. */
  ghost predicate Numbered(cfg: Config, s: System, id: string) {
    && (forall d | 0 <= d < |s.deliveries| && s.deliveries[d].id == id ::
          id in s.outbox && 1 <= s.deliveries[d].attempts <= SlotAttempts(s.outbox[id]))
    && (forall d, e | 0 <= d < e < |s.deliveries| && s.deliveries[d].id == s.deliveries[e].id == id ::
          s.deliveries[d].attempts < s.deliveries[e].attempts)
    && (forall d | 0 <= d < |s.deliveries| && s.deliveries[d].id == id && s.deliveries[d].phase.Retried? ::
          s.deliveries[d].attempts < cfg.maxAttempts)
  }

  ghost predicate Tallied(s: System, id: string) { id in s.outbox ==> RetriesOf(s, id) == |RetriedAttempts(s, id)| }

  ghost predicate Kept(cfg: Config, s: System, id: string) { MemoryOnly(s) && Numbered(cfg, s, id) && Tallied(s, id) }

  /** The step puts the attempts of the event back, or removes it. */
  predicate Resets(s: System, step: Step, id: string) {
    && step.AtStore? && id in s.outbox
    && match step.store
       case Replay(other, now, _) => other == id && CallOutbox(s, id, Reset(now)).Some?
       case RetryDeadLetter(other, now) => other == id && CallOutbox(s, id, RetryDead(now)).Some?
       case Purge(other, now) => other == id && Purgeable(s.outbox[id], now)
       case _ => false
  }

  /** Other events may be replayed, purged and retried from the dead letters as they like. */
  predicate NeverReset(cfg: Config, steps: seq<Step>, id: string) {
    steps == [] ||
    (NeverReset(cfg, steps[..|steps| - 1], id) && !Resets(Run(cfg, steps[..|steps| - 1]), steps[|steps| - 1], id))
  }

  /** What happens to other events and their deliveries does not matter. */
  lemma ElsewhereKeeps(cfg: Config, s: System, s': System, id: string)
    requires Kept(cfg, s, id) && MemoryOnly(s') && |s.deliveries| <= |s'.deliveries|
    requires forall d | 0 <= d < |s.deliveries| ::
               && s'.deliveries[d].id == s.deliveries[d].id
               && (s.deliveries[d].id == id ==>
                     && s'.deliveries[d].attempts == s.deliveries[d].attempts
                     && s'.deliveries[d].phase == s.deliveries[d].phase)
    requires forall d | |s.deliveries| <= d < |s'.deliveries| :: s'.deliveries[d].id != id
    requires id in s'.outbox <==> id in s.outbox
    requires id in s.outbox ==> SlotAttempts(s'.outbox[id]) == SlotAttempts(s.outbox[id])
    requires RetriesOf(s', id) == RetriesOf(s, id)
    ensures Kept(cfg, s', id)
  {
    hide SlotAttempts, RetriesOf;
    forall x ensures x in RetriedAttempts(s', id) <==> x in RetriedAttempts(s, id) {
      if x in RetriedAttempts(s, id) {
        var d :| 0 <= d < |s.deliveries| && s.deliveries[d].id == id
          && s.deliveries[d].phase.Retried? && s.deliveries[d].attempts == x;
        assert s'.deliveries[d].id == id;
      }
    }
    assert RetriedAttempts(s', id) == RetriedAttempts(s, id);
  }

  lemma AnyCall(s: System, id: string, op: RowOp)
    requires MemoryOnly(s) && CallOutbox(s, id, op).Some?
    ensures var s' := CallOutbox(s, id, op).value;
            && s' == s.(outbox := s'.outbox) && s'.outbox.Keys == s.outbox.Keys && id in s.outbox
            && MemoryOnly(s') && (forall i <- s'.outbox | i != id :: s'.outbox[i] == s.outbox[i])
  {
  }

  /** An accepted call on a record: only a claim counts an attempt. */
  lemma CallAttempts(s: System, id: string, op: RowOp)
    requires MemoryOnly(s) && !op.Reset? && !op.RetryDead? && CallOutbox(s, id, op).Some?
    ensures SlotAttempts(CallOutbox(s, id, op).value.outbox[id])
            == SlotAttempts(s.outbox[id]) + if op.Claim? then 1 else 0
  {
  }

  /** A claim numbers a new delivery one higher than all deliveries before it. */
  lemma NewDelivery(cfg: Config, s: System, worker: string, id: string, now: int, leaseMs: int, received: bool)
    requires Kept(cfg, s, id)
    ensures Kept(cfg, StoreNext(cfg, s, ClaimDue(worker, id, now, leaseMs, received)), id)
  {
    hide SlotStep, SlotAttempts, SlotType, SlotBound, SlotGeneration, CallOutbox;
    var s' := StoreNext(cfg, s, ClaimDue(worker, id, now, leaseMs, received));
    if CallOutbox(s, id, Claim(now, worker, leaseMs)).Some? {
      AnyCall(s, id, Claim(now, worker, leaseMs));
      CallAttempts(s, id, Claim(now, worker, leaseMs));
      assert forall d | 0 <= d < |s.deliveries| :: s'.deliveries[d] == s.deliveries[d];
      assert RetriedAttempts(s', id) == RetriedAttempts(s, id);
    }
  }

  lemma CancelKeeps(cfg: Config, s: System, id: string, now: int)
    requires Kept(cfg, s, id)
    ensures Kept(cfg, StoreNext(cfg, s, CancelScheduled(id, now)), id)
  {
    hide SlotStep, SlotAttempts, CallOutbox;
    if CallOutbox(s, id, Cancel(now)).Some? {
      AnyCall(s, id, Cancel(now));
      CallAttempts(s, id, Cancel(now));
      ElsewhereKeeps(cfg, s, StoreNext(cfg, s, CancelScheduled(id, now)), id);
    }
  }

  lemma AppendKeeps(cfg: Config, s: System, call: StoreCall)
    requires MemoryConfig(cfg) && Kept(cfg, s, call.id) && call.Append?
    ensures Kept(cfg, StoreNext(cfg, s, call), call.id)
  {
    if call.id !in s.outbox { assert RetriedAttempts(StoreNext(cfg, s, call), call.id) == {}; }
  }

  /** The call on the record of its event that a store call amounts to, if it is one. */
  function StoreOpOf(call: StoreCall): Option<RowOp> {
    match call
    case ClaimDue(worker, _, now, leaseMs, _) => Some(Claim(now, worker, leaseMs))
    case CancelScheduled(_, now) => Some(Cancel(now))
    case RetryDeadLetter(_, now) => Some(RetryDead(now))
    case Replay(_, now, _) => Some(Reset(now))
    case _ => None
  }

  lemma RecordCallElsewhere(cfg: Config, s: System, call: StoreCall, id: string)
    requires MemoryConfig(cfg) && Kept(cfg, s, id) && call.id != id && StoreOpOf(call).Some?
    ensures Kept(cfg, StoreNext(cfg, s, call), id)
  {
    hide SlotStep, SlotAttempts, CallOutbox, Kept, Numbered, Tallied;
    KeptIsMemory(cfg, s, id);
    var op := StoreOpOf(call).value;
    if CallOutbox(s, call.id, op).Some? {
      AnyCall(s, call.id, op);
      ElsewhereKeeps(cfg, s, StoreNext(cfg, s, call), id);
    }
  }

  /** A store call for one event leaves all others alone. */
  lemma OtherEventKeeps(cfg: Config, s: System, call: StoreCall, id: string)
    requires MemoryConfig(cfg) && Kept(cfg, s, id) && call.id != id
    ensures Kept(cfg, StoreNext(cfg, s, call), id)
  {
    hide SlotStep, SlotAttempts, CallOutbox, Kept, Numbered, Tallied, Purgeable;
    if StoreOpOf(call).Some? {
      RecordCallElsewhere(cfg, s, call, id);
    } else {
      KeptIsMemory(cfg, s, id);
      ElsewhereKeeps(cfg, s, StoreNext(cfg, s, call), id);
    }
  }

  lemma KeptIsMemory(cfg: Config, s: System, id: string)
    requires Kept(cfg, s, id)
    ensures MemoryOnly(s)
  {
  }

  lemma StoreKeepsNumbers(cfg: Config, s: System, call: StoreCall, id: string)
    requires MemoryConfig(cfg) && Kept(cfg, s, id) && !Resets(s, AtStore(call), id)
    ensures Kept(cfg, StoreNext(cfg, s, call), id)
  {
    hide Kept;
    if call.id != id {
      OtherEventKeeps(cfg, s, call, id);
    } else {
      match call
      case ClaimDue(worker, _, now, leaseMs, received) => NewDelivery(cfg, s, worker, id, now, leaseMs, received);
      case CancelScheduled(_, now) => CancelKeeps(cfg, s, id, now);
      case Append(_, _, _, _, _, _) => AppendKeeps(cfg, s, call);
      case _ => assert StoreNext(cfg, s, call) == s;
    }
  }

  lemma ConsumerKeepsNumbers(cfg: Config, s: System, d: nat, c: string, call: ConsumerCall, id: string)
    requires Kept(cfg, s, id) && d < |s.deliveries|
    ensures Kept(cfg, ConsumerNext(s, d, c, call), id)
  {
    hide ConsumerNext, SlotAttempts;
    var s' := ConsumerNext(s, d, c, call);
    BoundedRetries.ConsumerFrame(s, d, c, call);
    ElsewhereKeeps(cfg, s, s', id);
  }

  /** A delivery that ends with a granted retry adds its own attempt number, and only that. */
  lemma PhaseTallies(s: System, s': System, d: nat, id: string)
    requires d < |s.deliveries| == |s'.deliveries| && !s.deliveries[d].phase.Retried?
    requires s'.deliveries == s.deliveries[d := s.deliveries[d].(phase := s'.deliveries[d].phase)]
    requires forall e | 0 <= e < |s.deliveries| && e != d && s.deliveries[e].id == s.deliveries[d].id ::
               s.deliveries[e].attempts != s.deliveries[d].attempts
    ensures var more := s'.deliveries[d].phase.Retried? && s.deliveries[d].id == id;
            && RetriedAttempts(s', id)
               == (if more then RetriedAttempts(s, id) + {s.deliveries[d].attempts} else RetriedAttempts(s, id))
            && (more ==> s.deliveries[d].attempts !in RetriedAttempts(s, id))
  {
    var a := s.deliveries[d].attempts;
    forall x ensures x in RetriedAttempts(s', id)
                     <==>
                     || x in RetriedAttempts(s, id)
                     || (x == a && s'.deliveries[d].phase.Retried? && s.deliveries[d].id == id)
    {
      if x in RetriedAttempts(s, id) {
        var e :| 0 <= e < |s.deliveries| && s.deliveries[e].id == id
          && s.deliveries[e].phase.Retried? && s.deliveries[e].attempts == x;
        assert s'.deliveries[e] == s.deliveries[e];
      }
      if s'.deliveries[d].phase.Retried? && s.deliveries[d].id == id { assert a in RetriedAttempts(s', id); }
    }
  }

  lemma RetriedIsFinal(cfg: Config, s: System, d: nat, call: DeliveryCall)
    requires d < |s.deliveries| && s.deliveries[d].phase.Retried?
    ensures DeliveryNext(cfg, s, d, call) == s
  {
    hide CallOutbox, SettleOp, AllConsumed, Settled;
  }

  lemma OnlyFailuresRetry(cfg: Config, s: System, d: nat, call: DeliveryCall)
    requires d < |s.deliveries| && !s.deliveries[d].phase.Retried? && !call.SettleFailure?
    ensures var s' := DeliveryNext(cfg, s, d, call);
            !s'.deliveries[d].phase.Retried? && s'.retries == s.retries
  {
    hide SlotStep, AllConsumed, Settled, Delivering, ReadyToComplete;
  }

  /** A retry is counted exactly when the delivery's phase says so, and then only below the bound. */
  lemma RetryIsCounted(cfg: Config, s: System, d: nat, call: DeliveryCall)
    requires d < |s.deliveries| && !s.deliveries[d].phase.Retried?
    ensures var s', v := DeliveryNext(cfg, s, d, call), s.deliveries[d];
            if s'.deliveries[d].phase.Retried?
            then v.attempts < cfg.maxAttempts && s'.retries == s.retries[v.id := RetriesOf(s, v.id) + 1]
            else s'.retries == s.retries
  {
    if call.SettleFailure? {
      hide SlotStep, Backoff;
    } else {
      hide DeliveryNext;
      OnlyFailuresRetry(cfg, s, d, call);
    }
  }

  /** A delivery's call leaves every attempt count alone. */
  lemma DeliveryKeepsAttempts(cfg: Config, s: System, d: nat, call: DeliveryCall)
    requires MemoryOnly(s) && d < |s.deliveries|
    ensures var s' := DeliveryNext(cfg, s, d, call);
            && s'.deliveries == s.deliveries[d := s.deliveries[d].(phase := s'.deliveries[d].phase)]
            && MemoryOnly(s') && s'.outbox.Keys == s.outbox.Keys
            && (forall i <- s.outbox :: SlotAttempts(s'.outbox[i]) == SlotAttempts(s.outbox[i]))
  {
    hide DeliveryNext, SlotAttempts, SlotStep, CallOutbox;
    var v := s.deliveries[d];
    BoundedRetries.DeliveryFrame(cfg, s, d, call);
    var op := BoundedRetries.OutboxOpOf(cfg, v, call);
    if op.Some? && CallOutbox(s, v.id, op.value).Some? {
      AnyCall(s, v.id, op.value);
      CallAttempts(s, v.id, op.value);
    }
  }

  lemma DeliveryKeepsNumbers(cfg: Config, s: System, d: nat, call: DeliveryCall, id: string)
    requires MemoryConfig(cfg) && Kept(cfg, s, id) && d < |s.deliveries|
    ensures Kept(cfg, DeliveryNext(cfg, s, d, call), id)
  {
    hide DeliveryNext, SlotAttempts;
    var s', v := DeliveryNext(cfg, s, d, call), s.deliveries[d];
    if v.phase.Retried? {
      RetriedIsFinal(cfg, s, d, call);
    } else {
      DeliveryKeepsAttempts(cfg, s, d, call);
      RetryIsCounted(cfg, s, d, call);
      if v.id == id {
        assert forall e | 0 <= e < |s.deliveries| && e != d :: s'.deliveries[e] == s.deliveries[e];
        PhaseTallies(s, s', d, id);
      } else {
        ElsewhereKeeps(cfg, s, s', id);
      }
    }
  }

  lemma {:induction false} EveryRunKeeps(cfg: Config, steps: seq<Step>, id: string)
    requires MemoryConfig(cfg) && NeverReset(cfg, steps, id)
    ensures Kept(cfg, Run(cfg, steps), id)
  {
    hide Kept, StoreNext, ConsumerNext, DeliveryNext, Resets;
    if steps == [] {
      NothingYet(cfg, id);
    } else {
      var front, step := steps[..|steps| - 1], steps[|steps| - 1];
      EveryRunKeeps(cfg, front, id);
      var s := Run(cfg, front);
      match step
      case AtStore(call) => StoreKeepsNumbers(cfg, s, call, id);
      case AtConsumer(d, c, call) => if d < |s.deliveries| { ConsumerKeepsNumbers(cfg, s, d, c, call, id); }
      case AtDelivery(d, call) => if d < |s.deliveries| { DeliveryKeepsNumbers(cfg, s, d, call, id); }
    }
  }

  lemma NothingYet(cfg: Config, id: string)
    ensures Kept(cfg, INITIAL, id)
  {
  }

  lemma {:induction false} BoundedNumbers(numbers: set<nat>, bound: nat)
    requires bound > 0 && forall n <- numbers :: 1 <= n < bound
    ensures |numbers| < bound
    decreases bound
  {
    if bound > 1 {
      var top := bound - 1;
      BoundedNumbers(numbers - {top}, top);
      assert numbers <= (numbers - {top}) + {top};
      SubsetSize(numbers, (numbers - {top}) + {top});
    } else {
      assert numbers == {};
    }
  }

  /** In memory an event that was never reset or purged, whatever happens to other events, is retried at most
      `maxAttempts - 1` times, even by deliveries whose superseded tokens the store honours again: each delivery of it
      has its own attempt number, and each retry is that of one delivery. */
  lemma MemoryRetriesAtMost(cfg: Config, steps: seq<Step>, id: string)
    requires MemoryConfig(cfg) && NeverReset(cfg, steps, id) && id in Run(cfg, steps).outbox
    ensures var s := Run(cfg, steps);
            && RetriesOf(s, id) <= cfg.maxAttempts - 1
            && RetriesOf(s, id) == |RetriedAttempts(s, id)|
            && forall d, e | 0 <= d < e < |s.deliveries| && s.deliveries[d].id == s.deliveries[e].id == id ::
                 s.deliveries[d].attempts != s.deliveries[e].attempts
  {
    EveryRunKeeps(cfg, steps, id);
    BoundedNumbers(RetriedAttempts(Run(cfg, steps), id), cfg.maxAttempts);
  }
}

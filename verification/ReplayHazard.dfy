/** Why the delivery theorem excludes replays: a run over the Postgres store in which a replayed event is dispatched
    although the consumer of the completing worker has not consumed it since. The completing worker stalls between the
    call that completes its inbox entry and the one that completes the outbox row. */
module ReplayHazard {
  import opened Collections
  import opened OutboxRows
  import opened DeliveryProtocol
  import DeliverySafety

  /** Worker `a` has the one consumer `c`, other workers have none. */
  function Example(a: string, c: string): Config {
    Config(Postgres, 8, (worker, etype) => if worker == a then {c} else {})
  }

  /** `a` consumes the event and stalls; `b` takes the lease over and, having no consumer for it,
      dead-letters the event; a replay forgets that `c` consumed it; `a` claims it again. */
  function Steps(a: string, b: string, c: string, id: string, etype: string, code: string): seq<Step> {
    [AtStore(Append(id, etype, false, 0, None, 0)),
     AtStore(ClaimDue(a, id, 0, 30_000, true)),
     AtConsumer(0, c, InboxClaim(0, true)),
     AtConsumer(0, c, InboxComplete(true)),
     AtStore(ClaimDue(b, id, 30_001, 30_000, true)),
     AtDelivery(1, FailDelivery),
     AtDelivery(1, SettleFailure(true, 0, code, 30_002)),
     AtStore(Replay(id, 30_003, true)),
     AtStore(ClaimDue(a, id, 30_004, 30_000, true))]
  }

  /** The row of the example in a given state of its life. */
  function At(id: string, etype: string, status: Status, attempts: nat, next: int,
              owner: Option<string>, until: Option<int>,
              updatedAt: int, code: Option<string>): map<string, Slot>
  {
    map[id := PostgresSlot(etype, false, Row(status, attempts, Some(next), owner, until, None, 0, updatedAt, code))]
  }

  function First(a: string, c: string, id: string, etype: string, phase: RunPhase): Delivery {
    Delivery(a, id, etype, false, 1, 1, map[c := phase], Consuming)
  }

  function Second(b: string, id: string, etype: string, phase: Phase): Delivery {
    Delivery(b, id, etype, false, 2, 2, map[], phase)
  }

  lemma FirstAppend(cfg: Config, id: string, etype: string)
    requires cfg.backend.Postgres?
    ensures Run(cfg, []) == INITIAL
    ensures var s' := StoreNext(cfg, INITIAL, Append(id, etype, false, 0, None, 0));
            s'.outbox == At(id, etype, Queued, 0, 0, None, None, 0, None) && s'.deliveries == [] && s'.inbox == map[]
  {
  }

  lemma FirstClaim(s: System, a: string, c: string, id: string, etype: string)
    requires s.outbox == At(id, etype, Queued, 0, 0, None, None, 0, None) && s.deliveries == []
    ensures var s' := StoreNext(Example(a, c), s, ClaimDue(a, id, 0, 30_000, true));
            && s'.outbox == At(id, etype, Dispatching, 1, 0, Some(a), Some(30_000), 0, None)
            && s'.deliveries == [First(a, c, id, etype, Waiting)] && s'.inbox == s.inbox
  {
    var s' := StoreNext(Example(a, c), s, ClaimDue(a, id, 0, 30_000, true));
    assert s'.deliveries[0].runs == map[c := Waiting];
  }

  lemma Consume(s: System, a: string, c: string, id: string, etype: string)
    requires s.deliveries == [First(a, c, id, etype, Waiting)] && s.inbox == map[]
    ensures var s' := ConsumerNext(s, 0, c, InboxClaim(0, true));
            && s'.deliveries == [First(a, c, id, etype, Holding)] && s'.outbox == s.outbox
            && (c, id) in s'.inbox && s'.inbox[(c, id)].owner == 0
  {
    assert map[c := Waiting][c := Holding] == map[c := Holding];
  }

  lemma Finish(s: System, a: string, c: string, id: string, etype: string)
    requires s.deliveries == [First(a, c, id, etype, Holding)] && (c, id) in s.inbox && s.inbox[(c, id)].owner == 0
    ensures var s' := ConsumerNext(s, 0, c, InboxComplete(true));
            s'.deliveries == [First(a, c, id, etype, Succeeded)] && s'.outbox == s.outbox
  {
    assert map[c := Holding][c := Succeeded] == map[c := Succeeded];
  }

  lemma TakeOver(s: System, a: string, b: string, c: string, id: string, etype: string)
    requires a != b && s.deliveries == [First(a, c, id, etype, Succeeded)]
    requires s.outbox == At(id, etype, Dispatching, 1, 0, Some(a), Some(30_000), 0, None)
    ensures var s' := StoreNext(Example(a, c), s, ClaimDue(b, id, 30_001, 30_000, true));
            && s'.deliveries == [First(a, c, id, etype, Succeeded), Second(b, id, etype, Consuming)]
            && s'.outbox == At(id, etype, Dispatching, 2, 0, Some(b), Some(60_001), 30_001, None)
  {
    var s' := StoreNext(Example(a, c), s, ClaimDue(b, id, 30_001, 30_000, true));
    assert s'.deliveries[1].runs == map[];
  }

  lemma Bury(s: System, a: string, b: string, c: string, id: string, etype: string, code: string)
    requires s.deliveries == [First(a, c, id, etype, Succeeded), Second(b, id, etype, Consuming)]
    requires s.outbox == At(id, etype, Dispatching, 2, 0, Some(b), Some(60_001), 30_001, None)
    ensures |DeliveryNext(Example(a, c), s, 1, FailDelivery).deliveries| == 2
    ensures var s' := DeliveryNext(Example(a, c), s, 1, FailDelivery);
            var s'' := DeliveryNext(Example(a, c), s', 1, SettleFailure(true, 0, code, 30_002));
            && s''.deliveries == [First(a, c, id, etype, Succeeded), Second(b, id, etype, DeadLettered)]
            && s''.outbox == At(id, etype, Dead, 2, 0, None, None, 30_002, Some(code))
  {
  }

  lemma Replayed(s: System, a: string, b: string, c: string, id: string, etype: string, code: string)
    requires s.deliveries == [First(a, c, id, etype, Succeeded), Second(b, id, etype, DeadLettered)]
    requires s.outbox == At(id, etype, Dead, 2, 0, None, None, 30_002, Some(code))
    ensures var s' := StoreNext(Example(a, c), s, Replay(id, 30_003, true));
            && s'.deliveries == s.deliveries && (0, c) in s'.forgotten && (c, id) !in s'.inbox
            && s'.outbox == At(id, etype, Queued, 0, 30_003, None, None, 30_003, None)
  {
    assert c in s.deliveries[0].runs && Consumed(s.deliveries[0].runs[c]);
  }

  lemma Reclaimed(s: System, a: string, c: string, id: string, etype: string)
    requires |s.deliveries| == 2 && s.deliveries[0] == First(a, c, id, etype, Succeeded)
    requires s.outbox == At(id, etype, Queued, 0, 30_003, None, None, 30_003, None)
    ensures var s' := StoreNext(Example(a, c), s, ClaimDue(a, id, 30_004, 30_000, true));
            && s'.forgotten == s.forgotten && s'.inbox == s.inbox
            && s'.deliveries[0] == s.deliveries[0]
            && DeliverySafety.CompletionAccepted(s', 0, 30_005)
  {
    assert c in s.deliveries[0].runs;
  }

  lemma Overtaken(a: string, b: string, c: string, id: string, etype: string, code: string)
    requires a != b
    ensures var s := Run(Example(a, c), Steps(a, b, c, id, etype, code)[..5]);
            && s.deliveries == [First(a, c, id, etype, Succeeded), Second(b, id, etype, Consuming)]
            && s.outbox == At(id, etype, Dispatching, 2, 0, Some(b), Some(60_001), 30_001, None)
  {
    hide Run, StoreNext, ConsumerNext;
    var cfg, steps := Example(a, c), Steps(a, b, c, id, etype, code);
    assert steps[..0] == [];
    RunPrefix(cfg, steps, 0);
    FirstAppend(cfg, id, etype);
    RunPrefix(cfg, steps, 1);
    FirstClaim(Run(cfg, steps[..1]), a, c, id, etype);
    RunPrefix(cfg, steps, 2);
    Consume(Run(cfg, steps[..2]), a, c, id, etype);
    RunPrefix(cfg, steps, 3);
    Finish(Run(cfg, steps[..3]), a, c, id, etype);
    RunPrefix(cfg, steps, 4);
    TakeOver(Run(cfg, steps[..4]), a, b, c, id, etype);
  }

  /** Replaying is not harmless to a stalled delivery: with the attempts reset, the store honours its token again, and
      completing dispatches an event whose consumption was forgotten and has not been repeated. */
  lemma ReplayUndoesConsumption(
    a: string, b: string, c: string, id: string, etype: string, code: string)
    requires a != b
    ensures var s := Run(Example(a, c), Steps(a, b, c, id, etype, code));
            && DeliverySafety.CompletionAccepted(s, 0, 30_005) && (0, c) in s.forgotten
            && c in Example(a, c).matching(s.deliveries[0].worker, s.deliveries[0].etype)
            && !DeliverySafety.ConsumedIn(s, c, s.deliveries[0].id)
  {
    hide Run, StoreNext, DeliveryNext;
    var cfg, steps := Example(a, c), Steps(a, b, c, id, etype, code);
    assert steps[..9] == steps;
    Overtaken(a, b, c, id, etype, code);
    RunPrefix(cfg, steps, 5);
    RunPrefix(cfg, steps, 6);
    Bury(Run(cfg, steps[..5]), a, b, c, id, etype, code);
    RunPrefix(cfg, steps, 7);
    Replayed(Run(cfg, steps[..7]), a, b, c, id, etype, code);
    RunPrefix(cfg, steps, 8);
    Reclaimed(Run(cfg, steps[..8]), a, c, id, etype);
  }
}

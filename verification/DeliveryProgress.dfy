/** That deliveries get somewhere: an event that is appended can be claimed from its time on, and a worker that is
    left in peace consumes it with every consumer it registered and dispatches it. */
module DeliveryProgress {
  import opened Collections
  import opened OutboxRows
  import opened DeliveryProtocol
  import BoundedRetries
  import Inbox

  /** The system after further steps. */
  function Play(cfg: Config, s: System, steps: seq<Step>): System {
    if steps == [] then s else Next(cfg, Play(cfg, s, steps[..|steps| - 1]), steps[|steps| - 1])
  }

  lemma {:induction false} PlayMore(cfg: Config, s: System, first: seq<Step>, more: seq<Step>)
    ensures Play(cfg, s, first + more) == Play(cfg, Play(cfg, s, first), more)
  {
    hide Next;
    if more == [] {
      assert first + more == first;
    } else {
      assert (first + more)[..|first + more| - 1] == first + more[..|more| - 1];
      PlayMore(cfg, s, first, more[..|more| - 1]);
    }
  }

  lemma PlayOne(cfg: Config, s: System, step: Step)
    ensures Play(cfg, s, [step]) == Next(cfg, s, step)
  {
    hide Next;
    assert [step][..0] == [];
  }

  lemma PlayTwo(cfg: Config, s: System, first: Step, second: Step)
    ensures Play(cfg, s, [first, second]) == Next(cfg, Next(cfg, s, first), second)
  {
    hide Next;
    assert [first, second][..1] == [first];
    PlayOne(cfg, s, first);
  }

  /** Each consumer claims its entry and completes it. */
  function Consume(d: nat, cs: seq<string>, now: int): seq<Step> {
    if cs == [] then []
    else Consume(d, cs[..|cs| - 1], now)
         + [AtConsumer(d, cs[|cs| - 1], InboxClaim(now, true)), AtConsumer(d, cs[|cs| - 1], InboxComplete(true))]
  }

  /** The delivery has just begun: it waits with every run, and nobody has touched its entries. */
  predicate Untouched(s: System, d: nat) {
    && d < |s.deliveries| && s.deliveries[d].phase.Consuming?
    && forall c <- s.deliveries[d].runs :: s.deliveries[d].runs[c].Waiting? && (c, s.deliveries[d].id) !in s.inbox
  }

  predicate Distinctly(cs: seq<string>) { forall i, j :: 0 <= i < j < |cs| ==> cs[i] != cs[j] }

  /** How far the consumers are: those listed have consumed the event, the others have not begun. */
  predicate ConsumedBy(s: System, t: System, d: nat, cs: seq<string>)
    requires d < |s.deliveries|
  {
    && t == s.(deliveries := t.deliveries, inbox := t.inbox) && |t.deliveries| == |s.deliveries|
    && t.deliveries[d] == s.deliveries[d].(runs := t.deliveries[d].runs)
    && t.deliveries[d].runs.Keys == s.deliveries[d].runs.Keys
    && forall c <- s.deliveries[d].runs ::
         if c in cs
         then && t.deliveries[d].runs[c].Succeeded?
              && (c, s.deliveries[d].id) in t.inbox && t.inbox[(c, s.deliveries[d].id)].complete
         else t.deliveries[d].runs[c].Waiting? && (c, s.deliveries[d].id) !in t.inbox
  }

  lemma OneConsumes(s: System, d: nat, c: string, now: int)
    requires d < |s.deliveries| && s.deliveries[d].phase.Consuming? && c in s.deliveries[d].runs
    requires s.deliveries[d].runs[c].Waiting? && (c, s.deliveries[d].id) !in s.inbox
    ensures var key := (c, s.deliveries[d].id);
            var t := ConsumerNext(ConsumerNext(s, d, c, InboxClaim(now, true)), d, c, InboxComplete(true));
            && t == s.(deliveries := s.deliveries[d := s.deliveries[d].(runs := s.deliveries[d].runs[c := Succeeded])],
                       inbox := s.inbox[key := Inbox.Entry(key.1, d, now + 30_000, true)])
  {
    var key, v := (c, s.deliveries[d].id), s.deliveries[d];
    var s1 := ConsumerNext(s, d, c, InboxClaim(now, true));
    assert s1 == s.(deliveries := s.deliveries[d := v.(runs := v.runs[c := Holding])],
                    inbox := s.inbox[key := Inbox.Entry(key.1, d, now + 30_000, false)]);
    assert v.runs[c := Holding][c := Succeeded] == v.runs[c := Succeeded];
    var t := ConsumerNext(s1, d, c, InboxComplete(true));
    assert t.inbox == s.inbox[key := Inbox.Entry(key.1, d, now + 30_000, true)];
    assert t.deliveries == s.deliveries[d := v.(runs := v.runs[c := Succeeded])];
  }

  lemma ConsumedMore(s: System, t: System, d: nat, front: seq<string>, c: string, now: int)
    requires d < |s.deliveries| && ConsumedBy(s, t, d, front) && c in s.deliveries[d].runs && c !in front
    ensures var v, key := t.deliveries[d], (c, s.deliveries[d].id);
            ConsumedBy(s, t.(deliveries := t.deliveries[d := v.(runs := v.runs[c := Succeeded])],
                             inbox := t.inbox[key := Inbox.Entry(key.1, d, now + 30_000, true)]), d, front + [c])
  {
  }

  lemma {:induction false} AllConsume(cfg: Config, s: System, d: nat, cs: seq<string>, now: int)
    requires Untouched(s, d) && Distinctly(cs) && forall c <- cs :: c in s.deliveries[d].runs
    ensures ConsumedBy(s, Play(cfg, s, Consume(d, cs, now)), d, cs)
  {
    if cs == [] {
      assert Play(cfg, s, Consume(d, cs, now)) == s;
    } else {
      hide ConsumerNext, Play;
      var front, c := cs[..|cs| - 1], cs[|cs| - 1];
      assert cs == front + [c] && c !in front;
      AllConsume(cfg, s, d, front, now);
      var t := Play(cfg, s, Consume(d, front, now));
      var claim, complete := AtConsumer(d, c, InboxClaim(now, true)), AtConsumer(d, c, InboxComplete(true));
      PlayMore(cfg, s, Consume(d, front, now), [claim, complete]);
      PlayTwo(cfg, t, claim, complete);
      BoundedRetries.ConsumerFrame(t, d, c, InboxClaim(now, true));
      OneConsumes(t, d, c, now);
      ConsumedMore(s, t, d, front, c, now);
    }
  }

  /** What the worker does once its consumers are done. */
  function Conclude(d: nat, bound: bool, now: int): seq<Step> {
    if bound then [AtDelivery(d, Deliver), AtDelivery(d, CompleteDelivery(now, true))]
    else [AtDelivery(d, CompleteDelivery(now, true))]
  }

  lemma Concludes(cfg: Config, s: System, d: nat, now: int)
    requires d < |s.deliveries| && s.deliveries[d].phase.Consuming? && AllConsumed(s.deliveries[d])
    requires s.deliveries[d].bound || s.deliveries[d].runs != map[]
    requires var v := s.deliveries[d]; CallOutbox(s, v.id, Complete(v.worker, v.generation, now)).Some?
    ensures var t, v := Play(cfg, s, Conclude(d, s.deliveries[d].bound, now)), s.deliveries[d];
            && d < |t.deliveries| && t.deliveries[d].phase.Completed? && t.inbox == s.inbox
            && v.id in t.outbox && SlotStatus(t.outbox[v.id]).Dispatched? && t.completedBy == s.completedBy[v.id := d]
  {
    var deliver, complete := AtDelivery(d, Deliver), AtDelivery(d, CompleteDelivery(now, true));
    hide Play, SlotStep, SlotStatus;
    PlayTwo(cfg, s, deliver, complete);
    PlayOne(cfg, s, complete);
    Dispatches(s, s.deliveries[d].id, s.deliveries[d].worker, s.deliveries[d].generation, now);
  }

  lemma Dispatches(s: System, id: string, worker: string, generation: nat, now: int)
    requires CallOutbox(s, id, Complete(worker, generation, now)).Some?
    ensures var t := CallOutbox(s, id, Complete(worker, generation, now)).value;
            id in t.outbox && SlotStatus(t.outbox[id]).Dispatched?
  {
  }

  /** A worker that nobody disturbs, with a token that is still good, consumes the event with every consumer it
      registered for the type and dispatches it. */
  lemma DeliversInPeace(cfg: Config, s: System, d: nat, cs: seq<string>, now: int)
    requires Untouched(s, d) && Distinctly(cs) && (forall c :: c in cs <==> c in s.deliveries[d].runs)
    requires s.deliveries[d].bound || cs != []
    requires var v := s.deliveries[d]; CallOutbox(s, v.id, Complete(v.worker, v.generation, now)).Some?
    ensures var v := s.deliveries[d]; var t := Play(cfg, s, Consume(d, cs, now) + Conclude(d, v.bound, now));
            && d < |t.deliveries| && t.deliveries[d].phase.Completed?
            && v.id in t.outbox && SlotStatus(t.outbox[v.id]).Dispatched? && t.completedBy == s.completedBy[v.id := d]
            && forall c <- v.runs :: (c, v.id) in t.inbox && t.inbox[(c, v.id)].complete
  {
    hide SlotStep, SlotStatus, Play;
    var v, t := s.deliveries[d], Play(cfg, s, Consume(d, cs, now));
    AllConsume(cfg, s, d, cs, now);
    PlayMore(cfg, s, Consume(d, cs, now), Conclude(d, v.bound, now));
    if cs != [] { assert cs[0] in t.deliveries[d].runs; }
    Concludes(cfg, t, d, now);
  }

  /** Whatever the backend: an event that is appended can be claimed from the time it is available until it expires,
      the claim begins a delivery that waits with a run for every consumer its worker registered, and that delivery's
      token is good. */
  lemma AppendedIsDelivered(cfg: Config, s: System, id: string, etype: string, bound: bool, availableAt: int,
                            expiry: Option<int>, at: int, worker: string, now: int, leaseMs: int, later: int)
    requires id !in s.outbox && availableAt <= now && (expiry.Some? ==> now < expiry.value)
    ensures var appended := StoreNext(cfg, s, Append(id, etype, bound, availableAt, expiry, at));
            var t := StoreNext(cfg, appended, ClaimDue(worker, id, now, leaseMs, true));
            && |t.deliveries| == |s.deliveries| + 1
            && var v := t.deliveries[|s.deliveries|];
               && v.id == id && v.worker == worker && v.etype == etype && v.bound == bound && v.attempts == 1
               && v.phase.Consuming? && v.runs.Keys == cfg.matching(worker, etype)
               && (forall c <- v.runs :: v.runs[c].Waiting?)
               && CallOutbox(t, id, Complete(worker, v.generation, later)).Some?
  {
  }

  /** No run of the delivery is under way. */
  predicate Resting(v: Delivery) { forall c <- v.runs :: v.runs[c] != Waiting && v.runs[c] != Holding }

  /** A poisoned event is buried before any consumer has begun, if the token is good. */
  lemma PoisonEnds(cfg: Config, s: System, d: nat, code: string, now: int)
    requires d < |s.deliveries| && s.deliveries[d].phase.Consuming?
    requires forall c <- s.deliveries[d].runs :: s.deliveries[d].runs[c] == Waiting
    ensures var v := s.deliveries[d]; var t := DeliveryNext(cfg, s, d, Poison(code, now));
            && d < |t.deliveries|
            && if CallOutbox(s, v.id, DeadLetter(v.worker, v.generation, code, now)).Some?
               then t.deliveries[d].phase.DeadLettered? && v.id in t.outbox && SlotStatus(t.outbox[v.id]).Dead?
               else t.deliveries[d].phase.LeaseLost? && t.outbox == s.outbox
  {
    var v := s.deliveries[d];
    Buries(s, v.id, v.worker, v.generation, code, now);
    hide SlotStep, SlotStatus;
  }

  /** A delivery fails once its runs are over, not before. */
  lemma FailureBegins(cfg: Config, s: System, d: nat)
    requires d < |s.deliveries|
    ensures var v := s.deliveries[d]; var t := DeliveryNext(cfg, s, d, FailDelivery);
            && d < |t.deliveries|
            && t.deliveries[d].phase == if (v.phase.Consuming? || v.phase.Delivered?) && Resting(v)
               then Failing else v.phase
  {
    hide CallOutbox;
  }

  /** A completion that is refused, or whose answer is lost, fails the delivery. */
  lemma CompletionEnds(cfg: Config, s: System, d: nat, now: int, received: bool)
    requires d < |s.deliveries| && ReadyToComplete(s.deliveries[d])
    ensures var v := s.deliveries[d]; var t := DeliveryNext(cfg, s, d, CompleteDelivery(now, received));
            var granted := CallOutbox(s, v.id, Complete(v.worker, v.generation, now)).Some?;
            d < |t.deliveries| && t.deliveries[d].phase == if granted && received then Completed else Failing
  {
    hide SlotStep, ReadyToComplete;
  }

  /** A delivery whose token is refused when it reports its failure leaves the event alone. */
  lemma LostTokenEnds(cfg: Config, s: System, d: nat, permanent: bool, retryAfter: int, code: string, now: int)
    requires d < |s.deliveries| && s.deliveries[d].phase.Failing?
    requires CallOutbox(s, s.deliveries[d].id, SettleOp(cfg, s.deliveries[d], permanent, retryAfter, code, now)).None?
    ensures var t := DeliveryNext(cfg, s, d, SettleFailure(permanent, retryAfter, code, now));
            d < |t.deliveries| && t.deliveries[d].phase.LeaseLost? && t.outbox == s.outbox
  {
    hide SlotStep, SettleOp;
  }

  lemma Buries(s: System, id: string, worker: string, generation: nat, code: string, now: int)
    ensures var t := CallOutbox(s, id, DeadLetter(worker, generation, code, now));
            t.Some? ==> id in t.value.outbox && SlotStatus(t.value.outbox[id]).Dead?
  {
  }
}

/** Who may work on a pair of consumer and event, told from the steps: who was granted the pair last, until when that
    grant lasts, and whether it was given back or forgotten since. */
module InboxLeases {
  import opened Collections
  import opened DeliveryProtocol
  import opened DeliverySafety
  import opened ConsumptionHistory
  import BoundedRetries
  import Inbox

  /** The answer to a claim of the pair by the delivery `d` at the given time. */
  function AnswerTo(s: System, d: nat, c: string, now: int): Inbox.InboxReply
    requires d < |s.deliveries|
  {
    CallInbox(s, (c, s.deliveries[d].id), Inbox.Claim(d, now + 30_000, now)).0
  }

  /** The step is a claim of the pair that is granted, whether or not the answer arrives. */
  predicate GrantedTo(s: System, step: Step, d: nat, c: string) {
    && step.AtConsumer? && step.d == d && step.c == c && step.consumer.InboxClaim?
    && RunAt(s, d, c, Waiting) && AnswerTo(s, d, c, step.consumer.now).Claimed?
  }

  predicate Renewed(s: System, step: Step, d: nat, c: string) {
    && step.AtConsumer? && step.d == d && step.c == c && step.consumer.InboxRenew? && RunAt(s, d, c, Holding)
    && CallInbox(s, (c, s.deliveries[d].id), Inbox.Renew(d, step.consumer.leaseUntil)).0.Yes?
  }

  /** The end of the run's last granted lease: half a minute after its claim, or what its last renewal says. */
  ghost function LeaseOf(cfg: Config, steps: seq<Step>, d: nat, c: string): int {
    if steps == [] then 0
    else
      var front, step := steps[..|steps| - 1], steps[|steps| - 1];
      if GrantedTo(Run(cfg, front), step, d, c) then step.consumer.now + 30_000
      else if Renewed(Run(cfg, front), step, d, c) then step.consumer.leaseUntil
      else LeaseOf(cfg, front, d, c)
  }

  predicate GivesUp(s: System, step: Step, d: nat, c: string) {
    step.AtConsumer? && step.d == d && step.c == c && step.consumer.FailRun? && RunAt(s, d, c, Holding)
  }

  /** The delivery that was granted the pair last, unless it gave the pair back or the event was forgotten since. */
  ghost function Taken(cfg: Config, steps: seq<Step>, c: string, id: string): Option<nat> {
    if steps == [] then None
    else
      var front, step := steps[..|steps| - 1], steps[|steps| - 1];
      var s, before := Run(cfg, front), Taken(cfg, front, c, id);
      if Forgets(s, step, id) then None
      else if step.AtConsumer? && step.d < |s.deliveries| && s.deliveries[step.d].id == id then
        if GrantedTo(s, step, step.d, c) then Some(step.d)
        else if before == Some(step.d) && GivesUp(s, step, step.d, c) then None
        else before
      else before
  }

  // -------------------------------------------------------------- invariant

  /** The run of the owner is past its claim, and while it works the entry is not complete. */
  predicate OwnerWorks(s: System, d: nat, c: string, id: string, complete: bool) {
    && d < |s.deliveries| && s.deliveries[d].id == id && c in s.deliveries[d].runs
    && !s.deliveries[d].runs[c].Waiting? && (s.deliveries[d].runs[c].Holding? ==> !complete)
  }

  ghost predicate EntryTold(s: System, c: string, id: string, taken: Option<nat>, until: int) {
    && ((c, id) in s.inbox <==> taken.Some?)
    && (taken.Some? ==>
          var e := s.inbox[(c, id)];
          && e.owner == taken.value && (!e.complete ==> e.expiresAt == until)
          && OwnerWorks(s, e.owner, c, id, e.complete))
  }

  ghost predicate EntryToldAt(cfg: Config, steps: seq<Step>, c: string, id: string) {
    var taken := Taken(cfg, steps, c, id);
    EntryTold(Run(cfg, steps), c, id, taken, if taken.Some? then LeaseOf(cfg, steps, taken.value, c) else 0)
  }

  /** Nothing about the pair changes, and no run of it starts over. */
  lemma Elsewhere(s: System, t: System, c: string, id: string, taken: Option<nat>, until: int)
    requires EntryTold(s, c, id, taken, until)
    requires (c, id) in t.inbox <==> (c, id) in s.inbox
    requires (c, id) in s.inbox ==> t.inbox[(c, id)] == s.inbox[(c, id)]
    requires |s.deliveries| <= |t.deliveries|
    requires forall d | 0 <= d < |s.deliveries| && s.deliveries[d].id == id ::
               && t.deliveries[d].id == id && t.deliveries[d].runs.Keys == s.deliveries[d].runs.Keys
               && (c in s.deliveries[d].runs ==> t.deliveries[d].runs[c] == s.deliveries[d].runs[c])
    ensures EntryTold(t, c, id, taken, until)
  {
  }

  lemma StoreEntry(cfg: Config, s: System, call: StoreCall, c: string, id: string, taken: Option<nat>, until: int)
    requires EntryTold(s, c, id, taken, until)
    ensures var t := StoreNext(cfg, s, call);
            if Forgets(s, AtStore(call), id) then EntryTold(t, c, id, None, 0) else EntryTold(t, c, id, taken, until)
  {
    hide SlotStep, Purgeable, NewSlot, Begin, EntryTold;
    var t := StoreNext(cfg, s, call);
    StoreInbox(cfg, s, call, c, id);
    if Forgets(s, AtStore(call), id) {
      NotTaken(t, c, id);
    } else {
      Elsewhere(s, t, c, id, taken, until);
    }
  }

  lemma NotTaken(s: System, c: string, id: string)
    requires (c, id) !in s.inbox
    ensures EntryTold(s, c, id, None, 0)
  {
  }

  lemma StoreInbox(cfg: Config, s: System, call: StoreCall, c: string, id: string)
    ensures var t := StoreNext(cfg, s, call);
            && |s.deliveries| <= |t.deliveries|
            && (forall d | 0 <= d < |s.deliveries| :: t.deliveries[d] == s.deliveries[d])
            && ((c, id) in t.inbox <==> (c, id) in s.inbox && !Forgets(s, AtStore(call), id))
            && ((c, id) in t.inbox ==> t.inbox[(c, id)] == s.inbox[(c, id)])
  {
    hide SlotStep, Purgeable, NewSlot, Begin;
  }

  lemma CallInboxFrame(s: System, key: Inbox.Key, op: Inbox.InboxOp<nat>)
    ensures var t := CallInbox(s, key, op).1;
            && t.deliveries == s.deliveries
            && (forall k | k != key :: (k in t.inbox <==> k in s.inbox) && (k in t.inbox ==> t.inbox[k] == s.inbox[k]))
  {
    hide Inbox.EntryStep;
  }

  lemma ConsumerInboxElsewhere(s: System, d: nat, c: string, call: ConsumerCall, k: Inbox.Key)
    requires d < |s.deliveries| && k != (c, s.deliveries[d].id)
    ensures var t := ConsumerNext(s, d, c, call);
            (k in t.inbox <==> k in s.inbox) && (k in t.inbox ==> t.inbox[k] == s.inbox[k])
  {
    hide CallInbox, RunAt;
    var key := (c, s.deliveries[d].id);
    match call
    case InboxClaim(now, _) => CallInboxFrame(s, key, Inbox.Claim(d, now + 30_000, now));
    case InboxRenew(leaseUntil) => CallInboxFrame(s, key, Inbox.Renew(d, leaseUntil));
    case InboxComplete(_) =>
      CallInboxFrame(s, key, Inbox.Complete(d));
      CallInboxFrame(CallInbox(s, key, Inbox.Complete(d)).1, key, Inbox.Release(d));
    case FailRun => CallInboxFrame(s, key, Inbox.Release(d));
  }

  /** Only the run of the consumer may have another phase. */
  predicate OneRun(s: System, t: System, d: nat, c: string)
    requires d < |s.deliveries|
  {
    && |t.deliveries| == |s.deliveries| && t.deliveries[d].runs.Keys == s.deliveries[d].runs.Keys
    && (forall r <- s.deliveries[d].runs | r != c :: t.deliveries[d].runs[r] == s.deliveries[d].runs[r])
  }

  lemma SetRunElsewhere(s: System, next: System, d: nat, c: string, phase: RunPhase)
    requires d < |s.deliveries| && next.deliveries == s.deliveries && c in s.deliveries[d].runs
    ensures OneRun(s, SetRun(next, d, c, phase), d, c)
  {
  }

  lemma ConsumerRunsElsewhere(s: System, d: nat, c: string, call: ConsumerCall)
    requires d < |s.deliveries|
    ensures OneRun(s, ConsumerNext(s, d, c, call), d, c)
  {
    hide CallInbox, SetRun;
    var key := (c, s.deliveries[d].id);
    if c in s.deliveries[d].runs {
      forall next: System, phase | next.deliveries == s.deliveries ensures OneRun(s, SetRun(next, d, c, phase), d, c) {
        SetRunElsewhere(s, next, d, c, phase);
      }
    }
    match call
    case InboxClaim(now, _) => CallInboxFrame(s, key, Inbox.Claim(d, now + 30_000, now));
    case InboxRenew(leaseUntil) => CallInboxFrame(s, key, Inbox.Renew(d, leaseUntil));
    case InboxComplete(_) =>
      CallInboxFrame(s, key, Inbox.Complete(d));
      CallInboxFrame(CallInbox(s, key, Inbox.Complete(d)).1, key, Inbox.Release(d));
    case FailRun => CallInboxFrame(s, key, Inbox.Release(d));
  }

  /** One consumer's call leaves other pairs and other runs alone. */
  lemma ConsumerElsewhere(s: System, d: nat, c: string, call: ConsumerCall)
    requires d < |s.deliveries|
    ensures var t, key := ConsumerNext(s, d, c, call), (c, s.deliveries[d].id);
            && (forall k | k != key :: (k in t.inbox <==> k in s.inbox) && (k in t.inbox ==> t.inbox[k] == s.inbox[k]))
            && |t.deliveries| == |s.deliveries|
            && (forall e | 0 <= e < |s.deliveries| ::
                  && t.deliveries[e].id == s.deliveries[e].id && t.deliveries[e].runs.Keys == s.deliveries[e].runs.Keys
                  && (forall r <- s.deliveries[e].runs | e != d || r != c ::
                        t.deliveries[e].runs[r] == s.deliveries[e].runs[r]))
  {
    hide ConsumerNext;
    BoundedRetries.ConsumerFrame(s, d, c, call);
    ConsumerRunsElsewhere(s, d, c, call);
    var t := ConsumerNext(s, d, c, call);
    forall k | k != (c, s.deliveries[d].id)
      ensures (k in t.inbox <==> k in s.inbox) && (k in t.inbox ==> t.inbox[k] == s.inbox[k])
    {
      ConsumerInboxElsewhere(s, d, c, call, k);
    }
  }

  lemma OwnClaim(s: System, d: nat, c: string, call: ConsumerCall, taken: Option<nat>, until: int)
    requires d < |s.deliveries| && EntryTold(s, c, s.deliveries[d].id, taken, until) && call.InboxClaim?
    ensures var t, id := ConsumerNext(s, d, c, call), s.deliveries[d].id;
            if GrantedTo(s, AtConsumer(d, c, call), d, c) then EntryTold(t, c, id, Some(d), call.now + 30_000)
            else EntryTold(t, c, id, taken, until)
  {
  }

  lemma OwnRenewal(s: System, d: nat, c: string, call: ConsumerCall, taken: Option<nat>, until: int)
    requires d < |s.deliveries| && EntryTold(s, c, s.deliveries[d].id, taken, until) && call.InboxRenew?
    ensures var t, id := ConsumerNext(s, d, c, call), s.deliveries[d].id;
            && (Renewed(s, AtConsumer(d, c, call), d, c) ==> taken == Some(d))
            && EntryTold(t, c, id, taken, if Renewed(s, AtConsumer(d, c, call), d, c) then call.leaseUntil else until)
  {
  }

  lemma OwnCompletion(s: System, d: nat, c: string, call: ConsumerCall, taken: Option<nat>, until: int)
    requires d < |s.deliveries| && EntryTold(s, c, s.deliveries[d].id, taken, until) && call.InboxComplete?
    ensures EntryTold(ConsumerNext(s, d, c, call), c, s.deliveries[d].id, taken, until)
  {
  }

  lemma OwnFailure(s: System, d: nat, c: string, call: ConsumerCall, taken: Option<nat>, until: int)
    requires d < |s.deliveries| && EntryTold(s, c, s.deliveries[d].id, taken, until) && call.FailRun?
    ensures var t, id := ConsumerNext(s, d, c, call), s.deliveries[d].id;
            if taken == Some(d) && GivesUp(s, AtConsumer(d, c, call), d, c) then EntryTold(t, c, id, None, 0)
            else EntryTold(t, c, id, taken, until)
  {
  }

  lemma RunNext(cfg: Config, front: seq<Step>, step: Step)
    ensures Run(cfg, front + [step]) == Next(cfg, Run(cfg, front), step) && (front + [step])[..|front|] == front
  {
    assert (front + [step])[..|front|] == front;
  }

  lemma ConsumerTold(cfg: Config, front: seq<Step>, d: nat, c: string, call: ConsumerCall, run: string, id: string)
    requires EntryToldAt(cfg, front, run, id) && d < |Run(cfg, front).deliveries|
    ensures EntryToldAt(cfg, front + [AtConsumer(d, c, call)], run, id)
  {
    hide Run, ConsumerNext, EntryTold, GrantedTo, Renewed, GivesUp;
    var s, step, taken := Run(cfg, front), AtConsumer(d, c, call), Taken(cfg, front, run, id);
    RunNext(cfg, front, step);
    var until := if taken.Some? then LeaseOf(cfg, front, taken.value, run) else 0;
    if c == run && s.deliveries[d].id == id {
      OnlyThisCall(s, d, c, call);
      match call
      case InboxClaim(_, _) => OwnClaim(s, d, c, call, taken, until);
      case InboxRenew(_) => OwnRenewal(s, d, c, call, taken, until);
      case InboxComplete(_) => OwnCompletion(s, d, c, call, taken, until);
      case FailRun => OwnFailure(s, d, c, call, taken, until);
    } else {
      NoCallOf(s, d, c, call, run);
      ConsumerElsewhere(s, d, c, call);
      Elsewhere(s, ConsumerNext(s, d, c, call), run, id, taken, until);
      if taken.Some? { OwnersEvent(s, run, id, taken, until); }
    }
  }

  lemma OwnersEvent(s: System, c: string, id: string, taken: Option<nat>, until: int)
    requires EntryTold(s, c, id, taken, until) && taken.Some?
    ensures taken.value < |s.deliveries| && s.deliveries[taken.value].id == id
  {
  }

  lemma OnlyThisCall(s: System, d: nat, c: string, call: ConsumerCall)
    ensures var step := AtConsumer(d, c, call);
            && (GrantedTo(s, step, d, c) ==> call.InboxClaim?) && (Renewed(s, step, d, c) ==> call.InboxRenew?)
            && (GivesUp(s, step, d, c) ==> call.FailRun?)
            && (forall e | e != d :: !GrantedTo(s, step, e, c) && !Renewed(s, step, e, c))
  {
  }

  lemma NoCallOf(s: System, d: nat, c: string, call: ConsumerCall, run: string)
    ensures var step := AtConsumer(d, c, call);
            forall e | e != d || c != run ::
              !GrantedTo(s, step, e, run) && !Renewed(s, step, e, run) && !GivesUp(s, step, e, run)
  {
  }

  lemma StoreTold(cfg: Config, front: seq<Step>, call: StoreCall, c: string, id: string)
    requires EntryToldAt(cfg, front, c, id)
    ensures EntryToldAt(cfg, front + [AtStore(call)], c, id)
  {
    hide Run, StoreNext, EntryTold, Forgets;
    var s, taken := Run(cfg, front), Taken(cfg, front, c, id);
    RunNext(cfg, front, AtStore(call));
    StoreEntry(cfg, s, call, c, id, taken, if taken.Some? then LeaseOf(cfg, front, taken.value, c) else 0);
  }

  lemma DeliveryTold(cfg: Config, front: seq<Step>, d: nat, call: DeliveryCall, c: string, id: string)
    requires EntryToldAt(cfg, front, c, id)
    ensures EntryToldAt(cfg, front + [AtDelivery(d, call)], c, id)
  {
    hide Run, DeliveryNext, EntryTold;
    var s, taken := Run(cfg, front), Taken(cfg, front, c, id);
    RunNext(cfg, front, AtDelivery(d, call));
    if d < |s.deliveries| {
      DeliveryCallFrame(cfg, s, d, call);
      DeliveryCallPhase(cfg, s, d, call);
      Elsewhere(s, DeliveryNext(cfg, s, d, call), c, id, taken,
                if taken.Some? then LeaseOf(cfg, front, taken.value, c) else 0);
    }
  }

  lemma {:induction false} EveryRunTold(cfg: Config, steps: seq<Step>, c: string, id: string)
    ensures EntryToldAt(cfg, steps, c, id)
  {
    hide EntryToldAt, Next;
    if steps == [] {
      NothingTaken(cfg, c, id);
    } else {
      var front, step := steps[..|steps| - 1], steps[|steps| - 1];
      assert steps == front + [step];
      EveryRunTold(cfg, front, c, id);
      match step
      case AtStore(call) => StoreTold(cfg, front, call, c, id);
      case AtConsumer(d, r, call) =>
        if d < |Run(cfg, front).deliveries| { ConsumerTold(cfg, front, d, r, call, c, id); }
        else { NobodyCalls(cfg, front, step, c, id); }
      case AtDelivery(d, call) => DeliveryTold(cfg, front, d, call, c, id);
    }
  }

  lemma NothingTaken(cfg: Config, c: string, id: string)
    ensures EntryToldAt(cfg, [], c, id)
  {
  }

  lemma NobodyCalls(cfg: Config, front: seq<Step>, step: Step, c: string, id: string)
    requires EntryToldAt(cfg, front, c, id) && step.AtConsumer? && step.d >= |Run(cfg, front).deliveries|
    ensures EntryToldAt(cfg, front + [step], c, id)
  {
    hide Run, EntryTold;
    RunNext(cfg, front, step);
  }

  // ---------------------------------------------------------------- results

  /** How a claim of a pair is answered, exactly, after every run: as a duplicate once the pair was completed and not
      forgotten since; as busy while the delivery that was granted it last has its lease; otherwise granted. */
  lemma ClaimAnswers(cfg: Config, steps: seq<Step>, d: nat, c: string, now: int)
    requires d < |Run(cfg, steps).deliveries|
    ensures var s := Run(cfg, steps); var id := s.deliveries[d].id; var taken := Taken(cfg, steps, c, id);
            AnswerTo(s, d, c, now)
            == if LastCompleted(cfg, steps, c, id) then Inbox.Duplicate
               else if taken.Some? && LeaseOf(cfg, steps, taken.value, c) > now then Inbox.Busy
               else Inbox.Claimed
  {
    hide Run;
    var id := Run(cfg, steps).deliveries[d].id;
    EveryRunTold(cfg, steps, c, id);
    ConsumedExactly(cfg, steps, c, id);
  }

  lemma CompletionAnswer(s: System, d: nat, c: string, taken: Option<nat>, until: int)
    requires d < |s.deliveries| && EntryTold(s, c, s.deliveries[d].id, taken, until)
    ensures CallInbox(s, (c, s.deliveries[d].id), Inbox.Complete(d)).0.Yes? <==> taken == Some(d)
  {
  }

  /** What becomes of a run that waits for the pair or works on it: a claim settles it by its answer, and a completion
      succeeds exactly when the pair still is the run's and the answer arrives. */
  lemma RunOutcomes(cfg: Config, steps: seq<Step>, d: nat, c: string, call: ConsumerCall)
    requires RunAt(Run(cfg, steps), d, c, Waiting) || RunAt(Run(cfg, steps), d, c, Holding)
    ensures var s := Run(cfg, steps); var id := s.deliveries[d].id; var taken := Taken(cfg, steps, c, id);
            var t := ConsumerNext(s, d, c, call);
            && d < |t.deliveries| && c in t.deliveries[d].runs
            && t.deliveries[d].runs[c]
               == match (s.deliveries[d].runs[c], call)
                  case (Waiting, InboxClaim(now, received)) =>
                    if !received then RunFailed
                    else if LastCompleted(cfg, steps, c, id) then Duplicate
                    else if taken.Some? && LeaseOf(cfg, steps, taken.value, c) > now then Waiting
                    else Holding
                  case (Holding, InboxComplete(received)) =>
                    if received && taken == Some(d) then Succeeded else RunFailed
                  case (_, FailRun) => RunFailed
                  case (phase, _) => phase
  {
    hide Run, CallInbox, LastCompleted;
    var s := Run(cfg, steps);
    var key := (c, s.deliveries[d].id);
    EveryRunTold(cfg, steps, c, key.1);
    match call
    case InboxClaim(now, _) =>
      ClaimAnswers(cfg, steps, d, c, now);
      CallInboxFrame(s, key, Inbox.Claim(d, now + 30_000, now));
    case InboxRenew(leaseUntil) => CallInboxFrame(s, key, Inbox.Renew(d, leaseUntil));
    case InboxComplete(_) =>
      var taken := Taken(cfg, steps, c, key.1);
      CompletionAnswer(s, d, c, taken, if taken.Some? then LeaseOf(cfg, steps, taken.value, c) else 0);
      CallInboxFrame(s, key, Inbox.Complete(d));
      CallInboxFrame(CallInbox(s, key, Inbox.Complete(d)).1, key, Inbox.Release(d));
    case FailRun => CallInboxFrame(s, key, Inbox.Release(d));
  }

  // ------------------------------------------------ two runs of one pair

  predicate Works(s: System, d: nat, c: string, id: string) {
    d < |s.deliveries| && s.deliveries[d].id == id && c in s.deliveries[d].runs && s.deliveries[d].runs[c].Holding?
  }

  /** The step grants the pair to the delivery it is made by. */
  predicate Grants(s: System, step: Step, c: string, id: string) {
    step.AtConsumer? && step.d < |s.deliveries| && s.deliveries[step.d].id == id && GrantedTo(s, step, step.d, c)
  }

  /** The latest clock at which the pair was granted to anybody. */
  ghost function LatestGrant(cfg: Config, steps: seq<Step>, c: string, id: string): Option<int> {
    if steps == [] then None
    else
      var front, step := steps[..|steps| - 1], steps[|steps| - 1];
      var before := LatestGrant(cfg, front, c, id);
      if !Grants(Run(cfg, front), step, c, id) then before
      else if before.Some? && before.value > step.consumer.now then before
      else Some(step.consumer.now)
  }

  /** The run was granted the pair and the event was not forgotten since. */
  ghost predicate Unforgot(cfg: Config, steps: seq<Step>, d: nat, c: string, id: string) {
    steps != [] &&
    var front, step := steps[..|steps| - 1], steps[|steps| - 1];
    || GrantedTo(Run(cfg, front), step, d, c)
    || (!Forgets(Run(cfg, front), step, id) && Unforgot(cfg, front, d, c, id))
  }

  /** A run works on the pair because it was just granted it, or because it did before. */
  lemma WorksOn(cfg: Config, s: System, step: Step, d: nat, c: string, id: string)
    requires Works(Next(cfg, s, step), d, c, id)
    ensures GrantedTo(s, step, d, c) || (Works(s, d, c, id) && !GivesUp(s, step, d, c))
  {
    hide StoreNext, ConsumerNext, DeliveryNext, GrantedTo, GivesUp;
    match step {
      case AtStore(call) => StoreStarts(cfg, s, call, d, c, id);
      case AtConsumer(e, r, call) => if e < |s.deliveries| { ConsumerWorks(s, e, r, call, d, c, id); }
        else { NobodyGivesUp(s, step, d, c); }
      case AtDelivery(e, call) => if e < |s.deliveries| { DeliveryCallPhase(cfg, s, e, call); }
        NobodyGivesUp(s, step, d, c);
    }
  }

  lemma NobodyGivesUp(s: System, step: Step, d: nat, c: string)
    requires step.AtConsumer? ==> step.d >= |s.deliveries|
    ensures !GivesUp(s, step, d, c)
  {
  }

  lemma StoreStarts(cfg: Config, s: System, call: StoreCall, d: nat, c: string, id: string)
    requires Works(StoreNext(cfg, s, call), d, c, id)
    ensures Works(s, d, c, id) && !GivesUp(s, AtStore(call), d, c)
  {
    hide SlotStep, Purgeable, NewSlot;
  }

  lemma ConsumerWorks(s: System, e: nat, r: string, call: ConsumerCall, d: nat, c: string, id: string)
    requires e < |s.deliveries| && Works(ConsumerNext(s, e, r, call), d, c, id)
    ensures var step := AtConsumer(e, r, call);
            GrantedTo(s, step, d, c) || (Works(s, d, c, id) && !GivesUp(s, step, d, c))
  {
    if e == d && r == c {
      hide Inbox.EntryStep, Inbox.Store, Inbox.Lookup;
    } else {
      hide ConsumerNext;
      ConsumerElsewhere(s, e, r, call);
    }
  }

  /** The run still has the pair, or lost it when its lease was over. */
  ghost predicate HeldOrOver(cfg: Config, steps: seq<Step>, d: nat, c: string, id: string) {
    Works(Run(cfg, steps), d, c, id) && Unforgot(cfg, steps, d, c, id) ==>
      || Taken(cfg, steps, c, id) == Some(d)
      || (LatestGrant(cfg, steps, c, id).Some? && LeaseOf(cfg, steps, d, c) <= LatestGrant(cfg, steps, c, id).value)
  }

  lemma RenewedIsOwner(cfg: Config, steps: seq<Step>, step: Step, d: nat, c: string)
    requires Renewed(Run(cfg, steps), step, d, c) && d < |Run(cfg, steps).deliveries|
    ensures Taken(cfg, steps, c, Run(cfg, steps).deliveries[d].id) == Some(d)
  {
    hide Run;
    EveryRunTold(cfg, steps, c, Run(cfg, steps).deliveries[d].id);
  }

  lemma HeldNext(cfg: Config, front: seq<Step>, step: Step, d: nat, c: string, id: string)
    requires HeldOrOver(cfg, front, d, c, id)
    ensures HeldOrOver(cfg, front + [step], d, c, id)
  {
    hide Run, Next, GrantedTo, Renewed, GivesUp, Forgets, Works;
    var s, steps := Run(cfg, front), front + [step];
    RunNext(cfg, front, step);
    if Works(Run(cfg, steps), d, c, id) && Unforgot(cfg, steps, d, c, id) {
      WorksOn(cfg, s, step, d, c, id);
      WorksMeans(s, d, c, id);
      WhoCalls(s, step, d, c);
      if GrantedTo(s, step, d, c) {
        GrantedMeans(cfg, s, step, d, c, id);
      } else {
        if Renewed(s, step, d, c) { RenewedIsOwner(cfg, front, step, d, c); }
        if Grants(s, step, c, id) {
          WhoCalls(s, step, step.d, c);
          ClaimAnswers(cfg, front, step.d, c, step.consumer.now);
          GrantedAnswer(s, step, step.d, c);
        }
      }
    }
  }

  lemma WorksMeans(s: System, d: nat, c: string, id: string)
    ensures Works(s, d, c, id) ==> d < |s.deliveries| && s.deliveries[d].id == id
  {
  }

  lemma GrantedAnswer(s: System, step: Step, d: nat, c: string)
    requires GrantedTo(s, step, d, c)
    ensures d < |s.deliveries| && step.AtConsumer? && step.consumer.InboxClaim?
    ensures AnswerTo(s, d, c, step.consumer.now).Claimed?
  {
  }

  lemma WhoCalls(s: System, step: Step, d: nat, c: string)
    ensures GrantedTo(s, step, d, c) || Renewed(s, step, d, c) || GivesUp(s, step, d, c) ==>
            step.AtConsumer? && step.d == d
    ensures GrantedTo(s, step, d, c) ==> step.consumer.InboxClaim?
    ensures GrantedTo(s, step, d, c) ==> !Renewed(s, step, d, c) && !GivesUp(s, step, d, c)
    ensures forall id :: step.AtConsumer? ==> !Forgets(s, step, id)
  {
  }

  lemma GrantedMeans(cfg: Config, s: System, step: Step, d: nat, c: string, id: string)
    requires GrantedTo(s, step, d, c) && Works(Next(cfg, s, step), d, c, id)
    ensures d < |s.deliveries| && s.deliveries[d].id == id
  {
    hide Inbox.EntryStep, Inbox.Store, Inbox.Lookup;
  }

  lemma {:induction false} EveryRunHeld(cfg: Config, steps: seq<Step>, d: nat, c: string, id: string)
    ensures HeldOrOver(cfg, steps, d, c, id)
  {
    hide HeldOrOver, Next;
    if steps == [] {
      NothingHeld(cfg, d, c, id);
    } else {
      var front, step := steps[..|steps| - 1], steps[|steps| - 1];
      assert steps == front + [step];
      EveryRunHeld(cfg, front, d, c, id);
      HeldNext(cfg, front, step, d, c, id);
    }
  }

  lemma NothingHeld(cfg: Config, d: nat, c: string, id: string)
    ensures HeldOrOver(cfg, [], d, c, id)
  {
  }

  /** Two runs of one pair work under leases that overlap only if a clock went back: whenever a claim of the pair is
      granted while another run of it still works, and the event was not forgotten since that run was granted the pair,
      the last lease that run was granted is over by the clock of this claim or of an earlier one that was granted. */
  lemma LeasesDoNotOverlap(cfg: Config, steps: seq<Step>, step: Step, d: nat, c: string, id: string)
    requires Grants(Run(cfg, steps), step, c, id)
    requires Works(Run(cfg, steps), d, c, id) && Unforgot(cfg, steps, d, c, id)
    ensures step.consumer.InboxClaim?
    ensures var latest := LatestGrant(cfg, steps, c, id);
            || LeaseOf(cfg, steps, d, c) <= step.consumer.now
            || (latest.Some? && LeaseOf(cfg, steps, d, c) <= latest.value && step.consumer.now < latest.value)
  {
    hide Run, Next;
    RunNext(cfg, steps, step);
    EveryRunHeld(cfg, steps, d, c, id);
    ClaimAnswers(cfg, steps, step.d, c, step.consumer.now);
  }

  /** A claim by some clock can be granted before the end of the last lease that the delivery `d` was granted exactly
      when the pair is not completed and whoever has it now, if anybody, has it for a shorter time. */
  lemma OverlapExactly(cfg: Config, steps: seq<Step>, d: nat, e: nat, c: string)
    requires e < |Run(cfg, steps).deliveries|
    ensures var s := Run(cfg, steps); var id := s.deliveries[e].id; var taken := Taken(cfg, steps, c, id);
            (exists now :: now < LeaseOf(cfg, steps, d, c) && AnswerTo(s, e, c, now).Claimed?)
            <==>
            && !LastCompleted(cfg, steps, c, id)
            && (taken.Some? ==> LeaseOf(cfg, steps, taken.value, c) < LeaseOf(cfg, steps, d, c))
  {
    hide Run;
    var s, until := Run(cfg, steps), LeaseOf(cfg, steps, d, c);
    var taken := Taken(cfg, steps, c, s.deliveries[e].id);
    var earliest := if taken.Some? then LeaseOf(cfg, steps, taken.value, c) else until - 1;
    ClaimAnswers(cfg, steps, e, c, earliest);
    forall now | now < until && AnswerTo(s, e, c, now).Claimed?
      ensures !LastCompleted(cfg, steps, c, s.deliveries[e].id) && (taken.Some? ==> earliest <= now)
    {
      ClaimAnswers(cfg, steps, e, c, now);
    }
  }
}

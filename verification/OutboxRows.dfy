/** One outbox record and the guarded transitions that the in-memory store and the
    Postgres store apply to it. `None` is the guard failing: the row stays as it is
    and the caller is told `false`. */
module OutboxRows {
  import opened Collections

  datatype Status = Queued | Dispatching | Dispatched | Failed | Dead | Cancelled

  datatype Lease = Lease(owner: string, expiresAt: int, generation: nat)

  /** `content` stands for the members of the envelope that no transition looks at. */
  datatype Envelope = Envelope(id: string, etype: string, content: string)

  datatype Record = Record(
    envelope: Envelope,
    payloadValidated: bool,
    binding: Option<string>,
    traceContext: Option<string>,
    status: Status,
    attempts: nat,
    availableAt: int,
    expiresAt: Option<int>,
    createdAt: int,
    updatedAt: int,
    lease: Option<Lease>,
    failureCode: Option<string>)

  /** The Postgres row: the lease is two nullable columns and the fencing token is `attempts`. */
  datatype Row = Row(
    status: Status,
    attempts: nat,
    nextAttemptAt: Option<int>,
    processingBy: Option<string>,
    processingStartedAt: Option<int>,
    expiresAt: Option<int>,
    createdAt: int,
    updatedAt: int,
    lastError: Option<string>)

  /** Everything a caller can ask of one row. `at` is the store's own clock. */
  datatype RowOp =
    | Claim(now: int, owner: string, leaseMs: int)
    | Renew(owner: string, generation: nat, expiresAt: int, at: int)
    | Complete(owner: string, generation: nat, at: int)
    | Retry(owner: string, generation: nat, availableAt: int, code: string, at: int)
    | DeadLetter(owner: string, generation: nat, code: string, at: int)
    | Reset(now: int)
    | RetryDead(now: int)
    | Cancel(now: int)

  const ATTEMPTS_CAP: nat := 1_000_000

  predicate Live(expiresAt: Option<int>, now: int) {
    expiresAt.None? || now < expiresAt.value
  }

  /** The operations that present a token, and the token they present. */
  predicate Presents(op: RowOp, owner: string, generation: nat) {
    (op.Renew? || op.Complete? || op.Retry? || op.DeadLetter?) && op.owner == owner && op.generation == generation
  }

  // ---------------------------------------------------------------- in memory

  predicate Due(r: Record, now: int) {
    && Live(r.expiresAt, now)
    && (|| ((r.status.Queued? || r.status.Failed?) && r.availableAt <= now)
        || (r.status.Dispatching? && (if r.lease.Some? then r.lease.value.expiresAt else 0) <= now))
  }

  predicate Holds(r: Record, owner: string, generation: nat) {
    r.lease.Some? && r.lease.value.owner == owner && r.lease.value.generation == generation
  }

  function Claimed(r: Record, now: int, owner: string, leaseMs: int): Record {
    r.(status := Dispatching, attempts := r.attempts + 1, updatedAt := now,
    lease := Some(Lease(owner, now + leaseMs, (if r.lease.Some? then r.lease.value.generation else 0) + 1)))
  }

  function MemoryStep(r: Record, op: RowOp): Option<Record> {
    match op
    case Claim(now, owner, leaseMs) =>
      if Due(r, now) then Some(Claimed(r, now, owner, leaseMs)) else None
    case Renew(owner, generation, expiresAt, at) =>
      if Holds(r, owner, generation) then Some(r.(lease := Some(r.lease.value.(expiresAt := expiresAt)))) else None
    case Complete(owner, generation, at) =>
      if Holds(r, owner, generation)
      then Some(r.(status := Dispatched, updatedAt := at, lease := None, failureCode := None)) else None
    case Retry(owner, generation, availableAt, code, at) =>
      if Holds(r, owner, generation)
      then Some(r.(status := Failed, availableAt := availableAt, updatedAt := at,
                lease := None, failureCode := Some(code)))
      else None
    case DeadLetter(owner, generation, code, at) =>
      if Holds(r, owner, generation)
      then Some(r.(status := Dead, updatedAt := at, lease := None, failureCode := Some(code))) else None
    case Reset(now) =>
      if r.status.Dead? || r.status.Dispatched? || r.status.Cancelled?
      then Some(r.(status := Queued, attempts := 0, availableAt := now, updatedAt := now,
                failureCode := None, lease := None))
      else None
    case RetryDead(now) =>
      if r.status.Dead?
      then Some(r.(status := Queued, attempts := 0, availableAt := now, updatedAt := now, failureCode := None))
      else None
    case Cancel(now) =>
      if r.status.Queued? || r.status.Failed? then Some(r.(status := Cancelled, updatedAt := now)) else None
  }

  // ---------------------------------------------------------------- Postgres

  predicate RowDue(r: Row, now: int) {
    && Live(r.expiresAt, now)
    && (|| ((r.status.Queued? || r.status.Failed?)
            && (if r.nextAttemptAt.Some? then r.nextAttemptAt.value else r.createdAt) <= now)
        || (r.status.Dispatching? && (r.processingStartedAt.None? || r.processingStartedAt.value < now)))
  }

  predicate RowHolds(r: Row, owner: string, generation: nat) {
    r.processingBy == Some(owner) && r.attempts == generation
  }

  /** Only renew and complete also ask for `status='dispatching'`. */
  function PostgresStep(r: Row, op: RowOp): Option<Row> {
    match op
    case Claim(now, owner, leaseMs) =>
      if RowDue(r, now)
      then Some(r.(status := Dispatching,
                attempts := if r.attempts >= ATTEMPTS_CAP then ATTEMPTS_CAP else r.attempts + 1,
                processingStartedAt := Some(now + leaseMs), processingBy := Some(owner), updatedAt := now))
      else None
    case Renew(owner, generation, expiresAt, at) =>
      if RowHolds(r, owner, generation) && r.status.Dispatching?
      then Some(r.(processingStartedAt := Some(expiresAt), updatedAt := at)) else None
    case Complete(owner, generation, at) =>
      if RowHolds(r, owner, generation) && r.status.Dispatching?
      then Some(r.(status := Dispatched, processingBy := None, processingStartedAt := None, updatedAt := at,
                lastError := None)) else None
    case Retry(owner, generation, availableAt, code, at) =>
      if RowHolds(r, owner, generation)
      then Some(r.(status := Failed, processingBy := None, processingStartedAt := None,
                nextAttemptAt := Some(availableAt), lastError := Some(code), updatedAt := at)) else None
    case DeadLetter(owner, generation, code, at) =>
      if RowHolds(r, owner, generation)
      then Some(r.(status := Dead, processingBy := None, processingStartedAt := None, lastError := Some(code),
                updatedAt := at)) else None
    case Reset(now) =>
      if r.status.Dead? || r.status.Dispatched? || r.status.Cancelled?
      then Some(r.(status := Queued, attempts := 0, lastError := None, nextAttemptAt := Some(now),
                processingBy := None, processingStartedAt := None, updatedAt := now)) else None
    case RetryDead(now) =>
      if r.status.Dead?
      then Some(r.(status := Queued, attempts := 0, lastError := None, nextAttemptAt := Some(now), updatedAt := now))
      else None
    case Cancel(now) =>
      if r.status.Queued? || r.status.Failed? then Some(r.(status := Cancelled, updatedAt := now)) else None
  }

  /** A row after any sequence of calls, whoever made them. */
  function RunMemory(r: Record, ops: seq<RowOp>): Record {
    if ops == [] then r
    else
      var before := RunMemory(r, ops[..|ops| - 1]);
      var after := MemoryStep(before, ops[|ops| - 1]);
      if after.Some? then after.value else before
  }

  function RunPostgres(r: Row, ops: seq<RowOp>): Row {
    if ops == [] then r
    else
      var before := RunPostgres(r, ops[..|ops| - 1]);
      var after := PostgresStep(before, ops[|ops| - 1]);
      if after.Some? then after.value else before
  }

  predicate Fresh(r: Record) { r.status.Queued? && r.lease.None? && r.attempts == 0 }

  predicate FreshRow(r: Row) {
    r.status.Queued? && r.processingBy.None? && r.processingStartedAt.None? && r.attempts == 0
  }
}

/** Which tokens the two stores honour, over every sequence of calls on a row. */
module Fencing {
  import opened Collections
  import opened OutboxRows

  /** The owners that claimed the record since its lease was last absent, oldest first. */
  ghost function Epoch(r: Record, ops: seq<RowOp>): seq<string> {
    if ops == [] then []
    else
      var front, op := ops[..|ops| - 1], ops[|ops| - 1];
      if MemoryStep(RunMemory(r, front), op).None? then Epoch(r, front)
      else match op
        case Claim(_, owner, _) => Epoch(r, front) + [owner]
        case Complete(_, _, _) => []
        case Retry(_, _, _, _, _) => []
        case DeadLetter(_, _, _, _) => []
        case _ => Epoch(r, front)
  }

  /** In memory the lease is the last claim of the epoch and the generation its length;
      a record is dispatching exactly while it has a lease. */
  lemma {:induction false} MemoryLeaseIsLastClaim(r: Record, ops: seq<RowOp>)
    requires Fresh(r)
    ensures var e := Epoch(r, ops); var s := RunMemory(r, ops);
            && (s.status.Dispatching? <==> s.lease.Some?)
            && (s.lease.Some? <==> e != [])
            && (s.lease.Some? ==> s.lease.value.owner == e[|e| - 1] && s.lease.value.generation == |e|)
  {
    if ops != [] {
      MemoryLeaseIsLastClaim(r, ops[..|ops| - 1]);
    }
  }

  /** A token is honoured exactly when its owner made the last claim of the current epoch
      and the generation counts the claims of that epoch. */
  lemma MemoryTokenHonoured(r: Record, ops: seq<RowOp>, op: RowOp, owner: string, generation: nat)
    requires Fresh(r) && Presents(op, owner, generation)
    ensures var e := Epoch(r, ops);
            MemoryStep(RunMemory(r, ops), op).Some? <==> e != [] && e[|e| - 1] == owner && |e| == generation
  {
    MemoryLeaseIsLastClaim(r, ops);
  }

  /** The lease is present after every prefix of the calls. */
  ghost predicate NeverCleared(r: Record, ops: seq<RowOp>) {
    forall n :: 0 <= n <= |ops| ==> RunMemory(r, ops[..n]).lease.Some?
  }

  lemma {:induction false} MemoryGenerationGrows(r: Record, ops: seq<RowOp>)
    requires NeverCleared(r, ops)
    ensures r.lease.Some? && RunMemory(r, ops).lease.Some?
    ensures r.lease.value.generation <= RunMemory(r, ops).lease.value.generation
  {
    assert ops[..|ops|] == ops;
    assert RunMemory(r, ops[..0]).lease.Some?;
    if ops != [] {
      var front := ops[..|ops| - 1];
      forall n | 0 <= n <= |front| ensures RunMemory(r, front[..n]).lease.Some? {
        assert front[..n] == ops[..n];
      }
      MemoryGenerationGrows(r, front);
    }
  }

  /** In memory a token superseded by a later claim is refused for as long as the lease is never cleared. */
  lemma MemoryFencedUntilCleared(r: Record, claim: RowOp, ops: seq<RowOp>, op: RowOp, owner: string, generation: nat)
    requires Holds(r, owner, generation) && claim.Claim? && Due(r, claim.now)
    requires Presents(op, owner, generation)
    requires NeverCleared(MemoryStep(r, claim).value, ops)
    ensures MemoryStep(RunMemory(MemoryStep(r, claim).value, ops), op).None?
  {
    MemoryGenerationGrows(MemoryStep(r, claim).value, ops);
  }

  /** Clearing the lease restarts the generation at 1, so a worker that claims the event
      again honours the token of its own, long superseded, first delivery. */
  lemma MemorySupersededTokenRevives(r: Record)
    requires Fresh(r) && r.availableAt <= 0 && r.expiresAt.None?
    ensures var ops := [Claim(0, "A", 10), Claim(10, "B", 10), Retry("B", 2, 11, "E", 11), Claim(11, "A", 10)];
            && !Holds(RunMemory(r, ops[..2]), "A", 1)
            && RunMemory(r, ops).attempts == 3
            && MemoryStep(RunMemory(r, ops), Complete("A", 1, 12)).Some?
  {
    var ops := [Claim(0, "A", 10), Claim(10, "B", 10), Retry("B", 2, 11, "E", 11), Claim(11, "A", 10)];
    assert ops[..3] == [Claim(0, "A", 10), Claim(10, "B", 10), Retry("B", 2, 11, "E", 11)];
    assert ops[..2] == [Claim(0, "A", 10), Claim(10, "B", 10)];
    assert ops[..1] == [Claim(0, "A", 10)];
    assert ops[..3][..2] == ops[..2] && ops[..2][..1] == ops[..1] && ops[..1][..0] == [];
    assert RunMemory(r, ops[..1]) == Claimed(r, 0, "A", 10);
    assert RunMemory(r, ops[..2]).lease == Some(Lease("B", 20, 2));
    assert RunMemory(r, ops[..3]).lease == None;
  }

  lemma {:induction false} PostgresAttemptsGrow(r: Row, ops: seq<RowOp>)
    requires r.attempts <= ATTEMPTS_CAP
    requires forall i :: 0 <= i < |ops| ==> !ops[i].Reset? && !ops[i].RetryDead?
    ensures r.attempts <= RunPostgres(r, ops).attempts <= ATTEMPTS_CAP
  {
    if ops != [] {
      PostgresAttemptsGrow(r, ops[..|ops| - 1]);
    }
  }

  /** With `attempts` as the token, a claim below the cap ends every earlier token for good:
      no sequence of calls without a reset makes the store honour it again. */
  lemma PostgresFenced(r: Row, claim: RowOp, ops: seq<RowOp>, op: RowOp, owner: string, generation: nat)
    requires generation <= r.attempts < ATTEMPTS_CAP
    requires claim.Claim? && RowDue(r, claim.now)
    requires forall i :: 0 <= i < |ops| ==> !ops[i].Reset? && !ops[i].RetryDead?
    requires Presents(op, owner, generation)
    ensures PostgresStep(RunPostgres(PostgresStep(r, claim).value, ops), op).None?
  {
    PostgresAttemptsGrow(PostgresStep(r, claim).value, ops);
  }

  /** Resetting the attempts is what the fencing cannot survive: the token of the first delivery, superseded by the
      second, is honoured again when its worker claims the event after a reset. */
  lemma PostgresResetRevivesToken(r: Row, a: string, b: string, code: string)
    requires FreshRow(r) && r.createdAt <= 0 && r.nextAttemptAt.None? && r.expiresAt.None?
    requires a != b
    ensures var ops := [Claim(0, a, 10)] + [Claim(11, b, 10)]
                       + [DeadLetter(b, 2, code, 12)] + [RetryDead(13)] + [Claim(13, a, 10)];
            && !RowHolds(RunPostgres(r, ops[..2]), a, 1)
            && PostgresStep(RunPostgres(r, ops), Complete(a, 1, 14)).Some?
  {
    hide RunPostgres;
    RunPostgresNext(r, [], Claim(0, a, 10));
    var one := [Claim(0, a, 10)];
    assert [] + one == one && RunPostgres(r, []) == r by { RunPostgresNone(r); }
    RunPostgresNext(r, one, Claim(11, b, 10));
    var two := one + [Claim(11, b, 10)];
    assert RunPostgres(r, two).processingBy == Some(b) && RunPostgres(r, two).attempts == 2;
    RunPostgresNext(r, two, DeadLetter(b, 2, code, 12));
    var three := two + [DeadLetter(b, 2, code, 12)];
    RunPostgresNext(r, three, RetryDead(13));
    var four := three + [RetryDead(13)];
    RunPostgresNext(r, four, Claim(13, a, 10));
    assert (four + [Claim(13, a, 10)])[..2] == two;
  }

  lemma RunPostgresNone(r: Row)
    ensures RunPostgres(r, []) == r
  {
  }

  lemma RunPostgresNext(r: Row, ops: seq<RowOp>, op: RowOp)
    ensures var before := RunPostgres(r, ops); var after := PostgresStep(before, op);
            RunPostgres(r, ops + [op]) == if after.Some? then after.value else before
  {
    assert (ops + [op])[..|ops|] == ops;
  }

  /** The claims that were granted since the attempts were last reset. */
  ghost function ClaimsSinceReset(r: Row, ops: seq<RowOp>): nat {
    if ops == [] then 0
    else
      var front, op := ops[..|ops| - 1], ops[|ops| - 1];
      if PostgresStep(RunPostgres(r, front), op).None? then ClaimsSinceReset(r, front)
      else if op.Claim? then ClaimsSinceReset(r, front) + 1
      else if op.Reset? || op.RetryDead? then 0
      else ClaimsSinceReset(r, front)
  }

  /** The owner of the last granted claim, unless the row was released or replayed since. */
  ghost function UnreleasedClaimer(r: Row, ops: seq<RowOp>): Option<string> {
    if ops == [] then None
    else
      var front, op := ops[..|ops| - 1], ops[|ops| - 1];
      if PostgresStep(RunPostgres(r, front), op).None? then UnreleasedClaimer(r, front)
      else match op
        case Claim(_, owner, _) => Some(owner)
        case Complete(_, _, _) => None
        case Retry(_, _, _, _, _) => None
        case DeadLetter(_, _, _, _) => None
        case Reset(_) => None
        case _ => UnreleasedClaimer(r, front)
  }

  lemma {:induction false} PostgresTokenIsLastClaim(r: Row, ops: seq<RowOp>)
    requires FreshRow(r)
    ensures var s := RunPostgres(r, ops);
            && s.attempts == Min(ATTEMPTS_CAP, ClaimsSinceReset(r, ops))
            && s.processingBy == UnreleasedClaimer(r, ops)
            && (s.status.Dispatching? <==> s.processingBy.Some?)
  {
    if ops != [] {
      PostgresTokenIsLastClaim(r, ops[..|ops| - 1]);
    }
  }

  /** Exactly the current token is honoured: its owner made the last claim, nothing released the row since, and the
      generation counts the claims since the last reset, up to the cap. Resets and the cap are all that can make an
      earlier token agree with it again. */
  lemma PostgresTokenHonoured(r: Row, ops: seq<RowOp>, op: RowOp, owner: string, generation: nat)
    requires FreshRow(r) && Presents(op, owner, generation)
    ensures PostgresStep(RunPostgres(r, ops), op).Some?
            <==> UnreleasedClaimer(r, ops) == Some(owner) && generation == Min(ATTEMPTS_CAP, ClaimsSinceReset(r, ops))
  {
    PostgresTokenIsLastClaim(r, ops);
  }

  /** At the cap a claim no longer changes the token: the claim supersedes nothing exactly
      when the row was already at the cap and the same owner claims it again. */
  lemma PostgresCapKeepsToken(r: Row, claim: RowOp, owner: string)
    requires r.attempts <= ATTEMPTS_CAP && claim.Claim? && RowDue(r, claim.now) && RowHolds(r, owner, r.attempts)
    ensures RowHolds(PostgresStep(r, claim).value, owner, r.attempts)
            <==> r.attempts == ATTEMPTS_CAP && claim.owner == owner
  {
  }

  /** In Postgres too a row is dispatching exactly while both lease columns are set. */
  lemma {:induction false} PostgresLeaseColumns(r: Row, ops: seq<RowOp>)
    requires FreshRow(r)
    ensures var s := RunPostgres(r, ops);
            && (s.status.Dispatching? <==> s.processingBy.Some?)
            && (s.processingBy.Some? <==> s.processingStartedAt.Some?)
            && (s.processingBy.Some? ==> s.attempts >= 1)
  {
    if ops != [] {
      PostgresLeaseColumns(r, ops[..|ops| - 1]);
    }
  }

  /** The completions that were granted. */
  ghost function Completions(r: Record, ops: seq<RowOp>): nat {
    if ops == [] then 0
    else
      var front, op := ops[..|ops| - 1], ops[|ops| - 1];
      Completions(r, front) + if op.Complete? && MemoryStep(RunMemory(r, front), op).Some? then 1 else 0
  }

  ghost function RowCompletions(r: Row, ops: seq<RowOp>): nat {
    if ops == [] then 0
    else
      var front, op := ops[..|ops| - 1], ops[|ops| - 1];
      RowCompletions(r, front) + if op.Complete? && PostgresStep(RunPostgres(r, front), op).Some? then 1 else 0
  }

  /** Between replays an event is completed at most once, and then it is dispatched for good. */
  lemma {:induction false} MemoryCompletesOnce(r: Record, ops: seq<RowOp>)
    requires Fresh(r) && forall i :: 0 <= i < |ops| ==> !ops[i].Reset?
    ensures Completions(r, ops) == if RunMemory(r, ops).status.Dispatched? then 1 else 0
  {
    if ops != [] {
      MemoryCompletesOnce(r, ops[..|ops| - 1]);
      MemoryLeaseIsLastClaim(r, ops[..|ops| - 1]);
    }
  }

  lemma {:induction false} PostgresCompletesOnce(r: Row, ops: seq<RowOp>)
    requires FreshRow(r) && forall i :: 0 <= i < |ops| ==> !ops[i].Reset?
    ensures RowCompletions(r, ops) == if RunPostgres(r, ops).status.Dispatched? then 1 else 0
  {
    if ops != [] {
      PostgresCompletesOnce(r, ops[..|ops| - 1]);
      PostgresLeaseColumns(r, ops[..|ops| - 1]);
    }
  }

  /** Renewals that keep the lease past `until`, and any other claims before it. */
  predicate KeepsLease(op: RowOp, until: int) {
    match op
    case Claim(now, _, _) => now < until
    case Renew(_, _, expiresAt, _) => expiresAt >= until
    case Reset(_) => true
    case RetryDead(_) => true
    case Cancel(_) => true
    case _ => false
  }

  /** After a claim nobody else claims the record before the lease runs out, as long as no
      call releases it: the claim stands and every other claim is refused. */
  lemma {:induction false} MemoryClaimsDisjoint(r: Record, owner: string, ops: seq<RowOp>, until: int)
    requires r.status.Dispatching? && r.lease.Some? && r.lease.value.owner == owner && r.lease.value.expiresAt >= until
    requires forall i :: 0 <= i < |ops| ==> KeepsLease(ops[i], until)
    ensures var s := RunMemory(r, ops);
            && s.attempts == r.attempts
            && s.lease.Some? && s.lease.value.owner == owner && s.lease.value.expiresAt >= until
            && s.lease.value.generation == r.lease.value.generation
            && s.status.Dispatching?
            && forall now :: now < until ==> !Due(s, now)
  {
    if ops != [] {
      MemoryClaimsDisjoint(r, owner, ops[..|ops| - 1], until);
    }
  }

  lemma {:induction false} PostgresClaimsDisjoint(r: Row, owner: string, ops: seq<RowOp>, until: int)
    requires r.status.Dispatching? && r.processingBy == Some(owner)
    requires r.processingStartedAt.Some? && r.processingStartedAt.value >= until
    requires forall i :: 0 <= i < |ops| ==> KeepsLease(ops[i], until)
    ensures var s := RunPostgres(r, ops);
            && s.attempts == r.attempts && s.processingBy == Some(owner) && s.status.Dispatching?
            && s.processingStartedAt.Some? && s.processingStartedAt.value >= until
            && forall now :: now <= until ==> !RowDue(s, now)
  {
    if ops != [] {
      PostgresClaimsDisjoint(r, owner, ops[..|ops| - 1], until);
    }
  }

  /** At the very instant a lease expires the in-memory store hands the event to another
      worker and the Postgres store does not. */
  lemma ExpiryInstant(r: Record, s: Row, now: int)
    requires r.status.Dispatching? && r.lease.Some? && r.lease.value.expiresAt == now && Live(r.expiresAt, now)
    requires s.status.Dispatching? && s.processingStartedAt == Some(now)
    ensures Due(r, now) && !RowDue(s, now)
    ensures Live(s.expiresAt, now + 1) ==> RowDue(s, now + 1)
  {
  }
}

/** A record and a row are what the calls granted so far have made of them: each field is told by the last call that
    writes it, and whether the next call is granted is told by what came before. Both stores are held to the same
    story. */
module RowHistory {
  import opened Collections
  import opened OutboxRows
  import opened Fencing

  /** The calls that were granted. */
  ghost function Granted(r: Record, ops: seq<RowOp>): seq<RowOp> {
    if ops == [] then []
    else
      var front, op := ops[..|ops| - 1], ops[|ops| - 1];
      if MemoryStep(RunMemory(r, front), op).Some? then Granted(r, front) + [op] else Granted(r, front)
  }

  ghost function GrantedOnRow(r: Row, ops: seq<RowOp>): seq<RowOp> {
    if ops == [] then []
    else
      var front, op := ops[..|ops| - 1], ops[|ops| - 1];
      if PostgresStep(RunPostgres(r, front), op).Some? then GrantedOnRow(r, front) + [op] else GrantedOnRow(r, front)
  }

  // ------------------------------------------------- what granted calls tell

  function StatusAfter(done: seq<RowOp>): Status {
    if done == [] then Queued
    else match done[|done| - 1]
      case Claim(_, _, _) => Dispatching
      case Renew(_, _, _, _) => StatusAfter(done[..|done| - 1])
      case Complete(_, _, _) => Dispatched
      case Retry(_, _, _, _, _) => Failed
      case DeadLetter(_, _, _, _) => Dead
      case Reset(_) => Queued
      case RetryDead(_) => Queued
      case Cancel(_) => Cancelled
  }

  /** The claims since the attempts were last put back. */
  function ClaimsAfter(done: seq<RowOp>): nat {
    if done == [] then 0
    else match done[|done| - 1]
      case Claim(_, _, _) => ClaimsAfter(done[..|done| - 1]) + 1
      case Reset(_) => 0
      case RetryDead(_) => 0
      case _ => ClaimsAfter(done[..|done| - 1])
  }

  function AvailableAfter(first: int, done: seq<RowOp>): int {
    if done == [] then first
    else match done[|done| - 1]
      case Retry(_, _, availableAt, _, _) => availableAt
      case Reset(now) => now
      case RetryDead(now) => now
      case _ => AvailableAfter(first, done[..|done| - 1])
  }

  /** The end of the lease, while there is one. */
  function LeaseAfter(done: seq<RowOp>): Option<int> {
    if done == [] then None
    else match done[|done| - 1]
      case Claim(now, _, leaseMs) => Some(now + leaseMs)
      case Renew(_, _, expiresAt, _) => Some(expiresAt)
      case _ => None
  }

  /** Why the event failed last; a claim or a cancellation leaves that standing. */
  function CodeAfter(first: Option<string>, done: seq<RowOp>): Option<string> {
    if done == [] then first
    else match done[|done| - 1]
      case Retry(_, _, _, code, _) => Some(code)
      case DeadLetter(_, _, code, _) => Some(code)
      case Complete(_, _, _) => None
      case Reset(_) => None
      case RetryDead(_) => None
      case _ => CodeAfter(first, done[..|done| - 1])
  }

  /** When the record was last written; only Postgres counts a renewal. */
  function WrittenAfter(first: int, renewals: bool, done: seq<RowOp>): int {
    if done == [] then first
    else match done[|done| - 1]
      case Claim(now, _, _) => now
      case Renew(_, _, _, at) => if renewals then at else WrittenAfter(first, renewals, done[..|done| - 1])
      case Complete(_, _, at) => at
      case Retry(_, _, _, _, at) => at
      case DeadLetter(_, _, _, at) => at
      case Reset(now) => now
      case RetryDead(now) => now
      case Cancel(now) => now
  }

  // ----------------------------------------------------------------- memory

  ghost predicate TellsRecord(r: Record, done: seq<RowOp>, s: Record) {
    && s == r.(status := s.status, attempts := s.attempts, availableAt := s.availableAt, updatedAt := s.updatedAt,
               lease := s.lease, failureCode := s.failureCode)
    && s.status == StatusAfter(done) && s.attempts == ClaimsAfter(done)
    && s.availableAt == AvailableAfter(r.availableAt, done) && s.failureCode == CodeAfter(r.failureCode, done)
    && s.updatedAt == WrittenAfter(r.updatedAt, false, done)
    && LeaseAfter(done) == (if s.lease.Some? then Some(s.lease.value.expiresAt) else None)
    && (s.status.Dispatching? <==> s.lease.Some?)
  }

  lemma RecordNext(r: Record, done: seq<RowOp>, s: Record, op: RowOp)
    requires TellsRecord(r, done, s) && MemoryStep(s, op).Some?
    ensures TellsRecord(r, done + [op], MemoryStep(s, op).value)
  {
    assert (done + [op])[..|done|] == done;
  }

  /** In memory: every field of a record, after any calls. */
  lemma {:induction false} RecordIsHistory(r: Record, ops: seq<RowOp>)
    requires Fresh(r)
    ensures TellsRecord(r, Granted(r, ops), RunMemory(r, ops))
  {
    hide MemoryStep;
    if ops != [] {
      var front, op := ops[..|ops| - 1], ops[|ops| - 1];
      RecordIsHistory(r, front);
      if MemoryStep(RunMemory(r, front), op).Some? { RecordNext(r, Granted(r, front), RunMemory(r, front), op); }
    }
  }

  /** In memory: whether the next call is granted. */
  lemma RecordGrantsExactly(r: Record, ops: seq<RowOp>, op: RowOp)
    requires Fresh(r)
    ensures var done, e := Granted(r, ops), Epoch(r, ops);
            MemoryStep(RunMemory(r, ops), op).Some?
            <==>
            match op
            case Claim(now, _, _) =>
              && (r.expiresAt.Some? ==> now < r.expiresAt.value)
              && (match StatusAfter(done)
                  case Queued => AvailableAfter(r.availableAt, done) <= now
                  case Failed => AvailableAfter(r.availableAt, done) <= now
                  case Dispatching => LeaseAfter(done).Some? && LeaseAfter(done).value <= now
                  case _ => false)
            case Reset(_) => StatusAfter(done) in {Dead, Dispatched, Cancelled}
            case RetryDead(_) => StatusAfter(done) == Dead
            case Cancel(_) => StatusAfter(done) in {Queued, Failed}
            case _ => e != [] && e[|e| - 1] == op.owner && |e| == op.generation
  {
    hide RunMemory;
    RecordIsHistory(r, ops);
    MemoryLeaseIsLastClaim(r, ops);
  }

  // --------------------------------------------------------------- Postgres

  ghost predicate TellsRow(r: Row, done: seq<RowOp>, s: Row) {
    && s.createdAt == r.createdAt && s.expiresAt == r.expiresAt
    && s.status == StatusAfter(done) && s.attempts == Min(1_000_000, ClaimsAfter(done))
    && RowAvailable(s) == AvailableAfter(RowAvailable(r), done) && s.lastError == CodeAfter(r.lastError, done)
    && s.updatedAt == WrittenAfter(r.updatedAt, true, done)
    && LeaseAfter(done) == s.processingStartedAt
    && (s.status.Dispatching? <==> s.processingBy.Some?) && (s.processingBy.Some? <==> s.processingStartedAt.Some?)
  }

  function RowAvailable(r: Row): int { if r.nextAttemptAt.Some? then r.nextAttemptAt.value else r.createdAt }

  lemma RowNext(r: Row, done: seq<RowOp>, s: Row, op: RowOp)
    requires TellsRow(r, done, s) && PostgresStep(s, op).Some?
    ensures TellsRow(r, done + [op], PostgresStep(s, op).value)
  {
    assert (done + [op])[..|done|] == done;
  }

  /** In Postgres: every column of a row, after any calls. */
  lemma {:induction false} RowIsHistory(r: Row, ops: seq<RowOp>)
    requires FreshRow(r)
    ensures TellsRow(r, GrantedOnRow(r, ops), RunPostgres(r, ops))
  {
    hide PostgresStep;
    if ops != [] {
      var front, op := ops[..|ops| - 1], ops[|ops| - 1];
      RowIsHistory(r, front);
      if PostgresStep(RunPostgres(r, front), op).Some? {
        RowNext(r, GrantedOnRow(r, front), RunPostgres(r, front), op);
      }
    }
  }

  /** In Postgres: whether the next call is granted. */
  lemma RowGrantsExactly(r: Row, ops: seq<RowOp>, op: RowOp)
    requires FreshRow(r)
    ensures var done := GrantedOnRow(r, ops);
            PostgresStep(RunPostgres(r, ops), op).Some?
            <==>
            match op
            case Claim(now, _, _) =>
              && (r.expiresAt.Some? ==> now < r.expiresAt.value)
              && (match StatusAfter(done)
                  case Queued => AvailableAfter(RowAvailable(r), done) <= now
                  case Failed => AvailableAfter(RowAvailable(r), done) <= now
                  case Dispatching => LeaseAfter(done).Some? && LeaseAfter(done).value < now
                  case _ => false)
            case Reset(_) => StatusAfter(done) in {Dead, Dispatched, Cancelled}
            case RetryDead(_) => StatusAfter(done) == Dead
            case Cancel(_) => StatusAfter(done) in {Queued, Failed}
            case _ =>
              && UnreleasedClaimer(r, ops) == Some(op.owner)
              && op.generation == Min(1_000_000, ClaimsSinceReset(r, ops))
  {
    hide RunPostgres, UnreleasedClaimer, ClaimsSinceReset;
    RowIsHistory(r, ops);
    if op.Renew? || op.Complete? || op.Retry? || op.DeadLetter? {
      PostgresTokenHonoured(r, ops, op, op.owner, op.generation);
    }
  }
}

/** The sizes behind the capacity of a claim: a record is as large as its JSON text, and a claim changes the members
    status, attempts, updatedAt and lease of that text. */
module ClaimSizes {
  import opened Collections
  import opened OutboxRows
  import opened MemorySpec
  import opened MemoryTheorems

  /** The characters of a number's text. */
  function Digits(n: int): nat
    decreases if n < 0 then 1 else 0, n
  {
    if n < 0 then 1 + Digits(-n) else if n < 10 then 1 else Digits(n / 10) + 1
  }

  function StatusLength(status: Status): nat {
    match status
    case Queued => 6
    case Dispatching => 11
    case Dispatched => 10
    case Failed => 6
    case Dead => 4
    case Cancelled => 9
  }

  /** The member `,"lease":{"owner":"","expiresAt":,"generation":}` and what stands in it, if there is a lease. */
  function LeaseLength(lease: Option<Lease>): nat {
    if lease.None? then 0
    else 48 + |lease.value.owner| + Digits(lease.value.expiresAt) + Digits(lease.value.generation)
  }

  /** What the members that a claim changes contribute to the text. */
  function ChangingLength(r: Record): nat {
    StatusLength(r.status) + Digits(r.attempts) + Digits(r.updatedAt) + LeaseLength(r.lease)
  }

  /** A record without what a claim changes. */
  function Core(r: Record): Record { r.(status := Queued, attempts := 0, updatedAt := 0, lease := None) }

  /** Owners whose quoted text is themselves between two quotes. */
  predicate PlainOwner(owner: string) { forall c <- owner :: ' ' <= c <= '~' && c != '"' && c != '\\' }

  predicate PlainLease(r: Record) { r.lease.Some? ==> PlainOwner(r.lease.value.owner) }

  /** The sizes are those of the JSON text: records that differ only in what a claim changes differ by its length. */
  ghost predicate SizesFollowText(size: Record -> nat) {
    forall r: Record, s: Record | Core(r) == Core(s) && PlainLease(r) && PlainLease(s) ::
      size(r) - ChangingLength(r) == size(s) - ChangingLength(s)
  }

  lemma ClaimChanges(size: Record -> nat, r: Record, now: int, owner: string, leaseMs: int)
    requires SizesFollowText(size) && PlainLease(r) && PlainOwner(owner)
    ensures var c := Claimed(r, now, owner, leaseMs); size(c) - size(r) == ChangingLength(c) - ChangingLength(r)
  {
    assert Core(Claimed(r, now, owner, leaseMs)) == Core(r);
  }

  lemma {:induction false} DigitsGrow(m: nat, n: nat)
    requires m <= n
    ensures 1 <= Digits(m) <= Digits(n)
    decreases n
  {
    if n >= 10 { DigitsGrow(m / 10, n / 10); }
  }

  /** Records as the manager leaves them: a lease belongs to a dispatching record, and the times are past. */
  predicate Ordinary(r: Record, owner: string, now: nat) {
    && (r.status.Queued? || r.status.Failed? || r.status.Dispatching?)
    && 0 <= r.updatedAt <= now
    && (r.status.Dispatching? ==> r.lease.Some?)
    && (r.lease.Some? ==>
          && PlainOwner(r.lease.value.owner)
          && |r.lease.value.owner| <= |owner| && 0 <= r.lease.value.expiresAt <= now)
  }

  lemma OrdinaryGrows(r: Record, now: nat, owner: string, leaseMs: nat)
    requires Ordinary(r, owner, now)
    ensures ChangingLength(r) <= ChangingLength(Claimed(r, now, owner, leaseMs))
  {
    DigitsGrow(r.attempts, r.attempts + 1);
    DigitsGrow(r.updatedAt, now);
    if r.lease.Some? {
      DigitsGrow(r.lease.value.expiresAt, now + leaseMs);
      DigitsGrow(r.lease.value.generation, r.lease.value.generation + 1);
    }
  }

  /** Workers whose names have the same length, as the manager's have, never see a claim refused half way: the name that
      takes a lease over is no shorter, and numbers only get longer. */
  lemma OrdinaryClaimIsAtomic(l: Limits, v: View, now: nat, limit: nat, owner: string, leaseMs: nat)
    requires WellFormed(l, v) && SizesFollowText(l.recordSize) && PlainOwner(owner)
    requires forall id <- v.records :: Due(v.records[id], now) ==> Ordinary(v.records[id], owner, now)
    ensures var (reply, w) := ClaimDue(l, v, now, limit, owner, leaseMs); reply.None? ==> w == v
  {
    ClaimSelects(v, now, limit);
    forall r <- Chosen(v, now, limit) ensures l.recordSize(r) <= l.recordSize(Claimed(r, now, owner, leaseMs)) {
      OrdinaryGrows(r, now, owner, leaseMs);
      ClaimChanges(l.recordSize, r, now, owner, leaseMs);
    }
    ClaimAtomicUnlessShrinking(l, v, now, limit, owner, leaseMs);
  }

  // --------------------------------------------------- a claim that stops

  /** Appended at `t`. */
  function Waiting(e: Envelope, t: int): Record {
    Record(e, true, None, None, Queued, 0, t, None, t, t, None, None)
  }

  /** Appended at `t` and claimed then, until the given time. */
  function Stale(e: Envelope, owner: string, t: int, until: int): Record {
    Record(e, true, None, None, Dispatching, 1, t, None, t, t, Some(Lease(owner, until, 1)), None)
  }

  /** How much a waiting record grows: five letters of status and the member for the lease. */
  function WaitingGrowth(worker: string, expiresAt: nat): nat { 54 + |worker| + Digits(expiresAt) }

  predicate HoldsThree(v: View, a: Record, b: Record, c: Record) {
    var x, y, z := a.envelope.id, b.envelope.id, c.envelope.id;
    x != y && y != z && x != z && v.order == [x, y, z] && v.records == map[x := a, y := b, z := c]
  }

  function Grown(l: Limits, r: Record, now: int, worker: string): int {
    l.recordSize(Claimed(r, now, worker, 30_000)) - l.recordSize(r)
  }

  /** Two waiting records and one whose lease has run out under a name of 256 characters. With room for the growth of
      one waiting record, the whole batch fits, because the third record shrinks by more than the second grows; but
      the second is written first. The claim is refused for capacity after the first record has been moved. */
  lemma ClaimStopsHalfWay(l: Limits, v: View, x: Envelope, y: Envelope, z: Envelope, worker: string,
                          stale: string, t: nat)
    requires SizesFollowText(l.recordSize) && WellFormed(l, v)
    requires PlainOwner(worker) && PlainOwner(stale) && |stale| == 256
    requires Digits(t) == Digits(t + 60_000) && 54 + 2 * |worker| + Digits(t) <= 256
    requires l.maxBytes == Used(l, v) + WaitingGrowth(worker, t + 60_000)
    requires HoldsThree(v, Waiting(x, t), Waiting(y, t), Stale(z, stale, t, t + 30_000))
    ensures ClaimDue(l, v, t + 30_000, 10, worker, 30_000)
            == (None, Put(v, Claimed(Waiting(x, t), t + 30_000, worker, 30_000)))
  {
    WaitingGrows(l, x, worker, t);
    WaitingGrows(l, y, worker, t);
    StaleShrinks(l, z, worker, stale, t);
    StopsAt(l, v, Waiting(x, t), Waiting(y, t), Stale(z, stale, t, t + 30_000), worker, t + 30_000);
  }

  lemma Middle(t: nat)
    requires Digits(t) == Digits(t + 60_000)
    ensures Digits(t) == Digits(t + 30_000)
  {
    DigitsGrow(t, t + 30_000);
    DigitsGrow(t + 30_000, t + 60_000);
  }

  lemma WaitingGrows(l: Limits, e: Envelope, worker: string, t: nat)
    requires SizesFollowText(l.recordSize) && PlainOwner(worker) && Digits(t) == Digits(t + 60_000)
    ensures Grown(l, Waiting(e, t), t + 30_000, worker) == WaitingGrowth(worker, t + 60_000)
  {
    hide SizesFollowText;
    Middle(t);
    ClaimChanges(l.recordSize, Waiting(e, t), t + 30_000, worker, 30_000);
  }

  lemma StaleShrinks(l: Limits, e: Envelope, worker: string, stale: string, t: nat)
    requires SizesFollowText(l.recordSize) && PlainOwner(worker) && PlainOwner(stale) && Digits(t) == Digits(t + 60_000)
    ensures Grown(l, Stale(e, stale, t, t + 30_000), t + 30_000, worker) == |worker| - |stale|
  {
    hide SizesFollowText;
    Middle(t);
    ClaimChanges(l.recordSize, Stale(e, stale, t, t + 30_000), t + 30_000, worker, 30_000);
  }

  lemma StopsAt(l: Limits, v: View, a: Record, b: Record, c: Record, worker: string, now: int)
    requires WellFormed(l, v) && HoldsThree(v, a, b, c)
    requires Due(a, now) && Due(b, now) && Due(c, now) && a.availableAt == b.availableAt == c.availableAt
    requires Used(l, v) + Grown(l, a, now, worker) <= l.maxBytes
    requires Used(l, v) + Grown(l, a, now, worker) + Grown(l, b, now, worker) > l.maxBytes
    requires Used(l, v) + Grown(l, a, now, worker) + Grown(l, b, now, worker) + Grown(l, c, now, worker) <= l.maxBytes
    ensures ClaimDue(l, v, now, 10, worker, 30_000) == (None, Put(v, Claimed(a, now, worker, 30_000)))
  {
    hide Due, Grown, Used, Growth, SetAll;
    ChosenThree(v, a, b, c, now);
    var claimed := ClaimAll([a, b, c], now, worker, 30_000);
    ThreeGrow(l, v, a, b, c, now, worker, claimed);
    ClaimedFacts(v, now, 10, worker, 30_000);
    WritesOnlyFirst(l, v, claimed);
  }

  /** The second prefix of the writes does not fit. */
  lemma WritesOnlyFirst(l: Limits, v: View, claimed: seq<Record>)
    requires DistinctIds(claimed) && |claimed| > 1 && forall r <- claimed :: r.envelope.id in v.records
    requires PrefixFits(l, v, Used(l, v), claimed, 1) && !PrefixFits(l, v, Used(l, v), claimed, 2)
    ensures SetAll(l, v, claimed) == (false, Put(v, claimed[0]))
  {
    hide PrefixFits, SetAll;
    var k := SetAllStops(l, v, claimed);
    assert k == 1;
    assert claimed[..1] == [claimed[0]] && [claimed[0]][..0] == [];
    assert PutAll(v, []) == v;
  }

  lemma ChosenThree(v: View, a: Record, b: Record, c: Record, now: int)
    requires HoldsThree(v, a, b, c) && a.availableAt == b.availableAt == c.availableAt
    requires Due(a, now) && Due(b, now) && Due(c, now)
    ensures Chosen(v, now, 10) == [a, b, c]
  {
    hide Due;
    AllDue(v, a.envelope.id, b.envelope.id, c.envelope.id, now);
    KeepsOrder(a, b, c, (r: Record) => r.availableAt);
  }

  lemma ThreeGrow(l: Limits, v: View, a: Record, b: Record, c: Record, now: int, worker: string, claimed: seq<Record>)
    requires HoldsThree(v, a, b, c) && claimed == ClaimAll([a, b, c], now, worker, 30_000)
    ensures Growth(l, v, claimed[..1]) == Grown(l, a, now, worker)
    ensures Growth(l, v, claimed[..2]) == Grown(l, a, now, worker) + Grown(l, b, now, worker)
    ensures Growth(l, v, claimed) == Grown(l, a, now, worker) + Grown(l, b, now, worker) + Grown(l, c, now, worker)
  {
    assert claimed[..2][..1] == claimed[..1] && claimed[..1][..0] == [];
  }

  lemma AllDue(v: View, x: string, y: string, z: string, now: int)
    requires x in v.records && y in v.records && z in v.records
    requires Due(v.records[x], now) && Due(v.records[y], now) && Due(v.records[z], now)
    ensures DueRecords(v, [x, y, z], now) == [v.records[x], v.records[y], v.records[z]]
  {
    hide Due;
    assert [x, y, z][..2] == [x, y] && [x, y][..1] == [x] && [x][..0] == [];
    assert DueRecords(v, [x], now) == [v.records[x]];
    assert DueRecords(v, [x, y], now) == [v.records[x], v.records[y]];
  }

  lemma KeepsOrder<T>(a: T, b: T, c: T, key: T -> int)
    requires key(a) <= key(b) <= key(c)
    ensures StableSort([a, b, c], key) == [a, b, c]
  {
    assert [a, b, c][..2] == [a, b] && [a, b][..1] == [a] && [a][..0] == [];
    assert StableSort([a], key) == [a];
    assert StableSort([a, b], key) == [a, b];
  }
}

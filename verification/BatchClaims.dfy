/** Claims of whole batches: what one claim was given, no other claim is given before the lease runs out. */
module BatchClaims {
  import opened Collections
  import opened OutboxRows
  import opened MemorySpec
  import opened MemoryTheorems
  import Fencing
  import Inbox

  datatype StoreOp =
    | Add(batch: seq<Record>)
    | ClaimBatch(now: int, limit: nat, owner: string, leaseMs: int)
    | OnRecord(id: string, op: RowOp)
    | PurgeExpired(now: int, limit: nat)
    | ReplayMatching(wanted: Record -> bool, now: int, maximum: nat)
    | OnInbox(key: Inbox.Key, inboxOp: Inbox.InboxOp<string>)

  ghost function Next(l: Limits, v: View, op: StoreOp): View {
    match op
    case Add(batch) => Append(l, v, batch).1
    case ClaimBatch(now, limit, owner, leaseMs) => ClaimDue(l, v, now, limit, owner, leaseMs).1
    case OnRecord(id, rowOp) => Call(l, v, id, rowOp).1
    case PurgeExpired(now, limit) => Purge(v, now, limit).1
    case ReplayMatching(wanted, now, maximum) => Replay(l, v, wanted, now, maximum).1
    case OnInbox(key, inboxOp) => CallInbox(l, v, key, inboxOp).1
  }

  ghost function Run(l: Limits, v: View, ops: seq<StoreOp>): View {
    if ops == [] then v else Next(l, Run(l, v, ops[..|ops| - 1]), ops[|ops| - 1])
  }

  /** Claims and purges come before `until`, and no call on the record releases it or shortens its lease. */
  predicate Spares(op: StoreOp, id: string, until: int) {
    match op
    case ClaimBatch(now, _, _, _) => now < until
    case PurgeExpired(now, _) => now < until
    case OnRecord(other, rowOp) => other == id ==> Fencing.KeepsLease(rowOp, until)
    case _ => true
  }

  ghost predicate Leased(v: View, id: string, until: int) {
    && Indexed(v) && id in v.records
    && v.records[id].status.Dispatching? && v.records[id].lease.Some? && v.records[id].lease.value.expiresAt >= until
  }

  /** A claim, granted or refused half way, writes only records that were due. */
  lemma ClaimTouchesDue(l: Limits, v: View, now: int, limit: nat, owner: string, leaseMs: int, id: string)
    requires Indexed(v) && id in v.records && !Due(v.records[id], now)
    ensures var w := ClaimDue(l, v, now, limit, owner, leaseMs).1;
            Indexed(w) && id in w.records && w.records[id] == v.records[id]
  {
    hide SetAll, Chosen, Due, Growth, Used;
    var claimed := ClaimAll(Chosen(v, now, limit), now, owner, leaseMs);
    ClaimSelects(v, now, limit);
    ClaimedFacts(v, now, limit, owner, leaseMs);
    var k := SetAllStops(l, v, claimed);
    var written := claimed[..k];
    assert DistinctIds(written);
    PutAllStores(v, written);
    PutAllIndexed(v, written);
    forall i | 0 <= i < |written| ensures written[i].envelope.id != id {
      assert Chosen(v, now, limit)[i] in Chosen(v, now, limit);
    }
    assert id !in Ids(written);
  }

  lemma AddKeepsOthers(l: Limits, v: View, batch: seq<Record>, id: string)
    requires Indexed(v) && id in v.records
    ensures var w := Append(l, v, batch).1; Indexed(w) && id in w.records && w.records[id] == v.records[id]
  {
    if Append(l, v, batch).0.Appended? {
      PlanFacts(v.records, batch);
      var p := Plan(v.records, batch).value;
      PutAllIndexed(v, p);
      PutAllStores(v, p);
      assert id !in Ids(p);
    }
  }

  lemma CallKeepsLease(l: Limits, v: View, id: string, other: string, op: RowOp, until: int)
    requires Leased(v, id, until) && (other == id ==> Fencing.KeepsLease(op, until))
    ensures Leased(Call(l, v, other, op).1, id, until)
  {
    hide Used, Indexed;
    if other in v.records && MemoryStep(v.records[other], op).Some? {
      KeysOf(v, other);
      var r := MemoryStep(v.records[other], op).value;
      PutIndexed(v, r);
    }
  }

  /** A purge before the lease runs out takes other records only. */
  lemma PurgeKeepsLease(v: View, id: string, now: int, limit: nat, until: int)
    requires Leased(v, id, until) && now < until
    ensures Leased(Purge(v, now, limit).1, id, until)
  {
    hide PurgeIds;
    var ids := PurgeIds(v, v.order, now, limit);
    PurgeIdsFrom(v, v.order, now, limit);
    WithoutMembers(v.order, KeySet(ids));
  }

  /** A replay resets finished records only. */
  lemma ReplayOneKeepsLease(l: Limits, w: View, other: string, wanted: Record -> bool, now: int, id: string, until: int)
    requires Leased(w, id, until)
    ensures Leased(ReplayOne(l, w, other, wanted, now).1, id, until)
  {
    hide Used, Indexed;
    if ReplayOne(l, w, other, wanted, now).0.Replayed? {
      KeysOf(w, other);
      PutIndexed(w, MemoryStep(w.records[other], Reset(now)).value);
    }
  }

  lemma {:induction false} ReplayRunKeepsLease(l: Limits, v: View, order: seq<string>, wanted: Record -> bool, now: int,
                                               maximum: nat, id: string, until: int)
    requires Leased(v, id, until)
    ensures Leased(ReplayRun(l, v, order, wanted, now, maximum).1, id, until)
  {
    hide Leased, ReplayOne;
    if order != [] {
      var front := order[..|order| - 1];
      var w := ReplayRun(l, v, front, wanted, now, maximum).1;
      ReplayRunKeepsLease(l, v, front, wanted, now, maximum, id, until);
      ReplayOneKeepsLease(l, w, order[|order| - 1], wanted, now, id, until);
    }
  }

  lemma ReplayKeepsLease(l: Limits, v: View, wanted: Record -> bool, now: int, maximum: nat, id: string, until: int)
    requires Leased(v, id, until)
    ensures Leased(Replay(l, v, wanted, now, maximum).1, id, until)
  {
    hide ReplayRun;
    ReplayRunKeepsLease(l, v, v.order, wanted, now, maximum, id, until);
  }

  lemma InboxKeepsLease(l: Limits, v: View, key: Inbox.Key, op: Inbox.InboxOp<string>, id: string, until: int)
    requires Leased(v, id, until)
    ensures Leased(CallInbox(l, v, key, op).1, id, until)
  {
    hide Used;
  }

  lemma KeysOf(v: View, id: string)
    requires Indexed(v) && id in v.records
    ensures v.records[id].envelope.id == id
  {
  }

  lemma {:induction false} StaysLeased(l: Limits, v: View, ops: seq<StoreOp>, id: string, until: int)
    requires Leased(v, id, until) && forall i | 0 <= i < |ops| :: Spares(ops[i], id, until)
    ensures Leased(Run(l, v, ops), id, until)
  {
    hide Indexed, Append, ClaimDue, Call, Purge, Replay, CallInbox;
    if ops != [] {
      var front, op := ops[..|ops| - 1], ops[|ops| - 1];
      StaysLeased(l, v, front, id, until);
      var w := Run(l, v, front);
      match op
      case Add(batch) => AddKeepsOthers(l, w, batch, id);
      case ClaimBatch(now, limit, owner, leaseMs) => ClaimTouchesDue(l, w, now, limit, owner, leaseMs, id);
      case OnRecord(other, rowOp) => CallKeepsLease(l, w, id, other, rowOp, until);
      case PurgeExpired(now, limit) => PurgeKeepsLease(w, id, now, limit, until);
      case ReplayMatching(wanted, now, maximum) => ReplayKeepsLease(l, w, wanted, now, maximum, id, until);
      case OnInbox(key, inboxOp) => InboxKeepsLease(l, w, key, inboxOp, id, until);
    }
  }

  /** Between a claim and the end of its lease no other claim, by whomever, is given any of its records, whatever other
      claims, appends, purges, replays, inbox calls and calls that do not release these records come in between. */
  lemma ClaimsAreDisjoint(l: Limits, v: View, first: StoreOp, ops: seq<StoreOp>, second: StoreOp)
    requires Indexed(v) && first.ClaimBatch? && second.ClaimBatch? && second.now < first.now + first.leaseMs
    requires ClaimDue(l, v, first.now, first.limit, first.owner, first.leaseMs).0.Some?
    requires forall r <- Chosen(v, first.now, first.limit) :: forall i | 0 <= i < |ops| ::
               Spares(ops[i], r.envelope.id, first.now + first.leaseMs)
    ensures var w := Run(l, Next(l, v, first), ops);
            forall r <- Chosen(v, first.now, first.limit) :: forall q <- Chosen(w, second.now, second.limit) ::
              r.envelope.id != q.envelope.id
  {
    hide Chosen, Run, Indexed, ClaimDue;
    var v1, until := Next(l, v, first), first.now + first.leaseMs;
    var w := Run(l, v1, ops);
    forall r <- Chosen(v, first.now, first.limit) ensures Leased(w, r.envelope.id, until) {
      ClaimLeases(l, v, first.now, first.limit, first.owner, first.leaseMs, r);
      StaysLeased(l, v1, ops, r.envelope.id, until);
    }
    if Chosen(v, first.now, first.limit) != [] {
      assert Chosen(v, first.now, first.limit)[0] in Chosen(v, first.now, first.limit);
      ClaimSelects(w, second.now, second.limit);
    }
  }

  lemma ClaimLeases(l: Limits, v: View, now: int, limit: nat, owner: string, leaseMs: int, r: Record)
    requires Indexed(v) && ClaimDue(l, v, now, limit, owner, leaseMs).0.Some? && r in Chosen(v, now, limit)
    ensures Leased(ClaimDue(l, v, now, limit, owner, leaseMs).1, r.envelope.id, now + leaseMs)
  {
    hide SetAll, Chosen, Growth, Used;
    ClaimMovesChosen(l, v, now, limit, owner, leaseMs);
    ClaimSelects(v, now, limit);
    var claimed := ClaimAll(Chosen(v, now, limit), now, owner, leaseMs);
    ClaimedFacts(v, now, limit, owner, leaseMs);
    var k := SetAllStops(l, v, claimed);
    PutAllIndexed(v, claimed[..k]);
  }
}

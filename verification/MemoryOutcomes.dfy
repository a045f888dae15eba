/** What appending, purging and replaying leave in the in-memory store, told by the records and their order. */
module MemoryOutcomes {
  import opened Collections
  import opened OutboxRows
  import opened MemorySpec
  import opened MemoryTheorems
  import Inbox

  predicate DistinctKeys(order: seq<string>) { forall i, j :: 0 <= i < j < |order| ==> order[i] != order[j] }

  // ----------------------------------------------------------------- append

  /** The events of a batch that the store does not have, each at its first occurrence. */
  function FirstNew(records: map<string, Record>, batch: seq<Record>): seq<Record> {
    if batch == [] then []
    else
      var front, r := batch[..|batch| - 1], batch[|batch| - 1];
      if r.envelope.id in records || exists i :: 0 <= i < |front| && front[i].envelope.id == r.envelope.id
      then FirstNew(records, front) else FirstNew(records, front) + [r]
  }

  lemma {:induction false} PlanIsFirstNew(records: map<string, Record>, batch: seq<Record>)
    requires Plan(records, batch).Some?
    ensures Plan(records, batch).value == FirstNew(records, batch)
  {
    if batch != [] {
      hide Pending, Identity, Conflicts;
      var front, r := batch[..|batch| - 1], batch[|batch| - 1];
      PlanIsFirstNew(records, front);
      PlanFacts(records, front);
      var p := Plan(records, front).value;
      PendingFinds(p, r.envelope.id);
      if r.envelope.id !in records && Pending(p, r.envelope.id).Some? {
        var q := Pending(p, r.envelope.id).value;
        assert q in front;
      }
    }
  }

  /** The answer of an append and everything it writes. */
  lemma AppendOutcome(l: Limits, v: View, batch: seq<Record>)
    ensures var (reply, w) := Append(l, v, batch); var additions := FirstNew(v.records, batch);
            var contradictory := exists n :: 0 <= n < |batch| && Clashes(v.records, batch[..n], batch[n]);
            var full := |v.records| + |additions| > l.maxRecords || Used(l, v) + TotalSize(l, additions) > l.maxBytes;
            && (reply == if |batch| > 1_000 then BatchTooLarge else if contradictory then IdempotencyConflict
                         else if full then AppendCapacity else Appended)
            && (!reply.Appended? ==> w == v)
            && (reply.Appended? ==>
                  && w.order == v.order + Ids(additions) && w.inbox == v.inbox
                  && (forall r <- additions :: r.envelope.id in w.records && w.records[r.envelope.id] == r)
                  && (forall id <- v.records :: id in w.records && w.records[id] == v.records[id])
                  && (forall id <- w.records :: id in v.records || id in Ids(additions)))
  {
    hide Used, TotalSize, Plan, FirstNew, Clashes, PutAll;
    ConflictExactly(v.records, batch);
    if Plan(v.records, batch).Some? {
      PlanIsFirstNew(v.records, batch);
      PlanFacts(v.records, batch);
      var p := Plan(v.records, batch).value;
      PutAllStores(v, p);
      PutAllNew(v, p);
      forall id <- v.records ensures id !in Ids(p) { }
    }
  }

  // ------------------------------------------------------------------ claim

  /** The record may be handed out: it has not expired, and it waits and its time has come, or its lease is over. */
  predicate Ready(r: Record, now: int) {
    && (r.expiresAt.Some? ==> now < r.expiresAt.value)
    && match r.status
       case Queued => r.availableAt <= now
       case Failed => r.availableAt <= now
       case Dispatching => (if r.lease.Some? then r.lease.value.expiresAt else 0) <= now
       case _ => false
  }

  /** A claim takes records that are ready, at most as many as asked for and never more than 1000, and leaves a ready
      record only when it took as many as it could, all of them available no later. */
  lemma ClaimTakes(v: View, now: int, limit: nat)
    requires Indexed(v)
    ensures var chosen := Chosen(v, now, limit);
            && |chosen| <= limit && |chosen| <= 1_000 && DistinctIds(chosen)
            && (forall r <- chosen ::
                  r.envelope.id in v.records && v.records[r.envelope.id] == r && Ready(r, now))
            && (forall id <- v.records :: Ready(v.records[id], now) && v.records[id] !in chosen ==>
                  && (|chosen| == limit || |chosen| == 1_000)
                  && forall r <- chosen :: r.availableAt <= v.records[id].availableAt)
  {
    hide Chosen, DueRecords;
    ClaimSelects(v, now, limit);
    DueRecordsExactly(v, v.order, now);
    var chosen, due := Chosen(v, now, limit), DueRecords(v, v.order, now);
    forall id <- v.records | Ready(v.records[id], now) && v.records[id] !in chosen
      ensures |chosen| == limit || |chosen| == 1_000
    {
      assert Due(v.records[id], now);
      if |chosen| == |due| {
        AllTaken(chosen, due);
        assert false;
      }
    }
  }

  /** As many different elements of a sequence as it has are all of them. */
  lemma AllTaken(chosen: seq<Record>, due: seq<Record>)
    requires |chosen| == |due| && DistinctIds(chosen) && forall r <- chosen :: r in due
    ensures forall r <- due :: r in chosen
  {
    var a, b := (set r | r in chosen), (set r | r in due);
    ElementCount(chosen);
    ElementBound(due);
    assert a <= b;
    if a != b { StrictSubset(a, b); }
    assert a == b;
    forall r <- due ensures r in chosen { assert r in b; }
  }

  lemma StrictSubset(a: set<Record>, b: set<Record>)
    requires a <= b && a != b
    ensures |a| < |b|
  {
    assert b == a + (b - a) && b - a != {};
  }

  lemma {:induction false} ElementCount(rs: seq<Record>)
    requires DistinctIds(rs)
    ensures |(set r | r in rs)| == |rs|
  {
    if rs != [] {
      var front, last := rs[..|rs| - 1], rs[|rs| - 1];
      ElementCount(front);
      assert rs == front + [last];
      assert last !in front;
      assert (set r | r in rs) == (set r | r in front) + {last};
    }
  }

  lemma {:induction false} ElementBound(rs: seq<Record>)
    ensures |(set r | r in rs)| <= |rs|
  {
    if rs != [] {
      var front, last := rs[..|rs| - 1], rs[|rs| - 1];
      ElementBound(front);
      assert rs == front + [last];
      assert (set r | r in rs) == (set r | r in front) + {last};
    }
  }

  /** What the claimer is handed is what is stored from then on. */
  lemma ClaimHandsOut(l: Limits, v: View, now: int, limit: nat, owner: string, leaseMs: int)
    requires Indexed(v) && ClaimDue(l, v, now, limit, owner, leaseMs).0.Some?
    ensures var (reply, w) := ClaimDue(l, v, now, limit, owner, leaseMs); var chosen := Chosen(v, now, limit);
            |reply.value| == |chosen| && forall i | 0 <= i < |chosen| ::
              && reply.value[i].envelope == chosen[i].envelope
              && reply.value[i].envelope.id in w.records && w.records[reply.value[i].envelope.id] == reply.value[i]
  {
    hide Chosen, SetAll;
    var claimed := ClaimAll(Chosen(v, now, limit), now, owner, leaseMs);
    ClaimSelects(v, now, limit);
    assert DistinctIds(claimed);
    SetAllWrites(l, v, claimed);
    PutAllStores(v, claimed);
    forall i | 0 <= i < |claimed| ensures claimed[i] in claimed { }
  }

  // ------------------------------------------------------------------ purge

  /** The record has expired, and nobody is delivering it under a lease that still runs. */
  predicate Gone(r: Record, now: int) {
    && r.expiresAt.Some? && r.expiresAt.value <= now
    && !(r.status.Dispatching? && (if r.lease.Some? then r.lease.value.expiresAt else 0) > now)
  }

  /** The first `limit` records that are gone, in the order in which they are kept. */
  lemma {:induction false} PurgeIdsExactly(v: View, order: seq<string>, now: int, limit: nat)
    requires DistinctKeys(order) && forall id <- order :: id in v.records
    ensures var ids := PurgeIds(v, order, now, limit);
            && |ids| <= limit && DistinctKeys(ids) && (forall id <- ids :: id in order && Gone(v.records[id], now))
            && (forall i | 0 <= i < |order| && Gone(v.records[order[i]], now) && order[i] !in ids ::
                  |ids| == limit && forall id <- ids :: id in order[..i])
  {
    if order != [] {
      var front, last := order[..|order| - 1], order[|order| - 1];
      assert order == front + [last];
      PurgeIdsExactly(v, front, now, limit);
      var ids := PurgeIds(v, order, now, limit);
      assert last !in front;
      forall i | 0 <= i < |order| && Gone(v.records[order[i]], now) && order[i] !in ids
        ensures |ids| == limit && forall id <- ids :: id in order[..i]
      {
        if i < |front| {
          assert front[i] == order[i] && front[..i] == order[..i];
        } else {
          assert order[..i] == front;
        }
      }
    }
  }

  lemma {:induction false} CountKeys(ids: seq<string>)
    requires DistinctKeys(ids)
    ensures |KeySet(ids)| == |ids|
  {
    if ids != [] {
      var front, last := ids[..|ids| - 1], ids[|ids| - 1];
      CountKeys(front);
      assert ids == front + [last];
      KeySetMore(front, last);
      assert last !in KeySet(front);
    }
  }

  /** A purge removes records that are gone and no others, the earliest kept first, up to the limit, and with them
      exactly their inbox entries. */
  lemma PurgeOutcome(v: View, now: int, limit: nat)
    requires Indexed(v)
    ensures var (count, w) := Purge(v, now, limit); var removed := v.records.Keys - w.records.Keys;
            && count == |removed| <= limit && w.order == Without(v.order, removed)
            && (forall id <- w.records :: id in v.records && w.records[id] == v.records[id])
            && (forall id <- removed :: Gone(v.records[id], now))
            && (forall i | 0 <= i < |v.order| && v.order[i] in w.records && Gone(v.records[v.order[i]], now) ::
                  count == limit && forall id <- removed :: id in v.order[..i])
            && (forall k :: k in w.inbox <==> k in v.inbox && k.1 !in removed)
            && (forall k <- w.inbox :: w.inbox[k] == v.inbox[k])
  {
    hide PurgeIds, Gone;
    var ids, w := PurgeIds(v, v.order, now, limit), Purge(v, now, limit).1;
    PurgeIdsExactly(v, v.order, now, limit);
    CountKeys(ids);
    var removed := v.records.Keys - w.records.Keys;
    assert removed == KeySet(ids);
    forall i | 0 <= i < |v.order| && v.order[i] in w.records && Gone(v.records[v.order[i]], now)
      ensures |ids| == limit && forall id <- removed :: id in v.order[..i]
    {
      assert v.order[i] !in ids;
    }
  }

  // ----------------------------------------------------------------- replay

  predicate Replayable(r: Record, wanted: Record -> bool) {
    wanted(r) && (r.status == Dead || r.status == Dispatched || r.status == Cancelled)
  }

  function Restored(r: Record, now: int): Record {
    Record(r.envelope, r.payloadValidated, r.binding, r.traceContext,
           Queued, 0, now, r.expiresAt, r.createdAt, now, None, None)
  }

  /** How far a replay got: what it reset, and what it did not touch. */
  ghost predicate ReplayedSoFar(l: Limits, v: View, order: seq<string>, wanted: Record -> bool, now: int, maximum: nat,
                                ok: bool, w: View, ids: seq<string>)
  {
    && (forall id <- order :: id in v.records)
    && |ids| <= maximum && DistinctKeys(ids) && w.records.Keys == v.records.Keys && w.order == v.order
    && (forall id <- ids :: id in order && id in v.records && Replayable(v.records[id], wanted))
    && (forall id <- v.records :: w.records[id] == if id in ids then Restored(v.records[id], now) else v.records[id])
    && (ok ==> forall i | 0 <= i < |order| :: Passed(v, order, i, wanted, ids, maximum))
    && (!ok ==> |ids| < maximum && exists i | 0 <= i < |order| :: Stuck(l, v, w, order[i], wanted, now, ids))
  }

  /** The record at `i` was not to be replayed, or was, or came too late. */
  ghost predicate Passed(v: View, order: seq<string>, i: nat, wanted: Record -> bool, ids: seq<string>, maximum: nat)
    requires i < |order|
  {
    order[i] in v.records && Replayable(v.records[order[i]], wanted) && order[i] !in ids ==>
      |ids| == maximum && forall id <- ids :: id in order[..i]
  }

  /** The record was to be replayed, but there was no room for it. */
  ghost predicate Stuck(l: Limits, v: View, w: View, id: string, wanted: Record -> bool, now: int, ids: seq<string>) {
    && id in v.records && Replayable(v.records[id], wanted) && id !in ids
    && !Fits(l, w, Restored(v.records[id], now))
  }

  lemma ReplayOneOutcome(l: Limits, w: View, id: string, wanted: Record -> bool, now: int)
    requires id in w.records && w.records[id].envelope.id == id
    ensures var (step, x) := ReplayOne(l, w, id, wanted, now); var r := w.records[id];
            && (step.Skipped? <==> !Replayable(r, wanted))
            && (step.NoRoom? <==> Replayable(r, wanted) && !Fits(l, w, Restored(r, now)))
            && x == if step.Replayed? then w.(records := w.records[id := Restored(r, now)]) else w
  {
    hide Fits;
  }

  lemma PassedMore(v: View, front: seq<string>, last: string, wanted: Record -> bool, ids: seq<string>,
                   more: seq<string>, maximum: nat)
    requires (forall i | 0 <= i < |front| :: Passed(v, front, i, wanted, ids, maximum)) && |ids| < maximum
    requires more == ids || more == ids + [last]
    requires last in v.records && Replayable(v.records[last], wanted) ==> more == ids + [last]
    ensures forall i | 0 <= i < |front| + 1 :: Passed(v, front + [last], i, wanted, more, maximum)
  {
    hide Replayable;
    forall i | 0 <= i < |front| + 1 ensures Passed(v, front + [last], i, wanted, more, maximum) {
      if i < |front| {
        assert (front + [last])[i] == front[i];
        assert Passed(v, front, i, wanted, ids, maximum);
      }
    }
  }

  lemma PassedFull(v: View, front: seq<string>, last: string, wanted: Record -> bool, ids: seq<string>, maximum: nat)
    requires forall i | 0 <= i < |front| :: Passed(v, front, i, wanted, ids, maximum)
    requires |ids| == maximum && forall id <- ids :: id in front
    ensures forall i | 0 <= i < |front| + 1 :: Passed(v, front + [last], i, wanted, ids, maximum)
  {
    hide Replayable;
    forall i | 0 <= i < |front| + 1 ensures Passed(v, front + [last], i, wanted, ids, maximum) {
      assert (front + [last])[..|front|] == front;
      if i < |front| {
        assert (front + [last])[i] == front[i] && (front + [last])[..i] == front[..i];
        assert Passed(v, front, i, wanted, ids, maximum);
      }
    }
  }

  lemma ReplayGoesOn(l: Limits, v: View, front: seq<string>, last: string, wanted: Record -> bool, now: int,
                     maximum: nat, w: View, ids: seq<string>)
    requires ReplayedSoFar(l, v, front, wanted, now, maximum, true, w, ids) && |ids| < maximum
    requires last !in front && last in v.records && KeysAgree(v)
    ensures var (step, x) := ReplayOne(l, w, last, wanted, now);
            ReplayedSoFar(l, v, front + [last], wanted, now, maximum, !step.NoRoom?, x,
                          if step.Replayed? then ids + [last] else ids)
  {
    hide Passed, Stuck, Replayable, ReplayOne, Restored;
    assert last !in ids && w.records[last] == v.records[last];
    ReplayOneOutcome(l, w, last, wanted, now);
    var (step, x) := ReplayOne(l, w, last, wanted, now);
    if step.NoRoom? {
      NoRoomIsStuck(l, v, w, last, wanted, now, ids);
      assert (front + [last])[|front|] == last;
    } else {
      PassedMore(v, front, last, wanted, ids, if step.Replayed? then ids + [last] else ids, maximum);
    }
  }

  lemma ReplayStopped(l: Limits, v: View, front: seq<string>, last: string, wanted: Record -> bool, now: int,
                      maximum: nat, ok: bool, w: View, ids: seq<string>)
    requires ReplayedSoFar(l, v, front, wanted, now, maximum, ok, w, ids) && (!ok || |ids| == maximum)
    requires last in v.records
    ensures ReplayedSoFar(l, v, front + [last], wanted, now, maximum, ok, w, ids)
  {
    hide Passed, Stuck, Replayable, Restored;
    if ok {
      PassedFull(v, front, last, wanted, ids, maximum);
    } else {
      var i :| 0 <= i < |front| && Stuck(l, v, w, front[i], wanted, now, ids);
      assert (front + [last])[i] == front[i];
    }
  }

  lemma NoRoomIsStuck(l: Limits, v: View, w: View, id: string, wanted: Record -> bool, now: int, ids: seq<string>)
    requires id in v.records && Replayable(v.records[id], wanted) && id !in ids
    requires !Fits(l, w, Restored(v.records[id], now))
    ensures Stuck(l, v, w, id, wanted, now, ids)
  {
  }

  lemma {:induction false} EveryReplay(l: Limits, v: View, order: seq<string>, wanted: Record -> bool, now: int,
                                       maximum: nat)
    requires DistinctKeys(order) && (forall id <- order :: id in v.records) && KeysAgree(v)
    ensures var (ok, w, ids) := ReplayRun(l, v, order, wanted, now, maximum);
            ReplayedSoFar(l, v, order, wanted, now, maximum, ok, w, ids)
  {
    hide ReplayedSoFar, ReplayOne;
    if order == [] {
      NothingReplayed(l, v, wanted, now, maximum);
    } else {
      var front, last := order[..|order| - 1], order[|order| - 1];
      assert order == front + [last];
      EveryReplay(l, v, front, wanted, now, maximum);
      var (ok, w, ids) := ReplayRun(l, v, front, wanted, now, maximum);
      if ok && |ids| < maximum {
        ReplayGoesOn(l, v, front, last, wanted, now, maximum, w, ids);
      } else {
        ReplayKeeps(l, v, front, wanted, now, maximum);
        ReplayStopped(l, v, front, last, wanted, now, maximum, ok, w, ids);
      }
    }
  }

  lemma NothingReplayed(l: Limits, v: View, wanted: Record -> bool, now: int, maximum: nat)
    ensures ReplayedSoFar(l, v, [], wanted, now, maximum, true, v, [])
  {
  }

  /** A replay resets the finished records that are wanted and no others, the earliest kept first, up to the maximum,
      and then forgets exactly their inbox entries; it fails exactly when the next of them does not fit, with the
      earlier ones reset and nothing forgotten. */
  lemma ReplaySelects(l: Limits, v: View, wanted: Record -> bool, now: int, maximum: nat)
    requires Indexed(v)
    ensures var (ok, w, ids) := ReplayRun(l, v, v.order, wanted, now, maximum);
            var (reply, after) := Replay(l, v, wanted, now, maximum);
            && ReplayedSoFar(l, v, v.order, wanted, now, maximum, ok, w, ids)
            && after.order == w.order && after.records == w.records
            && (reply.Some? <==> ok) && (reply.Some? ==> reply.value == |ids|)
            && (forall k :: k in after.inbox <==> k in v.inbox && (reply.None? || k.1 !in ids))
            && (forall k <- after.inbox :: after.inbox[k] == v.inbox[k])
  {
    hide ReplayedSoFar, ReplayRun;
    EveryReplay(l, v, v.order, wanted, now, maximum);
    ReplayKeeps(l, v, v.order, wanted, now, maximum);
  }

  // ------------------------------------------------------------------ inbox

  /** An inbox call is refused for the length of its names or for want of room, and then changes nothing; otherwise it
      answers as the entry alone decides, and only that entry changes. */
  lemma InboxOutcome(l: Limits, v: View, key: Inbox.Key, op: Inbox.InboxOp<string>)
    ensures var (reply, w) := CallInbox(l, v, key, op);
            var (answer, e) := Inbox.EntryStep(key, Inbox.Lookup(v.inbox, key), op);
            var writes := e.Some? && (answer.Claimed? || answer.Yes?);
            && (reply.None? <==>
                  || |key.0| > 128 || |key.1| > 128
                  || (writes && (|e.value.owner| > 256 || Used(l, WithKey(v, key, e.value)) > l.maxBytes)))
            && (reply.None? ==> w == v)
            && (reply.Some? ==>
                  && reply.value == answer && w.order == v.order && w.records == v.records
                  && Inbox.Lookup(w.inbox, key) == e
                  && forall k | k != key :: Inbox.Lookup(w.inbox, k) == Inbox.Lookup(v.inbox, k))
  {
    hide Used;
  }
}

/** The in-memory backend: maps and a running byte count, changed in place. Every method is
    tied to the function of `MemorySpec` that says what it does to the abstract view. */
module MemoryBackend {
  import opened Collections
  import opened OutboxRows
  import opened MemorySpec
  import opened MemoryTheorems
  import Inbox

  class Backend {
    const limits: Limits
    var order: seq<string>
    var records: map<string, Record>
    var recordBytes: map<string, nat>
    var inbox: map<Inbox.Key, InboxEntry>
    var inboxBytes: map<Inbox.Key, nat>
    var usedBytes: int

    ghost function Abs(): View
      reads this
    {
      View(order, records, inbox)
    }

    /** The byte counters are exact and stay within the limit. */
    ghost predicate Valid()
      reads this
    {
      Accounted(limits, Abs(), recordBytes, inboxBytes, usedBytes)
    }

    constructor (limits: Limits)
      ensures Valid() && this.limits == limits && Abs() == View([], map[], map[])
    {
      this.limits := limits;
      order, records, recordBytes, inbox, inboxBytes, usedBytes := [], map[], map[], map[], map[], 0;
    }

    /** `records.set(id, record)`: a known key keeps its place in the iteration order. */
    method SetRecord(record: Record)
      modifies `order, `records
      ensures Abs() == Put(old(Abs()), record)
    {
      var id := record.envelope.id;
      order := if id in records then order else order + [id];
      records := records[id := record];
    }

    method Set(record: Record) returns (ok: bool)
      requires Valid()
      modifies this
      ensures Valid()
      ensures ok <==> Fits(limits, old(Abs()), record)
      ensures Abs() == if ok then Put(old(Abs()), record) else old(Abs())
    {
      var id := record.envelope.id;
      var previous := if id in recordBytes then recordBytes[id] else 0;
      var bytes := limits.recordSize(record);
      AccountPut(limits, Abs(), recordBytes, inboxBytes, usedBytes, record, previous);
      if (id !in records && |records| >= limits.maxRecords) || usedBytes - previous + bytes > limits.maxBytes {
        return false;
      }
      SetRecord(record);
      recordBytes, usedBytes := recordBytes[id := bytes], usedBytes + bytes - previous;
      ok := true;
    }

    /** The first pass of an append: which events of the batch are new. */
    method PlanAdditions(batch: seq<Record>) returns (plan: Option<seq<Record>>)
      ensures plan == Plan(records, batch)
    {
      var additions: seq<Record> := [];
      for i := 0 to |batch|
        invariant Plan(records, batch[..i]) == Some(additions)
      {
        var record := batch[i];
        assert batch[..i + 1][..i] == batch[..i];
        var id := record.envelope.id;
        var pending := Pending(additions, id);
        if id in records && Identity(records[id]) != Identity(record) {
          PlanFails(records, batch, i + 1);
          return None;
        }
        if pending.Some? && Identity(pending.value) != Identity(record) {
          PlanFails(records, batch, i + 1);
          return None;
        }
        if id !in records && pending.None? {
          additions := additions + [record];
        }
      }
      assert batch[..|batch|] == batch;
      plan := Some(additions);
    }

    method SizeOfAll(rs: seq<Record>) returns (bytes: nat)
      ensures bytes == TotalSize(limits, rs)
    {
      bytes := 0;
      for i := 0 to |rs|
        invariant bytes == TotalSize(limits, rs[..i])
      {
        assert rs[..i + 1][..i] == rs[..i];
        bytes := bytes + limits.recordSize(rs[i]);
      }
      assert rs[..|rs|] == rs;
    }

    /** The last pass: none of these writes can fail. */
    method WriteAdditions(additions: seq<Record>)
      requires Valid() && DistinctIds(additions) && forall r <- additions :: r.envelope.id !in records
      requires |records| + |additions| <= limits.maxRecords
      requires Used(limits, Abs()) + TotalSize(limits, additions) <= limits.maxBytes
      modifies this
      ensures Valid() && Abs() == PutAll(old(Abs()), additions)
    {
      ghost var v := Abs();
      for i := 0 to |additions|
        invariant Valid() && Abs() == PutAll(v, additions[..i])
      {
        NoWriteFails(limits, v, additions, i);
        var ok := Set(additions[i]);
        assert ok;
      }
      assert additions[..|additions|] == additions;
    }

    method Append(batch: seq<Record>) returns (reply: AppendReply)
      requires Valid()
      modifies this
      ensures Valid()
      ensures (reply, Abs()) == MemorySpec.Append(limits, old(Abs()), batch)
    {
      if |batch| > 1_000 {
        return BatchTooLarge;
      }
      var plan := PlanAdditions(batch);
      if plan.None? {
        return IdempotencyConflict;
      }
      if |records| + |plan.value| > limits.maxRecords {
        return AppendCapacity;
      }
      var additionBytes := SizeOfAll(plan.value);
      if usedBytes + additionBytes > limits.maxBytes {
        return AppendCapacity;
      }
      PlanFacts(records, batch);
      WriteAdditions(plan.value);
      reply := Appended;
    }

    method GrowthOf(claimed: seq<Record>) returns (growth: int)
      requires Valid()
      ensures growth == Growth(limits, Abs(), claimed)
    {
      growth := 0;
      for i := 0 to |claimed|
        invariant growth == Growth(limits, Abs(), claimed[..i])
      {
        assert claimed[..i + 1][..i] == claimed[..i];
        var id := claimed[i].envelope.id;
        growth := growth + limits.recordSize(claimed[i]) - (if id in recordBytes then recordBytes[id] else 0);
      }
      assert claimed[..|claimed|] == claimed;
    }

    /** Writes until a record does not fit; what was written before stays written. */
    method WriteClaimed(claimed: seq<Record>) returns (ok: bool)
      requires Valid()
      modifies this
      ensures Valid() && (ok, Abs()) == SetAll(limits, old(Abs()), claimed)
    {
      ghost var v := Abs();
      for i := 0 to |claimed|
        invariant Valid() && SetAll(limits, v, claimed[..i]) == (true, Abs())
      {
        assert claimed[..i + 1][..i] == claimed[..i];
        ok := Set(claimed[i]);
        if !ok {
          SetAllFails(limits, v, claimed, i + 1);
          return;
        }
      }
      assert claimed[..|claimed|] == claimed;
      ok := true;
    }

    method ClaimDue(now: int, limit: nat, owner: string, leaseMs: int) returns (reply: Option<seq<Record>>)
      requires Valid()
      modifies this
      ensures Valid()
      ensures (reply, Abs()) == MemorySpec.ClaimDue(limits, old(Abs()), now, limit, owner, leaseMs)
    {
      var due := Chosen(View(order, records, inbox), now, limit);
      var claimed := ClaimAll(due, now, owner, leaseMs);
      var growth := GrowthOf(claimed);
      if usedBytes + growth > limits.maxBytes {
        return None;
      }
      var ok := WriteClaimed(claimed);
      reply := if ok then Some(claimed) else None;
    }

    predicate HasLease(id: string, owner: string, generation: nat)
      reads this
    {
      id in records && records[id].lease.Some? && records[id].lease.value.owner == owner
      && records[id].lease.value.generation == generation
    }

    /** The guard of a call held: the changed record is written if it fits. */
    method Change(id: string, record: Record, ghost op: RowOp) returns (reply: Reply)
      requires Valid() && id in records && MemoryStep(records[id], op) == Some(record)
      modifies this
      ensures Valid() && (reply, Abs()) == Call(limits, old(Abs()), id, op)
    {
      var ok := Set(record);
      reply := if ok then Answer(true) else Capacity;
    }

    method Renew(id: string, owner: string, generation: nat, expiresAt: int, at: int) returns (reply: Reply)
      requires Valid()
      modifies this
      ensures Valid() && (reply, Abs()) == Call(limits, old(Abs()), id, RowOp.Renew(owner, generation, expiresAt, at))
    {
      if !HasLease(id, owner, generation) {
        return Answer(false);
      }
      var record := records[id].(lease := Some(records[id].lease.value.(expiresAt := expiresAt)));
      reply := Change(id, record, RowOp.Renew(owner, generation, expiresAt, at));
    }

    method Complete(id: string, owner: string, generation: nat, at: int) returns (reply: Reply)
      requires Valid()
      modifies this
      ensures Valid() && (reply, Abs()) == Call(limits, old(Abs()), id, RowOp.Complete(owner, generation, at))
    {
      if !HasLease(id, owner, generation) {
        return Answer(false);
      }
      var record := records[id].(status := Dispatched, updatedAt := at, lease := None, failureCode := None);
      reply := Change(id, record, RowOp.Complete(owner, generation, at));
    }

    method Retry(id: string, owner: string, generation: nat, availableAt: int, code: string, at: int)
      returns (reply: Reply)
      requires Valid()
      modifies this
      ensures Valid()
      ensures (reply, Abs()) == Call(limits, old(Abs()), id, RowOp.Retry(owner, generation, availableAt, code, at))
    {
      if !HasLease(id, owner, generation) {
        return Answer(false);
      }
      var record := records[id].(status := Failed, availableAt := availableAt, updatedAt := at, lease := None,
                                 failureCode := Some(code));
      reply := Change(id, record, RowOp.Retry(owner, generation, availableAt, code, at));
    }

    method DeadLetter(id: string, owner: string, generation: nat, code: string, at: int) returns (reply: Reply)
      requires Valid()
      modifies this
      ensures Valid() && (reply, Abs()) == Call(limits, old(Abs()), id, RowOp.DeadLetter(owner, generation, code, at))
    {
      if !HasLease(id, owner, generation) {
        return Answer(false);
      }
      var record := records[id].(status := Dead, updatedAt := at, lease := None, failureCode := Some(code));
      reply := Change(id, record, RowOp.DeadLetter(owner, generation, code, at));
    }

    method RetryDeadLetter(id: string, now: int) returns (reply: Reply)
      requires Valid()
      modifies this
      ensures Valid() && (reply, Abs()) == Call(limits, old(Abs()), id, RetryDead(now))
    {
      if id !in records || !records[id].status.Dead? {
        return Answer(false);
      }
      var record :=
        records[id].(status := Queued, attempts := 0, availableAt := now, updatedAt := now, failureCode := None);
      reply := Change(id, record, RetryDead(now));
    }

    method CancelScheduled(id: string, now: int) returns (reply: Reply)
      requires Valid()
      modifies this
      ensures Valid() && (reply, Abs()) == Call(limits, old(Abs()), id, Cancel(now))
    {
      if id !in records || !(records[id].status.Queued? || records[id].status.Failed?) {
        return Answer(false);
      }
      reply := Change(id, records[id].(status := Cancelled, updatedAt := now), Cancel(now));
    }

    method StoreEntry(key: Inbox.Key, value: InboxEntry)
      modifies `inbox
      ensures Abs() == WithKey(old(Abs()), key, value)
    {
      inbox := inbox[key := value];
    }

    method DropEntry(key: Inbox.Key)
      modifies `inbox
      ensures Abs() == WithoutKey(old(Abs()), key)
    {
      inbox := inbox - {key};
    }

    method SetInbox(key: Inbox.Key, value: InboxEntry) returns (ok: bool)
      requires Valid() && value.eventId == key.1
      modifies this
      ensures Valid()
      ensures ok <==> |value.owner| <= 256 && Used(limits, WithKey(old(Abs()), key, value)) <= limits.maxBytes
      ensures Abs() == if ok then WithKey(old(Abs()), key, value) else old(Abs())
    {
      if |value.owner| > 256 {
        return false;
      }
      var previous := if key in inboxBytes then inboxBytes[key] else 0;
      var bytes := limits.inboxSize(key, value);
      AccountWithKey(limits, Abs(), recordBytes, inboxBytes, usedBytes, key, value, previous);
      if usedBytes - previous + bytes > limits.maxBytes {
        return false;
      }
      StoreEntry(key, value);
      inboxBytes, usedBytes := inboxBytes[key := bytes], usedBytes + bytes - previous;
      ok := true;
    }

    method DeleteInbox(key: Inbox.Key) returns (found: bool)
      requires Valid()
      modifies this
      ensures Valid()
      ensures found <==> key in old(inbox)
      ensures Abs() == WithoutKey(old(Abs()), key)
    {
      if key !in inbox {
        AbsentKey(Abs(), key);
        return false;
      }
      AccountWithoutKey(limits, Abs(), recordBytes, inboxBytes, usedBytes, key);
      DropEntry(key);
      usedBytes, inboxBytes := usedBytes - inboxBytes[key], inboxBytes - {key};
      found := true;
    }

    /** Deletes the entries of the given events, whatever the order the keys come in. */
    method ForgetEvents(ids: seq<string>)
      requires Valid()
      modifies this
      ensures Valid() && Abs() == old(Abs()).(inbox := Forget(old(inbox), ids))
    {
      ghost var v := Abs();
      var todo := inbox.Keys;
      ForgetEnds(inbox, ids);
      while todo != {}
        invariant Valid() && todo <= v.inbox.Keys && Abs() == v.(inbox := ForgetFrom(v.inbox, ids, todo))
        decreases |todo|
      {
        var key :| key in todo;
        ForgetOne(v.inbox, ids, todo, key);
        if inbox[key].eventId in ids {
          var found := DeleteInbox(key);
        }
        todo := todo - {key};
      }
    }

    method DeleteRecord(id: string)
      requires Valid() && id in records
      modifies this
      ensures Valid() && Abs() == WithoutRecord(old(Abs()), id)
    {
      AccountWithoutRecord(limits, Abs(), recordBytes, inboxBytes, usedBytes, id);
      DropRecord(id);
      usedBytes, recordBytes := usedBytes - recordBytes[id], recordBytes - {id};
    }

    method DropRecord(id: string)
      modifies `order, `records
      ensures Abs() == WithoutRecord(old(Abs()), id)
    {
      order, records := Without(order, {id}), records - {id};
    }

    method PurgeExpired(now: int, limit: nat) returns (count: nat)
      requires Valid()
      modifies this
      ensures Valid() && (count, Abs()) == Purge(old(Abs()), now, limit)
    {
      hide Accounted, PurgeIds, Purged, WithoutRecord, Purgeable;
      ghost var v := Abs();
      var keys := order;
      var purged: seq<string> := [];
      var i := 0;
      PurgeBegins(limits, v, recordBytes, inboxBytes, usedBytes, now, limit);
      while i < |keys| && |purged| < limit
        invariant i <= |keys| && Valid() && purged == PurgeIds(v, keys[..i], now, limit) && Abs() == Purged(v, purged)
      {
        var id := keys[i];
        PurgeNext(v, i, now, limit);
        if Purgeable(records[id], now) {
          DeleteRecord(id);
          PurgedMore(v, purged, id);
          purged := purged + [id];
        }
        i := i + 1;
      }
      if i < |keys| {
        PurgeIdsFull(v, keys, now, limit, i);
      } else {
        assert keys[..i] == keys;
      }
      PurgedInbox(v, purged);
      ForgetEvents(purged);
      count := |purged|;
    }

    /** One turn of the replay loop. */
    method ReplayRecord(id: string, wanted: Record -> bool, now: int) returns (step: ReplayStep)
      requires Valid()
      modifies this
      ensures Valid() && (step, Abs()) == ReplayOne(limits, old(Abs()), id, wanted, now)
    {
      if id !in records || !wanted(records[id])
         || !(records[id].status.Dead? || records[id].status.Dispatched? || records[id].status.Cancelled?) {
        return Skipped;
      }
      var ok := Set(records[id].(status := Queued, attempts := 0, availableAt := now, updatedAt := now,
                                 failureCode := None, lease := None));
      step := if ok then Replayed else NoRoom;
    }

    /** `wanted` is the request's filter on id, type and creation time. */
    method Replay(wanted: Record -> bool, now: int, maximum: nat) returns (reply: Option<nat>)
      requires Valid()
      modifies this
      ensures Valid() && (reply, Abs()) == MemorySpec.Replay(limits, old(Abs()), wanted, now, maximum)
    {
      hide Accounted, ReplayRun, ReplayOne;
      ghost var v := Abs();
      var keys := order;
      ReplayBegins(limits, v, wanted, now, maximum);
      var replayed: seq<string> := [];
      var i := 0;
      while i < |keys| && |replayed| < maximum
        invariant i <= |keys| && Valid()
        invariant ReplayRun(limits, v, keys[..i], wanted, now, maximum) == (true, Abs(), replayed)
      {
        ReplayNext(limits, v, keys, i, wanted, now, maximum, Abs(), replayed);
        var step := ReplayRecord(keys[i], wanted, now);
        if step.NoRoom? {
          ReplayStops(limits, v, keys, wanted, now, maximum, i + 1);
          return None;
        }
        replayed := if step.Replayed? then replayed + [keys[i]] else replayed;
        i := i + 1;
      }
      if i < |keys| {
        ReplayStops(limits, v, keys, wanted, now, maximum, i);
      } else {
        assert keys[..i] == keys;
      }
      ForgetEvents(replayed);
      reply := Some(|replayed|);
    }

    method InboxClaim(key: Inbox.Key, owner: string, expiresAt: int, now: int) returns (reply: Option<Inbox.InboxReply>)
      requires Valid()
      modifies this
      ensures Valid() && (reply, Abs()) == CallInbox(limits, old(Abs()), key, Inbox.Claim(owner, expiresAt, now))
    {
      hide Accounted, Used;
      if LongKey(key) {
        return None;
      }
      if key in inbox && inbox[key].complete {
        return Some(Inbox.Duplicate);
      }
      if key in inbox && inbox[key].expiresAt > now {
        return Some(Inbox.Busy);
      }
      var ok := SetInbox(key, Inbox.Entry(key.1, owner, expiresAt, false));
      reply := if ok then Some(Inbox.Claimed) else None;
    }

    method InboxRenew(key: Inbox.Key, owner: string, expiresAt: int) returns (reply: Option<Inbox.InboxReply>)
      requires Valid()
      modifies this
      ensures Valid() && (reply, Abs()) == CallInbox(limits, old(Abs()), key, Inbox.Renew(owner, expiresAt))
    {
      hide Accounted, Used;
      if LongKey(key) {
        return None;
      }
      if key !in inbox || inbox[key].owner != owner || inbox[key].complete {
        return Some(Inbox.No);
      }
      EntryNamesEvent(limits, Abs(), recordBytes, inboxBytes, usedBytes, key);
      var ok := SetInbox(key, inbox[key].(expiresAt := expiresAt));
      reply := if ok then Some(Inbox.Yes) else None;
    }

    method InboxComplete(key: Inbox.Key, owner: string) returns (reply: Option<Inbox.InboxReply>)
      requires Valid()
      modifies this
      ensures Valid() && (reply, Abs()) == CallInbox(limits, old(Abs()), key, Inbox.Complete(owner))
    {
      hide Accounted, Used;
      if LongKey(key) {
        return None;
      }
      if key !in inbox || inbox[key].owner != owner {
        return Some(Inbox.No);
      }
      EntryNamesEvent(limits, Abs(), recordBytes, inboxBytes, usedBytes, key);
      var ok := SetInbox(key, inbox[key].(complete := true));
      reply := if ok then Some(Inbox.Yes) else None;
    }

    method InboxRelease(key: Inbox.Key, owner: string) returns (reply: Option<Inbox.InboxReply>)
      requires Valid()
      modifies this
      ensures Valid() && (reply, Abs()) == CallInbox(limits, old(Abs()), key, Inbox.Release(owner))
    {
      hide Accounted, Used;
      if LongKey(key) {
        return None;
      }
      if key !in inbox || inbox[key].owner != owner || inbox[key].complete {
        return Some(Inbox.No);
      }
      var found := DeleteInbox(key);
      reply := Some(Inbox.Yes);
    }
  }

  lemma PurgeBegins(l: Limits, v: View, rb: map<string, nat>, ib: map<Inbox.Key, nat>, used: int, now: int, limit: nat)
    requires Accounted(l, v, rb, ib, used)
    ensures Indexed(v) && PurgeIds(v, v.order[..0], now, limit) == [] && Purged(v, []) == v
  {
    PurgedNone(v);
  }

  lemma EntryNamesEvent(l: Limits, v: View, rb: map<string, nat>, ib: map<Inbox.Key, nat>, used: int, key: Inbox.Key)
    requires Accounted(l, v, rb, ib, used) && key in v.inbox
    ensures v.inbox[key].eventId == key.1
  {
  }

  lemma PurgedInbox(v: View, ids: seq<string>)
    ensures Purged(v, ids).inbox == v.inbox
  {
  }

  lemma ReplayBegins(l: Limits, v: View, wanted: Record -> bool, now: int, maximum: nat)
    ensures ReplayRun(l, v, v.order[..0], wanted, now, maximum) == (true, v, [])
  {
  }
}

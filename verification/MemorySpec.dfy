/** What the in-memory backend does to its records and inbox, and what it costs.
    The sizes of the stored JSON texts are parameters. */
module MemorySpec {
  import opened Collections
  import opened OutboxRows
  import Inbox

  type InboxEntry = Inbox.Entry<string>

  /** `order` is the insertion order in which a JavaScript `Map` is iterated. */
  datatype View = View(order: seq<string>, records: map<string, Record>, inbox: map<Inbox.Key, InboxEntry>)

  datatype Limits = Limits(
    maxRecords: nat, maxBytes: nat, recordSize: Record -> nat, inboxSize: (Inbox.Key, InboxEntry) -> nat)

  datatype AppendReply = Appended | BatchTooLarge | IdempotencyConflict | AppendCapacity

  datatype Reply = Answer(value: bool) | Capacity

  // ------------------------------------------------------------- accounting

  function RecordBytes(l: Limits, records: map<string, Record>): map<string, nat> {
    map id | id in records :: l.recordSize(records[id])
  }

  function InboxBytes(l: Limits, inbox: map<Inbox.Key, InboxEntry>): map<Inbox.Key, nat> {
    map k | k in inbox :: l.inboxSize(k, inbox[k])
  }

  ghost function Used(l: Limits, v: View): nat {
    MapSum(RecordBytes(l, v.records)) + MapSum(InboxBytes(l, v.inbox))
  }

  /** The iteration order lists every record once, and keys agree with what they store. */
  ghost predicate Indexed(v: View) {
    && (forall i, j :: 0 <= i < j < |v.order| ==> v.order[i] != v.order[j])
    && (forall id :: id in v.order <==> id in v.records)
    && (forall id <- v.records :: v.records[id].envelope.id == id)
    && (forall k <- v.inbox :: v.inbox[k].eventId == k.1)
  }

  ghost predicate WellFormed(l: Limits, v: View) {
    Indexed(v) && |v.records| <= l.maxRecords && Used(l, v) <= l.maxBytes
  }

  function Put(v: View, r: Record): View {
    var id := r.envelope.id;
    v.(order := if id in v.records then v.order else v.order + [id], records := v.records[id := r])
  }

  ghost predicate Fits(l: Limits, v: View, r: Record) {
    (r.envelope.id in v.records || |v.records| < l.maxRecords) && Used(l, Put(v, r)) <= l.maxBytes
  }

  function SizeOf(l: Limits, v: View, id: string): nat {
    if id in v.records then l.recordSize(v.records[id]) else 0
  }

  lemma PutBytes(l: Limits, v: View, r: Record)
    ensures RecordBytes(l, Put(v, r).records) == RecordBytes(l, v.records)[r.envelope.id := l.recordSize(r)]
  {
  }

  lemma PutUsed(l: Limits, v: View, r: Record)
    ensures Used(l, Put(v, r)) == Used(l, v) - SizeOf(l, v, r.envelope.id) + l.recordSize(r)
  {
    PutBytes(l, v, r);
    MapSumUpdate(RecordBytes(l, v.records), r.envelope.id, l.recordSize(r));
  }

  lemma PutIndexed(v: View, r: Record)
    requires Indexed(v)
    ensures Indexed(Put(v, r))
  {
    var id, w := r.envelope.id, Put(v, r);
    if id in v.records {
      assert w.order == v.order && w.records.Keys == v.records.Keys;
      forall x ensures x in w.order <==> x in w.records {
        assert x in v.order <==> x in v.records.Keys;
      }
    } else {
      forall x ensures x in w.order <==> x in w.records {
        assert x in w.order <==> x in v.order || x == id;
      }
      assert id !in v.order;
    }
  }

  lemma PutWellFormed(l: Limits, v: View, r: Record)
    requires WellFormed(l, v) && Fits(l, v, r)
    ensures WellFormed(l, Put(v, r))
  {
    PutIndexed(v, r);
    MapCount(v.records, r.envelope.id, r);
  }

  lemma InboxStored(l: Limits, inbox: map<Inbox.Key, InboxEntry>, key: Inbox.Key, e: InboxEntry)
    ensures InboxBytes(l, inbox[key := e]) == InboxBytes(l, inbox)[key := l.inboxSize(key, e)]
    ensures MapSum(InboxBytes(l, inbox[key := e]))
         == MapSum(InboxBytes(l, inbox)) - (if key in inbox then l.inboxSize(key, inbox[key]) else 0)
           + l.inboxSize(key, e)
  {
    assert InboxBytes(l, inbox[key := e]) == InboxBytes(l, inbox)[key := l.inboxSize(key, e)];
    MapSumUpdate(InboxBytes(l, inbox), key, l.inboxSize(key, e));
  }

  lemma InboxDropped(l: Limits, inbox: map<Inbox.Key, InboxEntry>, key: Inbox.Key)
    requires key in inbox
    ensures InboxBytes(l, inbox - {key}) == InboxBytes(l, inbox) - {key}
    ensures MapSum(InboxBytes(l, inbox - {key})) == MapSum(InboxBytes(l, inbox)) - l.inboxSize(key, inbox[key])
  {
    assert InboxBytes(l, inbox - {key}) == InboxBytes(l, inbox) - {key};
    MapSumPick(InboxBytes(l, inbox), key);
  }

  function WithoutKey(v: View, key: Inbox.Key): View { v.(inbox := v.inbox - {key}) }

  function WithKey(v: View, key: Inbox.Key, e: InboxEntry): View { v.(inbox := v.inbox[key := e]) }

  /** The byte counters kept beside a view are exact, and the view is within its limits. */
  ghost predicate Accounted(l: Limits, v: View, recordBytes: map<string, nat>, inboxBytes: map<Inbox.Key, nat>,
                            used: int)
  {
    && WellFormed(l, v)
    && recordBytes == RecordBytes(l, v.records)
    && inboxBytes == InboxBytes(l, v.inbox)
    && used == Used(l, v)
  }

  lemma AccountPut(l: Limits, v: View, rb: map<string, nat>, ib: map<Inbox.Key, nat>, used: int,
                   r: Record, previous: nat)
    requires Accounted(l, v, rb, ib, used)
    requires previous == if r.envelope.id in rb then rb[r.envelope.id] else 0
    ensures Fits(l, v, r) <==> !((r.envelope.id !in v.records && |v.records| >= l.maxRecords)
                                 || used - previous + l.recordSize(r) > l.maxBytes)
    ensures Fits(l, v, r) ==>
              Accounted(l, Put(v, r), rb[r.envelope.id := l.recordSize(r)], ib, used + l.recordSize(r) - previous)
  {
    PutBytes(l, v, r);
    PutUsed(l, v, r);
    if Fits(l, v, r) {
      PutWellFormed(l, v, r);
    }
  }

  lemma AccountWithKey(l: Limits, v: View, rb: map<string, nat>, ib: map<Inbox.Key, nat>, used: int,
                       key: Inbox.Key, e: InboxEntry, previous: nat)
    requires Accounted(l, v, rb, ib, used) && e.eventId == key.1
    requires previous == if key in ib then ib[key] else 0
    ensures Used(l, WithKey(v, key, e)) == used + l.inboxSize(key, e) - previous
    ensures used + l.inboxSize(key, e) - previous <= l.maxBytes ==>
              Accounted(l, WithKey(v, key, e), rb, ib[key := l.inboxSize(key, e)],
                        used + l.inboxSize(key, e) - previous)
  {
    InboxStored(l, v.inbox, key, e);
  }

  lemma AbsentKey(v: View, key: Inbox.Key)
    requires key !in v.inbox
    ensures WithoutKey(v, key) == v
  {
    assert v.inbox - {key} == v.inbox;
  }

  lemma AccountWithoutKey(l: Limits, v: View, rb: map<string, nat>, ib: map<Inbox.Key, nat>, used: int, key: Inbox.Key)
    requires Accounted(l, v, rb, ib, used) && key in ib
    ensures Accounted(l, WithoutKey(v, key), rb, ib - {key}, used - ib[key])
  {
    InboxDropped(l, v.inbox, key);
  }

  function WithoutRecord(v: View, id: string): View {
    v.(order := Without(v.order, {id}), records := v.records - {id})
  }

  lemma AccountWithoutRecord(l: Limits, v: View, rb: map<string, nat>, ib: map<Inbox.Key, nat>, used: int, id: string)
    requires Accounted(l, v, rb, ib, used) && id in v.records
    ensures Accounted(l, WithoutRecord(v, id), rb - {id}, ib, used - rb[id])
  {
    WithoutMembers(v.order, {id});
    RecordDropped(l, v.records, id);
    assert (v.records - {id}).Keys == v.records.Keys - {id};
    assert |v.records - {id}| == |(v.records - {id}).Keys| <= |v.records.Keys| == |v.records|;
  }

  lemma RecordDropped(l: Limits, records: map<string, Record>, id: string)
    requires id in records
    ensures RecordBytes(l, records - {id}) == RecordBytes(l, records) - {id}
    ensures MapSum(RecordBytes(l, records - {id})) == MapSum(RecordBytes(l, records)) - l.recordSize(records[id])
  {
    assert RecordBytes(l, records - {id}) == RecordBytes(l, records) - {id};
    MapSumPick(RecordBytes(l, records), id);
  }

  // ----------------------------------------------------------------- append

  /** The members that decide whether two records are the same event. */
  function Identity(r: Record): (Envelope, bool, Option<string>, Option<string>, Option<int>) {
    (r.envelope, r.payloadValidated, r.binding, r.traceContext, r.expiresAt)
  }

  function Pending(additions: seq<Record>, id: string): Option<Record> {
    if additions == [] then None
    else if additions[|additions| - 1].envelope.id == id then Some(additions[|additions| - 1])
    else Pending(additions[..|additions| - 1], id)
  }

  predicate Conflicts(records: map<string, Record>, additions: seq<Record>, r: Record) {
    var id := r.envelope.id;
    || (id in records && Identity(records[id]) != Identity(r))
    || (Pending(additions, id).Some? && Identity(Pending(additions, id).value) != Identity(r))
  }

  predicate IsNew(records: map<string, Record>, additions: seq<Record>, r: Record) {
    r.envelope.id !in records && Pending(additions, r.envelope.id).None?
  }

  /** The events of a batch that are new, or nothing when one contradicts another. */
  function Plan(records: map<string, Record>, batch: seq<Record>): Option<seq<Record>> {
    if batch == [] then Some([])
    else
      var p, r := Plan(records, batch[..|batch| - 1]), batch[|batch| - 1];
      if p.None? || Conflicts(records, p.value, r) then None
      else if IsNew(records, p.value, r) then Some(p.value + [r])
      else p
  }

  function PutAll(v: View, rs: seq<Record>): View {
    if rs == [] then v else Put(PutAll(v, rs[..|rs| - 1]), rs[|rs| - 1])
  }

  function TotalSize(l: Limits, rs: seq<Record>): nat {
    if rs == [] then 0 else TotalSize(l, rs[..|rs| - 1]) + l.recordSize(rs[|rs| - 1])
  }

  ghost function Append(l: Limits, v: View, batch: seq<Record>): (AppendReply, View) {
    if |batch| > 1_000 then (BatchTooLarge, v)
    else
      var p := Plan(v.records, batch);
      if p.None? then (IdempotencyConflict, v)
      else if |v.records| + |p.value| > l.maxRecords || Used(l, v) + TotalSize(l, p.value) > l.maxBytes
      then (AppendCapacity, v)
      else (Appended, PutAll(v, p.value))
  }

  // ------------------------------------------------------------------ claim

  function DueRecords(v: View, order: seq<string>, now: int): seq<Record> {
    if order == [] then []
    else
      var front, id := DueRecords(v, order[..|order| - 1], now), order[|order| - 1];
      if id in v.records && Due(v.records[id], now) then front + [v.records[id]] else front
  }

  /** The due records, earliest first, cut off at the limit. */
  function Chosen(v: View, now: int, limit: nat): seq<Record> {
    var sorted := StableSort(DueRecords(v, v.order, now), (r: Record) => r.availableAt);
    sorted[..Min(|sorted|, Min(1_000, limit))]
  }

  function ClaimAll(rs: seq<Record>, now: int, owner: string, leaseMs: int): seq<Record> {
    seq(|rs|, i requires 0 <= i < |rs| => Claimed(rs[i], now, owner, leaseMs))
  }

  /** What writing the records would add to the bytes in use. */
  function Growth(l: Limits, v: View, rs: seq<Record>): int {
    if rs == [] then 0
    else Growth(l, v, rs[..|rs| - 1]) + l.recordSize(rs[|rs| - 1]) - SizeOf(l, v, rs[|rs| - 1].envelope.id)
  }

  /** Writing records one after the other until one does not fit. */
  ghost function SetAll(l: Limits, v: View, rs: seq<Record>): (bool, View) {
    if rs == [] then (true, v)
    else
      var (ok, w) := SetAll(l, v, rs[..|rs| - 1]);
      if !ok then (false, w)
      else if Fits(l, w, rs[|rs| - 1]) then (true, Put(w, rs[|rs| - 1]))
      else (false, w)
  }

  ghost function ClaimDue(l: Limits, v: View, now: int, limit: nat, owner: string,
                          leaseMs: int): (Option<seq<Record>>, View)
  {
    var claimed := ClaimAll(Chosen(v, now, limit), now, owner, leaseMs);
    if Used(l, v) + Growth(l, v, claimed) > l.maxBytes then (None, v)
    else
      var (ok, w) := SetAll(l, v, claimed);
      (if ok then Some(claimed) else None, w)
  }

  // --------------------------------------------- single records, inbox, admin

  /** A guarded transition of one record, refused when its new text does not fit. */
  ghost function Call(l: Limits, v: View, id: string, op: RowOp): (Reply, View) {
    if id !in v.records || MemoryStep(v.records[id], op).None? then (Answer(false), v)
    else
      var r := MemoryStep(v.records[id], op).value;
      if Fits(l, v, r) then (Answer(true), Put(v, r)) else (Capacity, v)
  }

  predicate LongKey(key: Inbox.Key) { |key.0| > 128 || |key.1| > 128 }

  /** An inbox call; `None` is the capacity error. Only calls that write an entry check sizes. */
  ghost function CallInbox(l: Limits, v: View, key: Inbox.Key,
                           op: Inbox.InboxOp<string>): (Option<Inbox.InboxReply>, View)
  {
    var (reply, e) := Inbox.EntryStep(key, Inbox.Lookup(v.inbox, key), op);
    if LongKey(key) then (None, v)
    else if reply.Claimed? || (reply.Yes? && e.Some?) then
      if e.Some? && |e.value.owner| <= 256 && Used(l, WithKey(v, key, e.value)) <= l.maxBytes
      then (Some(reply), WithKey(v, key, e.value)) else (None, v)
    else if reply.Yes? then (Some(reply), WithoutKey(v, key))
    else (Some(reply), v)
  }

  predicate Purgeable(r: Record, now: int) {
    !Live(r.expiresAt, now) && (!r.status.Dispatching? || (if r.lease.Some? then r.lease.value.expiresAt else 0) <= now)
  }

  function PurgeIds(v: View, order: seq<string>, now: int, limit: nat): seq<string> {
    if order == [] then []
    else
      var front, id := PurgeIds(v, order[..|order| - 1], now, limit), order[|order| - 1];
      if |front| < limit && id in v.records && Purgeable(v.records[id], now) then front + [id] else front
  }

  function Forget(inbox: map<Inbox.Key, InboxEntry>, ids: seq<string>): map<Inbox.Key, InboxEntry> {
    map k | k in inbox && inbox[k].eventId !in ids :: inbox[k]
  }

  /** The inbox when the entries of the given events are gone, except those still to be visited. */
  function ForgetFrom(inbox: map<Inbox.Key, InboxEntry>, ids: seq<string>,
                      todo: set<Inbox.Key>): map<Inbox.Key, InboxEntry>
  {
    map k | k in inbox && (k in todo || inbox[k].eventId !in ids) :: inbox[k]
  }

  lemma ForgetOne(inbox: map<Inbox.Key, InboxEntry>, ids: seq<string>, todo: set<Inbox.Key>, key: Inbox.Key)
    requires key in todo && key in inbox
    ensures ForgetFrom(inbox, ids, todo - {key})
         == if inbox[key].eventId in ids then ForgetFrom(inbox, ids, todo) - {key} else ForgetFrom(inbox, ids, todo)
  {
  }

  lemma ForgetEnds(inbox: map<Inbox.Key, InboxEntry>, ids: seq<string>)
    ensures ForgetFrom(inbox, ids, inbox.Keys) == inbox && ForgetFrom(inbox, ids, {}) == Forget(inbox, ids)
  {
  }

  /** The view without the given records; their inbox entries are another matter. */
  function Purged(v: View, ids: seq<string>): View {
    v.(order := Without(v.order, KeySet(ids)), records := map id | id in v.records && id !in ids :: v.records[id])
  }

  function Purge(v: View, now: int, limit: nat): (nat, View) {
    var ids := PurgeIds(v, v.order, now, limit);
    (|ids|, Purged(v, ids).(inbox := Forget(v.inbox, ids)))
  }

  lemma PurgedMore(v: View, ids: seq<string>, id: string)
    ensures WithoutRecord(Purged(v, ids), id) == Purged(v, ids + [id])
  {
    WithoutMore(v.order, KeySet(ids), id);
    KeySetMore(ids, id);
    assert Purged(v, ids).records - {id} == Purged(v, ids + [id]).records;
  }

  lemma PurgedNone(v: View)
    ensures Purged(v, []) == v
  {
    WithoutNothing(v.order);
    assert KeySet([]) == {};
    assert Purged(v, []).records == v.records;
  }

  lemma {:induction false} PurgeIdsFrom(v: View, order: seq<string>, now: int, limit: nat)
    ensures forall id <- PurgeIds(v, order, now, limit) ::
              id in order && id in v.records && Purgeable(v.records[id], now)
  {
    if order != [] {
      PurgeIdsFrom(v, order[..|order| - 1], now, limit);
    }
  }

  /** One more record of the purge: it is still there, as it was. */
  lemma PurgeNext(v: View, i: nat, now: int, limit: nat)
    requires Indexed(v) && i < |v.order| && |PurgeIds(v, v.order[..i], now, limit)| < limit
    ensures var ids, id := PurgeIds(v, v.order[..i], now, limit), v.order[i];
            && id in Purged(v, ids).records && Purged(v, ids).records[id] == v.records[id]
            && PurgeIds(v, v.order[..i + 1], now, limit) == if Purgeable(v.records[id], now) then ids + [id] else ids
  {
    var order, id := v.order, v.order[i];
    assert order[..i + 1][..i] == order[..i];
    PurgeIdsFrom(v, order[..i], now, limit);
    assert id in order;
    assert forall j | 0 <= j < i :: order[..i][j] != id;
  }

  /** Once the limit is reached the rest of the records does not matter. */
  lemma {:induction false} PurgeIdsFull(v: View, order: seq<string>, now: int, limit: nat, n: nat)
    requires n <= |order| && |PurgeIds(v, order[..n], now, limit)| >= limit
    ensures PurgeIds(v, order, now, limit) == PurgeIds(v, order[..n], now, limit)
  {
    if n < |order| {
      assert order[..|order| - 1][..n] == order[..n];
      PurgeIdsFull(v, order[..|order| - 1], now, limit, n);
    } else {
      assert order[..n] == order;
    }
  }

  datatype ReplayStep = Skipped | Replayed | NoRoom

  ghost function ReplayOne(l: Limits, w: View, id: string, wanted: Record -> bool, now: int): (ReplayStep, View) {
    if id !in w.records || !wanted(w.records[id]) || MemoryStep(w.records[id], Reset(now)).None? then (Skipped, w)
    else
      var r := MemoryStep(w.records[id], Reset(now)).value;
      if Fits(l, w, r) then (Replayed, Put(w, r)) else (NoRoom, w)
  }

  /** Replaying resets matching finished records in iteration order and forgets their inbox
      entries at the end; a record that no longer fits stops it before anything is forgotten. */
  ghost function ReplayRun(l: Limits, v: View, order: seq<string>, wanted: Record -> bool, now: int, maximum: nat)
    : (bool, View, seq<string>)
  {
    if order == [] then (true, v, [])
    else
      var (ok, w, ids) := ReplayRun(l, v, order[..|order| - 1], wanted, now, maximum);
      if !ok || |ids| >= maximum then (ok, w, ids)
      else
        var (step, x) := ReplayOne(l, w, order[|order| - 1], wanted, now);
        (!step.NoRoom?, x, if step.Replayed? then ids + [order[|order| - 1]] else ids)
  }

  ghost function Replay(l: Limits, v: View, wanted: Record -> bool, now: int, maximum: nat): (Option<nat>, View) {
    var (ok, w, ids) := ReplayRun(l, v, v.order, wanted, now, maximum);
    if ok then (Some(|ids|), w.(inbox := Forget(w.inbox, ids))) else (None, w)
  }

  lemma {:induction false} ReplayStops(l: Limits, v: View, order: seq<string>, wanted: Record -> bool,
                                       now: int, maximum: nat, n: nat)
    requires n <= |order|
    requires var (ok, w, ids) := ReplayRun(l, v, order[..n], wanted, now, maximum); !ok || |ids| >= maximum
    ensures ReplayRun(l, v, order, wanted, now, maximum) == ReplayRun(l, v, order[..n], wanted, now, maximum)
  {
    if n < |order| {
      assert order[..|order| - 1][..n] == order[..n];
      ReplayStops(l, v, order[..|order| - 1], wanted, now, maximum, n);
    } else {
      assert order[..n] == order;
    }
  }

  lemma ReplayNext(l: Limits, v: View, order: seq<string>, i: nat, wanted: Record -> bool,
                   now: int, maximum: nat, w: View, ids: seq<string>)
    requires i < |order| && |ids| < maximum && ReplayRun(l, v, order[..i], wanted, now, maximum) == (true, w, ids)
    ensures ReplayRun(l, v, order[..i + 1], wanted, now, maximum)
         == var (step, x) := ReplayOne(l, w, order[i], wanted, now);
            (!step.NoRoom?, x, if step.Replayed? then ids + [order[i]] else ids)
  {
    assert order[..i + 1][..i] == order[..i];
  }

  /** Replaying keeps the iteration order and, until it ends, the inbox. */
  lemma {:induction false} ReplayKeeps(l: Limits, v: View, order: seq<string>, wanted: Record -> bool,
                                       now: int, maximum: nat)
    ensures var (ok, w, ids) := ReplayRun(l, v, order, wanted, now, maximum);
            && w.inbox == v.inbox && |ids| <= maximum && forall id <- ids :: id in order
  {
    if order != [] {
      ReplayKeeps(l, v, order[..|order| - 1], wanted, now, maximum);
    }
  }

  /** A replay that succeeds leaves each replayed event queued, unleased, with no attempts and no
      inbox entry; one that fails has reset records but forgotten nothing. */
  lemma ReplayOutcome(l: Limits, v: View, wanted: Record -> bool, now: int, maximum: nat)
    requires Indexed(v)
    ensures var (ok, w, ids) := ReplayRun(l, v, v.order, wanted, now, maximum);
            var (reply, after) := Replay(l, v, wanted, now, maximum);
            && ReplayedAll(after, ids)
            && (reply.Some? ==> reply.value == |ids| && forall k <- after.inbox :: after.inbox[k].eventId !in ids)
            && (reply.None? ==> after.inbox == v.inbox)
  {
    ReplayKeeps(l, v, v.order, wanted, now, maximum);
    ReplayResets(l, v, v.order, wanted, now, maximum);
  }

  ghost predicate ReplayedAll(w: View, ids: seq<string>) {
    forall id <- ids ::
      && id in w.records && w.records[id].status.Queued?
      && w.records[id].lease.None? && w.records[id].attempts == 0
  }

  ghost predicate KeysAgree(w: View) { forall id <- w.records :: w.records[id].envelope.id == id }

  lemma ReplayOneResets(l: Limits, w: View, id: string, wanted: Record -> bool, now: int, ids: seq<string>)
    requires KeysAgree(w) && ReplayedAll(w, ids)
    ensures var (step, x) := ReplayOne(l, w, id, wanted, now);
            && KeysAgree(x) && ReplayedAll(x, if step.Replayed? then ids + [id] else ids)
  {
    var (step, x) := ReplayOne(l, w, id, wanted, now);
    if step.Replayed? {
      var r := MemoryStep(w.records[id], Reset(now)).value;
      assert r.envelope.id == id && x.records == w.records[id := r];
    }
  }

  lemma {:induction false} ReplayResets(l: Limits, v: View, order: seq<string>, wanted: Record -> bool,
                                        now: int, maximum: nat)
    requires KeysAgree(v)
    ensures var (ok, w, ids) := ReplayRun(l, v, order, wanted, now, maximum); KeysAgree(w) && ReplayedAll(w, ids)
  {
    if order != [] {
      var front := order[..|order| - 1];
      ReplayResets(l, v, front, wanted, now, maximum);
      var (ok, w, ids) := ReplayRun(l, v, front, wanted, now, maximum);
      if ok && |ids| < maximum {
        ReplayOneResets(l, w, order[|order| - 1], wanted, now, ids);
      }
    }
  }
}

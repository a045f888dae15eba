/** The inbox: one entry per (consumer, event), the same guarded transitions in the
    in-memory and the Postgres store. `O` is the type of owner names. */
module Inbox {
  import opened Collections

  type Key = (string, string)

  datatype Entry<O> = Entry(eventId: string, owner: O, expiresAt: int, complete: bool)

  /** `Forget` is what replaying or purging the event does to its entries. */
  datatype InboxOp<O> =
    | Claim(owner: O, expiresAt: int, now: int)
    | Renew(owner: O, expiresAt: int)
    | Complete(owner: O)
    | Release(owner: O)
    | Forget

  datatype InboxReply = Claimed | Duplicate | Busy | Yes | No

  function EntryStep<O(==)>(key: Key, e: Option<Entry<O>>, op: InboxOp<O>): (InboxReply, Option<Entry<O>>) {
    match op
    case Claim(owner, expiresAt, now) =>
      if e.Some? && e.value.complete then (Duplicate, e)
      else if e.Some? && e.value.expiresAt > now then (Busy, e)
      else (Claimed, Some(Entry(key.1, owner, expiresAt, false)))
    case Renew(owner, expiresAt) =>
      if e.None? || e.value.owner != owner || e.value.complete then (No, e)
      else (Yes, Some(e.value.(expiresAt := expiresAt)))
    case Complete(owner) =>
      if e.None? || e.value.owner != owner then (No, e) else (Yes, Some(e.value.(complete := true)))
    case Release(owner) =>
      if e.None? || e.value.owner != owner || e.value.complete then (No, e) else (Yes, None)
    case Forget => (if e.Some? then Yes else No, None)
  }

  function RunEntry<O(==)>(key: Key, e: Option<Entry<O>>, ops: seq<InboxOp<O>>): Option<Entry<O>> {
    if ops == [] then e else EntryStep(key, RunEntry(key, e, ops[..|ops| - 1]), ops[|ops| - 1]).1
  }

  /** The entry of a map of entries, and the map with that entry replaced. */
  function Lookup<O>(inbox: map<Key, Entry<O>>, key: Key): Option<Entry<O>> {
    if key in inbox then Some(inbox[key]) else None
  }

  function Store<O>(inbox: map<Key, Entry<O>>, key: Key, e: Option<Entry<O>>): map<Key, Entry<O>> {
    if e.Some? then inbox[key := e.value] else inbox - {key}
  }

  /** Once an owner completes the pair, and until the event is replayed or purged, the entry
      never changes again: every claim is a duplicate, every renewal and release is refused,
      and only the same owner may complete it, to no further effect. */
  lemma {:induction false} SingleCompleter<O>(key: Key, e: Entry<O>, ops: seq<InboxOp<O>>, op: InboxOp<O>)
    requires e.complete
    requires forall i :: 0 <= i < |ops| ==> !ops[i].Forget?
    requires !op.Forget?
    ensures RunEntry(key, Some(e), ops) == Some(e)
    ensures EntryStep(key, RunEntry(key, Some(e), ops), op)
         == (if op.Claim? then Duplicate else if op.Complete? && op.owner == e.owner then Yes else No, Some(e))
  {
    if ops != [] {
      SingleCompleter(key, e, ops[..|ops| - 1], ops[|ops| - 1]);
    }
  }

  predicate OwnedBy<O(==)>(e: Option<Entry<O>>, owner: O) { e.Some? && e.value.owner == owner }

  /** An owner whose entry was taken over, released or forgotten never gets anything done
      again, since it does not claim a second time; replays and purges do not help it. */
  lemma {:induction false} TakenOverOwnerIsRefused<O>(
    key: Key, e: Option<Entry<O>>, ops: seq<InboxOp<O>>, op: InboxOp<O>, owner: O)
    requires !OwnedBy(e, owner)
    requires forall i :: 0 <= i < |ops| ==> !(ops[i].Claim? && ops[i].owner == owner)
    requires (op.Renew? || op.Complete? || op.Release?) && op.owner == owner
    ensures !OwnedBy(RunEntry(key, e, ops), owner)
    ensures EntryStep(key, RunEntry(key, e, ops), op) == (No, RunEntry(key, e, ops))
  {
    if ops != [] {
      TakenOverOwnerIsRefused(key, e, ops[..|ops| - 1], op, owner);
    }
  }

  /** A successful claim by somebody else is what takes an entry over, and it needs an
      entry that is neither complete nor still leased. */
  lemma TakeOver<O>(key: Key, e: Option<Entry<O>>, owner: O, other: O, expiresAt: int, now: int)
    requires owner != other && OwnedBy(e, owner)
    ensures OwnedBy(EntryStep(key, e, Claim(other, expiresAt, now)).1, owner)
            <==> e.value.complete || e.value.expiresAt > now
  {
  }
}

/** The cache object: the methods change its maps in place, in the loops of the source. */
module ErrorDeduplicationCache {
  import opened Collections
  import opened DedupCache
  import opened DedupTheorems

  class Cache {
    const limits: Limits
    var order: seq<Key>
    var entries: map<Key, Entry>
    var throttledKeys: set<Key>
    var pendingByKey: map<Key, nat>
    var pendingOperations: nat
    /** The suspended operations. */
    var running: map<Key, Op>
    ghost var answers: seq<Answer>

    ghost function Held(): Store
      reads `order, `entries, `throttledKeys
    {
      Store(order, entries, throttledKeys)
    }

    ghost function Abs(): State
      reads this
    {
      State(Held(), pendingByKey, pendingOperations, running, answers)
    }

    ghost predicate Valid()
      reads this
    {
      ValidLimits(limits) && Bounded(limits, Abs())
    }

    constructor (limits: Limits)
      requires ValidLimits(limits)
      ensures Valid() && Abs() == INITIAL && this.limits == limits
    {
      this.limits := limits;
      order, entries, throttledKeys := [], map[], {};
      pendingByKey, pendingOperations, running, answers := map[], 0, map[], [];
    }

    method Remove(key: Key)
      modifies `order, `entries, `throttledKeys
      ensures Held() == Drop(old(Held()), {key})
    {
      order := Without(order, {key});
      entries := entries - {key};
      throttledKeys := throttledKeys - {key};
    }

    method EvictLRU()
      requires WellFormed(Held()) && limits.maxSize > 0
      modifies `order, `entries, `throttledKeys
      ensures Held() == DedupCache.EvictLRU(old(Held()), limits.maxSize)
    {
      if |entries| < limits.maxSize { return; }
      ghost var before := Held();
      VictimsFirst(before);
      DropNothing(before);
      var sorted, toRemove := StableSort(order, LastAccess(entries)), Max(1, |order| / 10);
      for i := 0 to toRemove
        invariant Held() == Drop(before, KeySet(sorted[..i]))
      {
        DropMore(before, KeySet(sorted[..i]), sorted[i]);
        KeySetNext(sorted, i);
        Remove(sorted[i]);
      }
    }

    method ClearExpired(now: nat)
      requires WellFormed(Held())
      modifies `order, `entries, `throttledKeys
      ensures Held() == Drop(old(Held()), Expired(old(Held()), now, limits.ttl))
    {
      ghost var before := Held();
      var keys := order;
      for i := 0 to |keys|
        invariant Held() == Sweep(before, i, now, limits.ttl)
      {
        var key := keys[i];
        SweepHolds(before, i, now, limits.ttl);
        if !InWindow(now, entries[key].timestamp, limits.ttl) { Remove(key); }
      }
      SweepDropsExpired(before, now, limits.ttl);
    }

    method SetEntry(key: Key, entry: Entry)
      requires WellFormed(Held()) && limits.maxSize > 0
      modifies `order, `entries, `throttledKeys
      ensures Held() == DedupCache.SetEntry(old(Held()), limits.maxSize, key, entry)
    {
      if key !in entries {
        EvictLRU();
        order := order + [key];
      }
      entries := entries[key := entry];
    }

    /** Whether the call is queued; otherwise it answers "report" at once. */
    method Ask(key: Key, kind: string, category: string, correlation: Option<string>) returns (queued: bool)
      requires Valid()
      modifies `pendingByKey, `pendingOperations
      ensures Valid() && Abs() == Next(limits, old(Abs()), DedupCache.Ask(key, kind, category, correlation))
      ensures queued <==> Admits(old(Abs()), key, kind, category, correlation)
    {
      hide Bounded;
      StepBounded(limits, Abs(), DedupCache.Ask(key, kind, category, correlation));
      var pending := PendingOf(pendingByKey, key);
      queued := Acceptable(key, kind, category, correlation)
        && pendingOperations < MAX_PENDING && pending < MAX_PENDING_PER_KEY;
      if queued {
        pendingOperations := pendingOperations + 1;
        pendingByKey := pendingByKey[key := pending + 1];
      }
    }

    method BeginRead(key: Key, now: nat)
      requires WellFormed(Held()) && limits.maxSize > 0
      modifies `order, `entries, `throttledKeys, `running
      ensures Abs() == DedupCache.BeginRead(limits, old(Abs()), key, old(Held()), now)
    {
      if key !in entries { EvictLRU(); }
      running := running[key := Read(now, if key in entries then Some(entries[key]) else None)];
    }

    method Start(key: Key, now: nat)
      requires Valid() && key in pendingByKey && key !in running
      modifies `order, `entries, `throttledKeys, `running
      ensures Valid() && Abs() == Next(limits, old(Abs()), DedupCache.Start(key, now))
    {
      hide Bounded, DedupCache.EvictLRU;
      BoundedIsWellFormed(limits, Abs());
      StepBounded(limits, Abs(), DedupCache.Start(key, now));
      if key in throttledKeys {
        running := running[key := ThrottledRead(now, if key in entries then Some(entries[key]) else None)];
      } else {
        BeginRead(key, now);
      }
    }

    method Report(key: Key, now: nat)
      requires WellFormed(Held()) && limits.maxSize > 0
      modifies `order, `entries, `throttledKeys, `running, `answers
      ensures Abs() == Reports(limits, old(Abs()), key, now)
    {
      throttledKeys := throttledKeys - {key};
      SetEntry(key, Fresh(now));
      running := running[key := Settling(false)];
      answers := answers + [Answer(key, now, true)];
    }

    method Suppress(key: Key, now: nat, entry: Entry, mark: bool)
      requires WellFormed(Held()) && ValidLimits(limits)
      modifies `order, `entries, `throttledKeys, `running, `answers
      ensures Abs() == Suppresses(limits, old(Abs()), key, now, entry, mark)
    {
      var counted := Counted(entry, now, limits.ttl);
      SetEntry(key, counted);
      running := running[key := Settling(mark && counted.count >= limits.threshold)];
      answers := answers + [Answer(key, now, false)];
    }

    method Create(key: Key, now: nat)
      requires WellFormed(Held()) && limits.maxSize > 0
      modifies `order, `entries, `throttledKeys, `running, `answers
      ensures Abs() == Suspend(old(Abs()), key, DedupCache.SetEntry(old(Held()), limits.maxSize, key, Fresh(now)),
                               Settling(false))
                         .(answers := old(answers) + [Answer(key, now, true)])
    {
      SetEntry(key, Fresh(now));
      running := running[key := Settling(false)];
      answers := answers + [Answer(key, now, true)];
    }

    method Settle(key: Key, mark: bool)
      modifies `throttledKeys, `pendingByKey, `pendingOperations, `running
      ensures Abs() == DoSettle(old(Abs()), key, mark)
    {
      if mark { throttledKeys := throttledKeys + {key}; }
      if pendingOperations > 0 { pendingOperations := pendingOperations - 1; }
      var left := PendingOf(pendingByKey, key) - 1;
      if left <= 0 { pendingByKey := pendingByKey - {key}; } else { pendingByKey := pendingByKey[key := left]; }
      running := running - {key};
    }

    /** An operation continues where it was suspended. */
    method Resume(key: Key)
      requires Valid() && key in running
      modifies this
      ensures Valid() && Abs() == Next(limits, old(Abs()), DedupCache.Resume(key))
    {
      hide Bounded, DedupCache.SetEntry, DedupCache.EvictLRU;
      BoundedIsWellFormed(limits, Abs());
      StepBounded(limits, Abs(), DedupCache.Resume(key));
      match running[key]
      case ThrottledRead(now, None) => { throttledKeys := throttledKeys - {key}; BeginRead(key, now); }
      case ThrottledRead(now, Some(entry)) => {
        if InWindow(now, entry.timestamp, limits.ttl) { Suppress(key, now, entry, false); } else { Report(key, now); }
      }
      case Read(now, None) => Create(key, now);
      case Read(now, Some(entry)) => {
        if InWindow(now, entry.timestamp, limits.ttl) { Suppress(key, now, entry, true); } else { Report(key, now); }
      }
      case Settling(mark) => Settle(key, mark);
    }
  }

  lemma BoundedIsWellFormed(c: Limits, s: State)
    requires Bounded(c, s)
    ensures WellFormed(s.store)
  {
  }

  lemma VictimsFirst(st: Store)
    requires WellFormed(st) && |st.entries| > 0
    ensures var sorted, n := StableSort(st.order, LastAccess(st.entries)), Max(1, |st.order| / 10);
            n <= |sorted| && Victims(st) == sorted[..n] && KeySet(sorted[..0]) == {}
  {
    var key :| key in st.entries;
    assert key in st.order;
    SortedEntries(st);
  }

  lemma DropNothing(st: Store)
    ensures Drop(st, {}) == st
  {
    WithoutNothing(st.order);
    assert st.entries - {} == st.entries;
  }

  lemma DropMore(st: Store, dropped: set<Key>, key: Key)
    ensures Drop(Drop(st, dropped), {key}) == Drop(st, dropped + {key})
  {
    WithoutMore(st.order, dropped, key);
    assert st.entries - dropped - {key} == st.entries - (dropped + {key});
    assert st.throttled - dropped - {key} == st.throttled - (dropped + {key});
  }

  /** What the sweep leaves after its first `n` entries. */
  function Sweep(st: Store, n: nat, now: nat, ttl: nat): Store
    requires n <= |st.order|
  {
    if n == 0 then st
    else
      var swept, key := Sweep(st, n - 1, now, ttl), st.order[n - 1];
      if key in swept.entries && !InWindow(now, swept.entries[key].timestamp, ttl) then Drop(swept, {key}) else swept
  }

  function ExpiredAmong(st: Store, keys: seq<Key>, now: nat, ttl: nat): set<Key> {
    set key | key in keys && key in st.entries && !InWindow(now, st.entries[key].timestamp, ttl)
  }

  lemma ExpiredAmongNext(st: Store, i: nat, now: nat, ttl: nat)
    requires WellFormed(st) && i < |st.order|
    ensures var key := st.order[i];
            && key in st.entries && key !in ExpiredAmong(st, st.order[..i], now, ttl)
            && ExpiredAmong(st, st.order[..i + 1], now, ttl)
               == if InWindow(now, st.entries[key].timestamp, ttl) then ExpiredAmong(st, st.order[..i], now, ttl)
                  else ExpiredAmong(st, st.order[..i], now, ttl) + {key}
  {
    assert st.order[i] in st.order;
    assert st.order[..i + 1] == st.order[..i] + [st.order[i]];
  }

  lemma SweepNothing(st: Store, now: nat, ttl: nat)
    ensures Drop(st, ExpiredAmong(st, st.order[..0], now, ttl)) == st
  {
    assert ExpiredAmong(st, st.order[..0], now, ttl) == {};
    DropNothing(st);
  }

  lemma {:induction false} SweepDrops(st: Store, n: nat, now: nat, ttl: nat)
    requires WellFormed(st) && n <= |st.order|
    ensures Sweep(st, n, now, ttl) == Drop(st, ExpiredAmong(st, st.order[..n], now, ttl))
  {
    if n == 0 {
      SweepNothing(st, now, ttl);
    } else {
      var m := n - 1;
      SweepDrops(st, m, now, ttl);
      ExpiredAmongNext(st, m, now, ttl);
      DropOneMore(st, ExpiredAmong(st, st.order[..m], now, ttl), st.order[m]);
    }
  }

  lemma DropOneMore(st: Store, dropped: set<Key>, key: Key)
    requires key in st.entries && key !in dropped
    ensures key in Drop(st, dropped).entries && Drop(st, dropped).entries[key] == st.entries[key]
    ensures Drop(Drop(st, dropped), {key}) == Drop(st, dropped + {key})
  {
    DropMore(st, dropped, key);
  }

  lemma SweepHolds(st: Store, n: nat, now: nat, ttl: nat)
    requires WellFormed(st) && n < |st.order|
    ensures st.order[n] in Sweep(st, n, now, ttl).entries
  {
    SweepDrops(st, n, now, ttl);
    ExpiredAmongNext(st, n, now, ttl);
  }

  lemma SweepDropsExpired(st: Store, now: nat, ttl: nat)
    requires WellFormed(st)
    ensures Sweep(st, |st.order|, now, ttl) == Drop(st, Expired(st, now, ttl))
  {
    SweepDrops(st, |st.order|, now, ttl);
    assert st.order[..|st.order|] == st.order;
    assert ExpiredAmong(st, st.order, now, ttl) == Expired(st, now, ttl);
  }
}

/** What the deduplication cache promises over whole runs. */
module DedupTheorems {
  import opened Collections
  import opened DedupCache

  // ----------------------------------------------------------- bookkeeping

  ghost predicate WellFormed(st: Store) {
    && (forall i, j | 0 <= i < j < |st.order| :: st.order[i] != st.order[j])
    && (forall key :: key in st.order <==> key in st.entries)
  }

  lemma DropKeeps(st: Store, dropped: set<Key>)
    requires WellFormed(st)
    ensures WellFormed(Drop(st, dropped)) && |Drop(st, dropped).entries| <= |st.entries|
    ensures (exists key :: key in dropped && key in st.entries) ==> |Drop(st, dropped).entries| < |st.entries|
  {
    WithoutMembers(st.order, dropped);
    var kept := st.entries - dropped;
    assert kept.Keys == st.entries.Keys - dropped;
    assert |kept| == |kept.Keys| && |st.entries| == |st.entries.Keys|;
    assert st.entries.Keys == kept.Keys + (st.entries.Keys * dropped);
  }

  /** The entries in the order in which eviction considers them. */
  lemma SortedEntries(st: Store)
    requires WellFormed(st)
    ensures var sorted := StableSort(st.order, LastAccess(st.entries));
            && |sorted| == |st.order| && SortedBy(sorted, LastAccess(st.entries))
            && (forall i, j | 0 <= i < j < |sorted| :: sorted[i] != sorted[j])
            && (forall key :: key in sorted <==> key in st.entries)
  {
    var sorted := StableSort(st.order, LastAccess(st.entries));
    StableSortSorted(st.order, LastAccess(st.entries));
    PermutationDistinct(st.order, sorted);
    forall key ensures key in sorted <==> key in st.entries {
      assert key in sorted <==> key in multiset(sorted);
      assert key in st.order <==> key in multiset(st.order);
    }
  }

  /** Eviction removes a tenth of the entries and at least one, and no entry it keeps was used before one it removes. */
  lemma EvictsOldest(st: Store)
    requires WellFormed(st) && st.order != []
    ensures var out := Victims(st);
            && |out| == Max(1, |st.order| / 10)
            && (forall i, j | 0 <= i < j < |out| :: out[i] != out[j])
            && (forall i | 0 <= i < |out| :: out[i] in st.entries)
            && (forall i, key | 0 <= i < |out| && key in st.entries && key !in out ::
                  st.entries[out[i]].lastAccess <= st.entries[key].lastAccess)
  {
    SortedEntries(st);
    var sorted, out := StableSort(st.order, LastAccess(st.entries)), Victims(st);
    forall i | 0 <= i < |out| ensures out[i] in st.entries {
      assert out[i] == sorted[i] && sorted[i] in sorted;
    }
    forall i, key | 0 <= i < |out| && key in st.entries && key !in out
      ensures st.entries[out[i]].lastAccess <= st.entries[key].lastAccess
    {
      OldestAt(st.entries, sorted, |out|, i, key);
    }
  }

  lemma OldestAt(entries: map<Key, Entry>, sorted: seq<Key>, n: nat, i: nat, key: Key)
    requires SortedBy(sorted, LastAccess(entries)) && i < n <= |sorted|
    requires key in sorted && key !in sorted[..n] && sorted[i] in entries && key in entries
    ensures entries[sorted[i]].lastAccess <= entries[key].lastAccess
  {
    var k :| 0 <= k < |sorted| && sorted[k] == key;
    assert forall j | 0 <= j < n :: sorted[j] in sorted[..n] by {
      forall j | 0 <= j < n ensures sorted[j] in sorted[..n] { assert sorted[..n][j] == sorted[j]; }
    }
    assert LastAccess(entries)(sorted[i]) <= LastAccess(entries)(sorted[k]);
  }

  lemma EvictionMakesRoom(st: Store, maxSize: nat)
    requires WellFormed(st) && |st.entries| <= maxSize && maxSize > 0
    ensures WellFormed(EvictLRU(st, maxSize)) && |EvictLRU(st, maxSize).entries| < maxSize
  {
    if |st.entries| == maxSize {
      var dropped := KeySet(Victims(st));
      assert st.order != [] by {
        var key :| key in st.entries;
        assert key in st.order;
      }
      EvictsOldest(st);
      assert Victims(st)[0] in dropped;
      DropKeeps(st, dropped);
    }
  }

  lemma SetEntryKeeps(st: Store, maxSize: nat, key: Key, entry: Entry)
    requires WellFormed(st) && |st.entries| <= maxSize && maxSize > 0
    ensures var t := SetEntry(st, maxSize, key, entry); WellFormed(t) && |t.entries| <= maxSize
  {
    hide EvictLRU;
    var room := EvictLRU(st, maxSize);
    EvictionMakesRoom(st, maxSize);
    MapCount(st.entries, key, entry);
    MapCount(room.entries, key, entry);
    if key !in st.entries { EvictionOnlyDrops(st, maxSize); }
  }

  lemma EvictionOnlyDrops(st: Store, maxSize: nat)
    ensures EvictLRU(st, maxSize).entries.Keys <= st.entries.Keys
  {
  }

  ghost predicate Bounded(c: Limits, s: State) {
    && WellFormed(s.store) && |s.store.entries| <= c.maxSize
    && s.total == MapSum(s.pending) <= MAX_PENDING
    && (forall key | key in s.pending :: 0 < s.pending[key] <= MAX_PENDING_PER_KEY)
    && (forall key | key in s.running :: key in s.pending)
  }

  lemma BeginReadBounded(c: Limits, s: State, key: Key, store: Store, now: nat)
    requires ValidLimits(c) && Bounded(c, s) && key in s.pending
    requires WellFormed(store) && |store.entries| <= c.maxSize
    ensures Bounded(c, BeginRead(c, s, key, store, now))
  {
    hide MapSum, EvictLRU;
    EvictionMakesRoom(store, c.maxSize);
  }

  lemma ResumeBounded(c: Limits, s: State, key: Key)
    requires ValidLimits(c) && Bounded(c, s) && key in s.running
    ensures Bounded(c, DoResume(c, s, key))
  {
    hide MapSum, EvictLRU, SetEntry, DoSettle, BeginRead, WeightedScore;
    var released := s.store.(throttled := s.store.throttled - {key});
    match s.running[key]
    case ThrottledRead(now, None) => BeginReadBounded(c, s, key, released, now);
    case ThrottledRead(now, Some(entry)) =>
      SetEntryKeeps(released, c.maxSize, key, Fresh(now));
      SetEntryKeeps(s.store, c.maxSize, key, Counted(entry, now, c.ttl));
    case Read(now, None) => SetEntryKeeps(s.store, c.maxSize, key, Fresh(now));
    case Read(now, Some(entry)) =>
      SetEntryKeeps(released, c.maxSize, key, Fresh(now));
      SetEntryKeeps(s.store, c.maxSize, key, Counted(entry, now, c.ttl));
    case Settling(mark) => SettleBounded(c, s, key, mark);
  }

  lemma SettleBounded(c: Limits, s: State, key: Key, mark: bool)
    requires Bounded(c, s) && key in s.running
    ensures Bounded(c, DoSettle(s, key, mark))
  {
    hide MapSum;
    PendingSettles(s.pending, key);
  }

  lemma PendingSettles(pending: map<Key, nat>, key: Key)
    requires key in pending && pending[key] > 0
    ensures MapSum(if pending[key] == 1 then pending - {key} else pending[key := pending[key] - 1])
            == MapSum(pending) - 1
  {
    if pending[key] == 1 { MapSumPick(pending, key); } else { MapSumUpdate(pending, key, pending[key] - 1); }
  }

  lemma StepBounded(c: Limits, s: State, step: Step)
    requires ValidLimits(c) && Bounded(c, s)
    ensures Bounded(c, Next(c, s, step))
  {
    hide MapSum, BeginRead, DoResume;
    match step
    case Ask(key, kind, category, correlation) =>
      if Admits(s, key, kind, category, correlation) {
        MapSumUpdate(s.pending, key, PendingOf(s.pending, key) + 1);
      }
    case Start(key, now) =>
      if key in s.pending && key !in s.running && key !in s.store.throttled {
        BeginReadBounded(c, s, key, s.store, now);
      }
    case Resume(key) => if key in s.running { ResumeBounded(c, s, key); }
    case ClearExpired(now) => DropKeeps(s.store, Expired(s.store, now, c.ttl));
    case Clear =>
  }

  /** The cache never exceeds its size, and the pending counters are exact and within their limits. */
  lemma {:induction false} CacheStaysBounded(c: Limits, steps: seq<Step>)
    requires ValidLimits(c)
    ensures Bounded(c, Run(c, steps))
  {
    if steps != [] {
      CacheStaysBounded(c, steps[..|steps| - 1]);
      StepBounded(c, Run(c, steps[..|steps| - 1]), steps[|steps| - 1]);
    }
  }

  // ----------------------------------------------- suppression is justified

  ghost predicate ReportedAt(answers: seq<Answer>, key: Key, t: nat) {
    Answer(key, t, true) in answers
  }

  ghost predicate Justified(c: Limits, s: State) {
    && (forall key | key in s.store.entries :: ReportedAt(s.answers, key, s.store.entries[key].timestamp))
    && (forall key | key in s.running && !s.running[key].Settling? && s.running[key].entry.Some? ::
          ReportedAt(s.answers, key, s.running[key].entry.value.timestamp))
    && (forall i | 0 <= i < |s.answers| && !s.answers[i].reported :: JustifiedAnswer(c, s.answers, i))
  }

  /** Some earlier answer reported the same key less than a time to live before. */
  ghost predicate JustifiedAnswer(c: Limits, answers: seq<Answer>, i: nat)
    requires i < |answers|
  {
    exists t: nat :: ReportedAt(answers[..i], answers[i].key, t) && InWindow(answers[i].now, t, c.ttl)
  }

  lemma AnswerKeepsJustified(c: Limits, s: State, store: Store, key: Key, op: Op, answer: Answer)
    requires Justified(c, s) && op.Settling? && key == answer.key
    requires forall k | k in store.entries ::
               || ReportedAt(s.answers, k, store.entries[k].timestamp)
               || (k == key && answer.reported && store.entries[k].timestamp == answer.now)
    requires !answer.reported ==> exists t: nat :: ReportedAt(s.answers, key, t) && InWindow(answer.now, t, c.ttl)
    ensures Justified(c, Suspend(s, key, store, op).(answers := s.answers + [answer]))
  {
    var t := Suspend(s, key, store, op).(answers := s.answers + [answer]);
    forall i | 0 <= i < |t.answers| && !t.answers[i].reported ensures JustifiedAnswer(c, t.answers, i) {
      if i < |s.answers| {
        assert JustifiedAnswer(c, s.answers, i);
        assert t.answers[..i] == s.answers[..i];
      } else {
        assert t.answers[..i] == s.answers;
      }
    }
  }

  lemma ResumeJustified(c: Limits, s: State, key: Key)
    requires ValidLimits(c) && Justified(c, s) && key in s.running
    ensures Justified(c, DoResume(c, s, key))
  {
    if !s.running[key].Settling? {
      var now := s.running[key].now;
      var released := s.store.(throttled := s.store.throttled - {key});
      match s.running[key].entry
      case None =>
        if s.running[key].Read? {
          AnswerKeepsJustified(c, s, SetEntry(s.store, c.maxSize, key, Fresh(now)),
                               key, Settling(false), Answer(key, now, true));
        }
      case Some(entry) =>
        if InWindow(now, entry.timestamp, c.ttl) {
          var counted := Counted(entry, now, c.ttl);
          AnswerKeepsJustified(c, s, SetEntry(s.store, c.maxSize, key, counted), key,
            Settling(s.running[key].Read? && counted.count >= c.threshold), Answer(key, now, false));
        } else {
          AnswerKeepsJustified(c, s, SetEntry(released, c.maxSize, key, Fresh(now)),
                               key, Settling(false), Answer(key, now, true));
        }
    }
  }

  lemma StepJustified(c: Limits, s: State, step: Step)
    requires ValidLimits(c) && Justified(c, s)
    ensures Justified(c, Next(c, s, step))
  {
    if step.Resume? && step.key in s.running { ResumeJustified(c, s, step.key); }
  }

  lemma {:induction false} EveryRunJustified(c: Limits, steps: seq<Step>)
    requires ValidLimits(c)
    ensures Justified(c, Run(c, steps))
  {
    if steps != [] {
      EveryRunJustified(c, steps[..|steps| - 1]);
      StepJustified(c, Run(c, steps[..|steps| - 1]), steps[|steps| - 1]);
    }
  }

  /** Whatever is evicted, cleared or interleaved, and however the clock jumps: an answer suppresses only a key that an
      earlier answer reported, less than a time to live before. */
  lemma SuppressionIsJustified(c: Limits, steps: seq<Step>, i: nat)
    requires ValidLimits(c)
    requires var answers := Run(c, steps).answers; i < |answers| && !answers[i].reported
    ensures var answers := Run(c, steps).answers;
            exists j | 0 <= j < i :: answers[j].key == answers[i].key && answers[j].reported
              && 0 <= answers[i].now - answers[j].now < c.ttl
  {
    EveryRunJustified(c, steps);
    var answers := Run(c, steps).answers;
    assert JustifiedAnswer(c, answers, i);
    var t: nat :| ReportedAt(answers[..i], answers[i].key, t) && InWindow(answers[i].now, t, c.ttl);
    var j :| 0 <= j < i && answers[..i][j] == Answer(answers[i].key, t, true);
    assert answers[j] == answers[..i][j];
  }
}

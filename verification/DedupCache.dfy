/** The error deduplication cache: entries with a time to live, a throttle set, eviction of the least recently used
    and operations that run one at a time per key but interleave across keys. */
module DedupCache {
  import opened Collections

  type Key = string

  const MAX_PENDING: nat := 1_000
  const MAX_PENDING_PER_KEY: nat := 64
  const MAX_INPUT: nat := 4_096
  const MAX_SAFE_INTEGER: nat := 9_007_199_254_740_991

  datatype Limits = Limits(ttl: nat, maxSize: nat, threshold: nat)

  predicate ValidLimits(c: Limits) { c.ttl > 0 && c.maxSize > 0 && c.threshold > 0 }

  datatype Entry = Entry(timestamp: nat, count: nat, lastAccess: nat, score: real)

  /** `order` is the insertion order of the map. */
  datatype Store = Store(order: seq<Key>, entries: map<Key, Entry>, throttled: set<Key>)

  const EMPTY := Store([], map[], {})

  function Get(st: Store, key: Key): Option<Entry> {
    if key in st.entries then Some(st.entries[key]) else None
  }

  /** Removing an entry also forgets that its key was throttled. */
  function Drop(st: Store, dropped: set<Key>): Store {
    Store(Without(st.order, dropped), st.entries - dropped, st.throttled - dropped)
  }

  function LastAccess(entries: map<Key, Entry>): Key -> int {
    key => if key in entries then entries[key].lastAccess else 0
  }

  /** The keys that eviction removes: a tenth of the entries, at least one, least recently used first. */
  function Victims(st: Store): seq<Key> {
    var sorted, n := StableSort(st.order, LastAccess(st.entries)), Max(1, |st.order| / 10);
    if n <= |sorted| then sorted[..n] else sorted
  }

  function EvictLRU(st: Store, maxSize: nat): Store {
    if |st.entries| < maxSize then st else Drop(st, KeySet(Victims(st)))
  }

  function SetEntry(st: Store, maxSize: nat, key: Key, entry: Entry): Store {
    if key in st.entries then st.(entries := st.entries[key := entry])
    else
      var room := EvictLRU(st, maxSize);
      Store(room.order + [key], room.entries[key := entry], room.throttled)
  }

  predicate InWindow(now: int, timestamp: int, ttl: int) { 0 <= now - timestamp < ttl }

  function Expired(st: Store, now: nat, ttl: nat): set<Key> {
    set key | key in st.entries && !InWindow(now, st.entries[key].timestamp, ttl)
  }

  function Fresh(now: nat): Entry { Entry(now, 1, now, 1.0) }

  function WeightedScore(count: nat, timestamp: int, now: int, ttl: nat): real
    requires ttl > 0
  {
    var factor := 1.0 - (now - timestamp) as real / ttl as real;
    count as real * (if factor < 0.0 then 0.0 else if factor > 1.0 then 1.0 else factor)
  }

  function Counted(entry: Entry, now: nat, ttl: nat): Entry
    requires ttl > 0
  {
    var count := if entry.count < MAX_SAFE_INTEGER then entry.count + 1 else entry.count;
    Entry(entry.timestamp, count, now, WeightedScore(count, entry.timestamp, now, ttl))
  }

  // ------------------------------------------------------------ operations

  /** Where a running operation is suspended; `Settling` has answered, and may still mark its key as throttled. */
  datatype Op =
    | ThrottledRead(now: nat, entry: Option<Entry>)
    | Read(now: nat, entry: Option<Entry>)
    | Settling(mark: bool)

  datatype Answer = Answer(key: Key, now: nat, reported: bool)

  /** `answers` is history: what the operations that consulted the cache answered, in order. */
  datatype State = State(store: Store, pending: map<Key, nat>, total: nat, running: map<Key, Op>, answers: seq<Answer>)

  const INITIAL := State(EMPTY, map[], 0, map[], [])

  datatype Step =
    | Ask(key: Key, kind: string, category: string, correlation: Option<string>)
    | Start(key: Key, now: nat)
    | Resume(key: Key)
    | ClearExpired(now: nat)
    | Clear

  predicate Acceptable(key: Key, kind: string, category: string, correlation: Option<string>) {
    && 0 < |key| <= MAX_INPUT && |kind| <= MAX_INPUT && |category| <= MAX_INPUT
    && (correlation.None? || |correlation.value| <= MAX_INPUT)
  }

  function PendingOf(pending: map<Key, nat>, key: Key): nat { if key in pending then pending[key] else 0 }

  /** An operation that is not admitted answers "report" without consulting the cache. */
  predicate Admits(s: State, key: Key, kind: string, category: string, correlation: Option<string>) {
    && Acceptable(key, kind, category, correlation)
    && s.total < MAX_PENDING && PendingOf(s.pending, key) < MAX_PENDING_PER_KEY
  }

  function DoAsk(s: State, key: Key): State {
    s.(total := s.total + 1, pending := s.pending[key := PendingOf(s.pending, key) + 1])
  }

  function Suspend(s: State, key: Key, store: Store, op: Op): State {
    s.(store := store, running := s.running[key := op])
  }

  function BeginRead(c: Limits, s: State, key: Key, store: Store, now: nat): State {
    var room := if key in store.entries then store else EvictLRU(store, c.maxSize);
    Suspend(s, key, room, Read(now, Get(room, key)))
  }

  function DoStart(c: Limits, s: State, key: Key, now: nat): State {
    if key in s.store.throttled then Suspend(s, key, s.store, ThrottledRead(now, Get(s.store, key)))
    else BeginRead(c, s, key, s.store, now)
  }

  function Reports(c: Limits, s: State, key: Key, now: nat): State {
    var store := s.store.(throttled := s.store.throttled - {key});
    var answers := s.answers + [Answer(key, now, true)];
    Suspend(s, key, SetEntry(store, c.maxSize, key, Fresh(now)), Settling(false)).(answers := answers)
  }

  function Suppresses(c: Limits, s: State, key: Key, now: nat, entry: Entry, mark: bool): State
    requires ValidLimits(c)
  {
    var counted := Counted(entry, now, c.ttl);
    Suspend(s, key, SetEntry(s.store, c.maxSize, key, counted), Settling(mark && counted.count >= c.threshold))
      .(answers := s.answers + [Answer(key, now, false)])
  }

  function DoSettle(s: State, key: Key, mark: bool): State {
    var left := PendingOf(s.pending, key) - 1;
    s.(store := if mark then s.store.(throttled := s.store.throttled + {key}) else s.store,
       total := if s.total > 0 then s.total - 1 else 0,
       pending := if left <= 0 then s.pending - {key} else s.pending[key := left],
       running := s.running - {key})
  }

  /** A new entry and a key that was not throttled leave the throttle set alone, so one function covers both. */
  function DoResume(c: Limits, s: State, key: Key): State
    requires ValidLimits(c) && key in s.running
  {
    match s.running[key]
    case ThrottledRead(now, None) => BeginRead(c, s, key, s.store.(throttled := s.store.throttled - {key}), now)
    case ThrottledRead(now, Some(entry)) =>
      if InWindow(now, entry.timestamp, c.ttl) then Suppresses(c, s, key, now, entry, false)
      else Reports(c, s, key, now)
    case Read(now, None) =>
      var answers := s.answers + [Answer(key, now, true)];
      Suspend(s, key, SetEntry(s.store, c.maxSize, key, Fresh(now)), Settling(false)).(answers := answers)
    case Read(now, Some(entry)) =>
      if InWindow(now, entry.timestamp, c.ttl) then Suppresses(c, s, key, now, entry, true) else Reports(c, s, key, now)
    case Settling(mark) => DoSettle(s, key, mark)
  }

  function Next(c: Limits, s: State, step: Step): State
    requires ValidLimits(c)
  {
    match step
    case Ask(key, kind, category, correlation) =>
      if Admits(s, key, kind, category, correlation) then DoAsk(s, key) else s
    case Start(key, now) => if key in s.pending && key !in s.running then DoStart(c, s, key, now) else s
    case Resume(key) => if key in s.running then DoResume(c, s, key) else s
    case ClearExpired(now) => s.(store := Drop(s.store, Expired(s.store, now, c.ttl)))
    case Clear => s.(store := Store([], map[], s.store.throttled - s.store.entries.Keys))
  }

  function Run(c: Limits, steps: seq<Step>): State
    requires ValidLimits(c)
  {
    if steps == [] then INITIAL else Next(c, Run(c, steps[..|steps| - 1]), steps[|steps| - 1])
  }
}

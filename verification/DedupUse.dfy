/** What the entries, the counters and the throttle set of the deduplication cache stand for, read off the answers
    given: when a key was last answered and reported, and how often since. */
module DedupUse {
  import opened Collections
  import opened DedupCache
  import opened DedupTheorems
  import opened DedupAgreement
  import opened DedupExact

  /** When the key was last answered, either way. */
  function LastAnswer(answers: seq<Answer>, key: Key): Option<nat> {
    if answers == [] then None
    else if answers[|answers| - 1].key == key then Some(answers[|answers| - 1].now)
    else LastAnswer(answers[..|answers| - 1], key)
  }

  /** How often the key was answered since its last report, which counts as well. */
  function Hits(answers: seq<Answer>, key: Key): nat {
    if answers == [] then 0
    else
      var front, last := answers[..|answers| - 1], answers[|answers| - 1];
      if last.key != key then Hits(front, key) else if last.reported then 1 else Hits(front, key) + 1
  }

  /** The entry is what the answers on its key make of it. Its score falls from the count to nothing while its time to
      live passes. */
  ghost predicate Reflected(c: Limits, answers: seq<Answer>, key: Key, e: Entry) {
    && LastAnswer(answers, key) == Some(e.lastAccess) && LastReport(answers, key) == Some(e.timestamp)
    && e.count == Min(Hits(answers, key), 9_007_199_254_740_991)
    && 0 <= e.lastAccess - e.timestamp < c.ttl
    && e.score * c.ttl as real == e.count as real * (c.ttl - (e.lastAccess - e.timestamp)) as real
  }

  ghost predicate AllReflected(c: Limits, s: State) {
    && (forall key <- s.store.entries :: Reflected(c, s.answers, key, s.store.entries[key]))
    && (forall key <- s.running | !s.running[key].Settling? && s.running[key].entry.Some? ::
          Reflected(c, s.answers, key, s.running[key].entry.value))
    && (forall key <- s.running | s.running[key].Settling? ::
          LastAnswer(s.answers, key).Some? && (s.running[key].mark ==> Hits(s.answers, key) >= c.threshold))
  }

  lemma AnswerElsewhere(answers: seq<Answer>, answer: Answer, key: Key)
    requires answer.key != key
    ensures LastAnswer(answers + [answer], key) == LastAnswer(answers, key)
    ensures LastReport(answers + [answer], key) == LastReport(answers, key)
    ensures Hits(answers + [answer], key) == Hits(answers, key)
  {
    assert (answers + [answer])[..|answers|] == answers;
  }

  lemma ReflectedElsewhere(c: Limits, answers: seq<Answer>, answer: Answer, key: Key, e: Entry)
    requires answer.key != key && Reflected(c, answers, key, e)
    ensures Reflected(c, answers + [answer], key, e)
  {
    AnswerElsewhere(answers, answer, key);
  }

  lemma FreshReflected(c: Limits, answers: seq<Answer>, key: Key, now: nat)
    requires ValidLimits(c)
    ensures Reflected(c, answers + [Answer(key, now, true)], key, Fresh(now))
    ensures Hits(answers + [Answer(key, now, true)], key) == 1
  {
    assert (answers + [Answer(key, now, true)])[..|answers|] == answers;
  }

  lemma Positive(x: real, t: real)
    requires t > 0.0 && x * t >= 0.0
    ensures x >= 0.0
  {
  }

  lemma ScoreFalls(count: nat, timestamp: nat, now: nat, ttl: nat)
    requires ttl > 0 && 0 <= now - timestamp < ttl
    ensures WeightedScore(count, timestamp, now, ttl) * ttl as real == count as real * (ttl - (now - timestamp)) as real
  {
    var age, n, t := (now - timestamp) as real, count as real, ttl as real;
    var factor := 1.0 - age / t;
    assert age / t * t == age;
    assert factor * t == t - age;
    Positive(factor, t);
    Positive(1.0 - factor, t);
    assert n * factor * t == n * (factor * t);
  }

  lemma CountedReflected(c: Limits, answers: seq<Answer>, key: Key, now: nat, e: Entry)
    requires ValidLimits(c) && Reflected(c, answers, key, e) && InWindow(now, e.timestamp, c.ttl)
    ensures Reflected(c, answers + [Answer(key, now, false)], key, Counted(e, now, c.ttl))
    ensures Counted(e, now, c.ttl).count <= Hits(answers + [Answer(key, now, false)], key)
  {
    hide WeightedScore;
    assert (answers + [Answer(key, now, false)])[..|answers|] == answers;
    ScoreFalls(Counted(e, now, c.ttl).count, e.timestamp, now, c.ttl);
  }

  /** An answer on the key, which writes its entry or leaves none. */
  lemma AnswerReflected(c: Limits, s: State, key: Key, answer: Answer, store: Store, op: Op)
    requires AllReflected(c, s) && answer.key == key && op.Settling?
    requires forall k <- store.entries | k != key :: k in s.store.entries && store.entries[k] == s.store.entries[k]
    requires key in store.entries ==> Reflected(c, s.answers + [answer], key, store.entries[key])
    requires op.mark ==> Hits(s.answers + [answer], key) >= c.threshold
    ensures AllReflected(c, Suspend(s, key, store, op).(answers := s.answers + [answer]))
  {
    hide Reflected;
    var t := Suspend(s, key, store, op).(answers := s.answers + [answer]);
    assert t.answers[..|s.answers|] == s.answers;
    forall k | k != key
      ensures LastAnswer(t.answers, k) == LastAnswer(s.answers, k) && Hits(t.answers, k) == Hits(s.answers, k)
    {
      AnswerElsewhere(s.answers, answer, k);
    }
    assert LastAnswer(t.answers, key).Some?;
    forall k <- t.store.entries ensures Reflected(c, t.answers, k, t.store.entries[k]) {
      if k != key { ReflectedElsewhere(c, s.answers, answer, k, s.store.entries[k]); }
    }
    forall k <- t.running | !t.running[k].Settling? && t.running[k].entry.Some?
      ensures Reflected(c, t.answers, k, t.running[k].entry.value)
    {
      assert k != key && t.running[k] == s.running[k];
      ReflectedElsewhere(c, s.answers, answer, k, s.running[k].entry.value);
    }
  }

  lemma ReadReflected(c: Limits, s: State, key: Key, store: Store, now: nat)
    requires AllReflected(c, s) && store.entries == s.store.entries
    ensures AllReflected(c, BeginRead(c, s, key, store, now))
  {
    hide Reflected, EvictLRU;
    EvictionShrinks(store, c.maxSize);
  }

  lemma ResumeReflected(c: Limits, s: State, key: Key)
    requires ValidLimits(c) && AllReflected(c, s) && key in s.running
    ensures AllReflected(c, DoResume(c, s, key))
  {
    hide Reflected, EvictLRU, SetEntry, BeginRead, WeightedScore, AllReflected;
    var released := s.store.(throttled := s.store.throttled - {key});
    if s.running[key].Settling? {
      SettleReflected(c, s, key);
    } else if s.running[key].ThrottledRead? && s.running[key].entry.None? {
      ReadReflected(c, s, key, released, s.running[key].now);
    } else if s.running[key].entry.Some? && InWindow(s.running[key].now, s.running[key].entry.value.timestamp, c.ttl) {
      SuppressionReflected(c, s, key);
    } else {
      ReportReflected(c, s, key, if s.running[key].entry.Some? then released else s.store);
    }
  }

  lemma SettleReflected(c: Limits, s: State, key: Key)
    requires AllReflected(c, s) && key in s.running && s.running[key].Settling?
    ensures AllReflected(c, DoSettle(s, key, s.running[key].mark))
  {
    hide Reflected;
  }

  lemma SuppressionReflected(c: Limits, s: State, key: Key)
    requires ValidLimits(c) && AllReflected(c, s) && key in s.running && !s.running[key].Settling?
    requires s.running[key].entry.Some? && InWindow(s.running[key].now, s.running[key].entry.value.timestamp, c.ttl)
    ensures AllReflected(c, Suppresses(c, s, key, s.running[key].now, s.running[key].entry.value, s.running[key].Read?))
  {
    hide Reflected, EvictLRU, WeightedScore;
    var now, e := s.running[key].now, s.running[key].entry.value;
    var counted := Counted(e, now, c.ttl);
    CountedReflected(c, s.answers, key, now, e);
    SetEntryAdds(s.store, c.maxSize, key, counted);
    hide SetEntry, AllReflected;
    AnswerReflected(c, s, key, Answer(key, now, false), SetEntry(s.store, c.maxSize, key, counted),
                    Settling(s.running[key].Read? && counted.count >= c.threshold));
  }

  lemma ReportReflected(c: Limits, s: State, key: Key, store: Store)
    requires ValidLimits(c) && AllReflected(c, s) && key in s.running && !s.running[key].Settling?
    requires store.entries == s.store.entries
    ensures var now := s.running[key].now;
            AllReflected(c, Suspend(s, key, SetEntry(store, c.maxSize, key, Fresh(now)), Settling(false))
                              .(answers := s.answers + [Answer(key, now, true)]))
  {
    hide Reflected, EvictLRU, AllReflected;
    var now := s.running[key].now;
    FreshReflected(c, s.answers, key, now);
    SetEntryAdds(store, c.maxSize, key, Fresh(now));
    hide SetEntry;
    AnswerReflected(c, s, key, Answer(key, now, true), SetEntry(store, c.maxSize, key, Fresh(now)), Settling(false));
  }

  lemma StepReflected(c: Limits, s: State, step: Step)
    requires ValidLimits(c) && AllReflected(c, s)
    ensures AllReflected(c, Next(c, s, step))
  {
    hide Reflected, BeginRead, DoResume;
    match step
    case Start(key, now) =>
      if key in s.pending && key !in s.running && key !in s.store.throttled { ReadReflected(c, s, key, s.store, now); }
    case Resume(key) => if key in s.running { ResumeReflected(c, s, key); }
    case _ =>
  }

  /** In every run each entry of the cache is told by the answers: its last use is the last answer on its key, its
      time is that of the last report, and its count is the number of answers since. */
  lemma {:induction false} EntriesAreAnswers(c: Limits, steps: seq<Step>)
    requires ValidLimits(c)
    ensures AllReflected(c, Run(c, steps))
  {
    hide AllReflected, Next;
    if steps == [] {
      NothingReflected(c);
    } else {
      EntriesAreAnswers(c, steps[..|steps| - 1]);
      StepReflected(c, Run(c, steps[..|steps| - 1]), steps[|steps| - 1]);
    }
  }

  lemma NothingReflected(c: Limits)
    requires ValidLimits(c)
    ensures AllReflected(c, Run(c, []))
  {
  }

  // --------------------------------------------------------------- eviction

  /** Only an eviction, a sweep and `clear` remove entries; an eviction happens only when a new key needs room. */
  predicate Evicts(s: State, t: State, step: Step, key: Key) {
    !step.ClearExpired? && !step.Clear? && key in s.store.entries && key !in t.store.entries
  }

  lemma DropsVictims(st: Store, maxSize: nat, out: Key, kept: Key)
    requires WellFormed(st) && out in st.entries && kept in st.entries
    requires out !in EvictLRU(st, maxSize).entries && kept in EvictLRU(st, maxSize).entries
    ensures st.entries[out].lastAccess <= st.entries[kept].lastAccess && |st.entries| >= maxSize
  {
    hide Victims;
    var key :| key in st.entries;
    assert key in st.order;
    EvictsOldest(st);
    var victims := Victims(st);
    assert out in victims && kept !in victims;
    var i :| 0 <= i < |victims| && victims[i] == out;
  }

  /** What one step evicts was used no later than what it keeps. */
  lemma StepEvicts(c: Limits, s: State, step: Step, out: Key, kept: Key)
    requires ValidLimits(c) && WellFormed(s.store) && Evicts(s, Next(c, s, step), step, out)
    requires kept in s.store.entries && kept in Next(c, s, step).store.entries
    ensures s.store.entries[out].lastAccess <= s.store.entries[kept].lastAccess && |s.store.entries| >= c.maxSize
    ensures (step.Start? || step.Resume?) && step.key !in s.store.entries
  {
    hide EvictLRU, WellFormed, WeightedScore;
    var key := if step.Start? then step.key else if step.Resume? then step.key else out;
    var released := s.store.(throttled := s.store.throttled - {key});
    SameVictims(s.store, released, c.maxSize);
    if kept in EvictLRU(s.store, c.maxSize).entries {
      DropsVictims(s.store, c.maxSize, out, kept);
    } else {
      assert false;
    }
  }

  lemma SameVictims(st: Store, released: Store, maxSize: nat)
    requires released.order == st.order && released.entries == st.entries
    ensures EvictLRU(st, maxSize).entries == EvictLRU(released, maxSize).entries
  {
  }

  /** In every run: whatever an eviction removes was answered last no later than whatever it keeps, and it removes
      something only when the cache is full and the operation's key has no entry. */
  lemma EvictsLeastRecentlyAnswered(c: Limits, steps: seq<Step>, step: Step, out: Key, kept: Key)
    requires ValidLimits(c) && Evicts(Run(c, steps), Next(c, Run(c, steps), step), step, out)
    requires kept in Run(c, steps).store.entries && kept in Next(c, Run(c, steps), step).store.entries
    ensures var s := Run(c, steps);
            && LastAnswer(s.answers, out).Some? && LastAnswer(s.answers, kept).Some?
            && LastAnswer(s.answers, out).value <= LastAnswer(s.answers, kept).value
            && |s.store.entries| == c.maxSize
            && (step.Start? || step.Resume?) && step.key !in s.store.entries
  {
    hide Run, Next;
    EntriesAreAnswers(c, steps);
    CacheStaysBounded(c, steps);
    StepEvicts(c, Run(c, steps), step, out, kept);
  }

  // ------------------------------------------------- throttling and admission

  /** When a key is to be throttled, exactly: its operation found it unthrottled, suppressed it, and so often that the
      threshold is reached. */
  lemma ThrottlesExactly(c: Limits, steps: seq<Step>, key: Key)
    requires ValidLimits(c) && AboutToAnswer(Run(c, steps), key)
    ensures var s, t := Run(c, steps), Next(c, Run(c, steps), Resume(key));
            && |t.answers| == |s.answers| + 1 && key in t.running && t.running[key].Settling?
            && (t.running[key].mark
                <==> && s.running[key].Read? && !t.answers[|s.answers|].reported
                     && Min(Hits(t.answers, key), 9_007_199_254_740_991) >= c.threshold)
  {
    hide Run, Reflected, EvictLRU, SetEntry, WeightedScore;
    EntriesAreAnswers(c, steps);
    var s := Run(c, steps);
    AnswerStep(c, s, key);
    if s.running[key].entry.Some? && InWindow(s.running[key].now, s.running[key].entry.value.timestamp, c.ttl) {
      CountIsHits(c, s.answers, key, s.running[key].now, s.running[key].entry.value);
    }
  }

  lemma CountIsHits(c: Limits, answers: seq<Answer>, key: Key, now: nat, e: Entry)
    requires ValidLimits(c) && Reflected(c, answers, key, e)
    ensures Counted(e, now, c.ttl).count == Min(Hits(answers + [Answer(key, now, false)], key), 9_007_199_254_740_991)
  {
    assert (answers + [Answer(key, now, false)])[..|answers|] == answers;
  }

  /** The step is a call that is queued: its input is well formed, fewer than 1000 calls are open, and fewer than 64
      of its key. */
  predicate Queues(s: State, step: Step, key: Key) {
    && step.Ask? && step.key == key
    && 0 < |key| <= 4_096 && |step.kind| <= 4_096 && |step.category| <= 4_096
    && (step.correlation.Some? ==> |step.correlation.value| <= 4_096)
    && s.total < 1_000 && PendingOf(s.pending, key) < 64
  }

  predicate Ends(s: State, step: Step, key: Key) { step == Resume(key) && key in s.running && s.running[key].Settling? }

  /** The calls of the key that were queued and have not ended. */
  ghost function Open(c: Limits, steps: seq<Step>, key: Key): int
    requires ValidLimits(c)
  {
    if steps == [] then 0
    else
      var front, step := steps[..|steps| - 1], steps[|steps| - 1];
      Open(c, front, key) + (if Queues(Run(c, front), step, key) then 1 else 0)
      - (if Ends(Run(c, front), step, key) then 1 else 0)
  }

  lemma PendingNext(c: Limits, s: State, step: Step, key: Key)
    requires ValidLimits(c) && Bounded(c, s)
    ensures PendingOf(Next(c, s, step).pending, key)
            == PendingOf(s.pending, key)
              + (if Queues(s, step, key) then 1 else 0) - (if Ends(s, step, key) then 1 else 0)
  {
    hide EvictLRU, SetEntry, WeightedScore, WellFormed, MapSum;
  }

  /** A key has as many calls pending as were queued and have not ended, and the total is their sum. */
  lemma {:induction false} PendingIsOpen(c: Limits, steps: seq<Step>, key: Key)
    requires ValidLimits(c)
    ensures PendingOf(Run(c, steps).pending, key) == Open(c, steps, key)
    ensures Run(c, steps).total == MapSum(Run(c, steps).pending)
  {
    hide Next, MapSum, Queues, Ends;
    CacheStaysBounded(c, steps);
    if steps != [] {
      var front := steps[..|steps| - 1];
      PendingIsOpen(c, front, key);
      CacheStaysBounded(c, front);
      PendingNext(c, Run(c, front), steps[|steps| - 1], key);
    }
  }

  /** The end of an operation that was to throttle its key does so, and no other step ever adds to the throttle set. */
  lemma ThrottledBy(c: Limits, s: State, step: Step, key: Key)
    requires ValidLimits(c)
    ensures var t := Next(c, s, step);
            && (Ends(s, step, key) && s.running[key].mark ==> key in t.store.throttled)
            && (key in t.store.throttled ==> key in s.store.throttled || (Ends(s, step, key) && s.running[key].mark))
  {
    hide Victims, WeightedScore;
  }

  // ------------------------------------------------------------ sweep and clear

  /** A sweep keeps exactly the entries whose last report lies within the time to live before it, as they were, and
      frees the keys of the others from throttling. */
  lemma SweepsExactly(c: Limits, steps: seq<Step>, now: nat, key: Key)
    requires ValidLimits(c)
    ensures var s, t := Run(c, steps), Next(c, Run(c, steps), ClearExpired(now));
            && (key in t.store.entries <==>
                  key in s.store.entries && LastReport(s.answers, key).Some?
                  && 0 <= now - LastReport(s.answers, key).value < c.ttl)
            && (key in t.store.entries ==> t.store.entries[key] == s.store.entries[key])
            && (key in t.store.throttled <==>
                  key in s.store.throttled && (key in s.store.entries ==> key in t.store.entries))
  {
    hide Run;
    EntriesAreAnswers(c, steps);
    if key in Run(c, steps).store.entries {
      assert Reflected(c, Run(c, steps).answers, key, Run(c, steps).store.entries[key]);
    }
  }

  /** `clear` empties the cache and frees its keys; operations under way go on. */
  lemma ClearsAll(c: Limits, s: State)
    requires ValidLimits(c)
    ensures var t := Next(c, s, Clear);
            && t.store.entries == map[] && t.store.order == [] && t.running == s.running && t.answers == s.answers
            && forall key :: key in t.store.throttled <==> key in s.store.throttled && key !in s.store.entries
  {
  }
}

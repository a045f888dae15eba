/** While nothing is evicted and the clock does not go back, the cache answers like a plain map of last reports. */
module DedupAgreement {
  import opened Collections
  import opened DedupCache

  predicate PlainReports(last: map<Key, nat>, key: Key, now: nat, ttl: nat) {
    key !in last || !InWindow(now, last[key], ttl)
  }

  /** The plain map: the time of the last report of each key, and nothing else. */
  function PlainMap(answers: seq<Answer>, ttl: nat): map<Key, nat> {
    if answers == [] then map[]
    else
      var last, a := PlainMap(answers[..|answers| - 1], ttl), answers[|answers| - 1];
      if PlainReports(last, a.key, a.now, ttl) then last[a.key := a.now] else last
  }

  /** The latest time read so far. */
  function Clock(steps: seq<Step>): nat {
    if steps == [] then 0
    else
      var step := steps[|steps| - 1];
      if step.Start? || step.ClearExpired? then step.now else Clock(steps[..|steps| - 1])
  }

  predicate Monotone(steps: seq<Step>) {
    steps == [] || (var front, step := steps[..|steps| - 1], steps[|steps| - 1];
                    Monotone(front) && (step.Start? || step.ClearExpired? ==> step.now >= Clock(front)))
  }

  /** The step takes the key's entry out of the cache. */
  ghost predicate Removes(c: Limits, steps: seq<Step>, n: nat, key: Key)
    requires ValidLimits(c) && n < |steps|
  {
    key in Run(c, steps[..n]).store.entries && key !in Run(c, steps[..n + 1]).store.entries
  }

  /** Nothing is evicted or cleared: only sweeps remove entries. */
  ghost predicate OnlySweepsRemove(c: Limits, steps: seq<Step>)
    requires ValidLimits(c)
  {
    forall n, key | 0 <= n < |steps| && Removes(c, steps, n, key) :: steps[n].ClearExpired?
  }

  ghost predicate Agrees(c: Limits, s: State, clock: nat) {
    var last := PlainMap(s.answers, c.ttl);
    && (forall key | key in s.store.entries :: key in last && last[key] == s.store.entries[key].timestamp)
    && (forall key | key in last :: last[key] <= clock && (key in s.store.entries || clock - last[key] >= c.ttl))
    && (forall key | key in s.running && !s.running[key].Settling? ::
        AgreesOn(c, s.store, last, clock, key, s.running[key]))
    && (forall i | 0 <= i < |s.answers| :: AnswersPlainly(c, s.answers, i))
  }

  /** What a suspended operation read is what the plain map says at the time it read. */
  ghost predicate AgreesOn(c: Limits, store: Store, last: map<Key, nat>, clock: nat, key: Key, op: Op)
    requires !op.Settling?
  {
    && op.now <= clock
    && match op.entry
       case Some(entry) => key in last && last[key] == entry.timestamp && last[key] <= op.now
       case None => key !in store.entries && (key in last ==> op.now - last[key] >= c.ttl)
  }

  ghost predicate AnswersPlainly(c: Limits, answers: seq<Answer>, i: nat)
    requires i < |answers|
  {
    answers[i].reported == PlainReports(PlainMap(answers[..i], c.ttl), answers[i].key, answers[i].now, c.ttl)
  }

  /** Eviction and writing may only drop other entries. */
  lemma EvictionShrinks(st: Store, maxSize: nat)
    ensures var t := EvictLRU(st, maxSize); forall k <- t.entries :: k in st.entries && t.entries[k] == st.entries[k]
  {
  }

  lemma SetEntryAdds(st: Store, maxSize: nat, key: Key, entry: Entry)
    ensures var t := SetEntry(st, maxSize, key, entry);
            && key in t.entries && t.entries[key] == entry
            && forall k <- t.entries | k != key :: k in st.entries && t.entries[k] == st.entries[k]
  {
    hide EvictLRU;
    EvictionShrinks(st, maxSize);
  }

  /** No entry is lost. */
  predicate Keeps(s: Store, t: Store) { s.entries.Keys <= t.entries.Keys }

  lemma AnswerAgrees(c: Limits, s: State, clock: nat, store: Store, key: Key, op: Op, answer: Answer, entry: Entry)
    requires Agrees(c, s, clock) && op.Settling? && answer.key == key && answer.now <= clock
    requires answer.reported == PlainReports(PlainMap(s.answers, c.ttl), key, answer.now, c.ttl)
    requires entry.timestamp == if answer.reported then answer.now else PlainMap(s.answers, c.ttl)[key]
    requires store.entries == s.store.entries
    requires Keeps(store, SetEntry(store, c.maxSize, key, entry))
    ensures Agrees(c, Suspend(s, key, SetEntry(store, c.maxSize, key, entry), op).(answers := s.answers + [answer]),
                   clock)
  {
    hide SetEntry;
    SetEntryAdds(store, c.maxSize, key, entry);
    var t := Suspend(s, key, SetEntry(store, c.maxSize, key, entry), op).(answers := s.answers + [answer]);
    assert t.answers[..|t.answers| - 1] == s.answers;
    forall i | 0 <= i < |t.answers| ensures AnswersPlainly(c, t.answers, i) {
      if i < |s.answers| {
        assert AnswersPlainly(c, s.answers, i);
        assert t.answers[..i] == s.answers[..i];
      }
    }
  }

  lemma ReadAgrees(c: Limits, s: State, clock: nat, key: Key, store: Store, now: nat)
    requires Agrees(c, s, clock) && now <= clock && store.entries == s.store.entries
    requires Keeps(store, BeginRead(c, s, key, store, now).store)
    requires var last := PlainMap(s.answers, c.ttl);
             if key in store.entries then last[key] <= now else key in last ==> now - last[key] >= c.ttl
    ensures Agrees(c, BeginRead(c, s, key, store, now), clock)
  {
    hide EvictLRU;
    EvictionShrinks(store, c.maxSize);
  }

  lemma ResumeAgrees(c: Limits, s: State, clock: nat, key: Key)
    requires ValidLimits(c) && Agrees(c, s, clock) && key in s.running && Keeps(s.store, DoResume(c, s, key).store)
    ensures Agrees(c, DoResume(c, s, key), clock)
  {
    hide SetEntry, EvictLRU, PlainMap;
    var released := s.store.(throttled := s.store.throttled - {key});
    match s.running[key]
    case ThrottledRead(now, None) => ReadAgrees(c, s, clock, key, released, now);
    case Read(now, None) =>
      AnswerAgrees(c, s, clock, s.store, key, Settling(false), Answer(key, now, true), Fresh(now));
    case ThrottledRead(_, Some(entry)) => ResumeWithEntryAgrees(c, s, clock, key, entry);
    case Read(_, Some(entry)) => ResumeWithEntryAgrees(c, s, clock, key, entry);
    case Settling(_) =>
  }

  lemma ResumeWithEntryAgrees(c: Limits, s: State, clock: nat, key: Key, entry: Entry)
    requires ValidLimits(c) && Agrees(c, s, clock) && key in s.running && Keeps(s.store, DoResume(c, s, key).store)
    requires !s.running[key].Settling? && s.running[key].entry == Some(entry)
    ensures Agrees(c, DoResume(c, s, key), clock)
  {
    hide SetEntry, EvictLRU, PlainMap, WeightedScore;
    var now := s.running[key].now;
    if InWindow(now, entry.timestamp, c.ttl) {
      var counted := Counted(entry, now, c.ttl);
      AnswerAgrees(c, s, clock, s.store, key, Settling(s.running[key].Read? && counted.count >= c.threshold),
        Answer(key, now, false), counted);
    } else {
      var released := s.store.(throttled := s.store.throttled - {key});
      AnswerAgrees(c, s, clock, released, key, Settling(false), Answer(key, now, true), Fresh(now));
    }
  }

  lemma StartAgrees(c: Limits, s: State, clock: nat, key: Key, now: nat)
    requires ValidLimits(c) && Agrees(c, s, clock) && now >= clock && Keeps(s.store, DoStart(c, s, key, now).store)
    requires key in s.pending && key !in s.running
    ensures Agrees(c, DoStart(c, s, key, now), now)
  {
    hide EvictLRU;
    if key !in s.store.throttled { ReadAgrees(c, s, now, key, s.store, now); }
  }

  lemma ClearExpiredAgrees(c: Limits, s: State, clock: nat, now: nat)
    requires Agrees(c, s, clock) && now >= clock
    ensures Agrees(c, s.(store := Drop(s.store, Expired(s.store, now, c.ttl))), now)
  {
  }

  lemma StepAgrees(c: Limits, s: State, clock: nat, step: Step, later: nat)
    requires ValidLimits(c) && Agrees(c, s, clock)
    requires step.ClearExpired? || Keeps(s.store, Next(c, s, step).store)
    requires later == if step.Start? || step.ClearExpired? then step.now else clock
    requires clock <= later
    ensures Agrees(c, Next(c, s, step), later)
  {
    hide DoStart, DoResume, EvictLRU;
    match step
    case Ask(_, _, _, _) =>
    case Start(key, now) => if key in s.pending && key !in s.running { StartAgrees(c, s, clock, key, now); }
    case Resume(key) => if key in s.running { ResumeAgrees(c, s, clock, key); }
    case ClearExpired(now) => ClearExpiredAgrees(c, s, clock, now);
    case Clear => assert s.store.entries.Keys == {};
  }

  lemma {:induction false} EveryRunAgrees(c: Limits, steps: seq<Step>)
    requires ValidLimits(c) && Monotone(steps) && OnlySweepsRemove(c, steps)
    ensures Agrees(c, Run(c, steps), Clock(steps))
  {
    hide Next, Agrees, Keeps;
    if steps == [] {
      NothingAsked(c);
    } else {
      var m := |steps| - 1;
      var front, step := steps[..m], steps[m];
      PrefixKeeps(c, steps);
      EveryRunAgrees(c, front);
      StepAgrees(c, Run(c, front), Clock(front), step, Clock(steps));
    }
  }

  lemma NothingAsked(c: Limits)
    requires ValidLimits(c)
    ensures Agrees(c, Run(c, []), 0)
  {
  }

  lemma PrefixKeeps(c: Limits, steps: seq<Step>)
    requires ValidLimits(c) && steps != [] && OnlySweepsRemove(c, steps)
    ensures var m := |steps| - 1;
            && OnlySweepsRemove(c, steps[..m])
            && (steps[m].ClearExpired? || Keeps(Run(c, steps[..m]).store, Run(c, steps).store))
  {
    hide Run;
    var m := |steps| - 1;
    var front := steps[..m];
    assert steps[..m + 1] == steps;
    forall n, key | 0 <= n < m && Removes(c, front, n, key) ensures front[n].ClearExpired? {
      assert front[..n] == steps[..n] && front[..n + 1] == steps[..n + 1];
      assert Removes(c, steps, n, key);
    }
    forall key | key in Run(c, front).store.entries && !steps[m].ClearExpired?
      ensures key in Run(c, steps).store.entries
    {
      assert !Removes(c, steps, m, key);
    }
  }

  /** While nothing is evicted or cleared and the clock never goes back, every answer is the plain map's: throttling,
      counting, expiry sweeps and interleaving never change a decision. */
  lemma AgreesWithPlainMap(c: Limits, steps: seq<Step>, i: nat)
    requires ValidLimits(c) && Monotone(steps) && OnlySweepsRemove(c, steps)
    requires i < |Run(c, steps).answers|
    ensures var answers := Run(c, steps).answers;
            answers[i].reported <==> PlainReports(PlainMap(answers[..i], c.ttl), answers[i].key, answers[i].now, c.ttl)
  {
    EveryRunAgrees(c, steps);
    assert AnswersPlainly(c, Run(c, steps).answers, i);
  }
}

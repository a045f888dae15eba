/** Every answer of the deduplication cache, exactly: what it was told about a key is all it goes by, and it remembers a
    report until its entry is removed. No assumption is made about the clock, the size of the cache or `clear`. */
module DedupExact {
  import opened Collections
  import opened DedupCache
  import opened DedupAgreement

  /** When the key was last reported. */
  function LastReport(answers: seq<Answer>, key: Key): Option<nat> {
    if answers == [] then None
    else
      var last := answers[|answers| - 1];
      if last.key == key && last.reported then Some(last.now) else LastReport(answers[..|answers| - 1], key)
  }

  /** The operation on the key answers when it is resumed. */
  predicate AboutToAnswer(s: State, key: Key) {
    key in s.running && !s.running[key].Settling? && (s.running[key].Read? || s.running[key].entry.Some?)
  }

  /** The step reads the cache for an operation on the key. */
  predicate Reads(s: State, step: Step, key: Key) {
    || (step == Start(key, if step.Start? then step.now else 0) && key in s.pending && key !in s.running)
    || (step == Resume(key) && key in s.running && s.running[key].ThrottledRead? && s.running[key].entry.None?)
  }

  /** The number of steps taken when the key was last answered, which is also when its entry was last written. */
  ghost function AnsweredAt(c: Limits, steps: seq<Step>, key: Key): nat
    requires ValidLimits(c)
  {
    if steps == [] then 0
    else
      var front, step := steps[..|steps| - 1], steps[|steps| - 1];
      if step == Resume(key) && AboutToAnswer(Run(c, front), key) then |steps| else AnsweredAt(c, front, key)
  }

  /** The number of steps taken when the operation on the key last read the cache. */
  ghost function ReadAt(c: Limits, steps: seq<Step>, key: Key): nat
    requires ValidLimits(c)
  {
    if steps == [] then 0
    else
      var front, step := steps[..|steps| - 1], steps[|steps| - 1];
      if Reads(Run(c, front), step, key) then |steps| else ReadAt(c, front, key)
  }

  /** None of these steps removes the entry of the key: no eviction, no sweep and no `clear`. */
  ghost predicate Untouched(c: Limits, steps: seq<Step>, key: Key, from: nat, to: nat)
    requires ValidLimits(c) && to <= |steps|
  {
    forall n | from <= n < to :: !Removes(c, steps, n, key)
  }

  // ------------------------------------------------------------ single steps

  lemma AnswerStep(c: Limits, s: State, key: Key)
    requires ValidLimits(c) && AboutToAnswer(s, key)
    ensures var t, op := DoResume(c, s, key), s.running[key];
            var suppressed := op.entry.Some? && InWindow(op.now, op.entry.value.timestamp, c.ttl);
            && t.answers == s.answers + [Answer(key, op.now, !suppressed)]
            && key in t.store.entries && t.running[key].Settling?
            && t.store.entries[key].timestamp == (if suppressed then op.entry.value.timestamp else op.now)
  {
    hide EvictLRU, WeightedScore;
  }

  lemma ReadStep(c: Limits, s: State, step: Step, key: Key)
    requires ValidLimits(c) && Reads(s, step, key)
    ensures var t := Next(c, s, step);
            && t.answers == s.answers && key in t.running && !t.running[key].Settling?
            && t.running[key].entry == Get(t.store, key)
  {
    hide EvictLRU;
  }

  /** Any other step leaves the key's operation suspended as it was, or ends it. */
  lemma OtherStep(c: Limits, s: State, step: Step, key: Key)
    requires ValidLimits(c) && !Reads(s, step, key) && !(step == Resume(key) && AboutToAnswer(s, key))
    ensures var t := Next(c, s, step);
            key in t.running && !t.running[key].Settling? ==> key in s.running && t.running[key] == s.running[key]
  {
    hide EvictLRU, SetEntry, WeightedScore;
  }

  /** A step writes no entry but that of the key it answers, and reports no other key. */
  lemma EntriesOnlyDrop(c: Limits, s: State, step: Step, key: Key)
    requires ValidLimits(c) && !(step == Resume(key) && AboutToAnswer(s, key))
    ensures var t := Next(c, s, step);
            && (key in t.store.entries ==> key in s.store.entries && t.store.entries[key] == s.store.entries[key])
            && LastReport(t.answers, key) == LastReport(s.answers, key)
  {
    hide EvictLRU, SetEntry, WeightedScore;
    forall st: Store
      ensures var t := EvictLRU(st, c.maxSize);
              key in t.entries ==> key in st.entries && t.entries[key] == st.entries[key]
    {
      EvictionShrinks(st, c.maxSize);
    }
    if step.Resume? && step.key in s.running { ResumeOnlyDrops(c, s, step.key, key); }
  }

  lemma ResumeOnlyDrops(c: Limits, s: State, key: Key, other: Key)
    requires ValidLimits(c) && key in s.running && !(key == other && AboutToAnswer(s, key))
    ensures var t := DoResume(c, s, key);
            && (other in t.store.entries ==>
                  && other in s.store.entries
                  && t.store.entries[other] == s.store.entries[other])
            && LastReport(t.answers, other) == LastReport(s.answers, other)
  {
    hide EvictLRU, SetEntry, WeightedScore;
    var released := s.store.(throttled := s.store.throttled - {key});
    EvictionShrinks(released, c.maxSize);
    if AboutToAnswer(s, key) {
      var op, t := s.running[key], DoResume(c, s, key);
      SetEntryAdds(s.store, c.maxSize, key, Fresh(op.now));
      SetEntryAdds(released, c.maxSize, key, Fresh(op.now));
      if op.entry.Some? { SetEntryAdds(s.store, c.maxSize, key, Counted(op.entry.value, op.now, c.ttl)); }
      AnswerStep(c, s, key);
      assert t.answers[..|t.answers| - 1] == s.answers;
    }
  }

  // ------------------------------------------------------------------- runs

  /** The cache holds an entry exactly while nothing removed it since the key was last answered, and an operation holds
      what the cache held when it read. */
  ghost predicate Remembers(c: Limits, steps: seq<Step>, key: Key)
    requires ValidLimits(c)
  {
    var s, last := Run(c, steps), LastReport(Run(c, steps).answers, key);
    var written, read := AnsweredAt(c, steps, key), ReadAt(c, steps, key);
    && written <= |steps| && read <= |steps|
    && Reflects(Get(s.store, key), last, Untouched(c, steps, key, written, |steps|))
    && (key in s.running && !s.running[key].Settling? ==>
          written <= read && Reflects(s.running[key].entry, last, Untouched(c, steps, key, written, read)))
  }

  /** The entry is there exactly when the key was reported and nothing removed it, and has the time of the report. */
  predicate Reflects(entry: Option<Entry>, last: Option<nat>, untouched: bool) {
    && (entry.Some? <==> last.Some? && untouched)
    && (entry.Some? ==> entry.value.timestamp == last.value)
  }

  lemma UntouchedOfFront(c: Limits, front: seq<Step>, step: Step, key: Key, from: nat, to: nat)
    requires ValidLimits(c) && to <= |front|
    ensures Untouched(c, front + [step], key, from, to) == Untouched(c, front, key, from, to)
  {
    hide Run;
    var steps := front + [step];
    forall n | 0 <= n < to ensures Removes(c, steps, n, key) == Removes(c, front, n, key) {
      assert front[..n] == steps[..n] && front[..n + 1] == steps[..n + 1];
    }
  }

  lemma UntouchedNext(c: Limits, front: seq<Step>, step: Step, key: Key, from: nat)
    requires ValidLimits(c) && from <= |front|
    ensures var s, t := Run(c, front), Next(c, Run(c, front), step);
            Untouched(c, front + [step], key, from, |front| + 1)
            <==> Untouched(c, front, key, from, |front|) && !(key in s.store.entries && key !in t.store.entries)
  {
    hide Next, Run;
    RunNext(c, front, step);
    UntouchedOfFront(c, front, step, key, from, |front|);
    var steps := front + [step];
    assert steps[..|front|] == front && steps[..|front| + 1] == steps;
    assert Removes(c, steps, |front|, key)
           <==> key in Run(c, front).store.entries && key !in Run(c, steps).store.entries;
  }

  lemma RunNext(c: Limits, front: seq<Step>, step: Step)
    requires ValidLimits(c)
    ensures Run(c, front + [step]) == Next(c, Run(c, front), step)
  {
    assert (front + [step])[..|front|] == front;
  }

  lemma TimesNext(c: Limits, front: seq<Step>, step: Step, key: Key)
    requires ValidLimits(c)
    ensures var steps, s := front + [step], Run(c, front);
            && AnsweredAt(c, steps, key)
               == (if step == Resume(key) && AboutToAnswer(s, key) then |steps| else AnsweredAt(c, front, key))
            && ReadAt(c, steps, key) == if Reads(s, step, key) then |steps| else ReadAt(c, front, key)
  {
    assert (front + [step])[..|front|] == front;
  }

  lemma AnswerRemembered(c: Limits, front: seq<Step>, key: Key)
    requires ValidLimits(c) && Remembers(c, front, key) && AboutToAnswer(Run(c, front), key)
    ensures Remembers(c, front + [Resume(key)], key)
  {
    hide Run, DoResume, Removes;
    var s := Run(c, front);
    RunNext(c, front, Resume(key));
    TimesNext(c, front, Resume(key), key);
    AnswerStep(c, s, key);
    var t := DoResume(c, s, key);
    assert t.answers[..|t.answers| - 1] == s.answers;
  }

  lemma StepRemembered(c: Limits, front: seq<Step>, step: Step, key: Key)
    requires ValidLimits(c) && Remembers(c, front, key) && !(step == Resume(key) && AboutToAnswer(Run(c, front), key))
    ensures Remembers(c, front + [step], key)
  {
    hide Run, Next, Removes, Untouched, Reads, LastReport;
    var s, steps := Run(c, front), front + [step];
    RunNext(c, front, step);
    TimesNext(c, front, step, key);
    EntriesOnlyDrop(c, s, step, key);
    UntouchedNext(c, front, step, key, AnsweredAt(c, front, key));
    if Reads(s, step, key) {
      ReadStep(c, s, step, key);
    } else {
      OtherStep(c, s, step, key);
      UntouchedOfFront(c, front, step, key, AnsweredAt(c, front, key), ReadAt(c, front, key));
    }
  }

  lemma {:induction false} EveryRunRemembers(c: Limits, steps: seq<Step>, key: Key)
    requires ValidLimits(c)
    ensures Remembers(c, steps, key)
  {
    hide Remembers, Run, AboutToAnswer;
    if steps == [] {
      NothingRemembered(c, key);
    } else {
      var front, step := steps[..|steps| - 1], steps[|steps| - 1];
      assert steps == front + [step];
      EveryRunRemembers(c, front, key);
      if step == Resume(key) && AboutToAnswer(Run(c, front), key) {
        AnswerRemembered(c, front, key);
      } else {
        StepRemembered(c, front, step, key);
      }
    }
  }

  lemma NothingRemembered(c: Limits, key: Key)
    requires ValidLimits(c)
    ensures Remembers(c, [], key)
  {
  }

  /** The decision, for every run whatsoever: an operation suppresses its error if and only if the key was reported,
      the last report lies within the time to live before the time the operation read, and nothing removed the key's
      entry between the key's last answer and the moment the operation read the cache. (A suppression counts as an
      answer here: one that was under way when the entry was removed writes it back.) */
  lemma AnswersExactly(c: Limits, steps: seq<Step>, key: Key)
    requires ValidLimits(c) && AboutToAnswer(Run(c, steps), key)
    ensures var s, t := Run(c, steps), Run(c, steps + [Resume(key)]);
            var last, now := LastReport(s.answers, key), s.running[key].now;
            var from, to := AnsweredAt(c, steps, key), ReadAt(c, steps, key);
            && from <= to <= |steps| && |t.answers| == |s.answers| + 1 && t.answers[|s.answers|].key == key
            && (!t.answers[|s.answers|].reported
                <==> last.Some? && InWindow(now, last.value, c.ttl) && Untouched(c, steps, key, from, to))
  {
    hide Run, DoResume, Removes, Untouched;
    EveryRunRemembers(c, steps, key);
    RunNext(c, steps, Resume(key));
    AnswerStep(c, Run(c, steps), key);
  }
}

/** Two short runs in which the cache reports what the plain map suppresses. */
module DedupForgets {
  import opened Collections
  import opened DedupCache
  import opened DedupAgreement

  /** A cache of one entry that lives for ten. */
  const ONE := Limits(10, 1, 5)

  function Asking(a: Key): Step { Ask(a, [], [], None) }

  /** One whole operation on a key that is neither throttled nor busy. */
  function Whole(a: Key, now: nat): seq<Step> { [Asking(a)] + [Start(a, now)] + [Resume(a)] + [Resume(a)] }

  function Idle(store: Store, answers: seq<Answer>): State { State(store, map[], 0, map[], answers) }

  function Asked(store: Store, answers: seq<Answer>, a: Key): State { State(store, map[a := 1], 1, map[], answers) }

  function Busy(store: Store, answers: seq<Answer>, a: Key, op: Op): State {
    State(store, map[a := 1], 1, map[a := op], answers)
  }

  function Holding(a: Key, t: nat): Store { Store([a], map[a := Fresh(t)], {}) }

  lemma NothingRun()
    ensures Run(ONE, []) == INITIAL
  {
  }

  lemma Append(steps: seq<Step>, step: Step)
    ensures Run(ONE, steps + [step]) == Next(ONE, Run(ONE, steps), step)
  {
    assert (steps + [step])[..|steps|] == steps;
  }

  /** A cache of one entry makes room for another key by dropping it. */
  lemma MakesRoom(b: Key, t: nat)
    ensures EvictLRU(Holding(b, t), 1) == EMPTY && EvictLRU(EMPTY, 1) == EMPTY
  {
    var st := Holding(b, t);
    var access := LastAccess(st.entries);
    assert st.order[..0] == [] && StableSort([], access) == [];
    assert StableSort(st.order, access) == [b];
    var dropped := KeySet(Victims(st));
    assert Victims(st) == [b];
    assert dropped == {b};
    assert Without([], dropped) == [] && Without(st.order, dropped) == [];
    assert |EMPTY.entries| == 0;
  }

  lemma AskStep(store: Store, answers: seq<Answer>, a: Key)
    requires 0 < |a| <= MAX_INPUT
    ensures Next(ONE, Idle(store, answers), Asking(a)) == Asked(store, answers, a)
  {
  }

  lemma StartStep(store: Store, answers: seq<Answer>, a: Key, now: nat)
    requires a !in store.entries && store.throttled == {} && EvictLRU(store, 1) == EMPTY
    ensures Next(ONE, Asked(store, answers, a), Start(a, now)) == Busy(EMPTY, answers, a, Read(now, None))
  {
  }

  lemma AnswerStep(answers: seq<Answer>, a: Key, now: nat)
    ensures Next(ONE, Busy(EMPTY, answers, a, Read(now, None)), Resume(a))
            == Busy(Holding(a, now), answers + [Answer(a, now, true)], a, Settling(false))
  {
    MakesRoom(a, now);
    assert SetEntry(EMPTY, 1, a, Fresh(now)) == Holding(a, now);
  }

  lemma SettleStep(store: Store, answers: seq<Answer>, a: Key)
    ensures Next(ONE, Busy(store, answers, a, Settling(false)), Resume(a)) == Idle(store, answers)
  {
    assert map[a := 1] - {a} == map[];
    assert map[a := Settling(false)] - {a} == map[];
  }

  lemma WholeReports(steps: seq<Step>, store: Store, answers: seq<Answer>, a: Key, now: nat)
    requires 0 < |a| <= MAX_INPUT && a !in store.entries && store.throttled == {} && EvictLRU(store, 1) == EMPTY
    requires Run(ONE, steps) == Idle(store, answers)
    ensures Run(ONE, steps + Whole(a, now)) == Idle(Holding(a, now), answers + [Answer(a, now, true)])
  {
    hide Run, Next, EvictLRU;
    var one := steps + [Asking(a)];
    var two := one + [Start(a, now)];
    var three := two + [Resume(a)];
    var more := answers + [Answer(a, now, true)];
    Append(steps, Asking(a));
    AskStep(store, answers, a);
    assert Run(ONE, one) == Asked(store, answers, a);
    Append(one, Start(a, now));
    StartStep(store, answers, a, now);
    assert Run(ONE, two) == Busy(EMPTY, answers, a, Read(now, None));
    Append(two, Resume(a));
    AnswerStep(answers, a, now);
    assert Run(ONE, three) == Busy(Holding(a, now), more, a, Settling(false));
    Append(three, Resume(a));
    SettleStep(Holding(a, now), more, a);
    assert steps + Whole(a, now) == three + [Resume(a)];
  }

  lemma PlainAfter(first: Answer, second: Answer)
    requires first.key != second.key
    ensures PlainMap([first], 10) == map[first.key := first.now]
    ensures PlainMap([first, second], 10) == map[first.key := first.now][second.key := second.now]
  {
    assert [first, second][..1] == [first] && [first][..0] == [];
    assert PlainMap([], 10) == map[];
    assert PlainMap([first], 10) == map[first.key := first.now];
  }

  lemma Alternating(a: Key, b: Key, r: nat, t: nat, u: nat)
    requires 0 < |a| <= MAX_INPUT && 0 < |b| <= MAX_INPUT && a != b
    ensures Run(ONE, Whole(a, r) + Whole(b, t) + Whole(a, u))
            == Idle(Holding(a, u), [Answer(a, r, true)] + [Answer(b, t, true)] + [Answer(a, u, true)])
  {
    hide Run, EvictLRU;
    var first, second := Answer(a, r, true), Answer(b, t, true);
    NothingRun();
    MakesRoom(a, r);
    MakesRoom(b, t);
    WholeReports([], EMPTY, [], a, r);
    assert [] + Whole(a, r) == Whole(a, r) && [] + [first] == [first];
    WholeReports(Whole(a, r), Holding(a, r), [first], b, t);
    WholeReports(Whole(a, r) + Whole(b, t), Holding(b, t), [first] + [second], a, u);
  }

  /** Eviction: in a cache of one entry a second key makes the first one be reported again at once. */
  lemma EvictionForgets(a: Key, b: Key)
    requires 0 < |a| <= MAX_INPUT && 0 < |b| <= MAX_INPUT && a != b
    ensures var answers := Run(ONE, Whole(a, 0) + Whole(b, 1) + Whole(a, 2)).answers;
            && answers == [Answer(a, 0, true)] + [Answer(b, 1, true)] + [Answer(a, 2, true)]
            && !PlainReports(PlainMap(answers[..2], ONE.ttl), a, 2, ONE.ttl)
  {
    var first, second := Answer(a, 0, true), Answer(b, 1, true);
    Alternating(a, b, 0, 1, 2);
    assert ([first] + [second] + [Answer(a, 2, true)])[..2] == [first, second];
    PlainAfter(first, second);
  }

  /** A sweep reads the time 10 and then the clock goes back to 5: the key reported at 0 is reported again. */
  lemma ClockJumpForgets(a: Key)
    requires 0 < |a| <= MAX_INPUT
    ensures var answers := Run(ONE, Whole(a, 0) + [ClearExpired(10)] + Whole(a, 5)).answers;
            && answers == [Answer(a, 0, true), Answer(a, 5, true)]
            && !PlainReports(PlainMap(answers[..1], ONE.ttl), a, 5, ONE.ttl)
  {
    hide Run, Next, EvictLRU;
    var first, second := Answer(a, 0, true), Answer(a, 5, true);
    NothingRun();
    MakesRoom(a, 0);
    WholeReports([], EMPTY, [], a, 0);
    assert [] + Whole(a, 0) == Whole(a, 0) && [] + [first] == [first];
    Append(Whole(a, 0), ClearExpired(10));
    SweepStep(a, [first]);
    WholeReports(Whole(a, 0) + [ClearExpired(10)], EMPTY, [first], a, 5);
    assert [first] + [second] == [first, second] && [first, second][..1] == [first];
    PlainAfter(first, Answer(a + a, 0, true));
  }

  lemma SweepStep(a: Key, answers: seq<Answer>)
    ensures Next(ONE, Idle(Holding(a, 0), answers), ClearExpired(10)) == Idle(EMPTY, answers)
  {
    var held := Holding(a, 0);
    assert Expired(held, 10, 10) == {a};
    assert [a][..0] == [] && Without([], {a}) == [];
    assert Drop(held, {a}) == EMPTY;
  }
}

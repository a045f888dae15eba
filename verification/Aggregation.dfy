/** Browser samples aggregated into buckets, over exact numbers. Handing buckets out calls foreign code, which may
    come back with more samples before the call returns. */
module Aggregation {

  type Key = string

  /** `samples` is history: the values the bucket stands for, oldest first. */
  datatype Bucket = Bucket(count: nat, mean: real, min: real, max: real, samples: seq<real>)

  datatype Given = Given(key: Key, bucket: Bucket)

  /** What happens to the aggregator. `during` are the events that the foreign code causes while buckets are handed
      out, one echo for each bucket; they do not happen when nothing is handed out. */
  datatype Echo = Echo(events: seq<Event>)

  datatype Event = Sample(key: Key, value: real, finite: bool, during: seq<Echo>) | Flush(during: seq<Echo>)

  /** `held` are the buckets in the order of their creation; `handedOut` and `accepted` are history. */
  datatype State = State(held: seq<Given>, handedOut: seq<Given>, accepted: seq<(Key, real)>)

  const INITIAL := State([], [], [])

  function Updated(b: Bucket, value: real): Bucket {
    var count := b.count + 1;
    Bucket(count, b.mean + (value - b.mean) / count as real,
           if value < b.min then value else b.min, if value > b.max then value else b.max, b.samples + [value])
  }

  function Empty(value: real): Bucket { Bucket(0, 0.0, value, value, []) }

  /** A bucket made to hold the sample that did not fit. */
  function Single(value: real): Bucket { Bucket(1, value, value, value, [value]) }

  /** The place of a key, or the number of buckets. */
  function Find(held: seq<Given>, key: Key): nat
    ensures Find(held, key) <= |held|
  {
    if held == [] then 0
    else
      var front := Find(held[..|held| - 1], key);
      if front < |held| - 1 then front else if held[|held| - 1].key == key then |held| - 1 else |held|
  }

  function Accept(s: State, key: Key, value: real, held: seq<Given>): State {
    s.(held := held, accepted := s.accepted + [(key, value)])
  }

  function Handle(maxKeys: nat, s: State, e: Event): State
    decreases e
  {
    match e
    case Flush(during) => Emit(maxKeys, s.(held := []), s.held, during)
    case Sample(key, value, finite, during) =>
      if !finite || value < 0.0 then s
      else
        var i := Find(s.held, key);
        if i < |s.held| then Accept(s, key, value, s.held[i := Given(key, Updated(s.held[i].bucket, value))])
        else if |s.held| >= maxKeys then
          Emit(maxKeys, Accept(s, key, value, [Given(key, Single(value))]), s.held, during)
        else Accept(s, key, value, s.held + [Given(key, Updated(Empty(value), value))])
  }

  /** The buckets are already out of the map when the first one is handed out. */
  function Emit(maxKeys: nat, s: State, pending: seq<Given>, during: seq<Echo>): State
    decreases during, |pending|
  {
    if pending == [] then s
    else
      var given := s.(handedOut := s.handedOut + [pending[0]]);
      if during == [] then Emit(maxKeys, given, pending[1..], [])
      else Emit(maxKeys, HandleAll(maxKeys, given, during[0].events), pending[1..], during[1..])
  }

  function HandleAll(maxKeys: nat, s: State, events: seq<Event>): State
    decreases events
  {
    if events == [] then s else Handle(maxKeys, HandleAll(maxKeys, s, events[..|events| - 1]), events[|events| - 1])
  }

  // -------------------------------------------------------------- buckets

  function Sum(samples: seq<real>): real {
    if samples == [] then 0.0 else Sum(samples[..|samples| - 1]) + samples[|samples| - 1]
  }

  /** The bucket summarises its samples exactly. */
  ghost predicate Exact(b: Bucket) {
    && b.count == |b.samples| && b.mean * b.count as real == Sum(b.samples)
    && (forall i | 0 <= i < |b.samples| :: b.min <= b.samples[i] <= b.max)
    && (b.samples != [] ==> b.min in b.samples && b.max in b.samples)
  }

  lemma UpdatedIsExact(b: Bucket, value: real)
    requires Exact(b) && (b.samples == [] ==> b.min == b.max == value)
    ensures Exact(Updated(b, value))
  {
    hide Sum;
    var c := Updated(b, value);
    SumMore(b.samples, value);
    MeanStep(b.mean, b.count, value);
    ExtremesMore(b, value);
    assert c.mean * c.count as real == Sum(c.samples);
  }

  lemma SumMore(samples: seq<real>, value: real)
    ensures Sum(samples + [value]) == Sum(samples) + value
  {
    assert (samples + [value])[..|samples|] == samples;
  }

  lemma ExtremesMore(b: Bucket, value: real)
    requires forall i | 0 <= i < |b.samples| :: b.min <= b.samples[i] <= b.max
    requires if b.samples == [] then b.min == b.max == value else b.min in b.samples && b.max in b.samples
    ensures var c := Updated(b, value);
            (forall i | 0 <= i < |c.samples| :: c.min <= c.samples[i] <= c.max)
            && c.min in c.samples && c.max in c.samples
  {
    var c := Updated(b, value);
    assert c.samples[|b.samples|] == value;
    forall i | 0 <= i < |c.samples| ensures c.min <= c.samples[i] <= c.max {
      if i < |b.samples| { assert c.samples[i] == b.samples[i]; }
    }
  }

  lemma MeanStep(mean: real, count: nat, value: real)
    ensures (mean + (value - mean) / (count + 1) as real) * (count + 1) as real == mean * count as real + value
  {
    var n := (count + 1) as real;
    assert (value - mean) / n * n == value - mean;
    assert n == count as real + 1.0;
  }

  lemma {:induction false} SumBounds(samples: seq<real>, low: real, high: real, n: real)
    requires n == |samples| as real && forall i | 0 <= i < |samples| :: low <= samples[i] <= high
    ensures low * n <= Sum(samples) <= high * n
  {
    if samples != [] {
      SumBounds(samples[..|samples| - 1], low, high, n - 1.0);
      Distributes(low, n - 1.0);
      Distributes(high, n - 1.0);
    }
  }

  lemma Distributes(x: real, n: real)
    ensures x * (n + 1.0) == x * n + x
  {
  }

  /** The running mean is the mean, and lies between the extremes. */
  lemma MeanIsMean(b: Bucket)
    requires Exact(b) && b.count > 0
    ensures b.mean == Sum(b.samples) / b.count as real && b.min <= b.mean <= b.max
  {
    hide Sum;
    var n := b.count as real;
    SumBounds(b.samples, b.min, b.max, n);
    Between(b.min, b.mean, b.max, Sum(b.samples), n);
  }

  lemma Between(low: real, mean: real, high: real, total: real, n: real)
    requires n > 0.0 && mean * n == total && low * n <= total <= high * n
    ensures mean == total / n && low <= mean <= high
  {
    DivideBack(mean, n);
    LessByFactor(low, mean, n);
    LessByFactor(mean, high, n);
  }

  lemma DivideBack(x: real, n: real)
    requires n > 0.0
    ensures x * n / n == x
  {
  }

  lemma LessByFactor(x: real, y: real, n: real)
    requires n > 0.0 && x * n <= y * n
    ensures x <= y
  {
    assert (y - x) * n >= 0.0;
  }

  // ---------------------------------------------------------- conservation

  function Tagged(key: Key, samples: seq<real>): multiset<(Key, real)> {
    if samples == [] then multiset{}
    else Tagged(key, samples[..|samples| - 1]) + multiset{(key, samples[|samples| - 1])}
  }

  /** All samples that a list of buckets stands for. */
  function Content(list: seq<Given>): multiset<(Key, real)> {
    if list == [] then multiset{}
    else Content(list[..|list| - 1]) + Tagged(list[|list| - 1].key, list[|list| - 1].bucket.samples)
  }

  lemma TaggedMore(key: Key, samples: seq<real>, value: real)
    ensures Tagged(key, samples + [value]) == Tagged(key, samples) + multiset{(key, value)}
  {
    assert (samples + [value])[..|samples|] == samples;
  }

  lemma ContentMore(list: seq<Given>, g: Given)
    ensures Content(list + [g]) == Content(list) + Tagged(g.key, g.bucket.samples)
  {
    assert (list + [g])[..|list|] == list;
  }

  lemma {:induction false} ContentRest(list: seq<Given>)
    requires list != []
    ensures Content(list) == Tagged(list[0].key, list[0].bucket.samples) + Content(list[1..])
  {
    hide Tagged;
    var n := |list| - 1;
    if n > 0 {
      var middle := list[1..n];
      ContentRest(list[..n]);
      assert list[..n][1..] == middle && list[1..] == middle + [list[n]] && list == list[..n] + [list[n]];
      hide Content;
      ContentMore(middle, list[n]);
      ContentMore(list[..n], list[n]);
    } else {
      assert list[..0] == [] && list[1..] == [];
    }
  }

  lemma {:induction false} ContentUpdate(list: seq<Given>, i: nat, value: real)
    requires i < |list|
    ensures Content(list[i := Given(list[i].key, Updated(list[i].bucket, value))])
            == Content(list) + multiset{(list[i].key, value)}
  {
    var n := |list| - 1;
    var g := Given(list[i].key, Updated(list[i].bucket, value));
    TaggedMore(list[i].key, list[i].bucket.samples, value);
    if i == n {
      assert list[i := g][..n] == list[..n];
    } else {
      ContentUpdate(list[..n], i, value);
      assert list[i := g][..n] == list[..n][i := g];
    }
  }

  /** Every accepted sample is in a bucket that was handed out, is held, or is about to be handed out. */
  ghost predicate Conserved(s: State, pending: seq<Given>) {
    multiset(s.accepted) == Content(s.handedOut) + Content(s.held) + Content(pending)
  }

  ghost predicate Tidy(maxKeys: nat, s: State) {
    && |s.held| <= maxKeys
    && (forall i, j | 0 <= i < j < |s.held| :: s.held[i].key != s.held[j].key)
    && AllExact(s.held) && AllExact(s.handedOut)
  }

  ghost predicate AllExact(list: seq<Given>) {
    forall i | 0 <= i < |list| :: list[i].bucket.count > 0 && Exact(list[i].bucket)
  }

  lemma {:induction false} FindFinds(held: seq<Given>, key: Key)
    ensures Find(held, key) < |held| ==> held[Find(held, key)].key == key
    ensures Find(held, key) == |held| ==> forall i | 0 <= i < |held| :: held[i].key != key
  {
    if held != [] { FindFinds(held[..|held| - 1], key); }
  }

  lemma SampleJoins(maxKeys: nat, s: State, key: Key, value: real, i: nat, pending: seq<Given>)
    requires Tidy(maxKeys, s) && Conserved(s, pending) && i < |s.held| && s.held[i].key == key
    ensures var t := Accept(s, key, value, s.held[i := Given(key, Updated(s.held[i].bucket, value))]);
            Tidy(maxKeys, t) && Conserved(t, pending)
  {
    hide Content, Exact, Updated;
    GrownIsExact(s.held[i].bucket, value);
    ContentUpdate(s.held, i, value);
    OneMoreAccepted(s, key, value, s.held[i := Given(key, Updated(s.held[i].bucket, value))], pending);
  }

  lemma GrownIsExact(b: Bucket, value: real)
    requires Exact(b) && b.count > 0
    ensures Exact(Updated(b, value)) && Updated(b, value).count > 0
  {
    UpdatedIsExact(b, value);
  }

  lemma OneMoreAccepted(s: State, key: Key, value: real, held: seq<Given>, pending: seq<Given>)
    requires Conserved(s, pending) && Content(held) == Content(s.held) + multiset{(key, value)}
    ensures Conserved(Accept(s, key, value, held), pending)
  {
    hide Content;
  }

  lemma SampleOpens(maxKeys: nat, s: State, key: Key, value: real, pending: seq<Given>)
    requires Tidy(maxKeys, s) && Conserved(s, pending) && |s.held| < maxKeys
    requires forall i | 0 <= i < |s.held| :: s.held[i].key != key
    ensures var t := Accept(s, key, value, s.held + [Given(key, Updated(Empty(value), value))]);
            Tidy(maxKeys, t) && Conserved(t, pending)
  {
    hide Content, Exact, Updated, Conserved;
    var g := Given(key, Updated(Empty(value), value));
    OpenedBucket(key, value);
    ContentMore(s.held, g);
    OneMoreAccepted(s, key, value, s.held + [g], pending);
  }

  lemma OpenedBucket(key: Key, value: real)
    ensures var b := Updated(Empty(value), value);
            Exact(b) && b.count == 1 && Tagged(key, b.samples) == multiset{(key, value)}
  {
    UpdatedIsExact(Empty(value), value);
    TaggedMore(key, [], value);
    assert [] + [value] == [value];
  }

  lemma SingleBucket(key: Key, value: real)
    ensures Exact(Single(value)) && Content([Given(key, Single(value))]) == multiset{(key, value)}
  {
    assert [value][..0] == [];
    assert [Given(key, Single(value))][..0] == [];
    assert Sum([]) == 0.0 && Sum([value]) == value;
    assert Tagged(key, []) == multiset{} && Content([]) == multiset{};
  }

  /** `owed` is what callers further out still have to hand out. */
  lemma HandleKeeps(maxKeys: nat, s: State, e: Event, owed: seq<Given>)
    requires Tidy(maxKeys, s) && Conserved(s, owed) && maxKeys > 0
    ensures Tidy(maxKeys, Handle(maxKeys, s, e)) && Conserved(Handle(maxKeys, s, e), owed)
    decreases e, 0
  {
    hide Exact, Find, Emit, HandleAll, Content;
    match e
    case Flush(during) =>
      DrainConserves(s, s.(held := []), owed);
      EmitKeeps(maxKeys, s.(held := []), s.held, during, owed);
    case Sample(key, value, finite, during) =>
      if finite && value >= 0.0 {
        FindFinds(s.held, key);
        var i := Find(s.held, key);
        if i < |s.held| {
          SampleJoins(maxKeys, s, key, value, i, owed);
        } else if |s.held| < maxKeys {
          SampleOpens(maxKeys, s, key, value, owed);
        } else {
          var t := Accept(s, key, value, [Given(key, Single(value))]);
          ReplaceConserves(s, key, value, owed);
          SingleBucket(key, value);
          EmitKeeps(maxKeys, t, s.held, during, owed);
        }
      }
  }

  lemma {:induction false} ContentConcat(a: seq<Given>, b: seq<Given>)
    ensures Content(a + b) == Content(a) + Content(b)
  {
    hide Tagged;
    if b == [] {
      assert a + b == a;
    } else {
      var front, last := b[..|b| - 1], b[|b| - 1];
      ContentConcat(a, front);
      assert a + b == (a + front) + [last] && b == front + [last];
      hide Content;
      ContentMore(a + front, last);
      ContentMore(front, last);
    }
  }

  lemma DrainConserves(s: State, t: State, owed: seq<Given>)
    requires Conserved(s, owed) && t == s.(held := [])
    ensures Conserved(t, s.held + owed)
  {
    ContentConcat(s.held, owed);
  }

  lemma ReplaceConserves(s: State, key: Key, value: real, owed: seq<Given>)
    requires Conserved(s, owed)
    ensures Conserved(Accept(s, key, value, [Given(key, Single(value))]), s.held + owed)
  {
    ContentConcat(s.held, owed);
    SingleBucket(key, value);
  }

  lemma GivingConserves(s: State, pending: seq<Given>, owed: seq<Given>)
    requires pending != [] && Conserved(s, pending + owed)
    ensures Conserved(s.(handedOut := s.handedOut + [pending[0]]), pending[1..] + owed)
  {
    ContentMore(s.handedOut, pending[0]);
    ContentRest(pending);
    ContentConcat(pending, owed);
    ContentConcat(pending[1..], owed);
  }

  lemma {:induction false} EmitKeeps(maxKeys: nat, s: State, pending: seq<Given>, during: seq<Echo>, owed: seq<Given>)
    requires Tidy(maxKeys, s) && AllExact(pending) && Conserved(s, pending + owed) && maxKeys > 0
    ensures var t := Emit(maxKeys, s, pending, during); Tidy(maxKeys, t) && Conserved(t, owed)
    decreases during, |pending|
  {
    hide Exact, Content, Handle, HandleAll;
    if pending == [] {
      assert pending + owed == owed;
    } else {
      var given, rest := s.(handedOut := s.handedOut + [pending[0]]), pending[1..];
      GivingConserves(s, pending, owed);
      if during == [] {
        EmitKeeps(maxKeys, given, rest, [], owed);
      } else {
        HandleAllKeeps(maxKeys, given, during[0].events, rest + owed);
        EmitKeeps(maxKeys, HandleAll(maxKeys, given, during[0].events), rest, during[1..], owed);
      }
    }
  }

  lemma {:induction false} HandleAllKeeps(maxKeys: nat, s: State, events: seq<Event>, owed: seq<Given>)
    requires Tidy(maxKeys, s) && Conserved(s, owed) && maxKeys > 0
    ensures var t := HandleAll(maxKeys, s, events); Tidy(maxKeys, t) && Conserved(t, owed)
    decreases events, 0
  {
    hide Exact, Content, Handle, Emit, Tidy, Conserved;
    if events != [] {
      HandleAllKeeps(maxKeys, s, events[..|events| - 1], owed);
      HandleKeeps(maxKeys, HandleAll(maxKeys, s, events[..|events| - 1]), events[|events| - 1], owed);
    }
  }

  /** However deeply handing out buckets brings in more samples: no accepted sample is lost, repeated or moved to
      another key, there are never more buckets than allowed, and every bucket, held or handed out, is exact. */
  lemma SamplesAreConserved(maxKeys: nat, events: seq<Event>)
    requires maxKeys > 0
    ensures var s := HandleAll(maxKeys, INITIAL, events);
            && multiset(s.accepted) == Content(s.handedOut) + Content(s.held)
            && |s.held| <= maxKeys
            && (forall g | g in s.handedOut || g in s.held ::
                  && g.bucket.count > 0 && g.bucket.mean == Sum(g.bucket.samples) / g.bucket.count as real
                  && g.bucket.min <= g.bucket.mean <= g.bucket.max)
  {
    assert Content([]) == multiset{};
    HandleAllKeeps(maxKeys, INITIAL, events, []);
    var s := HandleAll(maxKeys, INITIAL, events);
    forall g | g in s.handedOut || g in s.held
      ensures g.bucket.count > 0 && g.bucket.mean == Sum(g.bucket.samples) / g.bucket.count as real
              && g.bucket.min <= g.bucket.mean <= g.bucket.max
    {
      MeanIsMean(g.bucket);
    }
  }
}

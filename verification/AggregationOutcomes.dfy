/** When samples are counted and when buckets leave the aggregator. */
module AggregationOutcomes {
  import opened Aggregation

  /** Nothing happens while buckets are handed out. */
  predicate Quiet(during: seq<Echo>) { forall i | 0 <= i < |during| :: during[i].events == [] }

  /** What has been handed out stays so, and what was accepted too. */
  lemma HandleGrows(maxKeys: nat, s: State, e: Event)
    ensures var t := Handle(maxKeys, s, e); s.handedOut <= t.handedOut && s.accepted <= t.accepted
    decreases e, 0
  {
    hide HandleAll, Emit, Find, Updated, Empty, Single;
    match e
    case Flush(during) => EmitGrows(maxKeys, s.(held := []), s.held, during);
    case Sample(key, value, _, during) =>
      EmitGrows(maxKeys, Accept(s, key, value, [Given(key, Single(value))]), s.held, during);
  }

  /** Every pending bucket is handed out as it is, whatever happens in between. */
  lemma {:induction false} EmitGrows(maxKeys: nat, s: State, pending: seq<Given>, during: seq<Echo>)
    ensures var t := Emit(maxKeys, s, pending, during);
            && s.handedOut <= t.handedOut && s.accepted <= t.accepted
            && multiset(s.handedOut) + multiset(pending) <= multiset(t.handedOut)
    decreases during, |pending|
  {
    hide Handle, HandleAll;
    if pending != [] {
      var given := s.(handedOut := s.handedOut + [pending[0]]);
      var next := if during == [] then given else HandleAll(maxKeys, given, during[0].events);
      if during != [] { HandleAllGrows(maxKeys, given, during[0].events); }
      EmitGrows(maxKeys, next, pending[1..], if during == [] then [] else during[1..]);
      PrefixCounts(given.handedOut, next.handedOut);
      assert pending == [pending[0]] + pending[1..];
    }
  }

  lemma PrefixCounts(a: seq<Given>, b: seq<Given>)
    requires a <= b
    ensures multiset(a) <= multiset(b)
  {
    assert b == a + b[|a|..];
  }

  lemma {:induction false} HandleAllGrows(maxKeys: nat, s: State, events: seq<Event>)
    ensures var t := HandleAll(maxKeys, s, events); s.handedOut <= t.handedOut && s.accepted <= t.accepted
    decreases events, 0
  {
    hide Handle;
    if events != [] {
      HandleAllGrows(maxKeys, s, events[..|events| - 1]);
      HandleGrows(maxKeys, HandleAll(maxKeys, s, events[..|events| - 1]), events[|events| - 1]);
    }
  }

  lemma {:induction false} EmitQuietly(maxKeys: nat, s: State, pending: seq<Given>, during: seq<Echo>)
    requires Quiet(during)
    ensures Emit(maxKeys, s, pending, during) == s.(handedOut := s.handedOut + pending)
    decreases |pending|
  {
    if pending == [] {
      assert s.handedOut + pending == s.handedOut;
    } else {
      var given := s.(handedOut := s.handedOut + [pending[0]]);
      EmitQuietly(maxKeys, given, pending[1..], if during == [] then [] else during[1..]);
      assert s.handedOut + [pending[0]] + pending[1..] == s.handedOut + pending;
    }
  }

  /** A flush hands out every bucket that is held; if nothing happens meanwhile, these in their order and no others, and
      nothing is held afterwards. */
  lemma FlushHandsOut(maxKeys: nat, s: State, during: seq<Echo>)
    ensures var t := Handle(maxKeys, s, Flush(during));
            && s.handedOut <= t.handedOut && multiset(s.handedOut) + multiset(s.held) <= multiset(t.handedOut)
            && (Quiet(during) ==> t == State([], s.handedOut + s.held, s.accepted))
  {
    EmitGrows(maxKeys, s.(held := []), s.held, during);
    if Quiet(during) { EmitQuietly(maxKeys, s.(held := []), s.held, during); }
  }

  /** The bucket has one more sample, and its summary moves with it. */
  predicate OneMore(before: Bucket, after: Bucket, value: real) {
    && after.samples == before.samples + [value] && after.count == before.count + 1
    && after.min == (if value < before.min then value else before.min)
    && after.max == (if value > before.max then value else before.max)
  }

  /** What becomes of a sample: one that is negative or not a number is ignored; one of a key that is held joins the
      bucket of that key; one of a new key opens a bucket while there is room; and only for want of room is everything
      handed out, and then the sample is all that is held before anything else happens. */
  lemma SampleOutcome(maxKeys: nat, s: State, key: Key, value: real, finite: bool, during: seq<Echo>)
    requires Tidy(maxKeys, s)
    ensures var t := Handle(maxKeys, s, Sample(key, value, finite, during));
            if !finite || value < 0.0 then t == s
            else if exists i :: 0 <= i < |s.held| && s.held[i].key == key then
              && t.handedOut == s.handedOut && t.accepted == s.accepted + [(key, value)] && |t.held| == |s.held|
              && (forall i | 0 <= i < |s.held| ::
                    if s.held[i].key == key
                    then t.held[i].key == key && OneMore(s.held[i].bucket, t.held[i].bucket, value)
                    else t.held[i] == s.held[i])
            else if |s.held| < maxKeys then
              && t.handedOut == s.handedOut && t.accepted == s.accepted + [(key, value)]
              && t.held == s.held + [Given(key, Bucket(1, value, value, value, [value]))]
            else
              && s.accepted + [(key, value)] <= t.accepted
              && multiset(s.handedOut) + multiset(s.held) <= multiset(t.handedOut)
              && (Quiet(during) ==>
                    t == State([Given(key, Bucket(1, value, value, value, [value]))], s.handedOut + s.held,
                               s.accepted + [(key, value)]))
  {
    hide Emit, Find, Exact, Quiet;
    FindFinds(s.held, key);
    var full := Accept(s, key, value, [Given(key, Single(value))]);
    EmitGrows(maxKeys, full, s.held, during);
    if Quiet(during) { EmitQuietly(maxKeys, full, s.held, during); }
    assert value / 1.0 == value;
    assert [] + [value] == [value];
  }
}

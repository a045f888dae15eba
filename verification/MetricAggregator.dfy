/** The aggregator object: a map of buckets changed in place, and drained before foreign code is called. */
module MetricAggregator {
  import opened Aggregation

  /** The buckets of a map in insertion order. */
  function Listing(order: seq<Key>, buckets: map<Key, Bucket>): seq<Given> {
    seq(|order|, i requires 0 <= i < |order| =>
        Given(order[i], if order[i] in buckets then buckets[order[i]] else Empty(0.0)))
  }

  ghost predicate Listed(order: seq<Key>, buckets: map<Key, Bucket>) {
    && (forall i, j | 0 <= i < j < |order| :: order[i] != order[j])
    && (forall key :: key in order <==> key in buckets)
    && |order| == |buckets|
  }

  class Aggregator {
    const maxKeys: nat
    var order: seq<Key>
    var buckets: map<Key, Bucket>
    var handedOut: seq<Given>
    ghost var accepted: seq<(Key, real)>

    ghost function Abs(): State
      reads this
    {
      State(Listing(order, buckets), handedOut, accepted)
    }

    ghost predicate Valid()
      reads this
    {
      Listed(order, buckets)
    }

    constructor (maxKeys: nat)
      ensures Valid() && Abs() == INITIAL && this.maxKeys == maxKeys
    {
      this.maxKeys := maxKeys;
      order, buckets, handedOut, accepted := [], map[], [], [];
    }

    method SetBucket(key: Key, bucket: Bucket)
      modifies `order, `buckets
      ensures order == if key in old(buckets) then old(order) else old(order) + [key]
      ensures buckets == old(buckets)[key := bucket]
    {
      order := if key in buckets then order else order + [key];
      buckets := buckets[key := bucket];
    }

    method Drain() returns (pending: seq<Given>)
      modifies `order, `buckets
      ensures pending == Listing(old(order), old(buckets)) && order == [] && buckets == map[]
    {
      pending := Listing(order, buckets);
      order, buckets := [], map[];
    }

    method Join(key: Key, value: real)
      requires Valid() && key in buckets
      modifies `order, `buckets, `accepted
      ensures Valid()
      ensures Abs() == Accept(old(Abs()), key, value,
                              Placed(old(order), old(buckets), key, Updated(old(buckets)[key], value)))
    {
      ListedUpdate(order, buckets, key, Updated(buckets[key], value));
      SetBucket(key, Updated(buckets[key], value));
      accepted := accepted + [(key, value)];
    }

    method Open(key: Key, value: real, bucket: Bucket)
      requires Valid() && key !in buckets
      modifies `order, `buckets, `accepted
      ensures Valid()
      ensures Abs() == Accept(old(Abs()), key, value, Listing(old(order), old(buckets)) + [Given(key, bucket)])
    {
      ListedAppend(order, buckets, key, bucket);
      SetBucket(key, bucket);
      accepted := accepted + [(key, value)];
    }

    method RecordEvent(key: Key, value: real, finite: bool, during: seq<Echo>)
      requires Valid()
      modifies this
      ensures Valid() && Abs() == Handle(maxKeys, old(Abs()), Sample(key, value, finite, during))
      decreases during, 1
    {
      hide Updated, Emit, Listing, Listed, Find, Handle, Placed;
      if !finite || value < 0.0 {
        HandleIgnores(maxKeys, Abs(), key, value, finite, during);
        return;
      }
      HandleSample(maxKeys, Abs(), order, buckets, key, value, during);
      if key in buckets {
        Join(key, value);
      } else if |buckets| >= maxKeys {
        var pending := Drain();
        NothingListed();
        Open(key, value, Single(value));
        EmitBuckets(pending, during);
      } else {
        Open(key, value, Updated(Empty(value), value));
      }
    }

    method FlushBuckets(during: seq<Echo>)
      requires Valid()
      modifies this
      ensures Valid() && Abs() == Handle(maxKeys, old(Abs()), Flush(during))
      decreases during, 1
    {
      hide Emit;
      var pending := Drain();
      NothingListed();
      EmitBuckets(pending, during);
    }

    /** Hands the buckets to the performance port one by one; the port may come back with more samples. */
    method EmitBuckets(pending: seq<Given>, during: seq<Echo>)
      requires Valid()
      modifies this
      ensures Valid() && Abs() == Emit(maxKeys, old(Abs()), pending, during)
      decreases during, 0
    {
      hide HandleAll;
      ghost var start := Abs();
      for i := 0 to |pending|
        invariant Valid()
        invariant Emit(maxKeys, Abs(), pending[i..], Rest(during, i))
                  == Emit(maxKeys, start, pending, during)
      {
        EmitNext(maxKeys, Abs(), pending, during, i);
        Give(pending[i]);
        if i < |during| { HandleEvents(during[i].events); }
      }
    }

    method Give(given: Given)
      modifies `handedOut
      ensures handedOut == old(handedOut) + [given]
    {
      handedOut := handedOut + [given];
    }

    method HandleEvents(events: seq<Event>)
      requires Valid()
      modifies this
      ensures Valid() && Abs() == HandleAll(maxKeys, old(Abs()), events)
      decreases events, 0
    {
      hide Handle;
      ghost var start := Abs();
      for i := 0 to |events|
        invariant Valid() && Abs() == HandleAll(maxKeys, start, events[..i])
      {
        assert events[..i + 1][..i] == events[..i];
        match events[i]
        case Sample(key, value, finite, during) => RecordEvent(key, value, finite, during);
        case Flush(during) => FlushBuckets(during);
      }
      assert events[..|events|] == events;
    }
  }

  function Rest(during: seq<Echo>, i: nat): seq<Echo> { if i <= |during| then during[i..] else [] }

  lemma EmitNext(maxKeys: nat, s: State, pending: seq<Given>, during: seq<Echo>, i: nat)
    requires i < |pending|
    ensures var given := s.(handedOut := s.handedOut + [pending[i]]);
            Emit(maxKeys, s, pending[i..], Rest(during, i))
            == Emit(maxKeys, if i < |during| then HandleAll(maxKeys, given, during[i].events) else given,
                    pending[i + 1..], Rest(during, i + 1))
  {
    assert pending[i..][1..] == pending[i + 1..];
    if i < |during| { assert during[i..][1..] == during[i + 1..]; }
  }

  /** The listing with the bucket of a key replaced. */
  function Placed(order: seq<Key>, buckets: map<Key, Bucket>, key: Key, bucket: Bucket): seq<Given> {
    Listing(order, buckets[key := bucket])
  }

  lemma NothingListed()
    ensures Listing([], map[]) == [] && Listed([], map[])
    ensures forall g: Given :: [] + [g] == [g]
  {
  }

  lemma ListedFind(order: seq<Key>, buckets: map<Key, Bucket>, key: Key)
    requires Listed(order, buckets)
    ensures var held, i := Listing(order, buckets), Find(Listing(order, buckets), key);
            if key in buckets then i < |held| && order[i] == key && held[i] == Given(key, buckets[key]) else i == |held|
  {
    hide Find;
    var held := Listing(order, buckets);
    FindFinds(held, key);
    assert key in order <==> key in buckets;
    if key in buckets {
      var j :| 0 <= j < |order| && order[j] == key;
      assert held[j].key == key;
    } else {
      forall i | 0 <= i < |held| ensures held[i].key != key { assert order[i] in order; }
    }
  }

  lemma ListedUpdate(order: seq<Key>, buckets: map<Key, Bucket>, key: Key, bucket: Bucket)
    requires Listed(order, buckets) && key in buckets
    ensures Listed(order, buckets[key := bucket])
  {
    var changed := buckets[key := bucket];
    assert changed.Keys == buckets.Keys;
    assert |changed| == |changed.Keys| && |buckets| == |buckets.Keys|;
  }

  lemma ListedAppend(order: seq<Key>, buckets: map<Key, Bucket>, key: Key, bucket: Bucket)
    requires Listed(order, buckets) && key !in buckets
    ensures Listed(order + [key], buckets[key := bucket])
    ensures Listing(order + [key], buckets[key := bucket]) == Listing(order, buckets) + [Given(key, bucket)]
  {
    var changed := buckets[key := bucket];
    assert changed.Keys == buckets.Keys + {key};
    assert |changed| == |changed.Keys| && |buckets| == |buckets.Keys|;
    ListingAppend(order, buckets, key, bucket);
  }

  lemma ListingAppend(order: seq<Key>, buckets: map<Key, Bucket>, key: Key, bucket: Bucket)
    requires key !in order
    ensures Listing(order + [key], buckets[key := bucket]) == Listing(order, buckets) + [Given(key, bucket)]
  {
    assert forall i | 0 <= i < |order| :: order[i] in order;
  }

  lemma HandleIgnores(maxKeys: nat, s: State, key: Key, value: real, finite: bool, during: seq<Echo>)
    requires !finite || value < 0.0
    ensures Handle(maxKeys, s, Sample(key, value, finite, during)) == s
  {
  }

  /** The three ways of a sample, in terms of the map. */
  lemma HandleSample(maxKeys: nat, s: State, order: seq<Key>,
                     buckets: map<Key, Bucket>, key: Key, value: real, during: seq<Echo>)
    requires Listed(order, buckets) && s.held == Listing(order, buckets) && value >= 0.0
    ensures Handle(maxKeys, s, Sample(key, value, true, during))
         == if key in buckets then Accept(s, key, value, Placed(order, buckets, key, Updated(buckets[key], value)))
            else if |buckets| >= maxKeys then
              Emit(maxKeys, Accept(s, key, value, [Given(key, Single(value))]), s.held, during)
            else Accept(s, key, value, Listing(order, buckets) + [Given(key, Updated(Empty(value), value))])
  {
    hide Updated, Emit, Find;
    ListedFind(order, buckets, key);
    if key in buckets {
      var i, bucket := Find(s.held, key), Updated(buckets[key], value);
      assert Placed(order, buckets, key, bucket) == s.held[i := Given(key, bucket)];
    }
  }
}

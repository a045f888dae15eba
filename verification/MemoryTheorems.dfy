/** What the in-memory backend promises about batches of records. */
module MemoryTheorems {
  import opened Collections
  import opened OutboxRows
  import opened MemorySpec

  predicate DistinctIds(rs: seq<Record>) {
    forall i, j :: 0 <= i < j < |rs| ==> rs[i].envelope.id != rs[j].envelope.id
  }

  // ----------------------------------------------------------------- append

  lemma {:induction false} PendingFinds(additions: seq<Record>, id: string)
    ensures Pending(additions, id).Some? <==> exists i :: 0 <= i < |additions| && additions[i].envelope.id == id
    ensures Pending(additions, id).Some? ==>
              Pending(additions, id).value in additions && Pending(additions, id).value.envelope.id == id
  {
    if additions != [] {
      PendingFinds(additions[..|additions| - 1], id);
    }
  }

  /** The additions are the first occurrences of the events the store does not have. */
  lemma {:induction false} PlanFacts(records: map<string, Record>, batch: seq<Record>)
    requires Plan(records, batch).Some?
    ensures var p := Plan(records, batch).value;
            && DistinctIds(p) && |p| <= |batch|
            && (forall r <- p :: r in batch && r.envelope.id !in records)
            && forall i :: 0 <= i < |batch| ==>
                 var id := batch[i].envelope.id;
                 if id in records then Identity(records[id]) == Identity(batch[i])
                 else Pending(p, id).Some? && Identity(Pending(p, id).value) == Identity(batch[i])
  {
    if batch != [] {
      hide Pending, Identity;
      var front, r := batch[..|batch| - 1], batch[|batch| - 1];
      assert forall i | 0 <= i < |front| :: batch[i] == front[i];
      PlanFacts(records, front);
      var q, p := Plan(records, front).value, Plan(records, batch).value;
      PendingFinds(q, r.envelope.id);
      if IsNew(records, q, r) {
        assert p == q + [r] && p[..|q|] == q;
      }
    }
  }

  /** The event has another content than the stored event, or than an event of the batch before it, with the same id. */
  predicate Clashes(records: map<string, Record>, before: seq<Record>, r: Record) {
    || (r.envelope.id in records && Identity(records[r.envelope.id]) != Identity(r))
    || exists i :: 0 <= i < |before| && before[i].envelope.id == r.envelope.id && Identity(before[i]) != Identity(r)
  }

  lemma PlannedConflicts(records: map<string, Record>, front: seq<Record>, r: Record)
    requires Plan(records, front).Some?
    ensures Conflicts(records, Plan(records, front).value, r) <==> Clashes(records, front, r)
  {
    hide Identity, Pending, Plan;
    PlanFacts(records, front);
    var q := Plan(records, front).value;
    PendingFinds(q, r.envelope.id);
    if r.envelope.id !in records && Pending(q, r.envelope.id).Some? {
      var first := Pending(q, r.envelope.id).value;
      var i :| 0 <= i < |front| && front[i] == first;
      assert first.envelope.id == r.envelope.id;
    }
  }

  /** A batch is refused as contradictory exactly when some event in it clashes with the store or an earlier one. */
  lemma {:induction false} ConflictExactly(records: map<string, Record>, batch: seq<Record>)
    ensures Plan(records, batch).None? <==> exists n :: 0 <= n < |batch| && Clashes(records, batch[..n], batch[n])
  {
    if batch != [] {
      hide Clashes, Conflicts;
      var m := |batch| - 1;
      var front, r := batch[..m], batch[m];
      ConflictExactly(records, front);
      forall n | 0 <= n < m ensures front[..n] == batch[..n] && front[n] == batch[n] { }
      if Plan(records, front).Some? {
        PlannedConflicts(records, front, r);
      } else {
        var n :| 0 <= n < m && Clashes(records, front[..n], front[n]);
        assert Clashes(records, batch[..n], batch[n]);
      }
    }
  }

  function Ids(rs: seq<Record>): seq<string> { seq(|rs|, i requires 0 <= i < |rs| => rs[i].envelope.id) }

  /** Writing records with distinct ids stores each of them and leaves the others alone. */
  lemma {:induction false} PutAllStores(v: View, rs: seq<Record>)
    requires DistinctIds(rs)
    ensures var w := PutAll(v, rs);
            && w.inbox == v.inbox
            && (forall r <- rs :: r.envelope.id in w.records && w.records[r.envelope.id] == r)
            && (forall id :: id in w.records <==> id in v.records || id in Ids(rs))
            && (forall id <- v.records :: id !in Ids(rs) ==> w.records[id] == v.records[id])
  {
    if rs != [] {
      var front, r := rs[..|rs| - 1], rs[|rs| - 1];
      PutAllStores(v, front);
      assert Ids(rs) == Ids(front) + [r.envelope.id];
      forall q <- front ensures q.envelope.id != r.envelope.id {
        var i :| 0 <= i < |front| && front[i] == q;
        assert rs[i] == q;
      }
    }
  }

  lemma LastIsNew(v: View, rs: seq<Record>)
    requires rs != [] && DistinctIds(rs) && forall r <- rs :: r.envelope.id !in v.records
    ensures rs[|rs| - 1].envelope.id !in PutAll(v, rs[..|rs| - 1]).records
  {
    var front, r := rs[..|rs| - 1], rs[|rs| - 1];
    PutAllStores(v, front);
    assert r.envelope.id !in Ids(front);
  }

  lemma {:induction false} PutAllIndexed(v: View, rs: seq<Record>)
    requires Indexed(v)
    ensures Indexed(PutAll(v, rs))
  {
    if rs != [] {
      PutAllIndexed(v, rs[..|rs| - 1]);
      PutIndexed(PutAll(v, rs[..|rs| - 1]), rs[|rs| - 1]);
    }
  }

  /** Writing new records: they are listed last, in their order. */
  lemma {:induction false} PutAllNew(v: View, rs: seq<Record>)
    requires DistinctIds(rs) && forall r <- rs :: r.envelope.id !in v.records
    ensures PutAll(v, rs).order == v.order + Ids(rs)
  {
    if rs != [] {
      var front, r := rs[..|rs| - 1], rs[|rs| - 1];
      PutAllNew(v, front);
      LastIsNew(v, rs);
      assert Ids(rs) == Ids(front) + [r.envelope.id];
    }
  }

  lemma {:induction false} PutAllNewCount(v: View, rs: seq<Record>)
    requires DistinctIds(rs) && forall r <- rs :: r.envelope.id !in v.records
    ensures |PutAll(v, rs).records| == |v.records| + |rs|
  {
    if rs != [] {
      var front, r := rs[..|rs| - 1], rs[|rs| - 1];
      PutAllNewCount(v, front);
      LastIsNew(v, rs);
      MapCount(PutAll(v, front).records, r.envelope.id, r);
    }
  }

  /** ... and nothing is replaced, so the sizes simply add up. */
  lemma {:induction false} PutAllNewUsed(l: Limits, v: View, rs: seq<Record>)
    requires DistinctIds(rs) && forall r <- rs :: r.envelope.id !in v.records
    ensures Used(l, PutAll(v, rs)) == Used(l, v) + TotalSize(l, rs)
  {
    if rs != [] {
      var front, r := rs[..|rs| - 1], rs[|rs| - 1];
      PutAllNewUsed(l, v, front);
      LastIsNew(v, rs);
      PutUsed(l, PutAll(v, front), r);
    }
  }

  lemma {:induction false} TotalSizeGrows(l: Limits, rs: seq<Record>, n: nat)
    requires n <= |rs|
    ensures TotalSize(l, rs[..n]) <= TotalSize(l, rs)
  {
    if n == |rs| {
      assert rs[..n] == rs;
    } else {
      TotalSizeGrows(l, rs[..|rs| - 1], n);
      assert rs[..|rs| - 1][..n] == rs[..n];
    }
  }

  /** Once the batch passed the checks made before the first write, no write can fail. */
  lemma NoWriteFails(l: Limits, v: View, rs: seq<Record>, n: nat)
    requires WellFormed(l, v) && DistinctIds(rs) && n < |rs|
    requires forall r <- rs :: r.envelope.id !in v.records
    requires |v.records| + |rs| <= l.maxRecords && Used(l, v) + TotalSize(l, rs) <= l.maxBytes
    ensures Fits(l, PutAll(v, rs[..n]), rs[n])
    ensures PutAll(v, rs[..n + 1]) == Put(PutAll(v, rs[..n]), rs[n])
  {
    hide Used, TotalSize;
    assert rs[..n + 1][..n] == rs[..n];
    PutAllNewCount(v, rs[..n]);
    PutAllNewCount(v, rs[..n + 1]);
    PutAllNewUsed(l, v, rs[..n + 1]);
    TotalSizeGrows(l, rs, n + 1);
  }

  lemma AppendKeepsWellFormed(l: Limits, v: View, batch: seq<Record>)
    requires WellFormed(l, v)
    ensures WellFormed(l, Append(l, v, batch).1)
  {
    if Append(l, v, batch).0.Appended? {
      PlanFacts(v.records, batch);
      PutAllIndexed(v, Plan(v.records, batch).value);
      PutAllNewCount(v, Plan(v.records, batch).value);
      PutAllNewUsed(l, v, Plan(v.records, batch).value);
    }
  }

  lemma {:induction false} KnownBatchAddsNothing(records: map<string, Record>, batch: seq<Record>)
    requires forall r <- batch :: r.envelope.id in records && Identity(records[r.envelope.id]) == Identity(r)
    ensures Plan(records, batch) == Some([])
  {
    if batch != [] {
      KnownBatchAddsNothing(records, batch[..|batch| - 1]);
    }
  }

  /** After an append every event of the batch is stored with the content it has there. */
  lemma AppendStores(l: Limits, v: View, batch: seq<Record>, r: Record)
    requires Append(l, v, batch).0.Appended? && r in batch
    ensures var w := Append(l, v, batch).1;
            r.envelope.id in w.records && Identity(w.records[r.envelope.id]) == Identity(r)
  {
    hide Plan, PutAll, Pending, DistinctIds;
    PlanFacts(v.records, batch);
    var p := Plan(v.records, batch).value;
    PutAllStores(v, p);
    var i :| 0 <= i < |batch| && batch[i] == r;
    if r.envelope.id !in v.records {
      PendingFinds(p, r.envelope.id);
    } else {
      assert r.envelope.id !in Ids(p);
    }
  }

  lemma AppendNothing(l: Limits, v: View, batch: seq<Record>)
    requires WellFormed(l, v) && |batch| <= 1_000 && Plan(v.records, batch) == Some([])
    ensures Append(l, v, batch) == (Appended, v)
  {
  }

  /** Appending is idempotent: the same batch again is accepted and changes nothing. */
  lemma AppendIdempotent(l: Limits, v: View, batch: seq<Record>)
    requires WellFormed(l, v) && Append(l, v, batch).0.Appended?
    ensures Append(l, Append(l, v, batch).1, batch) == (Appended, Append(l, v, batch).1)
  {
    var w := Append(l, v, batch).1;
    AppendKeepsWellFormed(l, v, batch);
    forall r <- batch ensures r.envelope.id in w.records && Identity(w.records[r.envelope.id]) == Identity(r) {
      AppendStores(l, v, batch, r);
    }
    KnownBatchAddsNothing(w.records, batch);
    AppendNothing(l, w, batch);
  }

  /** A conflict in a prefix of the batch refuses the batch. */
  lemma {:induction false} PlanFails(records: map<string, Record>, batch: seq<Record>, n: nat)
    requires n <= |batch| && Plan(records, batch[..n]).None?
    ensures Plan(records, batch).None?
  {
    if n < |batch| {
      assert batch[..|batch| - 1][..n] == batch[..n];
      PlanFails(records, batch[..|batch| - 1], n);
    } else {
      assert batch[..n] == batch;
    }
  }

  // ------------------------------------------------------------------ claim

  /** Exactly the due records are listed, each once. */
  lemma {:induction false} DueRecordsExactly(v: View, order: seq<string>, now: int)
    requires forall i, j :: 0 <= i < j < |order| ==> order[i] != order[j]
    requires forall id <- v.records :: v.records[id].envelope.id == id
    ensures var due := DueRecords(v, order, now);
            && DistinctIds(due)
            && (forall r <- due :: r.envelope.id in order && r.envelope.id in v.records
                                   && v.records[r.envelope.id] == r && Due(r, now))
            && (forall id <- order :: id in v.records && Due(v.records[id], now) ==> v.records[id] in due)
  {
    if order != [] {
      var front, id := order[..|order| - 1], order[|order| - 1];
      DueRecordsExactly(v, front, now);
      assert order == front + [id];
      assert id !in front;
    }
  }

  lemma DistinctIdsPermute(s: seq<Record>, p: seq<Record>)
    requires DistinctIds(s) && multiset(s) == multiset(p)
    requires forall q, r :: q in s && r in s && q.envelope.id == r.envelope.id ==> q == r
    ensures DistinctIds(p)
  {
    PermutationDistinct(s, p);
    forall i, j | 0 <= i < j < |p| ensures p[i].envelope.id != p[j].envelope.id {
      assert p[i] in multiset(p) && p[j] in multiset(p);
    }
  }

  function AvailableAt(): Record -> int { (r: Record) => r.availableAt }

  /** A prefix of a sorted sequence holds elements no larger than the rest. */
  lemma PrefixIsEarliest(sorted: seq<Record>, n: nat, r: Record, q: Record)
    requires n <= |sorted| && SortedBy(sorted, AvailableAt())
    requires r in sorted[..n] && q in sorted && q !in sorted[..n]
    ensures r.availableAt <= q.availableAt
  {
    var i :| 0 <= i < n && sorted[..n][i] == r;
    var j :| 0 <= j < |sorted| && sorted[j] == q;
    forall k | 0 <= k < n ensures sorted[k] != q {
      assert sorted[k] == sorted[..n][k];
    }
    assert AvailableAt()(sorted[i]) <= AvailableAt()(sorted[j]);
  }

  /** A claim takes exactly min(limit, 1000, number due) due records, none twice, and no due
      record that it leaves was available before one that it takes. */
  lemma ClaimSelects(v: View, now: int, limit: nat)
    requires Indexed(v)
    ensures var chosen := Chosen(v, now, limit); var due := DueRecords(v, v.order, now);
            && |chosen| == Min(limit, Min(1_000, |due|))
            && DistinctIds(chosen)
            && (forall r <- chosen ::
                  && r in due && r.envelope.id in v.records
                  && v.records[r.envelope.id] == r && Due(r, now))
            && (forall r, q :: r in chosen && q in due && q !in chosen ==> r.availableAt <= q.availableAt)
  {
    hide DueRecords, StableSort, Due;
    var due, key := DueRecords(v, v.order, now), (r: Record) => r.availableAt;
    DueRecordsExactly(v, v.order, now);
    StableSortSorted(due, key);
    var sorted, chosen := StableSort(due, key), Chosen(v, now, limit);
    forall r ensures r in sorted <==> r in due {
      assert r in multiset(sorted) <==> r in multiset(due);
    }
    DistinctIdsPermute(due, sorted);
    var n := Min(|sorted|, Min(1_000, limit));
    assert chosen == sorted[..n];
    assert SortedBy(sorted, AvailableAt());
    forall r, q | r in chosen && q in due && q !in chosen ensures r.availableAt <= q.availableAt {
      PrefixIsEarliest(sorted, n, r, q);
    }
  }

  /** A successful claim moves exactly the chosen records, by the row transition of a claim. */
  lemma ClaimMovesChosen(l: Limits, v: View, now: int, limit: nat, owner: string, leaseMs: int)
    requires Indexed(v) && ClaimDue(l, v, now, limit, owner, leaseMs).0.Some?
    ensures var chosen := Chosen(v, now, limit); var w := ClaimDue(l, v, now, limit, owner, leaseMs).1;
            && w.order == v.order && w.inbox == v.inbox && w.records.Keys == v.records.Keys
            && (forall id <- v.records :: Some(w.records[id]) ==
                  if v.records[id] in chosen then MemoryStep(v.records[id], Claim(now, owner, leaseMs))
                  else Some(v.records[id]))
  {
    var chosen := Chosen(v, now, limit);
    var claimed := ClaimAll(chosen, now, owner, leaseMs);
    ClaimSelects(v, now, limit);
    assert DistinctIds(claimed);
    SetAllWrites(l, v, claimed);
    PutAllStores(v, claimed);
    PutAllKeepsOrder(v, claimed);
    var w := ClaimDue(l, v, now, limit, owner, leaseMs).1;
    assert w.records.Keys == v.records.Keys;
    forall id <- v.records
      ensures w.records[id]
              == if v.records[id] in chosen then Claimed(v.records[id], now, owner, leaseMs) else v.records[id]
    {
      if v.records[id] in chosen {
        var i :| 0 <= i < |chosen| && chosen[i] == v.records[id];
        assert claimed[i] in claimed && claimed[i].envelope.id == id;
      } else {
        forall i | 0 <= i < |claimed| ensures Ids(claimed)[i] != id {
          assert chosen[i] in chosen;
        }
      }
    }
  }

  lemma {:induction false} PutAllKeepsOrder(v: View, rs: seq<Record>)
    requires forall r <- rs :: r.envelope.id in v.records
    ensures PutAll(v, rs).order == v.order && PutAll(v, rs).records.Keys == v.records.Keys
  {
    if rs != [] {
      PutAllKeepsOrder(v, rs[..|rs| - 1]);
    }
  }

  /** A write that does not fit ends the batch there. */
  lemma {:induction false} SetAllFails(l: Limits, v: View, rs: seq<Record>, n: nat)
    requires n <= |rs| && !SetAll(l, v, rs[..n]).0
    ensures SetAll(l, v, rs) == SetAll(l, v, rs[..n])
  {
    if n < |rs| {
      assert rs[..|rs| - 1][..n] == rs[..n];
      SetAllFails(l, v, rs[..|rs| - 1], n);
    } else {
      assert rs[..n] == rs;
    }
  }

  lemma {:induction false} SetAllWrites(l: Limits, v: View, rs: seq<Record>)
    ensures SetAll(l, v, rs).0 ==> SetAll(l, v, rs).1 == PutAll(v, rs)
  {
    if rs != [] {
      SetAllWrites(l, v, rs[..|rs| - 1]);
    }
  }

  lemma {:induction false} GrowthIsUsed(l: Limits, v: View, rs: seq<Record>)
    requires DistinctIds(rs)
    ensures Used(l, PutAll(v, rs)) == Used(l, v) + Growth(l, v, rs)
  {
    if rs != [] {
      var front, r := rs[..|rs| - 1], rs[|rs| - 1];
      GrowthIsUsed(l, v, front);
      PutAllStores(v, front);
      assert r.envelope.id !in Ids(front);
      PutUsed(l, PutAll(v, front), r);
    }
  }

  /** The first `n` writes of a batch of stored records leave the store within its limit. */
  predicate PrefixFits(l: Limits, v: View, used: nat, rs: seq<Record>, n: nat)
    requires n <= |rs|
  {
    used + Growth(l, v, rs[..n]) <= l.maxBytes
  }

  lemma LastFits(l: Limits, v: View, rs: seq<Record>)
    requires rs != [] && DistinctIds(rs) && (forall r <- rs :: r.envelope.id in v.records)
    ensures Fits(l, PutAll(v, rs[..|rs| - 1]), rs[|rs| - 1]) <==> PrefixFits(l, v, Used(l, v), rs, |rs|)
  {
    assert rs[..|rs|] == rs;
    GrowthIsUsed(l, v, rs);
    PutAllKeepsOrder(v, rs[..|rs| - 1]);
    assert rs[|rs| - 1].envelope.id in v.records.Keys;
  }

  lemma SamePrefixes(l: Limits, v: View, rs: seq<Record>)
    requires rs != []
    ensures var front := rs[..|rs| - 1];
            forall n | 0 <= n <= |front| ::
              front[..n] == rs[..n] && PrefixFits(l, v, Used(l, v), front, n) == PrefixFits(l, v, Used(l, v), rs, n)
  {
    var front := rs[..|rs| - 1];
    forall n | 0 <= n <= |front| ensures front[..n] == rs[..n] { }
  }

  /** The records are written up to the first prefix that does not fit. */
  lemma {:induction false} SetAllStops(l: Limits, v: View, rs: seq<Record>) returns (k: nat)
    requires DistinctIds(rs) && (forall r <- rs :: r.envelope.id in v.records)
    ensures k <= |rs| && SetAll(l, v, rs) == (k == |rs|, PutAll(v, rs[..k]))
    ensures forall n :: 1 <= n <= k ==> PrefixFits(l, v, Used(l, v), rs, n)
    ensures k < |rs| ==> !PrefixFits(l, v, Used(l, v), rs, k + 1)
  {
    hide PrefixFits, Fits, Used;
    if rs == [] {
      k := 0;
    } else {
      var front := rs[..|rs| - 1];
      SamePrefixes(l, v, rs);
      k := SetAllStops(l, v, front);
      if k == |front| {
        LastFits(l, v, rs);
        assert front[..k] == front && rs[..|rs|] == rs;
        if PrefixFits(l, v, Used(l, v), rs, |rs|) {
          k := |rs|;
        }
      }
    }
  }

  /** The claimed records are stored records with new contents, each written once. */
  lemma ClaimedFacts(v: View, now: int, limit: nat, owner: string, leaseMs: int)
    requires Indexed(v)
    ensures var chosen := Chosen(v, now, limit); var claimed := ClaimAll(chosen, now, owner, leaseMs);
            && DistinctIds(claimed) && (forall r <- claimed :: r.envelope.id in v.records)
            && (forall i :: 0 <= i < |chosen| ==>
                  && chosen[i].envelope.id in v.records && v.records[chosen[i].envelope.id] == chosen[i]
                  && claimed[i] == Claimed(chosen[i], now, owner, leaseMs))
  {
    var chosen := Chosen(v, now, limit);
    ClaimSelects(v, now, limit);
    forall i | 0 <= i < |chosen|
      ensures chosen[i].envelope.id in v.records && v.records[chosen[i].envelope.id] == chosen[i]
    {
      assert chosen[i] in chosen;
    }
  }

  /** Some of the batch gets written exactly when its first record fits. */
  lemma WritesSomething(l: Limits, v: View, chosen: seq<Record>, claimed: seq<Record>,
                        now: int, owner: string, leaseMs: int)
    requires |chosen| == |claimed| && DistinctIds(claimed) && (forall r <- claimed :: r.envelope.id in v.records)
    requires forall i :: 0 <= i < |chosen| ==>
               && chosen[i].envelope.id in v.records && v.records[chosen[i].envelope.id] == chosen[i]
               && claimed[i] == Claimed(chosen[i], now, owner, leaseMs)
    ensures SetAll(l, v, claimed).1 != v <==> claimed != [] && PrefixFits(l, v, Used(l, v), claimed, 1)
    ensures SetAll(l, v, claimed).0 <==> forall n :: 1 <= n <= |claimed| ==> PrefixFits(l, v, Used(l, v), claimed, n)
  {
    var k := SetAllStops(l, v, claimed);
    if k > 0 {
      WroteFirst(v, chosen, claimed[..k], now, owner, leaseMs);
    }
  }

  /** The claim succeeds exactly when every prefix of its writes fits; it leaves a part of the
      batch written, although the caller gets the capacity error, exactly when the whole batch
      and its first record fit and some prefix between them does not. */
  lemma ClaimAllOrNothing(l: Limits, v: View, now: int, limit: nat, owner: string, leaseMs: int)
    requires WellFormed(l, v)
    ensures var claimed := ClaimAll(Chosen(v, now, limit), now, owner, leaseMs);
            var (reply, w) := ClaimDue(l, v, now, limit, owner, leaseMs);
            && (reply.Some? <==> forall n :: 1 <= n <= |claimed| ==> PrefixFits(l, v, Used(l, v), claimed, n))
            && (reply.None? && w != v <==>
                && claimed != [] && PrefixFits(l, v, Used(l, v), claimed, 1)
                && PrefixFits(l, v, Used(l, v), claimed, |claimed|)
                && exists n :: 1 < n < |claimed| && !PrefixFits(l, v, Used(l, v), claimed, n))
  {
    var chosen := Chosen(v, now, limit);
    var claimed := ClaimAll(chosen, now, owner, leaseMs);
    hide SetAll, Used, Chosen;
    ClaimedFacts(v, now, limit, owner, leaseMs);
    WritesSomething(l, v, chosen, claimed, now, owner, leaseMs);
    assert claimed[..|claimed|] == claimed;
    if Used(l, v) + Growth(l, v, claimed) > l.maxBytes {
      assert claimed != [];
      assert !PrefixFits(l, v, Used(l, v), claimed, |claimed|);
    }
  }

  lemma WroteFirst(v: View, chosen: seq<Record>, written: seq<Record>, now: int, owner: string, leaseMs: int)
    requires chosen != [] && written != [] && DistinctIds(written)
    requires chosen[0].envelope.id in v.records && v.records[chosen[0].envelope.id] == chosen[0]
    requires written[0] == Claimed(chosen[0], now, owner, leaseMs)
    ensures PutAll(v, written) != v
  {
    PutAllStores(v, written);
    assert written[0] in written;
    assert written[0].attempts != chosen[0].attempts;
  }

  /** When no claimed record shrinks, the check made before the first write decides alone. */
  lemma ClaimAtomicUnlessShrinking(l: Limits, v: View, now: int, limit: nat, owner: string, leaseMs: int)
    requires WellFormed(l, v)
    requires forall r <- Chosen(v, now, limit) :: l.recordSize(r) <= l.recordSize(Claimed(r, now, owner, leaseMs))
    ensures var (reply, w) := ClaimDue(l, v, now, limit, owner, leaseMs);
            reply.None? ==> w == v
  {
    hide ClaimDue, Chosen, Claimed, Used, Growth;
    var claimed := ClaimAll(Chosen(v, now, limit), now, owner, leaseMs);
    ClaimSelects(v, now, limit);
    ClaimAllOrNothing(l, v, now, limit, owner, leaseMs);
    forall n | 1 < n < |claimed| && PrefixFits(l, v, Used(l, v), claimed, |claimed|)
      ensures PrefixFits(l, v, Used(l, v), claimed, n)
    {
      assert claimed[..|claimed|] == claimed;
      GrowthMonotone(l, v, Chosen(v, now, limit), claimed, n, now, owner, leaseMs);
    }
  }

  lemma {:induction false} GrowthMonotone(l: Limits, v: View, chosen: seq<Record>, claimed: seq<Record>, n: nat,
                                          now: int, owner: string, leaseMs: int)
    requires n <= |claimed| == |chosen|
    requires forall i :: 0 <= i < |chosen| ==>
               && claimed[i] == Claimed(chosen[i], now, owner, leaseMs)
               && chosen[i].envelope.id in v.records && v.records[chosen[i].envelope.id] == chosen[i]
               && l.recordSize(chosen[i]) <= l.recordSize(claimed[i])
    ensures Growth(l, v, claimed[..n]) <= Growth(l, v, claimed)
  {
    if n == |claimed| {
      assert claimed[..n] == claimed;
    } else {
      var m := |claimed| - 1;
      GrowthMonotone(l, v, chosen[..m], claimed[..m], n, now, owner, leaseMs);
      assert claimed[..m][..n] == claimed[..n];
    }
  }
}

/** The startup batches are a legal schedule of the hooks, and the earliest one there is. */
module StartupSchedule {
  import opened Collections
  import opened StartupBatches

  function Total(hooks: seq<Hook>): nat { |Closed(hooks)| + Rounds(Segment(hooks)) }

  /** The batch of a hook that comes after the given ones. */
  function SlotAfter(hooks: seq<Hook>, hook: Hook): nat {
    if hook.concurrent then |Closed(hooks)| + RoundAfter(Segment(hooks), hook) else Total(hooks)
  }

  function Slot(hooks: seq<Hook>, i: nat): nat
    requires i < |hooks|
  {
    SlotAfter(hooks[..i], hooks[i])
  }

  /** The hooks of one batch, in registration order. */
  function AtSlot(hooks: seq<Hook>, b: nat): seq<Hook> {
    if hooks == [] then []
    else
      var front, last := hooks[..|hooks| - 1], hooks[|hooks| - 1];
      AtSlot(front, b) + if SlotAfter(front, last) == b then [last] else []
  }

  // ------------------------------------------ each batch holds its hooks

  lemma LaneNextTo(segment: seq<Hook>, e: Hook, group: string)
    ensures Lane(segment + [e], group) == if e.group == group then Lane(segment, group) + [e] else Lane(segment, group)
    ensures Ungrouped(segment + [e]) == if e.group == "" then Ungrouped(segment) + [e] else Ungrouped(segment)
    ensures Groups(segment + [e])
            == if e.group == "" || e.group in Groups(segment) then Groups(segment) else Groups(segment) + [e.group]
    ensures Rounds(segment + [e]) == Max(Rounds(segment), RoundAfter(segment, e) + 1)
  {
    assert (segment + [e])[..|segment|] == segment;
  }

  /** A hook that joins a segment changes no round but its own. */
  lemma {:induction false} RankedUnchanged(segment: seq<Hook>, e: Hook, groups: seq<string>, round: nat)
    requires e.group !in groups || round != |Lane(segment, e.group)|
    ensures Ranked(segment + [e], groups, round) == Ranked(segment, groups, round)
  {
    hide Lane;
    if groups != [] {
      var n := |groups| - 1;
      assert groups == groups[..n] + [groups[n]];
      RankedUnchanged(segment, e, groups[..n], round);
      LaneNextTo(segment, e, groups[n]);
    }
  }

  lemma {:induction false} RankedNextTo(segment: seq<Hook>, e: Hook, groups: seq<string>, round: nat)
    requires e.group in groups && forall i, j :: 0 <= i < j < |groups| ==> groups[i] != groups[j]
    requires round == |Lane(segment, e.group)|
    ensures multiset(Ranked(segment + [e], groups, round)) == multiset(Ranked(segment, groups, round)) + multiset{e}
  {
    hide Lane, Ranked;
    var n := |groups| - 1;
    var front, group := groups[..n], groups[n];
    assert groups == front + [group];
    RankedAppended(segment, front, group, round);
    RankedAppended(segment + [e], front, group, round);
    LaneNextTo(segment, e, group);
    var before, after := Ranked(segment, front, round), Ranked(segment + [e], front, round);
    if group == e.group {
      RankedUnchanged(segment, e, front, round);
      assert before + [] == before;
      assert Ranked(segment + [e], groups, round) == before + [e];
    } else {
      RankedNextTo(segment, e, front, round);
      OneMoreInFront(before, after, if round < |Lane(segment, group)| then [Lane(segment, group)[round]] else [], e);
    }
  }

  lemma OneMoreInFront<T>(before: seq<T>, after: seq<T>, rest: seq<T>, e: T)
    requires multiset(after) == multiset(before) + multiset{e}
    ensures multiset(after + rest) == multiset(before + rest) + multiset{e}
  {
  }

  lemma RankedAppended(segment: seq<Hook>, groups: seq<string>, group: string, round: nat)
    ensures Ranked(segment, groups + [group], round)
         == Ranked(segment, groups, round)
            + if round < |Lane(segment, group)| then [Lane(segment, group)[round]] else []
  {
    assert (groups + [group])[..|groups|] == groups;
  }

  lemma RoundNextTo(segment: seq<Hook>, e: Hook, round: nat)
    ensures multiset(Round(segment + [e], round))
         == if round == RoundAfter(segment, e) then multiset(Round(segment, round)) + multiset{e}
            else multiset(Round(segment, round))
  {
    hide Lane, Groups, Ungrouped, Ranked;
    var groups := Groups(segment);
    GroupsNamed(segment);
    LaneNextTo(segment, e, e.group);
    if e.group == "" {
      RankedUnchanged(segment, e, groups, round);
    } else if e.group in groups {
      if round == |Lane(segment, e.group)| {
        RankedNextTo(segment, e, groups, round);
      } else {
        RankedUnchanged(segment, e, groups, round);
      }
    } else {
      LaneMembers(segment, e.group);
      RankedUnchanged(segment, e, groups, round);
      RankedAppended(segment + [e], groups, e.group, round);
    }
  }

  lemma RoundPastEnd(segment: seq<Hook>, round: nat)
    requires round >= Rounds(segment)
    ensures Round(segment, round) == []
  {
    RoundsAreLongest(segment);
    GroupsNamed(segment);
    var groups := Groups(segment);
    forall i | 0 <= i < |groups| ensures |Lane(segment, groups[i])| <= round {
      assert groups[i] in groups;
    }
    RankedPastEnd(segment, groups, round);
    if round == 0 { assert segment == []; }
  }

  lemma {:induction false} RankedPastEnd(segment: seq<Hook>, groups: seq<string>, round: nat)
    requires forall i | 0 <= i < |groups| :: |Lane(segment, groups[i])| <= round
    ensures Ranked(segment, groups, round) == []
  {
    if groups != [] { RankedPastEnd(segment, groups[..|groups| - 1], round); }
  }

  /** The batch with the given number, or an empty one. */
  function BatchAt(hooks: seq<Hook>, b: nat): seq<Hook> { if b < |Batches(hooks)| then Batches(hooks)[b] else [] }

  /** In a segment, batches and rounds are the same, also past the end. */
  lemma BatchIsRound(hooks: seq<Hook>, b: nat)
    requires b >= |Closed(hooks)|
    ensures BatchAt(hooks, b) == Round(Segment(hooks), b - |Closed(hooks)|)
  {
    hide Round, Closed, Segment;
    if b >= Total(hooks) { RoundPastEnd(Segment(hooks), b - |Closed(hooks)|); }
  }

  lemma ConcurrentHookJoins(hooks: seq<Hook>, e: Hook, b: nat)
    requires e.concurrent
    ensures multiset(BatchAt(hooks + [e], b))
         == if b == SlotAfter(hooks, e) then multiset(BatchAt(hooks, b)) + multiset{e} else multiset(BatchAt(hooks, b))
  {
    assert (hooks + [e])[..|hooks|] == hooks;
    assert Segment(hooks + [e]) == Segment(hooks) + [e] && Closed(hooks + [e]) == Closed(hooks);
    JoinsAt(hooks, hooks + [e], e, b);
  }

  lemma JoinsAt(hooks: seq<Hook>, more: seq<Hook>, e: Hook, b: nat)
    requires Segment(more) == Segment(hooks) + [e] && Closed(more) == Closed(hooks)
    ensures var slot := |Closed(hooks)| + RoundAfter(Segment(hooks), e);
            multiset(BatchAt(more, b))
            == if b == slot then multiset(BatchAt(hooks, b)) + multiset{e}
               else multiset(BatchAt(hooks, b))
  {
    hide Round, Closed, Segment, RoundAfter;
    if b >= |Closed(hooks)| {
      BatchIsRound(hooks, b);
      BatchIsRound(more, b);
      RoundNextTo(Segment(hooks), e, b - |Closed(hooks)|);
    }
  }

  lemma LoneHookFollows(hooks: seq<Hook>, e: Hook, b: nat)
    requires !e.concurrent
    ensures BatchAt(hooks + [e], b) == if b == Total(hooks) then [e] else BatchAt(hooks, b)
    ensures Batches(hooks + [e]) == Batches(hooks) + [[e]]
  {
    assert (hooks + [e])[..|hooks|] == hooks;
    assert SegmentBatches([]) == [];
  }

  /** Batch `b` is, up to order, the hooks whose slot is `b`: no hook is lost, repeated or moved. */
  lemma {:induction false} BatchesFollowSlots(hooks: seq<Hook>, b: nat)
    ensures |Batches(hooks)| == Total(hooks)
    ensures multiset(BatchAt(hooks, b)) == multiset(AtSlot(hooks, b))
  {
    if hooks != [] {
      var front, last := hooks[..|hooks| - 1], hooks[|hooks| - 1];
      assert hooks == front + [last];
      BatchesFollowSlots(front, b);
      if last.concurrent { ConcurrentHookJoins(front, last, b); } else { LoneHookFollows(front, last, b); }
    }
  }

  // -------------------------------------------------- nothing lost or added

  function AllOf(batches: seq<seq<Hook>>): multiset<Hook> {
    if batches == [] then multiset{} else AllOf(batches[..|batches| - 1]) + multiset(batches[|batches| - 1])
  }

  lemma {:induction false} AllOfConcat(a: seq<seq<Hook>>, b: seq<seq<Hook>>)
    ensures AllOf(a + b) == AllOf(a) + AllOf(b)
  {
    if b == [] {
      assert a + b == a;
    } else {
      AllOfConcat(a, b[..|b| - 1]);
      assert (a + b)[..|a + b| - 1] == a + b[..|b| - 1];
    }
  }

  function FirstRounds(segment: seq<Hook>, n: nat): seq<seq<Hook>> {
    seq(n, round requires 0 <= round => Round(segment, round))
  }

  lemma FirstRoundsNext(segment: seq<Hook>, n: nat)
    ensures AllOf(FirstRounds(segment, n + 1)) == AllOf(FirstRounds(segment, n)) + multiset(Round(segment, n))
  {
    assert FirstRounds(segment, n + 1)[..n] == FirstRounds(segment, n);
  }

  lemma NoRounds(a: seq<Hook>, b: seq<Hook>)
    ensures AllOf(FirstRounds(a, 0)) == multiset{} && AllOf(FirstRounds(b, 0)) == multiset{}
  {
  }

  lemma {:induction false} FirstRoundsNextTo(segment: seq<Hook>, e: Hook, n: nat)
    ensures AllOf(FirstRounds(segment + [e], n))
         == if RoundAfter(segment, e) < n then AllOf(FirstRounds(segment, n)) + multiset{e}
            else AllOf(FirstRounds(segment, n))
  {
    hide Round, RoundAfter, FirstRounds, AllOf;
    NoRounds(segment, segment + [e]);
    if n > 0 {
      FirstRoundsNextTo(segment, e, n - 1);
      FirstRoundsNext(segment, n - 1);
      FirstRoundsNext(segment + [e], n - 1);
      RoundNextTo(segment, e, n - 1);
    }
  }

  lemma {:induction false} MoreRoundsAddNothing(segment: seq<Hook>, n: nat)
    requires n >= Rounds(segment)
    ensures AllOf(FirstRounds(segment, n)) == AllOf(SegmentBatches(segment))
  {
    hide Round, Rounds;
    if n == Rounds(segment) {
      assert FirstRounds(segment, n) == SegmentBatches(segment);
    } else {
      hide FirstRounds, SegmentBatches, AllOf;
      MoreRoundsAddNothing(segment, n - 1);
      FirstRoundsNext(segment, n - 1);
      RoundPastEnd(segment, n - 1);
      assert AllOf(FirstRounds(segment, n - 1)) + multiset([]) == AllOf(FirstRounds(segment, n - 1));
    }
  }

  lemma SegmentNextTo(segment: seq<Hook>, e: Hook)
    ensures AllOf(SegmentBatches(segment + [e])) == AllOf(SegmentBatches(segment)) + multiset{e}
  {
    hide Round, RoundAfter;
    var n := Rounds(segment + [e]);
    LaneNextTo(segment, e, e.group);
    MoreRoundsAddNothing(segment, n);
    MoreRoundsAddNothing(segment + [e], n);
    FirstRoundsNextTo(segment, e, n);
  }

  /** The batches one after the other are a permutation of the hooks. */
  lemma {:induction false} BatchesArePermutation(hooks: seq<Hook>)
    ensures AllOf(Batches(hooks)) == multiset(hooks)
  {
    if hooks != [] {
      hide SegmentBatches;
      var front, last := hooks[..|hooks| - 1], hooks[|hooks| - 1];
      assert hooks == front + [last];
      BatchesArePermutation(front);
      AllOfConcat(Closed(front), SegmentBatches(Segment(front)));
      if last.concurrent {
        AllOfConcat(Closed(hooks), SegmentBatches(Segment(hooks)));
        SegmentNextTo(Segment(front), last);
      } else {
        LoneHookFollows(front, last, 0);
        assert (Batches(front) + [[last]])[..|Batches(front)|] == Batches(front);
      }
    }
  }

  // ---------------------------------------------------- order and earliness

  /** Which hook has to wait for which earlier one. */
  predicate MustPrecede(a: Hook, b: Hook) { !a.concurrent || !b.concurrent || (a.group != "" && a.group == b.group) }

  /** An assignment of hooks to batches that respects every such pair. */
  ghost predicate Legal(hooks: seq<Hook>, f: seq<nat>) {
    |f| == |hooks| && forall i, j | 0 <= i < j < |hooks| && MustPrecede(hooks[i], hooks[j]) :: f[i] < f[j]
  }

  function Slots(hooks: seq<Hook>): seq<nat> { seq(|hooks|, i requires 0 <= i < |hooks| => Slot(hooks, i)) }

  lemma RoundAfterAtMost(segment: seq<Hook>, e: Hook)
    ensures RoundAfter(segment, e) <= Rounds(segment)
  {
    RoundsAreLongest(segment);
  }

  /** Earlier hooks are before the end, before any later closed segment, and before the next place in their lane. */
  lemma {:induction false} EarlierSlots(hooks: seq<Hook>, n: nat, i: nat)
    requires i < n <= |hooks|
    ensures Slot(hooks, i) < Total(hooks[..n])
    ensures !hooks[i].concurrent ==> Slot(hooks, i) < |Closed(hooks[..n])|
    ensures hooks[i].group != "" ==> Slot(hooks, i) < |Closed(hooks[..n])| + |Lane(Segment(hooks[..n]), hooks[i].group)|
                                     || Slot(hooks, i) < |Closed(hooks[..n])|
    decreases n
  {
    hide Rounds, Lane;
    var m := n - 1;
    var front, last := hooks[..m], hooks[m];
    assert hooks[..n] == front + [last];
    assert hooks[..n][..m] == front;
    NothingScheduled();
    if i < m { EarlierSlots(hooks, m, i); }
    if last.concurrent {
      LaneNextTo(Segment(front), last, last.group);
      LaneNextTo(Segment(front), last, hooks[i].group);
      RoundAfterAtMost(Segment(front), last);
    }
  }

  lemma SlotsAreLegal(hooks: seq<Hook>)
    ensures Legal(hooks, Slots(hooks))
  {
    forall i, j | 0 <= i < j < |hooks| && MustPrecede(hooks[i], hooks[j]) ensures Slot(hooks, i) < Slot(hooks, j) {
      EarlierSlots(hooks, j, i);
      assert hooks[..j + 1] == hooks[..j] + [hooks[j]];
    }
  }

  /** What stands in the way of an earlier batch: the last lone hook, the last hook of the lane, or some last hook. */
  lemma {:induction false} LoneBlocker(hooks: seq<Hook>, n: nat)
    requires n <= |hooks| && |Closed(hooks[..n])| > 0
    ensures exists k | 0 <= k < n :: !hooks[k].concurrent && Slot(hooks, k) == |Closed(hooks[..n])| - 1
    decreases n
  {
    hide Rounds;
    var m := n - 1;
    assert hooks[..n][..m] == hooks[..m];
    if hooks[m].concurrent { LoneBlocker(hooks, m); } else { assert Slot(hooks, m) == Total(hooks[..m]); }
  }

  lemma {:induction false} EndBlocker(hooks: seq<Hook>, n: nat)
    requires n <= |hooks| && Total(hooks[..n]) > 0
    ensures exists k | 0 <= k < n :: Slot(hooks, k) == Total(hooks[..n]) - 1
    decreases n
  {
    hide RoundAfter, Rounds;
    NothingScheduled();
    var m := n - 1;
    assert hooks[..n][..m] == hooks[..m] && hooks[..n] == hooks[..m] + [hooks[m]];
    LaneNextTo(Segment(hooks[..m]), hooks[m], hooks[m].group);
    if Slot(hooks, m) != Total(hooks[..n]) - 1 { EndBlocker(hooks, m); }
  }

  lemma NothingScheduled()
    ensures Rounds([]) == 0 && Total([]) == 0
  {
  }

  lemma {:induction false} LaneBlocker(hooks: seq<Hook>, n: nat, group: string)
    requires n <= |hooks| && group != "" && Lane(Segment(hooks[..n]), group) != []
    ensures exists k | 0 <= k < n :: hooks[k].concurrent && hooks[k].group == group
              && Slot(hooks, k) == |Closed(hooks[..n])| + |Lane(Segment(hooks[..n]), group)| - 1
    decreases n
  {
    hide Lane, Rounds, SegmentBatches, Closed;
    NoLane(group);
    var m := n - 1;
    assert hooks[..n] == hooks[..m] + [hooks[m]];
    LaneNextTo(Segment(hooks[..m]), hooks[m], group);
    SegmentGrows(hooks[..m], hooks[m]);
    if hooks[m].group != group { LaneBlocker(hooks, m, group); }
  }

  lemma SegmentGrows(hooks: seq<Hook>, e: Hook)
    ensures Segment(hooks + [e]) == if e.concurrent then Segment(hooks) + [e] else []
    ensures e.concurrent ==> Closed(hooks + [e]) == Closed(hooks)
  {
    assert (hooks + [e])[..|hooks|] == hooks;
  }

  lemma NoLane(group: string)
    ensures Lane([], group) == []
  {
  }

  /** No legal assignment puts any hook into an earlier batch. */
  lemma {:induction false} NoHookEarlier(hooks: seq<Hook>, f: seq<nat>, i: nat)
    requires Legal(hooks, f) && i < |hooks|
    ensures Slot(hooks, i) <= f[i]
    decreases i
  {
    var e := hooks[i];
    forall k | 0 <= k < i ensures Slot(hooks, k) <= f[k] { NoHookEarlier(hooks, f, k); }
    if !e.concurrent {
      if Total(hooks[..i]) > 0 {
        EndBlocker(hooks, i);
        var k :| 0 <= k < i && Slot(hooks, k) == Total(hooks[..i]) - 1;
        assert MustPrecede(hooks[k], e);
      }
    } else if e.group != "" && |Lane(Segment(hooks[..i]), e.group)| > 0 {
      LaneBlocker(hooks, i, e.group);
      var k :| 0 <= k < i && hooks[k].concurrent && hooks[k].group == e.group
               && Slot(hooks, k) == |Closed(hooks[..i])| + |Lane(Segment(hooks[..i]), e.group)| - 1;
      assert MustPrecede(hooks[k], e);
    } else if |Closed(hooks[..i])| > 0 {
      LoneBlocker(hooks, i);
      var k :| 0 <= k < i && !hooks[k].concurrent && Slot(hooks, k) == |Closed(hooks[..i])| - 1;
      assert MustPrecede(hooks[k], e);
    }
  }

  /** The startup schedule: every hook runs in exactly one batch, hooks that exclude each other keep their order in
      different batches, and no schedule with that property starts any hook in an earlier batch. */
  lemma ScheduleIsEarliest(hooks: seq<Hook>)
    ensures |Batches(hooks)| == Total(hooks)
    ensures forall b: nat :: multiset(BatchAt(hooks, b)) == multiset(AtSlot(hooks, b))
    ensures Legal(hooks, Slots(hooks))
    ensures forall f | Legal(hooks, f) :: forall i | 0 <= i < |hooks| :: Slots(hooks)[i] <= f[i]
  {
    forall b: nat
      ensures |Batches(hooks)| == Total(hooks) && multiset(BatchAt(hooks, b)) == multiset(AtSlot(hooks, b))
    {
      BatchesFollowSlots(hooks, b);
    }
    SlotsAreLegal(hooks);
    forall f, i | Legal(hooks, f) && 0 <= i < |hooks| ensures Slots(hooks)[i] <= f[i] {
      NoHookEarlier(hooks, f, i);
    }
    assert |Batches(hooks)| == Total(hooks) by { BatchesFollowSlots(hooks, 0); }
  }

  // -------------------------------------------------------- no empty batches

  lemma SegmentNotEmpty(segment: seq<Hook>)
    ensures forall b | 0 <= b < |SegmentBatches(segment)| :: SegmentBatches(segment)[b] != []
  {
    forall b | 0 <= b < |SegmentBatches(segment)| ensures SegmentBatches(segment)[b] != [] {
      RoundNotEmpty(segment, b);
    }
  }

  lemma {:induction false} ClosedNotEmpty(hooks: seq<Hook>)
    ensures forall b | 0 <= b < |Closed(hooks)| :: Closed(hooks)[b] != []
  {
    if hooks != [] {
      ClosedNotEmpty(hooks[..|hooks| - 1]);
      SegmentNotEmpty(Segment(hooks[..|hooks| - 1]));
    }
  }

  lemma NoEmptyBatch(hooks: seq<Hook>, b: nat)
    requires b < |Batches(hooks)|
    ensures Batches(hooks)[b] != []
  {
    ClosedNotEmpty(hooks);
    SegmentNotEmpty(Segment(hooks));
  }
}

/** Startup hooks in registration order become batches that run one after the other: a hook that is not concurrent
    runs alone, and hooks of the same group never share a batch. */
module StartupBatches {
  import opened Collections

  /** The empty group is no group. */
  datatype Hook = Hook(id: nat, concurrent: bool, group: string)

  // ------------------------------------------------------------ one segment

  function Ungrouped(segment: seq<Hook>): seq<Hook> {
    if segment == [] then []
    else
      Ungrouped(segment[..|segment| - 1])
      + if segment[|segment| - 1].group == "" then [segment[|segment| - 1]] else []
  }

  function Lane(segment: seq<Hook>, group: string): seq<Hook> {
    if segment == [] then []
    else
      Lane(segment[..|segment| - 1], group)
      + if segment[|segment| - 1].group == group then [segment[|segment| - 1]] else []
  }

  /** The groups of a segment in the order of their first hooks. */
  function Groups(segment: seq<Hook>): seq<string> {
    if segment == [] then []
    else
      var front, group := Groups(segment[..|segment| - 1]), segment[|segment| - 1].group;
      if group == "" || group in front then front else front + [group]
  }

  /** The hooks that the lanes contribute to a round. */
  function Ranked(segment: seq<Hook>, groups: seq<string>, round: nat): seq<Hook> {
    if groups == [] then []
    else
      var lane := Lane(segment, groups[|groups| - 1]);
      Ranked(segment, groups[..|groups| - 1], round) + if round < |lane| then [lane[round]] else []
  }

  function Round(segment: seq<Hook>, round: nat): seq<Hook> {
    (if round == 0 then Ungrouped(segment) else []) + Ranked(segment, Groups(segment), round)
  }

  /** The round in which a hook runs that comes next in the segment. */
  function RoundAfter(segment: seq<Hook>, hook: Hook): nat {
    if hook.group == "" then 0 else |Lane(segment, hook.group)|
  }

  function Rounds(segment: seq<Hook>): nat {
    if segment == [] then 0
    else Max(Rounds(segment[..|segment| - 1]), RoundAfter(segment[..|segment| - 1], segment[|segment| - 1]) + 1)
  }

  function SegmentBatches(segment: seq<Hook>): seq<seq<Hook>> {
    seq(Rounds(segment), round requires 0 <= round => Round(segment, round))
  }

  // --------------------------------------------------------------- schedule

  /** The concurrent hooks since the last one that is not. */
  function Segment(hooks: seq<Hook>): seq<Hook> {
    if hooks == [] || !hooks[|hooks| - 1].concurrent then []
    else Segment(hooks[..|hooks| - 1]) + [hooks[|hooks| - 1]]
  }

  /** The batches before the current segment. */
  function Closed(hooks: seq<Hook>): seq<seq<Hook>> {
    if hooks == [] then []
    else
      var front, last := hooks[..|hooks| - 1], hooks[|hooks| - 1];
      if last.concurrent then Closed(front) else Closed(front) + SegmentBatches(Segment(front)) + [[last]]
  }

  function Batches(hooks: seq<Hook>): seq<seq<Hook>> { Closed(hooks) + SegmentBatches(Segment(hooks)) }

  /** The lanes found so far. */
  ghost predicate Grouped(segment: seq<Hook>, order: seq<string>, grouped: map<string, seq<Hook>>) {
    && order == Groups(segment)
    && (forall i | 0 <= i < |order| :: order[i] in grouped)
    && (forall group <- grouped :: group in order && grouped[group] == Lane(segment, group))
  }

  method GroupLanes(segment: seq<Hook>) returns (order: seq<string>, grouped: map<string, seq<Hook>>)
    ensures Grouped(segment, order, grouped)
  {
    order, grouped := [], map[];
    assert segment[..0] == [];
    for i := 0 to |segment|
      invariant Grouped(segment[..i], order, grouped)
    {
      var hook := segment[i];
      GroupedNext(segment, i, order, grouped);
      if hook.group == "" { continue; }
      var lane := if hook.group in grouped then grouped[hook.group] else [];
      if hook.group !in grouped { order := order + [hook.group]; }
      grouped := grouped[hook.group := lane + [hook]];
    }
    assert segment[..|segment|] == segment;
  }

  /** The inner loop of a round: the lane of each group contributes its next hook. */
  method PickLanes(segment: seq<Hook>, order: seq<string>, grouped: map<string, seq<Hook>>, round: nat)
    returns (picked: seq<Hook>)
    requires Grouped(segment, order, grouped)
    ensures picked == Ranked(segment, order, round)
  {
    picked := [];
    for i := 0 to |order|
      invariant picked == Ranked(segment, order[..i], round)
    {
      assert order[..i + 1][..i] == order[..i];
      var lane := grouped[order[i]];
      picked := picked + if round < |lane| then [lane[round]] else [];
    }
    assert order[..|order|] == order;
  }

  /** One batch for each round, until no lane has a hook left. */
  method FlushSegment(segment: seq<Hook>) returns (added: seq<seq<Hook>>)
    ensures added == SegmentBatches(segment)
  {
    hide Lane, Groups, Rounds, Ranked;
    NoHooks();
    if segment == [] { return []; }
    var order, grouped := GroupLanes(segment);
    RoundsAreLongest(segment);
    GroupsNamed(segment);
    added := [];
    var round := 0;
    while true
      invariant round < Rounds(segment) && |added| == round
      invariant forall r | 0 <= r < round :: added[r] == Round(segment, r)
      decreases Rounds(segment) - round
    {
      var picked := PickLanes(segment, order, grouped, round);
      var batch := (if round == 0 then Ungrouped(segment) else []) + picked;
      RoundNotEmpty(segment, round);
      if |batch| > 0 { added := added + [batch]; }
      round := round + 1;
      if !exists i :: 0 <= i < |order| && |grouped[order[i]]| > round { break; }
    }
    LastRound(segment, round);
    assert added == SegmentBatches(segment);
  }

  /** Collects concurrent hooks in a segment until a hook comes that has to run alone. */
  method StartupExecutionBatches(hooks: seq<Hook>) returns (batches: seq<seq<Hook>>)
    ensures batches == Batches(hooks)
  {
    batches := [];
    var segment: seq<Hook> := [];
    for i := 0 to |hooks|
      invariant batches == Closed(hooks[..i]) && segment == Segment(hooks[..i])
    {
      assert hooks[..i + 1][..i] == hooks[..i];
      if !hooks[i].concurrent {
        var added := FlushSegment(segment);
        batches := batches + added + [[hooks[i]]];
        segment := [];
      } else {
        segment := segment + [hooks[i]];
      }
    }
    var added := FlushSegment(segment);
    batches := batches + added;
    assert hooks[..|hooks|] == hooks;
  }

  lemma NoHooks()
    ensures Rounds([]) == 0 && SegmentBatches([]) == []
  {
  }

  lemma NextGroup(segment: seq<Hook>, i: nat)
    requires i < |segment|
    ensures Groups(segment[..i + 1])
            == (if segment[i].group == "" || segment[i].group in Groups(segment[..i]) then Groups(segment[..i])
                                         else Groups(segment[..i]) + [segment[i].group])
  {
    assert segment[..i + 1][..i] == segment[..i];
  }

  lemma NextLane(segment: seq<Hook>, i: nat, group: string)
    requires i < |segment|
    ensures Lane(segment[..i + 1], group)
         == if segment[i].group == group then Lane(segment[..i], group) + [segment[i]] else Lane(segment[..i], group)
  {
    assert segment[..i + 1][..i] == segment[..i];
  }

  lemma GroupedNext(segment: seq<Hook>, i: nat, order: seq<string>, grouped: map<string, seq<Hook>>)
    requires i < |segment| && Grouped(segment[..i], order, grouped)
    ensures var group := segment[i].group; var more := segment[..i + 1];
            if group == "" then Grouped(more, order, grouped)
            else if group in grouped then Grouped(more, order, grouped[group := grouped[group] + [segment[i]]])
            else Grouped(more, order + [group], grouped[group := [] + [segment[i]]])
  {
    hide Lane, Groups;
    var group, more := segment[i].group, segment[..i + 1];
    NextGroup(segment, i);
    GroupsNamed(segment[..i]);
    if group != "" { LaneMembers(segment[..i], group); }
    var longer := if group == "" then grouped
                  else if group in grouped then grouped[group := grouped[group] + [segment[i]]]
                  else grouped[group := [] + [segment[i]]];
    forall g <- longer ensures g in Groups(more) && longer[g] == Lane(more, g) {
      NextLane(segment, i, g);
    }
  }

  lemma {:induction false} LaneMembers(segment: seq<Hook>, group: string)
    requires group != ""
    ensures group in Groups(segment) <==> Lane(segment, group) != []
  {
    if segment != [] { LaneMembers(segment[..|segment| - 1], group); }
  }

  lemma {:induction false} GroupsNamed(segment: seq<Hook>)
    ensures forall group <- Groups(segment) :: group != ""
    ensures forall i, j :: 0 <= i < j < |Groups(segment)| ==> Groups(segment)[i] != Groups(segment)[j]
  {
    if segment != [] { GroupsNamed(segment[..|segment| - 1]); }
  }

  /** A segment takes as many rounds as its longest lane, and at least one. */
  lemma {:induction false} RoundsAreLongest(segment: seq<Hook>)
    ensures segment != [] ==> Rounds(segment) >= 1
    ensures forall group :: group != "" ==> |Lane(segment, group)| <= Rounds(segment)
    ensures Rounds(segment) > 1 ==> exists group <- Groups(segment) :: |Lane(segment, group)| == Rounds(segment)
  {
    if segment != [] {
      var front, last := segment[..|segment| - 1], segment[|segment| - 1];
      RoundsAreLongest(front);
      if last.group != "" {
        LaneMembers(segment, last.group);
        assert |Lane(segment, last.group)| == |Lane(front, last.group)| + 1;
      }
      if Rounds(segment) > 1 {
        if Rounds(segment) == Rounds(front) {
          var group :| group in Groups(front) && |Lane(front, group)| == Rounds(front);
          assert group in Groups(segment);
          GroupsNamed(segment);
          assert |Lane(segment, group)| == Rounds(segment);
        } else {
          assert last.group in Groups(segment);
        }
      }
    }
  }

  lemma RoundNotEmpty(segment: seq<Hook>, round: nat)
    requires segment != [] && round < Rounds(segment)
    ensures Round(segment, round) != []
  {
    RoundsAreLongest(segment);
    if Rounds(segment) > 1 {
      var group :| group in Groups(segment) && |Lane(segment, group)| == Rounds(segment);
      RankedNotEmpty(segment, Groups(segment), group, round);
    } else {
      FirstRound(segment);
    }
  }

  lemma {:induction false} RankedNotEmpty(segment: seq<Hook>, groups: seq<string>, group: string, round: nat)
    requires group in groups && round < |Lane(segment, group)|
    ensures Ranked(segment, groups, round) != []
  {
    if group in groups[..|groups| - 1] { RankedNotEmpty(segment, groups[..|groups| - 1], group, round); }
  }

  lemma FirstRound(segment: seq<Hook>)
    requires segment != []
    ensures Round(segment, 0) != []
  {
    var last := segment[|segment| - 1];
    if last.group != "" {
      LaneMembers(segment, last.group);
      RankedNotEmpty(segment, Groups(segment), last.group, 0);
    }
  }

  /** The test after each round recognises the last one. */
  lemma LastRound(segment: seq<Hook>, round: nat)
    requires 0 < round <= Rounds(segment) && segment != []
    requires forall i :: 0 <= i < |Groups(segment)| ==> |Lane(segment, Groups(segment)[i])| <= round
    ensures round == Rounds(segment)
  {
    RoundsAreLongest(segment);
  }
}

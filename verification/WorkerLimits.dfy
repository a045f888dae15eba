/** The two bounds on work in flight: the FIFO semaphore in front of each consumer and the
    dispatch slots of a worker, whose claims are awaited while slots come and go. */
module WorkerLimits {
  import opened Collections

  // ------------------------------------------------------- consumer permits

  /** `granted` is history: the runs in the order in which they got their permit. */
  datatype Permits = Permits(active: nat, waiters: seq<nat>, granted: seq<nat>, holders: set<nat>)

  const NO_PERMITS := Permits(0, [], [], {})

  datatype PermitOp = Enter(run: nat) | Leave(run: nat)

  function EnterStep(maximum: nat, s: Permits, run: nat): Permits {
    if s.active >= maximum then s.(waiters := s.waiters + [run])
    else s.(active := s.active + 1, granted := s.granted + [run], holders := s.holders + {run})
  }

  /** A permit goes straight to the run that has waited longest. */
  function LeaveStep(s: Permits, run: nat): Permits
    requires s.active > 0
  {
    if s.waiters != [] then
      s.(waiters := s.waiters[1..], granted := s.granted + [s.waiters[0]],
      holders := s.holders - {run} + {s.waiters[0]})
    else s.(active := s.active - 1, holders := s.holders - {run})
  }

  /** A run arrives once; only a run that holds a permit gives one back. */
  predicate Enabled(s: Permits, op: PermitOp) {
    match op
    case Enter(run) => run !in s.granted && run !in s.waiters
    case Leave(run) => run in s.holders && s.active > 0
  }

  function PermitRun(maximum: nat, ops: seq<PermitOp>): Permits {
    if ops == [] then NO_PERMITS
    else
      var s, op := PermitRun(maximum, ops[..|ops| - 1]), ops[|ops| - 1];
      if !Enabled(s, op) then s
      else match op
        case Enter(run) => EnterStep(maximum, s, run)
        case Leave(run) => LeaveStep(s, run)
  }

  /** The runs in the order in which they arrived. */
  function Arrivals(maximum: nat, ops: seq<PermitOp>): seq<nat> {
    if ops == [] then []
    else
      var front, op := ops[..|ops| - 1], ops[|ops| - 1];
      if op.Enter? && Enabled(PermitRun(maximum, front), op) then Arrivals(maximum, front) + [op.run]
      else Arrivals(maximum, front)
  }

  ghost predicate Fair(maximum: nat, s: Permits, arrivals: seq<nat>) {
    && s.active == |s.holders| <= maximum
    && (s.waiters != [] ==> s.active == maximum)
    && s.granted + s.waiters == arrivals
    && Distinct(arrivals)
    && (forall run <- s.holders :: run in s.granted)
  }

  lemma EnterKeeps(maximum: nat, s: Permits, arrivals: seq<nat>, run: nat)
    requires Fair(maximum, s, arrivals) && run !in s.granted && run !in s.waiters
    ensures Fair(maximum, EnterStep(maximum, s, run), arrivals + [run])
  {
    var t := EnterStep(maximum, s, run);
    assert run !in arrivals;
    assert s.waiters + [run] != [] && (s.granted + s.waiters) + [run] == s.granted + (s.waiters + [run]);
  }

  lemma LeaveKeeps(maximum: nat, s: Permits, arrivals: seq<nat>, run: nat)
    requires Fair(maximum, s, arrivals) && run in s.holders && s.active > 0
    ensures Fair(maximum, LeaveStep(s, run), arrivals)
  {
    if s.waiters != [] {
      var next := s.waiters[0];
      forall i | 0 <= i < |s.granted| ensures s.granted[i] != next {
        assert arrivals[i] == s.granted[i] && arrivals[|s.granted|] == next;
      }
      assert next !in s.holders;
      assert s.granted + [next] + s.waiters[1..] == s.granted + s.waiters;
    }
  }

  /** In every interleaving at most `maximum` runs hold a permit, runs wait only while all
      permits are out, and permits are handed out strictly in the order of arrival. */
  lemma {:induction false} PermitsAreFair(maximum: nat, ops: seq<PermitOp>)
    ensures Fair(maximum, PermitRun(maximum, ops), Arrivals(maximum, ops))
  {
    if ops != [] {
      var front, op := ops[..|ops| - 1], ops[|ops| - 1];
      PermitsAreFair(maximum, front);
      var s := PermitRun(maximum, front);
      if Enabled(s, op) {
        match op
        case Enter(run) => EnterKeeps(maximum, s, Arrivals(maximum, front), run);
        case Leave(run) => LeaveKeeps(maximum, s, Arrivals(maximum, front), run);
      }
    }
  }

  /** The closure state of one consumer; who arrived, who was granted a permit and who holds one is history. */
  class ConsumerSlots {
    const maximum: nat
    var active: nat
    var waiters: seq<nat>
    ghost var granted: seq<nat>
    ghost var holders: set<nat>
    ghost var arrivals: seq<nat>

    ghost function Abs(): Permits
      reads this
    {
      Permits(active, waiters, granted, holders)
    }

    /** The counters are fair to everyone who arrived. */
    ghost predicate Valid()
      reads this
    {
      Fair(maximum, Abs(), arrivals)
    }

    constructor (maximum: nat)
      ensures Valid() && arrivals == [] && this.maximum == maximum
    {
      this.maximum := maximum;
      active, waiters, granted, holders, arrivals := 0, [], [], {}, [];
    }

    /** A run goes on with a permit of its own, or waits behind all earlier ones while every permit is out. */
    method Enter(run: nat) returns (proceeds: bool)
      requires Valid() && run !in arrivals
      modifies this
      ensures Valid() && arrivals == old(arrivals) + [run]
      ensures proceeds ==> holders == old(holders) + {run} && |old(holders)| < maximum
      ensures !proceeds ==> holders == old(holders) && |holders| == maximum && waiters == old(waiters) + [run]
    {
      EnterKeeps(maximum, Abs(), arrivals, run);
      arrivals := arrivals + [run];
      if active >= maximum {
        waiters := waiters + [run];
        proceeds := false;
      } else {
        active := active + 1;
        granted, holders := granted + [run], holders + {run};
        proceeds := true;
      }
    }

    /** The permit goes to the run that has waited longest: the first arrival that never had one. */
    method Leave(run: nat) returns (wakes: Option<nat>)
      requires Valid() && run in holders
      modifies this
      ensures Valid() && arrivals == old(arrivals)
      ensures wakes.Some? <==> |old(granted)| < |arrivals|
      ensures wakes.Some? ==> wakes.value == arrivals[|old(granted)|] && holders == old(holders) - {run} + {wakes.value}
      ensures wakes.None? ==> holders == old(holders) - {run}
    {
      LeaveKeeps(maximum, Abs(), arrivals, run);
      if waiters != [] {
        wakes := Some(waiters[0]);
        granted, holders := granted + [waiters[0]], holders - {run} + {waiters[0]};
        waiters := waiters[1..];
      } else {
        active := active - 1;
        holders := holders - {run};
        wakes := None;
      }
    }
  }

  // --------------------------------------------------------- dispatch slots

  /** `capacity` is what the claim in flight asked for; `live` counts the records being processed. */
  datatype Slots = Slots(claiming: bool, capacity: nat, used: nat, live: nat)

  datatype SlotOp = Tick(running: bool) | ClaimArrives(count: nat) | ClaimFails | RecordSettles

  function SlotStep(maximum: nat, s: Slots, op: SlotOp): Slots {
    match op
    case Tick(running) =>
      if !running || s.claiming || s.used >= maximum then s else s.(claiming := true, capacity := maximum - s.used)
    case ClaimArrives(count) =>
      if !s.claiming then s
      else if count > s.capacity then s.(claiming := false)
      else s.(claiming := false, used := s.used + count, live := s.live + count)
    case ClaimFails => s.(claiming := false)
    case RecordSettles => if s.live == 0 || s.used == 0 then s else s.(used := s.used - 1, live := s.live - 1)
  }

  function SlotRun(maximum: nat, ops: seq<SlotOp>): Slots {
    if ops == [] then Slots(false, 0, 0, 0) else SlotStep(maximum, SlotRun(maximum, ops[..|ops| - 1]), ops[|ops| - 1])
  }

  /** What is used together with what a pending claim may still bring stays within the maximum. */
  predicate WithinSlots(maximum: nat, s: Slots) {
    && s.used == s.live && s.used + (if s.claiming then s.capacity else 0) <= maximum
    && (s.claiming ==> s.capacity >= 1)
  }

  /** However claims and settlements interleave, no more than `maximum` records are processed at
      once, and what is used together with what a pending claim may still bring stays within it. */
  lemma {:induction false} SlotsNeverExceed(maximum: nat, ops: seq<SlotOp>)
    ensures WithinSlots(maximum, SlotRun(maximum, ops))
  {
    if ops != [] {
      SlotsNeverExceed(maximum, ops[..|ops| - 1]);
    }
  }

  /** Slots are used as far as they go: when the dispatcher runs, no claim is pending and records being processed
      leave room, it claims for exactly that room, and every answer that asks for no more is taken. */
  lemma SlotsAreUsed(maximum: nat, ops: seq<SlotOp>, count: nat)
    ensures var s := SlotRun(maximum, ops); var t := SlotStep(maximum, s, Tick(true));
            && (!s.claiming && s.live < maximum ==> t.claiming && t.capacity == maximum - s.live && t.live == s.live)
            && (s.claiming && count <= s.capacity ==>
                  SlotStep(maximum, s, ClaimArrives(count)) == Slots(false, s.capacity, s.live + count, s.live + count))
            && (s.live > 0 ==> SlotStep(maximum, s, RecordSettles).live == s.live - 1)
  {
    SlotsNeverExceed(maximum, ops);
  }

  /** No two records of a claim carry the same id; ids that cannot be read are not compared. */
  predicate NoRepeats(ids: seq<Option<string>>) {
    forall i, j :: 0 <= i < j < |ids| && ids[i].Some? ==> ids[i] != ids[j]
  }

  method AllDifferent(ids: seq<Option<string>>) returns (ok: bool)
    ensures ok <==> NoRepeats(ids)
  {
    var claimedIds: set<string> := {};
    for i := 0 to |ids|
      invariant forall id :: id in claimedIds <==> Some(id) in ids[..i]
      invariant NoRepeats(ids[..i])
    {
      assert ids[..i + 1] == ids[..i] + [ids[i]];
      if ids[i].Some? {
        if ids[i].value in claimedIds {
          var j :| 0 <= j < i && ids[j] == ids[i];
          return false;
        }
        claimedIds := claimedIds + {ids[i].value};
      }
    }
    assert ids[..|ids|] == ids;
    ok := true;
  }

  /** The closure state of the dispatcher; a claim is awaited between `Claim` and its answer. */
  class Dispatcher {
    const maximum: nat
    var claiming: bool
    var dispatchSlots: nat
    var capacity: nat
    /** The ids of the records being processed, as history; an event may be claimed again meanwhile. */
    ghost var live: multiset<Option<string>>

    ghost predicate Valid()
      reads this
    {
      WithinSlots(maximum, Slots(claiming, capacity, dispatchSlots, |live|))
    }

    constructor (maximum: nat)
      ensures Valid() && !claiming && live == multiset{} && this.maximum == maximum
    {
      this.maximum := maximum;
      claiming, dispatchSlots, capacity, live := false, 0, 0, multiset{};
    }

    /** One claim at a time, and for no more than what records being processed leave free. */
    method Claim(running: bool) returns (asked: Option<nat>)
      requires Valid()
      modifies `claiming, `capacity
      ensures Valid() && live == old(live)
      ensures asked.Some? <==> running && !old(claiming) && |live| < maximum
      ensures asked.Some? ==> claiming && 1 <= asked.value && |live| + asked.value == maximum
      ensures asked.None? ==> claiming == old(claiming)
    {
      if !running || claiming || dispatchSlots >= maximum { return None; }
      claiming, capacity := true, maximum - dispatchSlots;
      asked := Some(capacity);
    }

    /** The claim comes back, though other records may have settled meanwhile: what was asked for fits, more is refused,
        and so is an answer that repeats an id. */
    method Receive(ids: seq<Option<string>>) returns (accepted: bool)
      requires Valid() && claiming
      modifies this
      ensures Valid() && !claiming && |live| <= maximum
      ensures accepted <==> |ids| <= old(capacity) && NoRepeats(ids)
      ensures live == if accepted then old(live) + multiset(ids) else old(live)
    {
      claiming := false;
      if |ids| > capacity { return false; }
      var different := AllDifferent(ids);
      if !different { return false; }
      assert ids[..|ids|] == ids;
      for i := 0 to |ids|
        invariant !claiming && dispatchSlots == |live| == |old(live)| + i
        invariant live == old(live) + multiset(ids[..i])
      {
        assert ids[..i + 1] == ids[..i] + [ids[i]];
        dispatchSlots, live := dispatchSlots + 1, live + multiset{ids[i]};
      }
      accepted := true;
    }

    method ClaimFailed()
      requires Valid()
      modifies `claiming
      ensures Valid() && !claiming && live == old(live)
    {
      claiming := false;
    }

    method RecordSettled(ghost id: Option<string>)
      requires Valid() && id in live
      modifies `dispatchSlots, `live
      ensures Valid() && live == old(live) - multiset{id}
    {
      dispatchSlots, live := dispatchSlots - 1, live - multiset{id};
    }
  }
}

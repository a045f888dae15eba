/** What the two serialisers ask of a value, told by what stands where inside it: a path is the list of positions that
    lead from the whole value to one of its parts. */
module JsonParts {
  import opened Collections
  import opened JsonText
  import ProfileWriter
  import SnapshotJson

  type Path = seq<nat>

  /** The part at the end of a path; with `shown`, absent members lead nowhere. */
  function At(v: Json, path: Path, shown: bool): Option<Json>
    decreases |path|
  {
    if path == [] then Some(v)
    else match v
      case Arr(items) => if path[0] < |items| then At(items[path[0]], path[1..], shown) else None
      case Obj(members, _) =>
        if path[0] < |members| && !(shown && (members[path[0]].value.Absent? || members[path[0]].value.Hole?))
        then At(members[path[0]].value, path[1..], shown) else None
      case _ => None
  }

  lemma AtChild(v: Json, i: nat, rest: Path, shown: bool)
    ensures v.Arr? && i < |v.items| ==> At(v, [i] + rest, shown) == At(v.items[i], rest, shown)
    ensures v.Obj? && i < |v.members| && !(shown && Omitted(v.members[i].value)) ==>
              At(v, [i] + rest, shown) == At(v.members[i].value, rest, shown)
  {
    assert ([i] + rest)[1..] == rest;
  }

  // -------------------------------------------------------------- snapshots

  /** What a payload may have at any place. */
  predicate Copyable(v: Json) {
    match v
    case NonFinite => false
    case Absent => false
    case Hole => false
    case Arr(items) => |items| <= 10_000
    case Obj(members, hidden) => hidden == 0 && |members| <= 1_000 && forall m <- members :: |m.key| <= 128
    case _ => true
  }

  lemma {:induction false} AcceptableParts(v: Json, depth: nat, maxDepth: nat, path: Path)
    requires SnapshotJson.Acceptable(v, depth, maxDepth) && At(v, path, false).Some?
    ensures depth + |path| <= maxDepth && Copyable(At(v, path, false).value)
    decreases |path|
  {
    if path != [] {
      AcceptableParts(if v.Arr? then v.items[path[0]] else v.members[path[0]].value, depth + 1, maxDepth, path[1..]);
    }
  }

  lemma {:induction false} RefusedPart(v: Json, depth: nat, maxDepth: nat) returns (path: Path)
    requires !SnapshotJson.Acceptable(v, depth, maxDepth)
    ensures At(v, path, false).Some? && !(depth + |path| <= maxDepth && Copyable(At(v, path, false).value))
    decreases v
  {
    if depth > maxDepth || !Copyable(v) {
      path := [];
    } else {
      var i: nat;
      if v.Arr? {
        i :| 0 <= i < |v.items| && !SnapshotJson.Acceptable(v.items[i], depth + 1, maxDepth);
        path := RefusedPart(v.items[i], depth + 1, maxDepth);
      } else {
        assert forall m <- v.members :: |m.key| <= 128;
        i :| 0 <= i < |v.members| && !SnapshotJson.Acceptable(v.members[i].value, depth + 1, maxDepth);
        path := RefusedPart(v.members[i].value, depth + 1, maxDepth);
      }
      AtChild(v, i, path, false);
      path := [i] + path;
    }
  }

  /** A payload is acceptable exactly when every part of it is, and none is nested too deeply. */
  lemma AcceptableExactly(v: Json, maxDepth: nat)
    ensures SnapshotJson.Acceptable(v, 0, maxDepth)
            <==> forall path :: At(v, path, false).Some? ==> |path| <= maxDepth && Copyable(At(v, path, false).value)
  {
    if SnapshotJson.Acceptable(v, 0, maxDepth) {
      forall path | At(v, path, false).Some? ensures |path| <= maxDepth && Copyable(At(v, path, false).value) {
        AcceptableParts(v, 0, maxDepth, path);
      }
    } else {
      var path := RefusedPart(v, 0, maxDepth);
      assert At(v, path, false).Some?;
    }
  }

  // ----------------------------------------------------------------- profiles

  /** The own keys of a container: an array has one for each index that is not a hole, and its length. */
  function KeyCount(v: Json): nat {
    match v
    case Arr(items) => 1 + |set i | 0 <= i < |items| && !items[i].Hole?|
    case Obj(members, hidden) => |members| + hidden
    case _ => 0
  }

  lemma {:induction false} PresentCounts(items: seq<Json>)
    ensures ProfileWriter.Present(items) == |set i | 0 <= i < |items| && !items[i].Hole?|
  {
    if items != [] {
      var n := |items| - 1;
      var front := items[..n];
      PresentCounts(front);
      var fewer, all := (set i | 0 <= i < n && !front[i].Hole?), (set i | 0 <= i < |items| && !items[i].Hole?);
      assert all == if items[n].Hole? then fewer else fewer + {n};
    }
  }

  lemma KeysCount(v: Json)
    requires v.Arr? || v.Obj?
    ensures ProfileWriter.Keys(v) == KeyCount(v)
  {
    if v.Arr? { PresentCounts(v.items); }
  }

  /** No container lies deeper than 128 levels, and none has more keys, or is longer, than half the bytes allowed. */
  ghost predicate Modest(v: Json, depth: nat, maxBytes: nat) {
    v.Arr? || v.Obj? ==>
      && depth <= 128 && 2 * KeyCount(v) <= maxBytes + 1 && (v.Arr? ==> 2 * |v.items| <= maxBytes + 1)
  }

  lemma {:induction false} ModestParts(v: Json, depth: nat, maxBytes: nat, path: Path)
    requires ProfileWriter.DepthOk(v, depth) && ProfileWriter.AllKeysOk(v, maxBytes) && At(v, path, true).Some?
    ensures Modest(At(v, path, true).value, depth + |path|, maxBytes)
    decreases |path|
  {
    if path == [] {
      if v.Arr? || v.Obj? { KeysCount(v); }
    } else {
      ModestParts(if v.Arr? then v.items[path[0]] else v.members[path[0]].value, depth + 1, maxBytes, path[1..]);
    }
  }

  lemma {:induction false} ImmodestPart(v: Json, depth: nat, maxBytes: nat) returns (path: Path)
    requires !(ProfileWriter.DepthOk(v, depth) && ProfileWriter.AllKeysOk(v, maxBytes))
    ensures At(v, path, true).Some? && !Modest(At(v, path, true).value, depth + |path|, maxBytes)
    decreases v
  {
    KeysCount(v);
    if !Modest(v, depth, maxBytes) {
      path := [];
    } else {
      var i: nat;
      if v.Arr? {
        i :| 0 <= i < |v.items|
          && !(ProfileWriter.DepthOk(v.items[i], depth + 1) && ProfileWriter.AllKeysOk(v.items[i], maxBytes));
        path := ImmodestPart(v.items[i], depth + 1, maxBytes);
      } else {
        i :| 0 <= i < |v.members| && !Omitted(v.members[i].value)
          && !(ProfileWriter.DepthOk(v.members[i].value, depth + 1)
               && ProfileWriter.AllKeysOk(v.members[i].value, maxBytes));
        path := ImmodestPart(v.members[i].value, depth + 1, maxBytes);
      }
      AtChild(v, i, path, true);
      path := [i] + path;
    }
  }

  /** What the profile serialiser asks besides bytes and entries, at every place that is shown. */
  lemma ModestExactly(v: Json, maxBytes: nat)
    ensures ProfileWriter.DepthOk(v, 0) && ProfileWriter.AllKeysOk(v, maxBytes)
            <==> forall path :: At(v, path, true).Some? ==> Modest(At(v, path, true).value, |path|, maxBytes)
  {
    if ProfileWriter.DepthOk(v, 0) && ProfileWriter.AllKeysOk(v, maxBytes) {
      forall path | At(v, path, true).Some? ensures Modest(At(v, path, true).value, |path|, maxBytes) {
        ModestParts(v, 0, maxBytes, path);
      }
    } else {
      var path := ImmodestPart(v, 0, maxBytes);
      assert At(v, path, true).Some?;
    }
  }

  // ------------------------------------------------------------------ counts

  /** All parts of a value, the whole first. */
  function Parts(v: Json, shown: bool): seq<Json>
    decreases v
  {
    match v
    case Arr(items) => [v] + ItemParts(items, shown)
    case Obj(members, _) => [v] + MemberParts(members, shown)
    case _ => [v]
  }

  function ItemParts(items: seq<Json>, shown: bool): seq<Json> {
    if items == [] then [] else ItemParts(items[..|items| - 1], shown) + Parts(items[|items| - 1], shown)
  }

  function MemberParts(members: seq<Member>, shown: bool): seq<Json> {
    if members == [] then []
    else
      var front, last := MemberParts(members[..|members| - 1], shown), members[|members| - 1].value;
      if shown && (last.Absent? || last.Hole?) then front else front + Parts(last, shown)
  }

  /** The nodes that a snapshot counts are the parts of the payload. */
  lemma {:induction false} NodesAreParts(v: Json)
    ensures SnapshotJson.Nodes(v) == |Parts(v, false)|
    decreases v
  {
    if v.Arr? {
      ItemNodes(v, v.items);
    } else if v.Obj? {
      MemberNodes(v, v.members);
    }
  }

  lemma {:induction false} ItemNodes(v: Json, items: seq<Json>)
    requires forall i | 0 <= i < |items| :: items[i] < v
    ensures SnapshotJson.ItemsNodes(items) == |ItemParts(items, false)|
    decreases v, 0, |items|
  {
    if items != [] {
      ItemNodes(v, items[..|items| - 1]);
      NodesAreParts(items[|items| - 1]);
    }
  }

  lemma {:induction false} MemberNodes(v: Json, members: seq<Member>)
    requires forall i | 0 <= i < |members| :: members[i].value < v
    ensures SnapshotJson.MembersNodes(members) == |MemberParts(members, false)|
    decreases v, 0, |members|
  {
    if members != [] {
      MemberNodes(v, members[..|members| - 1]);
      NodesAreParts(members[|members| - 1].value);
    }
  }

  function TotalKeys(parts: seq<Json>): nat {
    if parts == [] then 0 else TotalKeys(parts[..|parts| - 1]) + KeyCount(parts[|parts| - 1])
  }

  lemma {:induction false} TotalConcat(a: seq<Json>, b: seq<Json>)
    ensures TotalKeys(a + b) == TotalKeys(a) + TotalKeys(b)
  {
    if b == [] {
      assert a + b == a;
    } else {
      assert (a + b)[..|a + b| - 1] == a + b[..|b| - 1];
      TotalConcat(a, b[..|b| - 1]);
    }
  }

  lemma TotalOne(v: Json)
    ensures TotalKeys([v]) == KeyCount(v)
  {
    assert [v][..0] == [];
  }

  /** The entries that the profile serialiser counts are the own keys of all parts that are shown. */
  lemma {:induction false} EntriesAreKeys(v: Json)
    ensures ProfileWriter.Entries(v) == TotalKeys(Parts(v, true))
    decreases v
  {
    TotalOne(v);
    if v.Arr? {
      ItemEntries(v, v.items);
      KeysCount(v);
      TotalConcat([v], ItemParts(v.items, true));
    } else if v.Obj? {
      MemberEntries(v, v.members);
      TotalConcat([v], MemberParts(v.members, true));
    }
  }

  lemma {:induction false} ItemEntries(v: Json, items: seq<Json>)
    requires forall i | 0 <= i < |items| :: items[i] < v
    ensures ProfileWriter.ItemsEntries(items) == TotalKeys(ItemParts(items, true))
    decreases v, 0, |items|
  {
    if items != [] {
      ItemEntries(v, items[..|items| - 1]);
      EntriesAreKeys(items[|items| - 1]);
      TotalConcat(ItemParts(items[..|items| - 1], true), Parts(items[|items| - 1], true));
    }
  }

  lemma {:induction false} MemberEntries(v: Json, members: seq<Member>)
    requires forall i | 0 <= i < |members| :: members[i].value < v
    ensures ProfileWriter.MembersEntries(members) == TotalKeys(MemberParts(members, true))
    decreases v, 0, |members|
  {
    if members != [] {
      MemberEntries(v, members[..|members| - 1]);
      EntriesAreKeys(members[|members| - 1].value);
      TotalConcat(MemberParts(members[..|members| - 1], true), Parts(members[|members| - 1].value, true));
    }
  }
}

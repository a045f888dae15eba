/** The bounded deep copy of event payloads: it counts nodes and the bytes of the JSON text it never builds. */
module SnapshotJson {
  import opened Collections
  import opened Utf16
  import opened JsonText

  const MAX_NODES: nat := 10_000
  const MAX_LENGTH: nat := 10_000
  const MAX_KEYS: nat := 1_000
  const MAX_KEY_LENGTH: nat := 128

  /** What a payload may consist of. */
  predicate Acceptable(v: Json, depth: nat, maxDepth: nat)
    decreases v
  {
    && depth <= maxDepth
    && match v
       case NonFinite => false
       case Absent => false
       case Hole => false
       case Arr(items) => |items| <= MAX_LENGTH && forall i | 0 <= i < |items| ::
         Acceptable(items[i], depth + 1, maxDepth)
       case Obj(members, hidden) =>
         && hidden == 0 && |members| <= MAX_KEYS
         && forall i | 0 <= i < |members| ::
              |members[i].key| <= MAX_KEY_LENGTH && Acceptable(members[i].value, depth + 1, maxDepth)
       case _ => true
  }

  function Nodes(v: Json): nat
    decreases v
  {
    match v
    case Arr(items) => 1 + ItemsNodes(items)
    case Obj(members, _) => 1 + MembersNodes(members)
    case _ => 1
  }

  function ItemsNodes(items: seq<Json>): nat {
    if items == [] then 0 else ItemsNodes(items[..|items| - 1]) + Nodes(items[|items| - 1])
  }

  function MembersNodes(members: seq<Member>): nat {
    if members == [] then 0 else MembersNodes(members[..|members| - 1]) + Nodes(members[|members| - 1].value)
  }

  /** The bytes of the elements alone; brackets and commas are counted before them. */
  ghost function ItemsBytes(items: seq<Json>): nat {
    if items == [] then 0 else ItemsBytes(items[..|items| - 1]) + Size(TextOf(items[|items| - 1]))
  }

  function Commas(n: nat): nat { if n == 0 then 0 else n - 1 }

  class Snapshot {
    const maxBytes: nat
    const maxDepth: nat
    var nodes: nat
    var bytes: nat

    constructor (maxBytes: nat, maxDepth: nat)
      ensures this.maxBytes == maxBytes && this.maxDepth == maxDepth && nodes == 0 && bytes == 0
    {
      this.maxBytes, this.maxDepth, nodes, bytes := maxBytes, maxDepth, 0, 0;
    }

    ghost predicate Within()
      reads this
    {
      nodes <= MAX_NODES && bytes <= maxBytes
    }

    method AddBytes(size: nat) returns (ok: bool)
      modifies `bytes
      ensures bytes == old(bytes) + size && (ok <==> bytes <= maxBytes)
    {
      bytes := bytes + size;
      ok := bytes <= maxBytes;
    }

    /** A copy comes back exactly when the value is acceptable and fits, and then it is the value; the counters have
        grown by the nodes of the value and by the length of its JSON text. */
    method Visit(input: Json, depth: nat) returns (copy: Option<Json>)
      requires Within()
      modifies this
      decreases input, 1
      ensures copy.Some? <==> Acceptable(input, depth, maxDepth) && old(nodes) + Nodes(input) <= MAX_NODES
                              && old(bytes) + Size(TextOf(input)) <= maxBytes
      ensures copy.Some? ==> copy.value == input && Within()
      ensures copy.Some? ==> nodes == old(nodes) + Nodes(input) && bytes == old(bytes) + Size(TextOf(input))
    {
      hide Size, ItemsNodes, MembersNodes, ItemsText, MembersText, Quote;
      nodes := nodes + 1;
      if depth > maxDepth || nodes > MAX_NODES { return None; }
      if input.Arr? {
        copy := VisitArray(input, depth);
      } else if input.Obj? {
        copy := VisitObject(input, depth);
      } else if input.NonFinite? || Omitted(input) {
        copy := None;
      } else {
        var size := SizeOfText(TextOf(input));
        var ok := AddBytes(size);
        copy := if ok then Some(input) else None;
      }
    }

    method VisitArray(input: Json, depth: nat) returns (copy: Option<Json>)
      requires Within() && input.Arr? && depth <= maxDepth
      modifies this
      decreases input, 0
      ensures copy.Some? <==> Acceptable(input, depth, maxDepth) && old(nodes) + ItemsNodes(input.items) <= MAX_NODES
                              && old(bytes) + Size(TextOf(input)) <= maxBytes
      ensures copy.Some? ==> copy.value == input && Within()
      ensures copy.Some? ==> nodes == old(nodes) + ItemsNodes(input.items) && bytes == old(bytes) + Size(TextOf(input))
    {
      hide Size, ItemsText, ItemsNodes, ItemsBytes, Nodes, Commas;
      var items := input.items;
      ArraySize(items);
      if |items| > MAX_LENGTH || exists i :: 0 <= i < |items| && items[i].Hole? {
        HoleIsRefused(items, depth, maxDepth);
        return None;
      }
      var ok := AddBytes(2 + Commas(|items|));
      if !ok { return None; }
      var output: seq<Json> := [];
      NoItems();
      for i := 0 to |items|
        invariant Within() && output == items[..i]
        invariant nodes == old(nodes) + ItemsNodes(items[..i])
        invariant bytes == old(bytes) + 2 + Commas(|items|) + ItemsBytes(items[..i])
        invariant forall j | 0 <= j < i :: Acceptable(items[j], depth + 1, maxDepth)
      {
        ItemsNext(items, i);
        ItemsPrefix(items, i + 1);
        var item := Visit(items[i], depth + 1);
        if item.None? { return None; }
        output := output + [item.value];
      }
      assert items[..|items|] == items;
      copy := Some(Arr(output));
    }

    method VisitObject(input: Json, depth: nat) returns (copy: Option<Json>)
      requires Within() && input.Obj? && depth <= maxDepth
      modifies this
      decreases input, 0
      ensures copy.Some? <==> Acceptable(input, depth, maxDepth)
                              && old(nodes) + MembersNodes(input.members) <= MAX_NODES
                              && old(bytes) + Size(TextOf(input)) <= maxBytes
      ensures copy.Some? ==> copy.value == input && Within()
      ensures copy.Some? ==> nodes == old(nodes) + MembersNodes(input.members)
      ensures copy.Some? ==> bytes == old(bytes) + Size(TextOf(input))
    {
      hide Size, MembersText, MembersNodes, Nodes;
      var members := input.members;
      ContainerSize(input);
      if input.hidden != 0 || |members| > MAX_KEYS { return None; }
      var ok := AddBytes(2);
      if !ok { return None; }
      var output: seq<Member> := [];
      NoMembers();
      for i := 0 to |members|
        invariant Within() && output == members[..i]
        invariant nodes == old(nodes) + MembersNodes(members[..i])
        invariant bytes == old(bytes) + 2 + Size(MembersText(members[..i]))
        invariant forall j | 0 <= j < i ::
                    |members[j].key| <= MAX_KEY_LENGTH && Acceptable(members[j].value, depth + 1, maxDepth)
      {
        MembersNext(members, i, depth + 1, maxDepth);
        MembersPrefix(members, i + 1);
        var member := VisitMember(members[i], depth + 1, i == 0);
        if member.None? { return None; }
        output := output + [member.value];
      }
      assert members[..|members|] == members;
      copy := Some(Obj(output, 0));
    }

    method VisitMember(member: Member, depth: nat, first: bool) returns (copy: Option<Member>)
      requires Within()
      modifies this
      decreases member, 0
      ensures copy.Some? <==> |member.key| <= MAX_KEY_LENGTH && Acceptable(member.value, depth, maxDepth)
                              && old(nodes) + Nodes(member.value) <= MAX_NODES
                              && old(bytes) + (if first then 0 else 1) + Size(MemberText(member)) <= maxBytes
      ensures copy.Some? ==> copy.value == member && Within()
      ensures copy.Some? ==> nodes == old(nodes) + Nodes(member.value)
                             && bytes == old(bytes) + (if first then 0 else 1) + Size(MemberText(member))
    {
      hide Size, TextOf, Quote, Nodes, Acceptable;
      if |member.key| > MAX_KEY_LENGTH { return None; }
      MemberSize(member);
      PrefixSize(member.key, first);
      var size := SizeOfText((if first then [] else [0x2C]) + Quote(member.key) + [0x3A]);
      var ok := AddBytes(size);
      if !ok { return None; }
      var value := Visit(member.value, depth);
      copy := if value.Some? then Some(Member(member.key, value.value)) else None;
    }
  }

  lemma NoItems()
    ensures ItemsNodes([]) == 0 && ItemsBytes([]) == 0
  {
  }

  lemma NoMembers()
    ensures MembersNodes([]) == 0 && Size(MembersText([])) == 0
  {
  }

  lemma PrefixSize(key: Text, first: bool)
    ensures Size((if first then [] else [0x2C]) + Quote(key) + [0x3A])
            == (if first then 0 else 1) + Size(Quote(key)) + 1
  {
    hide Size, Quote;
    EmptySize();
    AsciiSize([0x2C]);
    AsciiSize([0x3A]);
    QuoteSize(key);
    var front: Text := if first then [] else [0x2C];
    SizeConcat(front, Quote(key));
    SizeConcat(front + Quote(key), [0x3A]);
  }

  lemma HoleIsRefused(items: seq<Json>, depth: nat, maxDepth: nat)
    requires |items| > MAX_LENGTH || exists i :: 0 <= i < |items| && items[i].Hole?
    ensures !Acceptable(Arr(items), depth, maxDepth)
  {
  }

  lemma {:induction false} ItemsSplit(items: seq<Json>)
    ensures Size(ItemsText(items)) == ItemsBytes(items) + Commas(|items|)
  {
    if items != [] {
      var i := |items| - 1;
      ItemsSplit(items[..i]);
      ItemsSizeNext(items, i);
      assert items[..i + 1] == items;
    }
  }

  lemma ArraySize(items: seq<Json>)
    ensures Size(TextOf(Arr(items))) == 2 + Commas(|items|) + ItemsBytes(items)
  {
    ContainerSize(Arr(items));
    ItemsSplit(items);
  }

  lemma ItemsNext(items: seq<Json>, i: nat)
    requires i < |items|
    ensures ItemsNodes(items[..i + 1]) == ItemsNodes(items[..i]) + Nodes(items[i])
    ensures ItemsBytes(items[..i + 1]) == ItemsBytes(items[..i]) + Size(TextOf(items[i]))
  {
    assert items[..i + 1][..i] == items[..i];
  }

  lemma {:induction false} ItemsPrefix(items: seq<Json>, i: nat)
    requires i <= |items|
    ensures ItemsNodes(items[..i]) <= ItemsNodes(items) && ItemsBytes(items[..i]) <= ItemsBytes(items)
    decreases |items| - i
  {
    hide Nodes, Size, TextOf, ItemsNodes, ItemsBytes;
    if i < |items| {
      ItemsNext(items, i);
      ItemsPrefix(items, i + 1);
    } else {
      assert items[..i] == items;
    }
  }

  lemma MembersNext(members: seq<Member>, i: nat, depth: nat, maxDepth: nat)
    requires i < |members| && forall j | 0 <= j < i :: Acceptable(members[j].value, depth, maxDepth)
    ensures MembersNodes(members[..i + 1]) == MembersNodes(members[..i]) + Nodes(members[i].value)
    ensures Acceptable(members[i].value, depth, maxDepth) ==>
              Size(MembersText(members[..i + 1]))
              == Size(MembersText(members[..i])) + (if i == 0 then 0 else 1) + Size(MemberText(members[i]))
  {
    assert members[..i + 1][..i] == members[..i];
    MembersSizeNext(members, i);
    AllShown(members[..i]);
  }

  lemma AllShown(members: seq<Member>)
    requires forall i | 0 <= i < |members| :: !Omitted(members[i].value)
    ensures MembersText(members) == [] <==> members == []
  {
    if members != [] { MemberSize(members[|members| - 1]); }
  }

  lemma {:induction false} MembersPrefix(members: seq<Member>, i: nat)
    requires i <= |members|
    ensures MembersNodes(members[..i]) <= MembersNodes(members)
            && Size(MembersText(members[..i])) <= Size(MembersText(members))
    decreases |members| - i
  {
    MembersPrefixSize(members, i);
    if i < |members| {
      assert members[..i + 1][..i] == members[..i];
      MembersPrefix(members, i + 1);
    } else {
      assert members[..i] == members;
    }
  }

  /** `snapshotJson`: the copy comes back exactly when the payload is acceptable, has few enough nodes and its JSON
      text is no longer than allowed. */
  method Copy(value: Json, maxBytes: nat, maxDepth: nat) returns (copy: Option<Json>)
    ensures copy.Some? <==>
              Acceptable(value, 0, maxDepth) && Nodes(value) <= 10_000 && Size(TextOf(value)) <= maxBytes
    ensures copy.Some? ==> copy.value == value
  {
    var snapshot := new Snapshot(maxBytes, maxDepth);
    copy := snapshot.Visit(value, 0);
  }
}

/** The bounded serialiser of CPU profiles: it counts bytes and entries while it writes, and gives up early. */
module ProfileWriter {
  import opened Utf16
  import opened JsonText

  const MAX_ENTRIES: nat := 262_144
  const MAX_DEPTH: nat := 128
  const CHUNK: nat := 4_096

  /** What the writer limits besides bytes: nesting, and the number of own keys over all containers. */
  predicate DepthOk(v: Json, depth: nat)
    decreases v
  {
    match v
    case Arr(items) => depth <= MAX_DEPTH && forall i | 0 <= i < |items| :: DepthOk(items[i], depth + 1)
    case Obj(members, _) =>
      depth <= MAX_DEPTH && forall i | 0 <= i < |members| && !Omitted(members[i].value) ::
        DepthOk(members[i].value, depth + 1)
    case _ => true
  }

  /** An array has a key for each index that is not a hole, and one for its length. */
  function Keys(v: Json): nat
    requires v.Arr? || v.Obj?
  {
    if v.Arr? then Present(v.items) + 1 else |v.members| + v.hidden
  }

  function Present(items: seq<Json>): nat {
    if items == [] then 0 else Present(items[..|items| - 1]) + if items[|items| - 1].Hole? then 0 else 1
  }

  function Entries(v: Json): nat
    decreases v
  {
    match v
    case Arr(items) => Keys(v) + ItemsEntries(items)
    case Obj(members, _) => Keys(v) + MembersEntries(members)
    case _ => 0
  }

  function ItemsEntries(items: seq<Json>): nat {
    if items == [] then 0 else ItemsEntries(items[..|items| - 1]) + Entries(items[|items| - 1])
  }

  function MembersEntries(members: seq<Member>): nat {
    if members == [] then 0
    else MembersEntries(members[..|members| - 1])
         + if Omitted(members[|members| - 1].value) then 0 else Entries(members[|members| - 1].value)
  }

  /** The early test of every container: no more keys, and no greater length, than half the limit. */
  predicate KeysOk(v: Json, maxBytes: nat)
    requires v.Arr? || v.Obj?
  {
    2 * Keys(v) <= maxBytes + 1 && (v.Arr? ==> 2 * |v.items| <= maxBytes + 1)
  }

  predicate AllKeysOk(v: Json, maxBytes: nat)
    decreases v
  {
    match v
    case Arr(items) => KeysOk(v, maxBytes) && forall i | 0 <= i < |items| :: AllKeysOk(items[i], maxBytes)
    case Obj(members, _) =>
      KeysOk(v, maxBytes) && forall i | 0 <= i < |members| && !Omitted(members[i].value) ::
        AllKeysOk(members[i].value, maxBytes)
    case _ => true
  }

  datatype Verdict = Wrote(something: bool) | TooLarge | Invalid

  /** What a visit puts out: an absent value only shows inside an array. */
  function Shown(v: Json, inArray: bool): Text { if Omitted(v) && !inArray then [] else TextOf(v) }

  function Concat(parts: seq<Text>): Text {
    if parts == [] then [] else Concat(parts[..|parts| - 1]) + parts[|parts| - 1]
  }

  class Writer {
    const maxBytes: nat
    var bytes: nat
    var entriesVisited: nat
    var chunk: Text
    var parts: seq<Text>

    ghost function Output(): Text
      reads `chunk, `parts
    {
      Concat(parts) + chunk
    }

    /** The counter is the UTF-8 length of what has been put out. */
    ghost predicate Valid()
      reads this
    {
      bytes == Size(Output()) <= maxBytes && entriesVisited <= MAX_ENTRIES && ClosedOrEmpty(Output())
    }

    constructor (maxBytes: nat)
      ensures Valid() && this.maxBytes == maxBytes && Output() == [] && entriesVisited == 0
    {
      this.maxBytes := maxBytes;
      bytes, entriesVisited, chunk, parts := 0, 0, [], [];
    }

    method Append(value: Text)
      modifies `chunk, `parts
      ensures Output() == old(Output()) + value
    {
      ghost var before := Output();
      chunk := chunk + value;
      assert Output() == before + value;
      if |chunk| >= CHUNK {
        assert (parts + [chunk])[..|parts|] == parts;
        assert Concat(parts + [chunk]) + [] == Concat(parts) + chunk;
        parts := parts + [chunk];
        chunk := [];
      }
    }

    method Write(value: Text) returns (ok: bool)
      requires Valid() && Closed(value)
      modifies `bytes, `chunk, `parts
      ensures ok <==> old(bytes) + Size(value) <= maxBytes
      ensures ok ==> Valid() && Output() == old(Output()) + value && bytes == old(bytes) + Size(value)
    {
      hide Size;
      var size := SizeOfText(value);
      bytes := bytes + size;
      if bytes > maxBytes { return false; }
      SizeConcat(Output(), value);
      Append(value);
      ok := true;
    }

    /** Adds up what quoting the string costs before building the quoted string. */
    method WriteQuoted(value: Text) returns (ok: bool)
      requires Valid()
      modifies `bytes, `chunk, `parts
      ensures ok <==> old(bytes) + Size(Quote(value)) <= maxBytes
      ensures ok ==> Valid() && Output() == old(Output()) + Quote(value) && bytes == old(bytes) + Size(Quote(value))
    {
      hide Size, Quote;
      QuoteSize(value);
      var size := SizeOfText(value);
      QuotedParts(value);
      var fits := QuoteFits(value, size + 2);
      if !fits { return false; }
      ok := Write(Quote(value));
    }

    method QuoteFits(value: Text, initial: nat) returns (fits: bool)
      requires bytes <= maxBytes
      ensures fits <==> bytes + initial + Escapings(CodePoints(value)) <= maxBytes
    {
      var size := initial;
      if size > maxBytes - bytes { return false; }
      var index := 0;
      assert value[0..] == value;
      while index < |value|
        invariant index <= |value| && size <= maxBytes - bytes
        invariant size + Escapings(CodePoints(value[index..])) == initial + Escapings(CodePoints(value))
      {
        var code := value[index];
        EscapingsNext(value, index);
        if code == 34 || code == 92 || code == 8 || code == 9 || code == 10 || code == 12 || code == 13 {
          size := size + 1;
        } else if code < 32 {
          size := size + 5;
        } else if 0xD800 <= code <= 0xDFFF {
          if code <= 0xDBFF && index + 1 < |value| && 0xDC00 <= value[index + 1] <= 0xDFFF {
            index := index + 1;
          } else {
            size := size + 3;
          }
        }
        if size > maxBytes - bytes { return false; }
        index := index + 1;
      }
      fits := true;
    }

    method Visit(v: Json, depth: nat, inArray: bool) returns (r: Verdict)
      requires Valid()
      modifies this
      decreases v, 1
      ensures r.Wrote? ==>
                && Valid() && Output() == old(Output()) + Shown(v, inArray)
                && bytes == old(bytes) + Size(Shown(v, inArray))
                && entriesVisited == old(entriesVisited) + Entries(v)
                && DepthOk(v, depth) && AllKeysOk(v, maxBytes) && r.something == (!Omitted(v) || inArray)
      ensures r.TooLarge? ==>
                || old(bytes) + Size(Shown(v, inArray)) > maxBytes || old(entriesVisited) + Entries(v) > MAX_ENTRIES
                || !AllKeysOk(v, maxBytes)
      ensures r.Invalid? ==> !DepthOk(v, depth)
    {
      hide Size, Quote, ItemsText, MembersText, ItemsEntries, MembersEntries;
      TextClosed(v);
      var ok := true;
      if v.Arr? {
        r := VisitArray(v, depth);
        return;
      }
      if v.Obj? {
        r := VisitObject(v, depth);
        return;
      }
      if Omitted(v) && !inArray {
        EmptySize();
        return Wrote(false);
      }
      if v.Str? { ok := WriteQuoted(v.text); } else { ok := Write(TextOf(v)); }
      r := if ok then Wrote(true) else TooLarge;
    }

    method VisitArray(v: Json, depth: nat) returns (r: Verdict)
      requires Valid() && v.Arr?
      modifies this
      decreases v, 0
      ensures r.Wrote? ==>
                && Valid() && Output() == old(Output()) + TextOf(v) && bytes == old(bytes) + Size(TextOf(v))
                && entriesVisited == old(entriesVisited) + Entries(v)
                && DepthOk(v, depth) && AllKeysOk(v, maxBytes) && r.something
      ensures r.TooLarge? ==>
                || old(bytes) + Size(TextOf(v)) > maxBytes || old(entriesVisited) + Entries(v) > MAX_ENTRIES
                || !AllKeysOk(v, maxBytes)
      ensures r.Invalid? ==> !DepthOk(v, depth)
    {
      hide Size, ItemsText, MembersText, ItemsEntries, MembersEntries, Keys;
      if depth > MAX_DEPTH { return Invalid; }
      entriesVisited := entriesVisited + Keys(v);
      if 2 * Keys(v) > maxBytes + 1 || entriesVisited > MAX_ENTRIES { return TooLarge; }
      ContainerSize(v);
      AsciiSize([0x5B]);
      AsciiSize([0x5D]);
      var ok := Write([0x5B]);
      if !ok { return TooLarge; }
      if 2 * |v.items| > maxBytes + 1 { return TooLarge; }
      r := VisitItems(v.items, depth);
      if !r.Wrote? { return; }
      ok := Write([0x5D]);
      r := if ok then Wrote(true) else TooLarge;
    }

    method VisitObject(v: Json, depth: nat) returns (r: Verdict)
      requires Valid() && v.Obj?
      modifies this
      decreases v, 0
      ensures r.Wrote? ==>
                && Valid() && Output() == old(Output()) + TextOf(v) && bytes == old(bytes) + Size(TextOf(v))
                && entriesVisited == old(entriesVisited) + Entries(v)
                && DepthOk(v, depth) && AllKeysOk(v, maxBytes) && r.something
      ensures r.TooLarge? ==>
                || old(bytes) + Size(TextOf(v)) > maxBytes || old(entriesVisited) + Entries(v) > MAX_ENTRIES
                || !AllKeysOk(v, maxBytes)
      ensures r.Invalid? ==> !DepthOk(v, depth)
    {
      hide Size, ItemsText, MembersText, ItemsEntries, MembersEntries, Keys;
      if depth > MAX_DEPTH { return Invalid; }
      entriesVisited := entriesVisited + Keys(v);
      if 2 * Keys(v) > maxBytes + 1 || entriesVisited > MAX_ENTRIES { return TooLarge; }
      ContainerSize(v);
      AsciiSize([0x7B]);
      AsciiSize([0x7D]);
      var ok := Write([0x7B]);
      if !ok { return TooLarge; }
      r := VisitMembers(v.members, depth);
      if !r.Wrote? { return; }
      ok := Write([0x7D]);
      r := if ok then Wrote(true) else TooLarge;
    }

    method VisitItems(items: seq<Json>, depth: nat) returns (r: Verdict)
      requires Valid() && Closed(Output())
      modifies this
      decreases items, 0
      ensures r.Wrote? ==>
                && Valid() && Output() == old(Output()) + ItemsText(items)
                && bytes == old(bytes) + Size(ItemsText(items))
                && entriesVisited == old(entriesVisited) + ItemsEntries(items)
                && forall i | 0 <= i < |items| :: DepthOk(items[i], depth + 1) && AllKeysOk(items[i], maxBytes)
      ensures r.TooLarge? ==>
                || old(bytes) + Size(ItemsText(items)) > maxBytes
                || old(entriesVisited) + ItemsEntries(items) > MAX_ENTRIES
                || exists i | 0 <= i < |items| :: !AllKeysOk(items[i], maxBytes)
      ensures r.Invalid? ==> exists i | 0 <= i < |items| :: !DepthOk(items[i], depth + 1)
    {
      hide Size, ItemsText, ItemsEntries, DepthOk, AllKeysOk;
      ItemsBegin();
      AsciiSize([0x2C]);
      for i := 0 to |items|
        invariant Valid() && Output() == old(Output()) + ItemsText(items[..i])
                  && bytes == old(bytes) + Size(ItemsText(items[..i]))
        invariant entriesVisited == old(entriesVisited) + ItemsEntries(items[..i])
        invariant forall j | 0 <= j < i :: DepthOk(items[j], depth + 1) && AllKeysOk(items[j], maxBytes)
      {
        ItemsSizeNext(items, i);
        ItemsEntriesNext(items, i);
        ItemsPrefixSize(items, i + 1);
        ItemsPrefixEntries(items, i + 1);
        if i > 0 {
          var ok := Write([0x2C]);
          if !ok { return TooLarge; }
        }
        ItemsClosed(items[..i]);
        r := Visit(items[i], depth + 1, true);
        if !r.Wrote? { return; }
      }
      assert items[..|items|] == items;
      r := Wrote(true);
    }

    method VisitMember(member: Member, depth: nat, first: bool) returns (r: Verdict)
      requires Valid() && Closed(Output()) && !Omitted(member.value)
      modifies this
      decreases member, 0
      ensures r.Wrote? ==>
                && Valid() && Output() == old(Output()) + (if first then [] else [0x2C]) + MemberText(member)
                && bytes == old(bytes) + (if first then 0 else 1) + Size(MemberText(member))
                && entriesVisited == old(entriesVisited) + Entries(member.value)
                && DepthOk(member.value, depth + 1) && AllKeysOk(member.value, maxBytes)
      ensures r.TooLarge? ==>
                || old(bytes) + (if first then 0 else 1) + Size(MemberText(member)) > maxBytes
                || old(entriesVisited) + Entries(member.value) > MAX_ENTRIES || !AllKeysOk(member.value, maxBytes)
      ensures r.Invalid? ==> !DepthOk(member.value, depth + 1)
    {
      hide Size, TextOf, DepthOk, AllKeysOk, Entries, Quote, Concat;
      MemberSize(member);
      AsciiSize([0x2C]);
      AsciiSize([0x3A]);
      if !first {
        var ok := Write([0x2C]);
        if !ok { return TooLarge; }
      }
      var ok := WriteQuoted(member.key);
      if !ok { return TooLarge; }
      ok := Write([0x3A]);
      if !ok { return TooLarge; }
      r := Visit(member.value, depth + 1, false);
    }

    method VisitMembers(members: seq<Member>, depth: nat) returns (r: Verdict)
      requires Valid() && Closed(Output())
      modifies this
      decreases members, 0
      ensures r.Wrote? ==>
                && Valid() && Output() == old(Output()) + MembersText(members)
                && bytes == old(bytes) + Size(MembersText(members))
                && entriesVisited == old(entriesVisited) + MembersEntries(members)
                && forall i | 0 <= i < |members| && !Omitted(members[i].value) ::
                     DepthOk(members[i].value, depth + 1) && AllKeysOk(members[i].value, maxBytes)
      ensures r.TooLarge? ==>
                || old(bytes) + Size(MembersText(members)) > maxBytes
                || old(entriesVisited) + MembersEntries(members) > MAX_ENTRIES
                || exists i | 0 <= i < |members| && !Omitted(members[i].value) :: !AllKeysOk(members[i].value, maxBytes)
      ensures r.Invalid? ==>
                exists i | 0 <= i < |members| && !Omitted(members[i].value) :: !DepthOk(members[i].value, depth + 1)
    {
      hide Size, MembersText, MembersEntries, DepthOk, AllKeysOk, MemberText, Entries;
      MembersBegin();
      var entries := 0;
      for i := 0 to |members|
        invariant Valid() && Output() == old(Output()) + MembersText(members[..i])
        invariant bytes == old(bytes) + Size(MembersText(members[..i]))
        invariant entries == 0 <==> MembersText(members[..i]) == []
        invariant entriesVisited == old(entriesVisited) + MembersEntries(members[..i])
        invariant forall j | 0 <= j < i && !Omitted(members[j].value) ::
                    DepthOk(members[j].value, depth + 1) && AllKeysOk(members[j].value, maxBytes)
      {
        var member := members[i];
        MembersSizeNext(members, i);
        MembersEntriesNext(members, i);
        MembersPrefixSize(members, i + 1);
        MembersPrefixEntries(members, i + 1);
        MemberSize(member);
        MembersClosed(members[..i]);
        if Omitted(member.value) { continue; }
        r := VisitMember(member, depth, entries == 0);
        if !r.Wrote? { return; }
        entries := entries + 1;
      }
      assert members[..|members|] == members;
      r := Wrote(true);
    }
  }

  lemma QuotedParts(s: Text)
    ensures Size(s) == |Utf8(s)|
  {
  }

  lemma EscapingsNext(s: Text, i: nat)
    requires i < |s|
    ensures Escapings(CodePoints(s[i..]))
         == if i + 1 < |s| && High(s[i]) && Low(s[i + 1]) then Escapings(CodePoints(s[i + 2..]))
            else Escaping(s[i]) + Escapings(CodePoints(s[i + 1..]))
  {
    var rest := s[i..];
    assert rest[1..] == s[i + 1..];
    if i + 1 < |s| {
      assert rest[2..] == s[i + 2..];
    }
    if StartsWithPair(rest) {
      assert CodePoints(rest)[1..] == CodePoints(s[i + 2..]);
    } else {
      assert CodePoints(rest)[1..] == CodePoints(s[i + 1..]);
    }
  }

  lemma ItemsBegin()
    ensures ItemsText([]) == [] && ItemsEntries([]) == 0 && Size([]) == 0
  {
  }

  lemma MembersBegin()
    ensures MembersText([]) == [] && MembersEntries([]) == 0 && Size([]) == 0
  {
  }

  lemma ItemsEntriesNext(items: seq<Json>, i: nat)
    requires i < |items|
    ensures ItemsEntries(items[..i + 1]) == ItemsEntries(items[..i]) + Entries(items[i])
  {
    assert items[..i + 1][..i] == items[..i];
  }

  lemma MembersEntriesNext(members: seq<Member>, i: nat)
    requires i < |members|
    ensures MembersEntries(members[..i + 1])
         == MembersEntries(members[..i]) + if Omitted(members[i].value) then 0 else Entries(members[i].value)
  {
    assert members[..i + 1][..i] == members[..i];
  }

  lemma {:induction false} ItemsPrefixEntries(items: seq<Json>, i: nat)
    requires i <= |items|
    ensures ItemsEntries(items[..i]) <= ItemsEntries(items)
    decreases |items| - i
  {
    if i < |items| {
      ItemsEntriesNext(items, i);
      ItemsPrefixEntries(items, i + 1);
    } else {
      assert items[..i] == items;
    }
  }

  lemma {:induction false} MembersPrefixEntries(members: seq<Member>, i: nat)
    requires i <= |members|
    ensures MembersEntries(members[..i]) <= MembersEntries(members)
    decreases |members| - i
  {
    if i < |members| {
      MembersEntriesNext(members, i);
      MembersPrefixEntries(members, i + 1);
    } else {
      assert members[..i] == members;
    }
  }
}

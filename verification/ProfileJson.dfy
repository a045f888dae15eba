/** `stringifyProfile` as a whole: what it returns, when it refuses, and when its early test is exact. */
module ProfileJson {
  import opened Collections
  import opened Utf16
  import opened JsonText
  import opened JsonReader
  import opened ProfileWriter

  datatype Outcome = Serialised(text: Text) | ProfileTooLarge | InvalidResult

  /** When the whole text is within the limits. */
  ghost predicate WithinLimits(v: Json, maxBytes: nat) {
    DepthOk(v, 0) && Size(TextOf(v)) <= maxBytes && Entries(v) <= 262_144
  }

  method Join(parts: seq<Text>) returns (whole: Text)
    ensures whole == Concat(parts)
  {
    whole := [];
    for i := 0 to |parts|
      invariant whole == Concat(parts[..i])
    {
      assert parts[..i + 1][..i] == parts[..i];
      whole := whole + parts[i];
    }
    assert parts[..|parts|] == parts;
  }

  /** The text comes out exactly when it is within the limits and no container fails the early test. */
  method StringifyProfile(value: Json, maxBytes: nat) returns (r: Outcome)
    requires value.Arr? || value.Obj?
    ensures r.Serialised? ==> r.text == TextOf(value) && Read(r.text) == Some(Expressed(value))
    ensures r.Serialised? <==> WithinLimits(value, maxBytes) && AllKeysOk(value, maxBytes)
    ensures r.InvalidResult? ==> !DepthOk(value, 0)
  {
    hide TextOf, Size, Entries, DepthOk, AllKeysOk;
    TextRoundTrip(value);
    var writer := new Writer(maxBytes);
    EmptySize();
    var verdict := writer.Visit(value, 0, false);
    if verdict.TooLarge? { return ProfileTooLarge; }
    if verdict.Invalid? { return InvalidResult; }
    var whole := Join(writer.parts);
    assert [] + TextOf(value) == TextOf(value);
    r := Serialised(whole + writer.chunk);
  }

  /** No object has absent members or hidden keys. */
  predicate Plain(v: Json)
    decreases v
  {
    match v
    case Arr(items) => forall i | 0 <= i < |items| :: Plain(items[i])
    case Obj(members, hidden) =>
      hidden == 0 && forall i | 0 <= i < |members| :: !Omitted(members[i].value) && Plain(members[i].value)
    case _ => true
  }

  /** Each element takes a byte, and a comma unless it is the first. */
  lemma {:induction false} ItemsSize(items: seq<Json>, k: nat)
    requires k <= |items|
    ensures Size(ItemsText(items[..k])) + 1 >= 2 * k
  {
    hide Size, ItemsText, TextOf;
    if k > 0 {
      ItemsSize(items, k - 1);
      ItemsSizeNext(items, k - 1);
      TextNotEmpty(items[k - 1]);
    }
  }

  lemma ItemWithin(items: seq<Json>, i: nat)
    requires i < |items|
    ensures Size(TextOf(items[i])) <= Size(ItemsText(items))
  {
    hide Size, ItemsText, TextOf;
    ItemsSizeNext(items, i);
    ItemsPrefixSize(items, i + 1);
  }

  lemma TextNotEmpty(v: Json)
    ensures Size(TextOf(v)) >= 1
  {
    TextClosed(v);
    NotEmptySize(TextOf(v));
  }

  lemma NotEmptySize(t: Text)
    requires t != []
    ensures Size(t) >= 1
  {
    assert CodePoints(t) != [];
  }

  lemma {:induction false} MembersSize(members: seq<Member>, k: nat)
    requires k <= |members| && forall i | 0 <= i < k :: !Omitted(members[i].value)
    ensures Size(MembersText(members[..k])) >= 2 * k
  {
    hide Size, MembersText, TextOf;
    if k > 0 {
      MembersSize(members, k - 1);
      MembersSizeNext(members, k - 1);
      MemberSize(members[k - 1]);
      QuoteSize(members[k - 1].key);
    } else {
      MembersBegin();
      assert members[..k] == [];
    }
  }

  lemma MemberWithin(members: seq<Member>, i: nat)
    requires i < |members| && !Omitted(members[i].value)
    ensures Size(TextOf(members[i].value)) <= Size(MembersText(members))
  {
    hide Size, MembersText, TextOf;
    MembersSizeNext(members, i);
    MembersPrefixSize(members, i + 1);
    MemberSize(members[i]);
  }

  lemma PresentBound(items: seq<Json>)
    ensures Present(items) <= |items|
  {
  }

  /** For plain data the early test refuses nothing that would have fitted. */
  lemma {:induction false} EarlyTestIsExact(v: Json, maxBytes: nat)
    requires Plain(v) && Size(TextOf(v)) <= maxBytes
    ensures AllKeysOk(v, maxBytes)
    decreases v
  {
    hide Size, ItemsText, MembersText;
    if v.Arr? {
      ContainerSize(v);
      ItemsSize(v.items, |v.items|);
      assert v.items[..|v.items|] == v.items;
      PresentBound(v.items);
      forall i | 0 <= i < |v.items| ensures AllKeysOk(v.items[i], maxBytes) {
        ItemWithin(v.items, i);
        EarlyTestIsExact(v.items[i], maxBytes);
      }
    } else if v.Obj? {
      ContainerSize(v);
      MembersSize(v.members, |v.members|);
      assert v.members[..|v.members|] == v.members;
      forall i | 0 <= i < |v.members| ensures AllKeysOk(v.members[i].value, maxBytes) {
        MemberWithin(v.members, i);
        EarlyTestIsExact(v.members[i].value, maxBytes);
      }
    }
  }

  /** Without that, it is not exact: an object whose members, under different keys, are all absent has the text of the
      empty object, and is refused as soon as it has as many members as bytes are allowed. */
  lemma EarlyTestRefusesAbsent(members: seq<Member>, maxBytes: nat)
    requires 2 <= maxBytes == |members| <= MAX_ENTRIES
    requires forall i | 0 <= i < |members| :: members[i].value.Absent?
    requires forall i, j | 0 <= i < j < |members| :: members[i].key != members[j].key
    ensures var v := Obj(members, 0);
            WithinLimits(v, maxBytes) && TextOf(v) == [0x7B] + [] + [0x7D] && !AllKeysOk(v, maxBytes)
  {
    NothingWritten(members);
    ContainerSize(Obj(members, 0));
    EmptySize();
  }

  lemma {:induction false} NothingWritten(members: seq<Member>)
    requires forall i | 0 <= i < |members| :: members[i].value.Absent?
    ensures MembersText(members) == [] && MembersEntries(members) == 0
  {
    if members != [] { NothingWritten(members[..|members| - 1]); }
  }
}

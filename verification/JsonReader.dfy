/** A reader of JSON text (section 2 of RFC 8259, without white space), written apart from the writers: whatever they
    put out is read back as the value they were given. */
module JsonReader {
  import opened Collections
  import opened Utf16
  import opened JsonText

  // --------------------------------------------------------------- reading

  predicate Digit(u: Unit) { 0x30 <= u <= 0x39 }

  function HexValue(u: Unit): Option<Unit> {
    if 0x30 <= u <= 0x39 then Some(u - 0x30)
    else if 0x61 <= u <= 0x66 then Some(u - 0x57)
    else if 0x41 <= u <= 0x46 then Some(u - 0x37)
    else None
  }

  /** What stands after a backslash: the unit it means, and what follows. */
  function ReadEscape(t: Text): (r: Option<(Unit, Text)>)
    ensures r.Some? ==> |r.value.1| < |t|
  {
    if t == [] then None
    else match t[0]
      case 0x22 => Some((0x22, t[1..]))
      case 0x5C => Some((0x5C, t[1..]))
      case 0x2F => Some((0x2F, t[1..]))
      case 0x62 => Some((0x08, t[1..]))
      case 0x66 => Some((0x0C, t[1..]))
      case 0x6E => Some((0x0A, t[1..]))
      case 0x72 => Some((0x0D, t[1..]))
      case 0x74 => Some((0x09, t[1..]))
      case 0x75 =>
        if |t| < 5 then None
        else
          var (a, b, c, d) := (HexValue(t[1]), HexValue(t[2]), HexValue(t[3]), HexValue(t[4]));
          if a.None? || b.None? || c.None? || d.None? then None
          else
            var u := ((a.value * 16 + b.value) * 16 + c.value) * 16 + d.value;
            if u < 0x1_0000 then Some((u, t[5..])) else None
      case _ => None
  }

  /** The rest of a string, behind its opening quote. */
  function ReadString(t: Text): (r: Option<(Text, Text)>)
    ensures r.Some? ==> |r.value.1| < |t|
    decreases |t|
  {
    if t == [] || t[0] < 0x20 then None
    else if t[0] == 0x22 then Some(([], t[1..]))
    else
      var first := if t[0] == 0x5C then ReadEscape(t[1..]) else Some((t[0], t[1..]));
      if first.None? then None
      else
        var more := ReadString(first.value.1);
        if more.None? then None else Some(([first.value.0] + more.value.0, more.value.1))
  }

  /** How many units of a number stand at the front. */
  function NumberLength(t: Text): (n: nat)
    ensures n <= |t| && forall i | 0 <= i < n :: NumberUnit(t[i])
    ensures t != [] && NumberUnit(t[0]) ==> n > 0
  {
    if t == [] || !NumberUnit(t[0]) then 0 else 1 + NumberLength(t[1..])
  }

  function ReadWord(t: Text, word: Text, meaning: Json): Option<(Json, Text)> {
    if word <= t then Some((meaning, t[|word|..])) else None
  }

  /** The value at the front of the text, and what follows it. */
  function ReadValue(t: Text): (r: Option<(Json, Text)>)
    ensures r.Some? ==> |r.value.1| < |t|
    decreases |t|, 0
  {
    if t == [] then None
    else if t[0] == 0x5B then
      if |t| > 1 && t[1] == 0x5D then Some((Arr([]), t[2..]))
      else
        var items := ReadItems(t[1..]);
        if items.None? then None else Some((Arr(items.value.0), items.value.1))
    else if t[0] == 0x7B then
      if |t| > 1 && t[1] == 0x7D then Some((Obj([], 0), t[2..]))
      else
        var members := ReadMembers(t[1..]);
        if members.None? then None else Some((Obj(members.value.0, 0), members.value.1))
    else if t[0] == 0x22 then
      var text := ReadString(t[1..]);
      if text.None? then None else Some((Str(text.value.0), text.value.1))
    else if t[0] == 0x2D || Digit(t[0]) then
      var n := NumberLength(t);
      Some((Number(t[..n]), t[n..]))
    else if t[0] == 0x6E then ReadWord(t, [0x6E, 0x75, 0x6C, 0x6C], Null)
    else if t[0] == 0x74 then ReadWord(t, [0x74, 0x72, 0x75, 0x65], Bool(true))
    else if t[0] == 0x66 then ReadWord(t, [0x66, 0x61, 0x6C, 0x73, 0x65], Bool(false))
    else None
  }

  /** One element or more, with commas between them, up to the closing bracket. */
  function ReadItems(t: Text): (r: Option<(seq<Json>, Text)>)
    ensures r.Some? ==> |r.value.1| < |t|
    decreases |t|, 1
  {
    var first := ReadValue(t);
    if first.None? || first.value.1 == [] then None
    else
      var (item, rest) := first.value;
      if rest[0] == 0x5D then Some(([item], rest[1..]))
      else if rest[0] != 0x2C then None
      else
        var more := ReadItems(rest[1..]);
        if more.None? then None else Some(([item] + more.value.0, more.value.1))
  }

  function ReadMember(t: Text): (r: Option<(Member, Text)>)
    ensures r.Some? ==> |r.value.1| < |t|
    decreases |t|, 1
  {
    if t == [] || t[0] != 0x22 then None
    else
      var key := ReadString(t[1..]);
      if key.None? || key.value.1 == [] || key.value.1[0] != 0x3A then None
      else
        var value := ReadValue(key.value.1[1..]);
        if value.None? then None else Some((Member(key.value.0, value.value.0), value.value.1))
  }

  function ReadMembers(t: Text): (r: Option<(seq<Member>, Text)>)
    ensures r.Some? ==> |r.value.1| < |t|
    decreases |t|, 2
  {
    var first := ReadMember(t);
    if first.None? || first.value.1 == [] then None
    else
      var (member, rest) := first.value;
      if rest[0] == 0x7D then Some(([member], rest[1..]))
      else if rest[0] != 0x2C then None
      else
        var more := ReadMembers(rest[1..]);
        if more.None? then None else Some(([member] + more.value.0, more.value.1))
  }

  // ------------------------------------------------- what is to be read back

  /** The value as JSON can express it: what JSON has no text for is null, absent members and hidden keys are gone. */
  function Expressed(v: Json): Json
    decreases v
  {
    match v
    case NonFinite => Null
    case Absent => Null
    case Hole => Null
    case Arr(items) => Arr(ExpressedItems(items))
    case Obj(members, _) => Obj(ExpressedMembers(members), 0)
    case _ => v
  }

  function ExpressedItems(items: seq<Json>): (r: seq<Json>)
    ensures |r| == |items|
  {
    if items == [] then [] else [Expressed(items[0])] + ExpressedItems(items[1..])
  }

  function ExpressedMembers(members: seq<Member>): seq<Member> {
    if members == [] then []
    else if members[0].value.Absent? || members[0].value.Hole? then ExpressedMembers(members[1..])
    else [Member(members[0].key, Expressed(members[0].value))] + ExpressedMembers(members[1..])
  }

  // ------------------------------------------------------------- separators

  function Separated(pieces: seq<Text>): Text {
    if pieces == [] then []
    else if |pieces| == 1 then pieces[0]
    else pieces[0] + [0x2C] + Separated(pieces[1..])
  }

  predicate NonEmpty(pieces: seq<Text>) { forall i | 0 <= i < |pieces| :: pieces[i] != [] }

  lemma {:induction false} SeparatedMore(pieces: seq<Text>, piece: Text)
    requires NonEmpty(pieces)
    ensures Separated(pieces + [piece]) == Joined(Separated(pieces), piece)
    ensures pieces != [] ==> Separated(pieces) != []
  {
    if |pieces| == 0 {
      assert pieces + [piece] == [piece];
    } else {
      var all := pieces + [piece];
      assert all[0] == pieces[0] && all[1..] == pieces[1..] + [piece];
      SeparatedMore(pieces[1..], piece);
      if |pieces| > 1 {
        assert pieces[0] + [0x2C] + (Separated(pieces[1..]) + [0x2C] + piece)
            == (pieces[0] + [0x2C] + Separated(pieces[1..])) + [0x2C] + piece;
      } else {
        assert Separated(pieces[1..] + [piece]) == piece by { assert pieces[1..] + [piece] == [piece]; }
      }
    }
  }

  function ItemPieces(items: seq<Json>): (r: seq<Text>)
    ensures |r| == |items| && forall i | 0 <= i < |items| :: r[i] == TextOf(items[i])
  {
    seq(|items|, i requires 0 <= i < |items| => TextOf(items[i]))
  }

  lemma {:induction false} ItemsSeparated(items: seq<Json>)
    ensures ItemsText(items) == Separated(ItemPieces(items)) && NonEmpty(ItemPieces(items))
  {
    forall i | 0 <= i < |items| ensures TextOf(items[i]) != [] { TextClosed(items[i]); }
    if items != [] {
      var front, last := items[..|items| - 1], items[|items| - 1];
      ItemsSeparated(front);
      SeparatedMore(ItemPieces(front), TextOf(last));
      assert ItemPieces(items) == ItemPieces(front) + [TextOf(last)];
    }
  }

  function Visible(members: seq<Member>): (r: seq<Member>)
    ensures |r| <= |members| && forall m :: m in r ==> m in members
  {
    if members == [] then []
    else if Omitted(members[|members| - 1].value) then Visible(members[..|members| - 1])
    else Visible(members[..|members| - 1]) + [members[|members| - 1]]
  }

  function MemberPieces(members: seq<Member>): (r: seq<Text>)
    ensures |r| == |members| && forall i | 0 <= i < |members| :: r[i] == MemberText(members[i])
  {
    seq(|members|, i requires 0 <= i < |members| => MemberText(members[i]))
  }

  lemma {:induction false} MembersSeparated(members: seq<Member>)
    ensures MembersText(members) == Separated(MemberPieces(Visible(members)))
            && NonEmpty(MemberPieces(Visible(members)))
  {
    var seen := Visible(members);
    forall i | 0 <= i < |seen| ensures MemberText(seen[i]) != [] { MemberSize(seen[i]); }
    if members != [] {
      var front, last := members[..|members| - 1], members[|members| - 1];
      MembersSeparated(front);
      if !Omitted(last.value) {
        SeparatedMore(MemberPieces(Visible(front)), MemberText(last));
        assert MemberPieces(seen) == MemberPieces(Visible(front)) + [MemberText(last)];
      }
    }
  }

  lemma {:induction false} VisibleConcat(a: seq<Member>, b: seq<Member>)
    ensures Visible(a + b) == Visible(a) + Visible(b)
  {
    if b == [] {
      assert a + b == a;
    } else {
      assert (a + b)[..|a + b| - 1] == a + b[..|b| - 1];
      VisibleConcat(a, b[..|b| - 1]);
    }
  }

  lemma {:induction false} ExpressedVisible(members: seq<Member>)
    ensures ExpressedMembers(members) == ExpressedMembers(Visible(members))
    ensures forall m <- Visible(members) :: !Omitted(m.value)
  {
    if members != [] {
      var first := members[..1];
      assert members == first + members[1..];
      VisibleConcat(first, members[1..]);
      assert first[..0] == [];
      assert Visible(first) == if Omitted(members[0].value) then [] else [members[0]];
      ExpressedVisible(members[1..]);
      if Omitted(members[0].value) {
        assert Visible(members) == Visible(members[1..]);
      } else {
        assert Visible(members)[1..] == Visible(members[1..]) && Visible(members)[0] == members[0];
      }
    }
  }

  // ---------------------------------------------------------------- strings

  lemma ReadsHex(u: Unit)
    requires u < 16
    ensures HexValue(Hex(u)) == Some(u)
  {
  }

  lemma ReadsDigits(a: Unit, b: Unit, c: Unit, d: Unit, rest: Text)
    requires a < 16 && b < 16 && c < 16 && d < 16
    ensures ReadEscape([0x75, Hex(a), Hex(b), Hex(c), Hex(d)] + rest) == Some((((a * 16 + b) * 16 + c) * 16 + d, rest))
  {
    var t := [0x75, Hex(a), Hex(b), Hex(c), Hex(d)] + rest;
    ReadsHex(a);
    ReadsHex(b);
    ReadsHex(c);
    ReadsHex(d);
    hide HexValue, Hex;
    assert t[1] == Hex(a) && t[2] == Hex(b) && t[3] == Hex(c) && t[4] == Hex(d) && t[5..] == rest;
  }

  lemma FourDigits(u: Unit)
    ensures u / 0x1000 < 16 && ((u / 0x1000 * 16 + u / 0x100 % 0x10) * 16 + u / 0x10 % 0x10) * 16 + u % 0x10 == u
  {
  }

  lemma ReadsUnicode(u: Unit, rest: Text)
    ensures UnicodeEscape(u)[0] == 0x5C && ReadEscape(UnicodeEscape(u)[1..] + rest) == Some((u, rest))
  {
    hide Hex, ReadEscape;
    var (a, b, c, d) := (u / 0x1000, u / 0x100 % 0x10, u / 0x10 % 0x10, u % 0x10);
    FourDigits(u);
    ReadsDigits(a, b, c, d, rest);
    assert UnicodeEscape(u)[1..] == [0x75, Hex(a), Hex(b), Hex(c), Hex(d)];
  }

  lemma ReadsShort(p: Point, rest: Text)
    requires ShortEscape(p) != 0
    ensures p < 0x80 && ReadEscape([ShortEscape(p)] + rest) == Some((p, rest))
  {
    assert ([ShortEscape(p)] + rest)[1..] == rest;
  }

  /** The units in front of what the rest of the string reads as. */
  function Before(units: Text, more: Option<(Text, Text)>): Option<(Text, Text)> {
    if more.None? then None else Some((units + more.value.0, more.value.1))
  }

  lemma ReadsPlain(u: Unit, rest: Text)
    requires u >= 0x20 && u != 0x22 && u != 0x5C
    ensures ReadString([u] + rest) == Before([u], ReadString(rest))
  {
    assert ([u] + rest)[1..] == rest;
  }

  lemma ReadsEscaped(escape: Text, u: Unit, rest: Text)
    requires ReadEscape(escape + rest) == Some((u, rest))
    ensures ReadString([0x5C] + escape + rest) == Before([u], ReadString(rest))
  {
    hide ReadEscape;
    assert ([0x5C] + escape + rest)[1..] == escape + rest;
  }

  lemma ReadsPair(high: Unit, low: Unit, rest: Text)
    requires high >= 0x80 && low >= 0x80
    ensures ReadString([high, low] + rest) == Before([high, low], ReadString(rest))
  {
    assert [high, low] + rest == [high] + ([low] + rest);
    ReadsPlain(high, [low] + rest);
    ReadsPlain(low, rest);
    hide ReadString;
    var more := ReadString(rest);
    if more.Some? { assert [high] + ([low] + more.value.0) == [high, low] + more.value.0; }
  }

  lemma ReadsPoint(p: Point, rest: Text)
    ensures ReadString(QuotePoint(p) + rest) == Before(UnitsOf(p), ReadString(rest))
  {
    hide ReadString, ReadEscape;
    if ShortEscape(p) != 0 {
      ReadsShort(p, rest);
      ReadsEscaped([ShortEscape(p)], p, rest);
      assert QuotePoint(p) == [0x5C] + [ShortEscape(p)];
    } else if p < 0x20 || Surrogate(p) {
      ReadsUnicode(p, rest);
      ReadsEscaped(UnicodeEscape(p)[1..], p, rest);
      assert QuotePoint(p) == [0x5C] + UnicodeEscape(p)[1..];
    } else if p < 0x1_0000 {
      ReadsPlain(p, rest);
    } else {
      ReadsPair(UnitsOf(p)[0], UnitsOf(p)[1], rest);
    }
  }

  lemma {:induction false} ReadsPoints(points: seq<Point>, rest: Text)
    ensures ReadString(QuotePoints(points) + [0x22] + rest) == Some((Units(points), rest))
  {
    hide QuotePoint, UnitsOf, ReadEscape;
    if points == [] {
      assert QuotePoints(points) + [0x22] + rest == [0x22] + rest;
      assert ([0x22] + rest)[1..] == rest;
    } else {
      ReadsPoints(points[1..], rest);
      var tail := QuotePoints(points[1..]) + [0x22] + rest;
      assert QuotePoints(points) + [0x22] + rest == QuotePoint(points[0]) + tail;
      ReadsPoint(points[0], tail);
    }
  }

  /** A quoted string reads back as the string, whatever follows. */
  lemma QuoteRoundTrip(s: Text, rest: Text)
    ensures Quote(s)[0] == 0x22 && ReadString((Quote(s) + rest)[1..]) == Some((s, rest))
  {
    ReadsPoints(CodePoints(s), rest);
    SplitRoundTrip(s);
    assert (Quote(s) + rest)[1..] == QuotePoints(CodePoints(s)) + [0x22] + rest;
  }

  // ------------------------------------------------------------ round trips

  /** Nothing that could belong to a number follows. */
  predicate Ends(rest: Text) { rest == [] || !NumberUnit(rest[0]) }

  lemma {:induction false} NumberEnds(digits: Text, rest: Text)
    requires (forall i | 0 <= i < |digits| :: NumberUnit(digits[i])) && Ends(rest)
    ensures NumberLength(digits + rest) == |digits|
  {
    if digits == [] {
      assert digits + rest == rest;
    } else {
      assert (digits + rest)[1..] == digits[1..] + rest;
      NumberEnds(digits[1..], rest);
    }
  }

  lemma ReadsWord(word: Text, rest: Text, meaning: Json)
    ensures ReadWord(word + rest, word, meaning) == Some((meaning, rest))
  {
    assert (word + rest)[|word|..] == rest;
  }

  lemma ReadsLeaf(v: Json, rest: Text)
    requires !v.Arr? && !v.Obj? && Ends(rest)
    ensures ReadValue(TextOf(v) + rest) == Some((Expressed(v), rest))
  {
    var t := TextOf(v) + rest;
    match v
    case Str(text) => QuoteRoundTrip(text, rest);
    case Number(digits) =>
      NumberEnds(digits, rest);
      assert t[..|digits|] == digits && t[|digits|..] == rest;
    case Bool(b) => ReadsWord(TextOf(v), rest, v);
    case _ => ReadsWord(NULL, rest, Null);
  }

  /** Main theorem: the text of any value, whatever follows it, is read as that value and nothing more or less. */
  lemma {:induction false} ReadsValue(v: Json, rest: Text)
    requires Ends(rest)
    ensures ReadValue(TextOf(v) + rest) == Some((Expressed(v), rest))
    decreases v, 0
  {
    if v.Arr? {
      ReadsArray(v, rest);
    } else if v.Obj? {
      ReadsObject(v, rest);
    } else {
      ReadsLeaf(v, rest);
    }
  }

  lemma Regrouped(open: Unit, body: Text, close: Unit, rest: Text)
    ensures [open] + body + [close] + rest == [open] + (body + [close] + rest)
    ensures body + [close] + rest == body + ([close] + rest) != []
  {
  }

  /** Reading an array, or an object, comes down to reading what follows its opening bracket. */
  lemma Opened(inner: Text)
    requires inner != []
    ensures ([0x5B] + inner)[1..] == inner == ([0x7B] + inner)[1..]
    ensures inner[0] != 0x5D ==>
              ReadValue([0x5B] + inner)
              == var items := ReadItems(inner); if items.None? then None else Some((Arr(items.value.0), items.value.1))
    ensures inner[0] != 0x7D ==>
              ReadValue([0x7B] + inner)
              == var members := ReadMembers(inner);
                 if members.None? then None else Some((Obj(members.value.0, 0), members.value.1))
  {
    hide ReadItems, ReadMembers;
  }

  lemma ReadsArray(v: Json, rest: Text)
    requires v.Arr?
    ensures ReadValue(TextOf(v) + rest) == Some((Expressed(v), rest))
    decreases v, 0, 1
  {
    assert ExpressedItems([]) == [] && Separated([]) == [];
    ItemsSeparated(v.items);
    if v.items == [] {
      assert TextOf(v) + rest == [0x5B, 0x5D] + rest;
      assert ([0x5B, 0x5D] + rest)[2..] == rest;
    } else {
      hide ReadValue, ReadItems, ExpressedItems, ItemsText, Separated, ItemPieces;
      var body := Separated(ItemPieces(v.items));
      Regrouped(0x5B, body, 0x5D, rest);
      ReadsItems(v, v.items, rest);
      FirstOfValues(v.items, [0x5D] + rest);
      Opened(body + [0x5D] + rest);
    }
  }

  lemma ReadsObject(v: Json, rest: Text)
    requires v.Obj?
    ensures ReadValue(TextOf(v) + rest) == Some((Expressed(v), rest))
    decreases v, 0, 1
  {
    assert ExpressedMembers([]) == [] && Separated([]) == [];
    var seen := Visible(v.members);
    MembersSeparated(v.members);
    ExpressedVisible(v.members);
    forall i | 0 <= i < |seen| ensures seen[i].value < v { assert seen[i] in v.members; }
    if seen == [] {
      assert TextOf(v) + rest == [0x7B, 0x7D] + rest;
      assert ([0x7B, 0x7D] + rest)[2..] == rest;
    } else {
      hide ReadValue, ReadMembers, ExpressedMembers, MembersText, Separated, MemberPieces;
      var body := Separated(MemberPieces(seen));
      Regrouped(0x7B, body, 0x7D, rest);
      ReadsMembers(v, seen, rest);
      FirstOfMembers(seen, [0x7D] + rest);
      Opened(body + [0x7D] + rest);
    }
  }

  lemma SeparatedFront(pieces: seq<Text>, rest: Text)
    requires pieces != []
    ensures Separated(pieces) + rest
            == pieces[0] + (if |pieces| == 1 then rest else [0x2C] + (Separated(pieces[1..]) + rest))
  {
  }

  lemma FirstOfValues(items: seq<Json>, rest: Text)
    requires items != []
    ensures var t := Separated(ItemPieces(items)) + rest; t != [] && t[0] != 0x5D
  {
    SeparatedFront(ItemPieces(items), rest);
    FirstUnit(items[0]);
  }

  /** No text of a value starts with a closing bracket. */
  lemma FirstUnit(v: Json)
    ensures TextOf(v) != [] && TextOf(v)[0] != 0x5D
  {
    hide ItemsText, MembersText;
    TextClosed(v);
  }

  lemma FirstOfMembers(members: seq<Member>, rest: Text)
    requires members != []
    ensures var t := Separated(MemberPieces(members)) + rest; t != [] && t[0] == 0x22
  {
    SeparatedFront(MemberPieces(members), rest);
    assert MemberText(members[0])[0] == 0x22;
  }

  lemma ReadItemsLast(t: Text, item: Json, rest: Text)
    requires ReadValue(t) == Some((item, [0x5D] + rest))
    ensures ReadItems(t) == Some(([item], rest))
  {
    hide ReadValue;
    assert ([0x5D] + rest)[1..] == rest;
  }

  lemma ReadItemsMore(t: Text, item: Json, tail: Text)
    requires ReadValue(t) == Some((item, [0x2C] + tail)) && ReadItems(tail).Some?
    ensures ReadItems(t) == Some(([item] + ReadItems(tail).value.0, ReadItems(tail).value.1))
  {
    hide ReadValue;
    assert ([0x2C] + tail)[1..] == tail;
  }

  lemma {:induction false} ReadsItems(v: Json, items: seq<Json>, rest: Text)
    requires items != [] && forall i | 0 <= i < |items| :: items[i] < v
    ensures ReadItems(Separated(ItemPieces(items)) + [0x5D] + rest) == Some((ExpressedItems(items), rest))
    decreases v, 0, 0, |items|
  {
    hide ReadValue, ReadItems, Expressed, TextOf, Separated, ItemPieces;
    var pieces, closed := ItemPieces(items), [0x5D] + rest;
    assert Separated(pieces) + [0x5D] + rest == Separated(pieces) + closed;
    SeparatedFront(pieces, closed);
    if |items| == 1 {
      ReadsValue(items[0], closed);
      ReadItemsLast(pieces[0] + closed, Expressed(items[0]), rest);
      assert ExpressedItems(items[1..]) == [] && ExpressedItems(items) == [Expressed(items[0])];
    } else {
      var tail := Separated(pieces[1..]) + closed;
      ReadsValue(items[0], [0x2C] + tail);
      ReadsItems(v, items[1..], rest);
      assert pieces[1..] == ItemPieces(items[1..]);
      assert Separated(pieces[1..]) + [0x5D] + rest == tail;
      ReadItemsMore(pieces[0] + ([0x2C] + tail), Expressed(items[0]), tail);
    }
  }

  lemma ReadMembersLast(t: Text, member: Member, rest: Text)
    requires ReadMember(t) == Some((member, [0x7D] + rest))
    ensures ReadMembers(t) == Some(([member], rest))
  {
    hide ReadMember;
    assert ([0x7D] + rest)[1..] == rest;
  }

  lemma ReadMembersMore(t: Text, member: Member, tail: Text)
    requires ReadMember(t) == Some((member, [0x2C] + tail)) && ReadMembers(tail).Some?
    ensures ReadMembers(t) == Some(([member] + ReadMembers(tail).value.0, ReadMembers(tail).value.1))
  {
    hide ReadMember;
    assert ([0x2C] + tail)[1..] == tail;
  }

  lemma ReadsMember(v: Json, m: Member, rest: Text)
    requires m.value < v && Ends(rest)
    ensures ReadMember(MemberText(m) + rest) == Some((Member(m.key, Expressed(m.value)), rest))
    decreases v, 0, 0, 0
  {
    hide ReadValue, TextOf, Expressed;
    var after := [0x3A] + (TextOf(m.value) + rest);
    assert MemberText(m) + rest == Quote(m.key) + after;
    QuoteRoundTrip(m.key, after);
    assert after[1..] == TextOf(m.value) + rest;
    ReadsValue(m.value, rest);
  }

  lemma {:induction false} ReadsMembers(v: Json, members: seq<Member>, rest: Text)
    requires members != [] && forall i | 0 <= i < |members| :: members[i].value < v && !Omitted(members[i].value)
    ensures ReadMembers(Separated(MemberPieces(members)) + [0x7D] + rest) == Some((ExpressedMembers(members), rest))
    decreases v, 0, 0, |members|
  {
    hide ReadValue, ReadMember, ReadMembers, Expressed, MemberText, Separated, MemberPieces;
    var pieces, closed := MemberPieces(members), [0x7D] + rest;
    assert Separated(pieces) + [0x7D] + rest == Separated(pieces) + closed;
    SeparatedFront(pieces, closed);
    if |members| == 1 {
      ReadsMember(v, members[0], closed);
      ReadMembersLast(pieces[0] + closed, Member(members[0].key, Expressed(members[0].value)), rest);
      assert ExpressedMembers(members[1..]) == [];
      assert ExpressedMembers(members) == [Member(members[0].key, Expressed(members[0].value))];
    } else {
      var tail := Separated(pieces[1..]) + closed;
      ReadsMember(v, members[0], [0x2C] + tail);
      ReadsMembers(v, members[1..], rest);
      assert pieces[1..] == MemberPieces(members[1..]);
      assert Separated(pieces[1..]) + [0x7D] + rest == tail;
      ReadMembersMore(pieces[0] + ([0x2C] + tail), Member(members[0].key, Expressed(members[0].value)), tail);
    }
  }

  /** The whole text. */
  function Read(t: Text): Option<Json> {
    var r := ReadValue(t);
    if r.Some? && r.value.1 == [] then Some(r.value.0) else None
  }

  /** Reading what was written gives the value back. */
  lemma TextRoundTrip(v: Json)
    ensures Read(TextOf(v)) == Some(Expressed(v))
  {
    ReadsValue(v, []);
    assert TextOf(v) + [] == TextOf(v);
  }
}

/** Plain data and its JSON text, as `JSON.stringify` writes it (section 25.5.2 of ECMA-262). */
module JsonText {
  import opened Utf16

  predicate Ascii(t: Text) { forall i | 0 <= i < |t| :: t[i] < 0x80 }

  /** The characters that occur in what `String` makes of a finite number: digits, signs, the point and the `e`. */
  predicate NumberUnit(u: Unit) { 0x30 <= u <= 0x39 || u == 0x2D || u == 0x2B || u == 0x2E || u == 0x65 }

  predicate Numeral(t: Text) {
    && t != [] && (0x30 <= t[0] <= 0x39 || t[0] == 0x2D)
    && forall i | 0 <= i < |t| :: NumberUnit(t[i])
  }

  type NumberText = t: Text | Numeral(t) witness [0x30]

  /** `Absent` is undefined, a function or a symbol; `Hole` is an index an array does not have; `hidden` counts the
      keys of an object that are symbols or not enumerable. */
  datatype Json =
    | Null | Bool(value: bool) | Number(digits: NumberText) | NonFinite | Str(text: Text) | Absent | Hole
    | Arr(items: seq<Json>) | Obj(members: seq<Member>, hidden: nat)

  datatype Member = Member(key: Text, value: Json)

  const NULL: Text := [0x6E, 0x75, 0x6C, 0x6C]
  const TRUE: Text := [0x74, 0x72, 0x75, 0x65]
  const FALSE: Text := [0x66, 0x61, 0x6C, 0x73, 0x65]

  // --------------------------------------------------------------- strings

  function Hex(digit: int): Unit
    requires 0 <= digit < 16
  {
    if digit < 10 then 0x30 + digit else 0x61 + digit - 10
  }

  function UnicodeEscape(u: Unit): Text {
    [0x5C, 0x75, Hex(u / 0x1000), Hex(u / 0x100 % 0x10), Hex(u / 0x10 % 0x10), Hex(u % 0x10)]
  }

  /** The letter of a two-character escape, or 0. */
  function ShortEscape(p: Point): Unit {
    match p
    case 0x08 => 0x62
    case 0x09 => 0x74
    case 0x0A => 0x6E
    case 0x0C => 0x66
    case 0x0D => 0x72
    case 0x22 => 0x22
    case 0x5C => 0x5C
    case _ => 0
  }

  function QuotePoint(p: Point): Text {
    if ShortEscape(p) != 0 then [0x5C, ShortEscape(p)]
    else if p < 0x20 || Surrogate(p) then UnicodeEscape(p)
    else UnitsOf(p)
  }

  function QuotePoints(points: seq<Point>): Text {
    if points == [] then [] else QuotePoint(points[0]) + QuotePoints(points[1..])
  }

  function Quote(s: Text): Text { [0x22] + QuotePoints(CodePoints(s)) + [0x22] }

  // ---------------------------------------------------------------- values

  predicate Omitted(v: Json) { v.Absent? || v.Hole? }

  /** A list of texts grows by one more, behind a comma unless it is the first. */
  function Joined(front: Text, piece: Text): Text { if front == [] then piece else front + [0x2C] + piece }

  /** The text of a value; the value of an array element that is absent is null. */
  function TextOf(v: Json): Text {
    match v
    case Bool(b) => if b then TRUE else FALSE
    case Number(digits) => digits
    case Str(text) => Quote(text)
    case Arr(items) => [0x5B] + ItemsText(items) + [0x5D]
    case Obj(members, _) => [0x7B] + MembersText(members) + [0x7D]
    case _ => NULL
  }

  function ItemsText(items: seq<Json>): Text {
    if items == [] then [] else Joined(ItemsText(items[..|items| - 1]), TextOf(items[|items| - 1]))
  }

  function MemberText(m: Member): Text { Quote(m.key) + [0x3A] + TextOf(m.value) }

  /** An absent member is left out. */
  function MembersText(members: seq<Member>): Text {
    if members == [] then []
    else
      var front, last := MembersText(members[..|members| - 1]), members[|members| - 1];
      if Omitted(last.value) then front else Joined(front, MemberText(last))
  }

  // ----------------------------------------------------------------- sizes

  ghost function Size(t: Text): nat { |Utf8(t)| }

  method SizeOfText(t: Text) returns (size: nat)
    ensures size == Size(t)
  {
    size := ByteSize(t);
  }

  /** Texts that can be followed by any other: they end with an ASCII character. */
  predicate Closed(t: Text) { t != [] && t[|t| - 1] < 0x80 }

  predicate ClosedOrEmpty(t: Text) { t == [] || Closed(t) }

  lemma EmptySize()
    ensures Size([]) == 0
  {
  }

  lemma SizeConcat(a: Text, b: Text)
    requires ClosedOrEmpty(a)
    ensures Size(a + b) == Size(a) + Size(b)
  {
    Utf8Concat(a, b);
  }

  lemma {:induction false} AsciiSize(t: Text)
    requires Ascii(t)
    ensures Size(t) == |t|
  {
    if t != [] {
      AsciiSize(t[1..]);
      assert !High(t[0]);
      assert CodePoints(t)[1..] == CodePoints(t[1..]);
    }
  }

  /** How many bytes longer a code point is when it is escaped. */
  function Escaping(p: Point): nat {
    if ShortEscape(p) != 0 then 1 else if p < 0x20 then 5 else if Surrogate(p) then 3 else 0
  }

  function Escapings(points: seq<Point>): nat {
    if points == [] then 0 else Escaping(points[0]) + Escapings(points[1..])
  }

  lemma QuotePointSize(p: Point)
    ensures Size(QuotePoint(p)) == |EncodePoint(Scalar(p))| + Escaping(p) && EndsWhole(QuotePoint(p))
  {
    var t := QuotePoint(p);
    if ShortEscape(p) != 0 || p < 0x20 || Surrogate(p) {
      AsciiSize(t);
    } else {
      assert t == UnitsOf(p);
      assert t[|t|..] == [];
      assert CodePoints([]) == [] && Encode([]) == [];
      assert CodePoints(t) == [p];
      assert [p][1..] == [];
      assert Encode([p]) == EncodePoint(Scalar(p)) + Encode([]);
    }
  }

  lemma {:induction false} QuotePointsSize(points: seq<Point>)
    ensures Size(QuotePoints(points)) == |Encode(points)| + Escapings(points)
  {
    if points != [] {
      QuotePointsSize(points[1..]);
      QuotePointSize(points[0]);
      Utf8Concat(QuotePoint(points[0]), QuotePoints(points[1..]));
    }
  }

  /** The size of a quoted string: its own bytes, the two quotes and what the escapes add. */
  lemma QuoteSize(s: Text)
    ensures Size(Quote(s)) == |Utf8(s)| + 2 + Escapings(CodePoints(s)) && Closed(Quote(s))
  {
    var inner := QuotePoints(CodePoints(s));
    QuotePointsSize(CodePoints(s));
    SizeConcat([0x22], inner + [0x22]);
    assert [0x22] + (inner + [0x22]) == Quote(s);
    assert Size(inner + [0x22]) == Size(inner) + Size([0x22]) by { Utf8Concat(inner, [0x22]); }
    AsciiSize([0x22]);
  }

  lemma JoinedSize(front: Text, piece: Text)
    requires ClosedOrEmpty(front) && Closed(piece)
    ensures Size(Joined(front, piece)) == Size(front) + (if front == [] then 0 else 1) + Size(piece)
    ensures Closed(Joined(front, piece))
  {
    hide Size;
    EmptySize();
    if front != [] {
      AsciiSize([0x2C]);
      SizeConcat(front, [0x2C]);
      SizeConcat(front + [0x2C], piece);
    }
  }

  lemma TextClosed(v: Json)
    ensures Closed(TextOf(v))
    decreases v
  {
    if v.Str? { QuoteSize(v.text); }
  }

  lemma ItemsClosed(items: seq<Json>)
    ensures ClosedOrEmpty(ItemsText(items)) && (ItemsText(items) == [] <==> items == [])
  {
    if items != [] { TextClosed(items[|items| - 1]); }
  }

  lemma MemberSize(m: Member)
    ensures Closed(MemberText(m)) && Size(MemberText(m)) == Size(Quote(m.key)) + 1 + Size(TextOf(m.value))
  {
    hide Size;
    QuoteSize(m.key);
    TextClosed(m.value);
    AsciiSize([0x3A]);
    SizeConcat(Quote(m.key), [0x3A]);
    SizeConcat(Quote(m.key) + [0x3A], TextOf(m.value));
  }

  lemma {:induction false} MembersClosed(members: seq<Member>)
    ensures ClosedOrEmpty(MembersText(members))
  {
    if members != [] {
      MembersClosed(members[..|members| - 1]);
      MemberSize(members[|members| - 1]);
    }
  }

  /** A text between two brackets. */
  lemma BracketedSize(open: Unit, inner: Text, close: Unit)
    requires open < 0x80 && close < 0x80 && ClosedOrEmpty(inner)
    ensures Size([open] + inner + [close]) == Size(inner) + 2
  {
    AsciiSize([open]);
    AsciiSize([close]);
    SizeConcat([open], inner);
    SizeConcat([open] + inner, [close]);
  }

  lemma ContainerSize(v: Json)
    requires v.Arr? || v.Obj?
    ensures Size(TextOf(v)) == 2 + Size(if v.Arr? then ItemsText(v.items) else MembersText(v.members))
  {
    if v.Arr? {
      ItemsClosed(v.items);
      BracketedSize(0x5B, ItemsText(v.items), 0x5D);
    } else {
      MembersClosed(v.members);
      BracketedSize(0x7B, MembersText(v.members), 0x7D);
    }
  }

  /** One more element: a comma unless it is the first, and its text. */
  lemma ItemsSizeNext(items: seq<Json>, i: nat)
    requires i < |items|
    ensures ItemsText(items[..i + 1]) == Joined(ItemsText(items[..i]), TextOf(items[i]))
    ensures Size(ItemsText(items[..i + 1]))
            == Size(ItemsText(items[..i])) + (if i == 0 then 0 else 1) + Size(TextOf(items[i]))
  {
    assert items[..i + 1][..i] == items[..i];
    ItemsClosed(items[..i]);
    TextClosed(items[i]);
    JoinedSize(ItemsText(items[..i]), TextOf(items[i]));
  }

  lemma MembersSizeNext(members: seq<Member>, i: nat)
    requires i < |members|
    ensures var front, m := MembersText(members[..i]), members[i];
            && MembersText(members[..i + 1]) == (if Omitted(m.value) then front else Joined(front, MemberText(m)))
            && Size(MembersText(members[..i + 1]))
               == Size(front) + if Omitted(m.value) then 0 else (if front == [] then 0 else 1) + Size(MemberText(m))
  {
    assert members[..i + 1][..i] == members[..i];
    MembersClosed(members[..i]);
    MemberSize(members[i]);
    JoinedSize(MembersText(members[..i]), MemberText(members[i]));
  }

  lemma {:induction false} ItemsPrefixSize(items: seq<Json>, i: nat)
    requires i <= |items|
    ensures Size(ItemsText(items[..i])) <= Size(ItemsText(items))
    decreases |items| - i
  {
    if i < |items| {
      ItemsSizeNext(items, i);
      ItemsPrefixSize(items, i + 1);
    } else {
      assert items[..i] == items;
    }
  }

  lemma {:induction false} MembersPrefixSize(members: seq<Member>, i: nat)
    requires i <= |members|
    ensures Size(MembersText(members[..i])) <= Size(MembersText(members))
    decreases |members| - i
  {
    if i < |members| {
      MembersSizeNext(members, i);
      MembersPrefixSize(members, i + 1);
    } else {
      assert members[..i] == members;
    }
  }
}

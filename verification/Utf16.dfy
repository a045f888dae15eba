/** Strings as JavaScript keeps them, sequences of 16-bit code units; their code points; and their UTF-8 form
    (section 3 of RFC 3629), in which an unpaired surrogate becomes U+FFFD. */
module Utf16 {
  type Unit = u: int | 0 <= u < 0x1_0000

  type Text = seq<Unit>

  type Point = p: int | 0 <= p < 0x11_0000

  type Byte = b: int | 0 <= b < 256

  predicate High(u: int) { 0xD800 <= u <= 0xDBFF }

  predicate Low(u: int) { 0xDC00 <= u <= 0xDFFF }

  predicate Surrogate(u: int) { 0xD800 <= u <= 0xDFFF }

  function Pair(high: Unit, low: Unit): Point
    requires High(high) && Low(low)
  {
    0x1_0000 + (high - 0xD800) * 0x400 + (low - 0xDC00)
  }

  predicate StartsWithPair(s: Text) { |s| >= 2 && High(s[0]) && Low(s[1]) }

  /** Split from the front; an unpaired surrogate stands for itself. */
  function CodePoints(s: Text): seq<Point> {
    if s == [] then []
    else if StartsWithPair(s) then [Pair(s[0], s[1])] + CodePoints(s[2..])
    else [s[0]] + CodePoints(s[1..])
  }

  function UnitsOf(p: Point): Text {
    if p < 0x1_0000 then [p] else [0xD800 + (p - 0x1_0000) / 0x400, 0xDC00 + (p - 0x1_0000) % 0x400]
  }

  function Units(points: seq<Point>): Text {
    if points == [] then [] else UnitsOf(points[0]) + Units(points[1..])
  }

  /** Splitting loses nothing. */
  lemma {:induction false} SplitRoundTrip(s: Text)
    ensures Units(CodePoints(s)) == s
  {
    if s != [] {
      if StartsWithPair(s) {
        SplitRoundTrip(s[2..]);
        assert UnitsOf(Pair(s[0], s[1])) == [s[0], s[1]];
        assert CodePoints(s)[1..] == CodePoints(s[2..]);
        assert s == [s[0], s[1]] + s[2..];
      } else {
        SplitRoundTrip(s[1..]);
        assert CodePoints(s)[1..] == CodePoints(s[1..]);
        assert s == [s[0]] + s[1..];
      }
    }
  }

  // ----------------------------------------------------------------- UTF-8

  function Scalar(p: Point): Point { if Surrogate(p) then 0xFFFD else p }

  function EncodePoint(p: Point): seq<Byte> {
    if p < 0x80 then [p]
    else if p < 0x800 then [0xC0 + p / 0x40, 0x80 + p % 0x40]
    else if p < 0x1_0000 then [0xE0 + p / 0x1000, 0x80 + p / 0x40 % 0x40, 0x80 + p % 0x40]
    else [0xF0 + p / 0x4_0000, 0x80 + p / 0x1000 % 0x40, 0x80 + p / 0x40 % 0x40, 0x80 + p % 0x40]
  }

  function Encode(points: seq<Point>): seq<Byte> {
    if points == [] then [] else EncodePoint(Scalar(points[0])) + Encode(points[1..])
  }

  function Utf8(s: Text): seq<Byte> { Encode(CodePoints(s)) }

  /** How many bytes the sequence that starts with this byte has. */
  function SequenceLength(first: Byte): nat {
    if first < 0x80 then 1 else if first < 0xE0 then 2 else if first < 0xF0 then 3 else 4
  }

  function DecodePoint(b: seq<Byte>): int
    requires b != [] && SequenceLength(b[0]) <= |b|
  {
    var n, first: int := SequenceLength(b[0]), b[0];
    if n == 1 then first
    else
      var second: int := b[1];
      if n == 2 then (first - 0xC0) * 0x40 + (second - 0x80)
      else
        var third: int := b[2];
        if n == 3 then (first - 0xE0) * 0x1000 + (second - 0x80) * 0x40 + (third - 0x80)
        else
          var fourth: int := b[3];
          (first - 0xF0) * 0x4_0000 + (second - 0x80) * 0x1000 + (third - 0x80) * 0x40 + (fourth - 0x80)
  }

  function Decode(b: seq<Byte>): seq<int> {
    if b == [] || SequenceLength(b[0]) > |b| then []
    else [DecodePoint(b)] + Decode(b[SequenceLength(b[0])..])
  }

  function Scalars(points: seq<Point>): seq<Point> { seq(|points|, i requires 0 <= i < |points| => Scalar(points[i])) }

  lemma PointRoundTrip(p: Point, rest: seq<Byte>)
    ensures var b := EncodePoint(p) + rest;
            SequenceLength(b[0]) == |EncodePoint(p)| && DecodePoint(b) == p && b[SequenceLength(b[0])..] == rest
  {
    Digits(p);
    FirstByte(p);
    var b := EncodePoint(p) + rest;
    assert b[|EncodePoint(p)|..] == rest;
    assert forall i | 0 <= i < |EncodePoint(p)| :: b[i] == EncodePoint(p)[i];
  }

  /** The digits of a number to the base 64. */
  lemma Digits(p: nat)
    ensures p == p / 0x40 * 0x40 + p % 0x40
    ensures p == p / 0x1000 * 0x1000 + p / 0x40 % 0x40 * 0x40 + p % 0x40
    ensures p == p / 0x4_0000 * 0x4_0000 + p / 0x1000 % 0x40 * 0x1000 + p / 0x40 % 0x40 * 0x40 + p % 0x40
  {
    assert p / 0x1000 == p / 0x40 / 0x40;
    assert p / 0x4_0000 == p / 0x1000 / 0x40;
  }

  lemma FirstByte(p: Point)
    ensures SequenceLength(EncodePoint(p)[0]) == |EncodePoint(p)|
  {
  }

  /** The bytes determine the text up to unpaired surrogates. */
  lemma {:induction false} Utf8RoundTrip(points: seq<Point>)
    ensures Decode(Encode(points)) == Scalars(points)
  {
    if points != [] {
      Utf8RoundTrip(points[1..]);
      PointRoundTrip(Scalar(points[0]), Encode(points[1..]));
      assert Scalars(points) == [Scalar(points[0])] + Scalars(points[1..]);
    }
  }

  // --------------------------------------------------------- concatenation

  /** No high surrogate at the end that a following low one could complete. */
  predicate EndsWhole(s: Text) { s == [] || !High(s[|s| - 1]) }

  lemma {:induction false} CodePointsConcat(a: Text, b: Text)
    requires EndsWhole(a) || b == [] || !Low(b[0])
    ensures CodePoints(a + b) == CodePoints(a) + CodePoints(b)
  {
    if a == [] {
      assert a + b == b;
    } else {
      var n := if StartsWithPair(a) then 2 else 1;
      assert StartsWithPair(a + b) == StartsWithPair(a);
      assert (a + b)[n..] == a[n..] + b;
      CodePointsConcat(a[n..], b);
    }
  }

  lemma {:induction false} EncodeConcat(a: seq<Point>, b: seq<Point>)
    ensures Encode(a + b) == Encode(a) + Encode(b)
  {
    if a == [] {
      assert a + b == b;
    } else {
      assert (a + b)[1..] == a[1..] + b;
      EncodeConcat(a[1..], b);
    }
  }

  lemma Utf8Concat(a: Text, b: Text)
    requires EndsWhole(a) || b == [] || !Low(b[0])
    ensures Utf8(a + b) == Utf8(a) + Utf8(b)
  {
    CodePointsConcat(a, b);
    EncodeConcat(CodePoints(a), CodePoints(b));
  }

  // ------------------------------------------------------------- byte size

  /** Counts the UTF-8 bytes of a string without building them. */
  method ByteSize(s: Text) returns (size: nat)
    ensures size == |Utf8(s)|
  {
    size := 0;
    var i := 0;
    while i < |s|
      invariant i <= |s| && size + |Utf8(s[i..])| == |Utf8(s)|
    {
      var code := s[i];
      var rest := s[i..];
      assert rest[1..] == s[i + 1..];
      if code < 0x80 {
        size := size + 1;
      } else if code < 0x800 {
        size := size + 2;
      } else if 0xD800 <= code <= 0xDFFF {
        if 0xD800 <= code <= 0xDBFF && i + 1 < |s| && 0xDC00 <= s[i + 1] <= 0xDFFF {
          assert rest[2..] == s[i + 2..];
          size := size + 4;
          i := i + 2;
          continue;
        }
        size := size + 3;
      } else {
        size := size + 3;
      }
      i := i + 1;
    }
  }
}

/** The 32-bit string hash, forwards over code units and backwards over code points. */
module StringHash {
  import opened Collections
  import opened Utf16

  const MAX_HASH_INPUT: nat := 1_000_000

  /** The conversion `| 0` of a number to a signed 32-bit integer. */
  function Wrap(n: int): (r: int)
    ensures -0x8000_0000 <= r < 0x8000_0000 && (r - n) % 0x1_0000_0000 == 0
  {
    (n + 0x8000_0000) % 0x1_0000_0000 - 0x8000_0000
  }

  function AppendHash(hash: int, c: Unit): int { Wrap(Wrap(hash * 32) - hash + c) }

  /** The hash without wrapping: the code units as digits to the base 31. */
  function Polynomial(s: Text): int {
    if s == [] then 0 else 31 * Polynomial(s[..|s| - 1]) + s[|s| - 1]
  }

  lemma WrapBy(n: int) returns (k: int)
    ensures Wrap(n) == n + 0x1_0000_0000 * k
  {
    k := -((n + 0x8000_0000) / 0x1_0000_0000);
  }

  lemma WrapAbsorbs(n: int, k: int)
    ensures Wrap(n + 0x1_0000_0000 * k) == Wrap(n)
  {
  }

  /** Wrapping after every step loses nothing over wrapping once. */
  lemma AppendHashIs31(s: Text, c: Unit)
    ensures AppendHash(Wrap(Polynomial(s)), c) == Wrap(Polynomial(s + [c]))
  {
    hide Wrap;
    var n := Polynomial(s);
    assert (s + [c])[..|s|] == s;
    var k := WrapBy(n);
    var j := WrapBy(Wrap(n) * 32);
    WrapAbsorbs(31 * n + c, 31 * k + j);
  }

  function Reversed(points: seq<Point>): seq<Point> {
    if points == [] then [] else [points[|points| - 1]] + Reversed(points[..|points| - 1])
  }

  predicate EndsWithPair(s: Text) { |s| >= 2 && High(s[|s| - 2]) && Low(s[|s| - 1]) }

  /** Pairing surrogates from the back agrees with splitting from the front. */
  lemma LastCodePoint(s: Text)
    requires s != []
    ensures EndsWithPair(s) ==> CodePoints(s) == CodePoints(s[..|s| - 2]) + [Pair(s[|s| - 2], s[|s| - 1])]
    ensures !EndsWithPair(s) ==> CodePoints(s) == CodePoints(s[..|s| - 1]) + [s[|s| - 1]]
  {
    var n := |s|;
    if EndsWithPair(s) {
      var front, last := s[..n - 2], s[n - 2..];
      assert s == front + last;
      CodePointsConcat(front, last);
      assert CodePoints(last) == [Pair(s[n - 2], s[n - 1])] by { assert last[2..] == []; }
    } else {
      var front, last := s[..n - 1], s[n - 1..];
      assert s == front + last;
      CodePointsConcat(front, last);
      assert CodePoints(last) == [s[n - 1]] by { assert last[1..] == []; }
    }
  }

  /** The string spelled with its code points in reverse order. */
  function Backwards(s: Text): Text { Units(Reversed(CodePoints(s))) }

  lemma ReversedLast(points: seq<Point>, p: Point)
    ensures Units(Reversed(points + [p])) == UnitsOf(p) + Units(Reversed(points))
  {
    assert (points + [p])[..|points|] == points;
    assert Reversed(points + [p]) == [p] + Reversed(points);
    assert ([p] + Reversed(points))[1..] == Reversed(points);
  }

  lemma BackwardsFrom(s: Text)
    requires s != []
    ensures var n := |s|;
            Backwards(s)
            == if EndsWithPair(s) then [s[n - 2], s[n - 1]] + Backwards(s[..n - 2])
               else [s[n - 1]] + Backwards(s[..n - 1])
  {
    var n := |s|;
    LastCodePoint(s);
    if EndsWithPair(s) {
      ReversedLast(CodePoints(s[..n - 2]), Pair(s[n - 2], s[n - 1]));
    } else {
      ReversedLast(CodePoints(s[..n - 1]), s[n - 1]);
    }
  }

  function Magnitude(n: int): nat { if n < 0 then -n else n }

  function Digit(d: nat): char
    requires d < 36
  {
    (if d < 10 then 48 + d else 87 + d) as char
  }

  function DigitValue(c: char): int { if c <= '9' then c as int - 48 else c as int - 87 }

  /** `Number.prototype.toString(36)` of an integer. */
  function Base36(n: nat): string {
    if n < 36 then [Digit(n)] else Base36(n / 36) + [Digit(n % 36)]
  }

  function FromBase36(s: string): int {
    if s == [] then 0 else 36 * FromBase36(s[..|s| - 1]) + DigitValue(s[|s| - 1])
  }

  /** The text names the number, without leading zeros. */
  lemma {:induction false} Base36RoundTrip(n: nat)
    ensures FromBase36(Base36(n)) == n && Base36(n) != []
    ensures n > 0 ==> Base36(n)[0] != '0'
  {
    if n < 36 {
      assert Base36(n)[..0] == [];
    } else {
      Base36RoundTrip(n / 36);
      assert Base36(n)[..|Base36(n)| - 1] == Base36(n / 36);
    }
  }

  function Power36(k: nat): nat { if k == 0 then 1 else 36 * Power36(k - 1) }

  lemma {:induction false} Base36Length(n: nat, k: nat)
    requires k > 0 && n < Power36(k)
    ensures |Base36(n)| <= k
  {
    if n >= 36 {
      assert k > 1 by { assert Power36(1) == 36; }
      Base36Length(n / 36, k - 1);
    }
  }

  /** What both hashes end with: at most six characters, from which the 32-bit number can be read off. */
  lemma DigestText(hash: int)
    ensures |Base36(Magnitude(Wrap(hash)))| <= 6
    ensures FromBase36(Base36(Magnitude(Wrap(hash)))) == Magnitude(Wrap(hash))
  {
    Base36RoundTrip(Magnitude(Wrap(hash)));
    assert Power36(6) == 36 * 36 * 36 * 36 * 36 * 36 by { assert Power36(3) == 36 * 36 * 36; }
    Base36Length(Magnitude(Wrap(hash)), 6);
  }

  /** Hashes a string from front to back; an input that is too long is refused. */
  method SimpleHash(input: Text) returns (digest: Option<string>)
    ensures digest.None? <==> |input| > 1_000_000
    ensures digest.Some? ==> FromBase36(digest.value) == Magnitude(Wrap(Polynomial(input)))
    ensures digest.Some? ==> digest.value == Base36(Magnitude(Wrap(Polynomial(input)))) && |digest.value| <= 6
  {
    if |input| > MAX_HASH_INPUT { return None; }
    var hash := 0;
    assert input[..0] == [];
    for i := 0 to |input|
      invariant hash == Wrap(Polynomial(input[..i]))
    {
      AppendHashIs31(input[..i], input[i]);
      assert input[..i + 1] == input[..i] + [input[i]];
      hash := AppendHash(hash, input[i]);
    }
    assert input[..|input|] == input;
    DigestText(Polynomial(input));
    digest := Some(Base36(Magnitude(hash)));
  }

  /** Scans the code units backwards, keeping surrogate pairs in order, and so hashes the reversed string. */
  method ReverseSimpleHash(input: Text) returns (digest: string)
    ensures FromBase36(digest) == Magnitude(Wrap(Polynomial(Backwards(input))))
    ensures digest == Base36(Magnitude(Wrap(Polynomial(Backwards(input))))) && |digest| <= 6
  {
    hide Wrap, Polynomial, AppendHash, Backwards, Base36, FromBase36;
    EmptyHash();
    var hash := 0;
    var index := |input| - 1;
    ghost var done: Text := [];
    assert input[..|input|] == input;
    while index >= 0
      invariant -1 <= index < |input|
      invariant Backwards(input) == done + Backwards(input[..index + 1])
      invariant hash == Wrap(Polynomial(done))
      decreases index
    {
      var trailing := input[index];
      BackwardsBefore(input, index + 1);
      if 0xDC00 <= trailing <= 0xDFFF && index > 0 {
        var leading := input[index - 1];
        if 0xD800 <= leading <= 0xDBFF {
          AppendHashIs31(done, leading);
          AppendHashIs31(done + [leading], trailing);
          hash := AppendHash(hash, leading);
          hash := AppendHash(hash, trailing);
          done := done + [leading] + [trailing];
          index := index - 2;
          continue;
        }
      }
      AppendHashIs31(done, trailing);
      hash := AppendHash(hash, trailing);
      done := done + [trailing];
      index := index - 1;
    }
    assert input[..0] == [] && done + [] == done;
    DigestText(Polynomial(Backwards(input)));
    digest := Base36(Magnitude(hash));
  }

  lemma EmptyHash()
    ensures Wrap(Polynomial([])) == 0 && Backwards([]) == []
  {
  }

  lemma BackwardsBefore(s: Text, n: nat)
    requires 0 < n <= |s|
    ensures Backwards(s[..n]) == if n >= 2 && High(s[n - 2]) && Low(s[n - 1])
                                 then [s[n - 2]] + [s[n - 1]] + Backwards(s[..n - 2])
                                 else [s[n - 1]] + Backwards(s[..n - 1])
  {
    BackwardsFrom(s[..n]);
    assert s[..n][..n - 1] == s[..n - 1];
    if n >= 2 { assert s[..n][..n - 2] == s[..n - 2]; }
  }

  lemma {:induction false} NoDot(n: nat)
    ensures '.' !in Base36(n)
  {
    if n >= 36 { NoDot(n / 36); }
  }

  /** A text without a dot is found again before the first dot. */
  lemma FirstDot(a: string, rest: string, b: string, more: string)
    requires '.' !in a && '.' !in b && a + "." + rest == b + "." + more
    ensures a == b && rest == more
  {
    var joined := a + "." + rest;
    assert joined == b + "." + more;
    assert joined[|a|] == '.' && joined[|b|] == '.';
    assert forall i | 0 <= i < |a| :: joined[i] == a[i];
    assert forall i | 0 <= i < |b| :: joined[i] == b[i];
    assert a == joined[..|a|] && b == joined[..|a|];
    assert rest == joined[|a| + 1..] && more == joined[|a| + 1..];
  }

  function KeyOf(forward: nat, backward: nat, length: nat): string {
    Base36(forward) + "." + (Base36(backward) + "." + Base36(length))
  }

  /** The key of an error keeps both hashes and the length apart. */
  lemma KeysAgreeExactly(f: nat, b: nat, n: nat, g: nat, c: nat, m: nat)
    ensures KeyOf(f, b, n) == KeyOf(g, c, m) <==> f == g && b == c && n == m
  {
    if KeyOf(f, b, n) == KeyOf(g, c, m) {
      NoDot(f);
      NoDot(g);
      NoDot(b);
      NoDot(c);
      FirstDot(Base36(f), Base36(b) + "." + Base36(n), Base36(g), Base36(c) + "." + Base36(m));
      FirstDot(Base36(b), Base36(n), Base36(c), Base36(m));
      Base36RoundTrip(f);
      Base36RoundTrip(g);
      Base36RoundTrip(b);
      Base36RoundTrip(c);
      Base36RoundTrip(n);
      Base36RoundTrip(m);
    }
  }

  method ErrorKeyHash(input: Text) returns (key: Option<string>)
    ensures key.None? <==> |input| > 1_000_000
    ensures key.Some? ==>
              key.value
              == KeyOf(Magnitude(Wrap(Polynomial(input))), Magnitude(Wrap(Polynomial(Backwards(input)))), |input|)
  {
    hide Wrap, Polynomial, Backwards, Base36, FromBase36;
    var forward := SimpleHash(input);
    if forward.None? { return None; }
    var backward := ReverseSimpleHash(input);
    key := Some(forward.value + "." + (backward + "." + Base36(|input|)));
  }
}

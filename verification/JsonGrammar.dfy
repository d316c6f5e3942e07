/**
  What the decoder accepts, and as what: exactly the texts that RFC 8259 spells
  out, with any white space (section 2), any number (section 6) and any string
  (section 7), and the keywords `NaN`, `Infinity` and `-Infinity` besides.

  A `Syntax` is a value together with one way to spell it. All characters are
  given by their numbers here, independent of the decoder's own names for them.
 */
module JsonGrammar {
  import opened Wrappers
  import opened Sequences
  import opened Utf8
  import opened Json
  import opened JsonProofs

  /** Space, tab, line feed and carriage return. */
  ghost predicate Blank(t: Text) {
    forall i :: 0 <= i < |t| ==> t[i] == 32 || t[i] == 9 || t[i] == 10 || t[i] == 13
  }

  ghost predicate Decimal(t: Text) {
    forall i :: 0 <= i < |t| ==> 48 <= t[i] <= 57
  }

  // ---------------------------------------------------------------------------
  // Numbers
  // ---------------------------------------------------------------------------

  datatype Exponent = Exponent(mark: CodePoint, sign: Text, digits: Text)

  /** `fraction` holds the digits behind the point; none if there is no point. */
  datatype Numeral = Numeral(minus: bool, whole: Text, fraction: Text, exponent: Option<Exponent>)

  ghost predicate ValidExponent(e: Exponent) {
    && (e.mark == 69 || e.mark == 101) && (e.sign == [] || e.sign == [43] || e.sign == [45])
    && e.digits != [] && Decimal(e.digits)
  }

  ghost predicate ValidNumeral(n: Numeral) {
    && n.whole != [] && Decimal(n.whole) && (n.whole[0] == 48 ==> |n.whole| == 1)
    && Decimal(n.fraction) && (n.exponent.Some? ==> ValidExponent(n.exponent.value))
  }

  function SignText(n: Numeral): Text { if n.minus then [45] else [] }

  function FractionText(n: Numeral): Text { if n.fraction == [] then [] else [46] + n.fraction }

  function ExponentText(n: Numeral): Text {
    if n.exponent.None? then []
    else [n.exponent.value.mark] + n.exponent.value.sign + n.exponent.value.digits
  }

  function NumeralText(n: Numeral): Text { SignText(n) + n.whole + FractionText(n) + ExponentText(n) }

  lemma {:induction false} DigitsRun(s: Text, i: nat, j: nat)
    requires i <= j <= |s| && forall k :: i <= k < j ==> Digit(s[k])
    ensures DigitsEnd(s, i) >= j
    ensures j == |s| || !Digit(s[j]) ==> DigitsEnd(s, i) == j
    decreases j - i
  {
    if i < j { DigitsRun(s, i + 1, j); }
  }

  /** The integer part of a number that starts `s` reaches at least to `b`, and no further if no digit follows. */
  lemma IntegerReaches(s: Text, a: nat, b: nat)
    requires a < b <= |s| && a == (if s[0] == 45 then 1 else 0)
    requires (forall k :: a <= k < b ==> 48 <= s[k] <= 57) && (s[a] == 48 ==> b == a + 1)
    ensures IntegerEnd(s) >= b
    ensures b == |s| || !(48 <= s[b] <= 57) ==> IntegerEnd(s) == b
  {
    DigitsRun(s, a, b);
  }

  lemma FractionReaches(s: Text, b: nat, c: nat)
    requires b + 1 < c <= |s| && s[b] == 46 && forall k :: b < k < c ==> 48 <= s[k] <= 57
    ensures FractionEnd(s, b) >= c
    ensures c == |s| || !(48 <= s[c] <= 57) ==> FractionEnd(s, b) == c
  {
    DigitsRun(s, b + 1, c);
  }

  lemma ExponentReaches(s: Text, c: nat, d: nat, e: nat)
    requires c + 1 <= d <= c + 2 && d < e <= |s| && (s[c] == 69 || s[c] == 101)
    requires (d == c + 2 ==> s[c + 1] == 43 || s[c + 1] == 45) && forall k :: d <= k < e ==> 48 <= s[k] <= 57
    ensures ExponentEnd(s, c) >= e
    ensures e == |s| || !(48 <= s[e] <= 57) ==> ExponentEnd(s, c) == e
  {
    DigitsRun(s, d, e);
  }

  /** Integer part from `a`, fraction from `b`, exponent from `c` with its digits from `d`, all up to `e`. */
  lemma PartsReach(s: Text, a: nat, b: nat, c: nat, d: nat, e: nat)
    requires a < b <= c <= e <= |s| && a == (if s[0] == 45 then 1 else 0)
    requires (forall k :: a <= k < b ==> 48 <= s[k] <= 57) && (s[a] == 48 ==> b == a + 1)
    requires b < c ==> b + 1 < c && s[b] == 46 && forall k :: b < k < c ==> 48 <= s[k] <= 57
    requires c < e ==>
               && c + 1 <= d <= c + 2 && d < e && (s[c] == 69 || s[c] == 101)
               && (d == c + 2 ==> s[c + 1] == 43 || s[c + 1] == 45) && forall k :: d <= k < e ==> 48 <= s[k] <= 57
    ensures NumberEnd(s) >= e
    ensures Stops(s[e..]) ==> NumberEnd(s) == e
  {
    IntegerReaches(s, a, b);
    if b < c { FractionReaches(s, b, c); }
    if c < e { ExponentReaches(s, c, d, e); }
    assert e < |s| ==> s[e..][0] == s[e];
  }

  lemma DecimalAt(s: Text, i: nat, j: nat)
    requires i <= j <= |s| && Decimal(s[i..j])
    ensures forall k :: i <= k < j ==> 48 <= s[k] <= 57
  {
    forall k | i <= k < j ensures 48 <= s[k] <= 57 { assert s[k] == s[i..j][k - i]; }
  }

  /** Where the parts of four stand in the whole. */
  lemma FourParts(p: Text, q: Text, r: Text, x: Text, rest: Text, s: Text)
    requires s == p + q + r + x + rest
    ensures var a, b := |p|, |p| + |q|;
            var c := b + |r|;
            var e := c + |x|;
            s[..a] == p && s[a..b] == q && s[b..c] == r && s[c..e] == x && s[e..] == rest && |p + q + r + x| == e
  {
  }

  lemma IntegerPlace(n: Numeral, s: Text, a: nat, b: nat)
    requires ValidNumeral(n) && a <= b <= |s| && s[..a] == SignText(n) && s[a..b] == n.whole
    ensures a < b && a == (if s[0] == 45 then 1 else 0) && (s[a] == 48 ==> b == a + 1)
    ensures forall k :: a <= k < b ==> 48 <= s[k] <= 57
  {
    assert s[a] == s[a..b][0] && (a > 0 ==> s[0] == s[..a][0]);
    DecimalAt(s, a, b);
  }

  lemma FractionPlace(n: Numeral, s: Text, b: nat, c: nat)
    requires ValidNumeral(n) && b < c <= |s| && s[b..c] == FractionText(n)
    ensures b + 1 < c && s[b] == 46 && forall k :: b < k < c ==> 48 <= s[k] <= 57
  {
    assert s[b] == s[b..c][0] && s[b + 1..c] == s[b..c][1..] == n.fraction;
    DecimalAt(s, b + 1, c);
  }

  lemma ExponentPlace(x: Exponent, s: Text, c: nat, d: nat, e: nat)
    requires ValidExponent(x) && c < e <= |s| && s[c..e] == [x.mark] + x.sign + x.digits && d == c + 1 + |x.sign|
    ensures c + 1 <= d <= c + 2 && d < e && (s[c] == 69 || s[c] == 101)
    ensures (d == c + 2 ==> s[c + 1] == 43 || s[c + 1] == 45) && forall k :: d <= k < e ==> 48 <= s[k] <= 57
  {
    assert s[c] == s[c..e][0] && (|x.sign| == 1 ==> s[c + 1] == s[c..e][1]);
    assert s[d..e] == s[c..e][1 + |x.sign|..] == x.digits;
    DecimalAt(s, d, e);
  }

  /** A number at the start of a text is read at least as far as it goes, and no further if nothing continues it. */
  lemma NumeralEnds(n: Numeral, rest: Text, s: Text)
    requires ValidNumeral(n) && s == NumeralText(n) + rest
    ensures NumberEnd(s) >= |NumeralText(n)| > 0
    ensures Stops(rest) ==> NumberEnd(s) == |NumeralText(n)|
  {
    FourParts(SignText(n), n.whole, FractionText(n), ExponentText(n), rest, s);
    var a, b := |SignText(n)|, |SignText(n)| + |n.whole|;
    var c := b + |FractionText(n)|;
    var e := c + |ExponentText(n)|;
    NumeralPlaces(n, s, a, b, c, e);
  }

  lemma NumeralPlaces(n: Numeral, s: Text, a: nat, b: nat, c: nat, e: nat)
    requires ValidNumeral(n) && a <= b <= c <= e <= |s|
    requires s[..a] == SignText(n) && s[a..b] == n.whole && s[b..c] == FractionText(n) && s[c..e] == ExponentText(n)
    ensures NumberEnd(s) >= e && (Stops(s[e..]) ==> NumberEnd(s) == e)
  {
    var d := if n.exponent.Some? then c + 1 + |n.exponent.value.sign| else c;
    IntegerPlace(n, s, a, b);
    if b < c { FractionPlace(n, s, b, c); }
    if c < e { ExponentPlace(n.exponent.value, s, c, d, e); }
    PartsReach(s, a, b, c, d, e);
  }

  lemma {:induction false} DigitsOnly(s: Text, i: nat)
    requires i <= |s|
    ensures Decimal(s[i..DigitsEnd(s, i)])
    decreases |s| - i
  {
    if i < |s| && Digit(s[i]) {
      DigitsOnly(s, i + 1);
      assert s[i..DigitsEnd(s, i)] == [s[i]] + s[i + 1..DigitsEnd(s, i)];
    }
  }

  /** The number that the decoder takes from the start of a text, in its parts. */
  function NumeralOf(s: Text): Numeral
    requires NumberEnd(s) > 0
  {
    var a, b := if s[0] == 45 then 1 else 0, IntegerEnd(s);
    var c, e := FractionEnd(s, b), NumberEnd(s);
    Numeral(s[0] == 45, s[a..b], if c == b then [] else s[b + 1..c], if e == c then None else Some(ExponentOf(s, c, e)))
  }

  function ExponentOf(s: Text, c: nat, e: nat): Exponent
    requires c + 1 < e <= |s|
  {
    var d := if s[c + 1] == 43 || s[c + 1] == 45 then c + 2 else c + 1;
    Exponent(s[c], s[c + 1..d], s[d..e])
  }

  lemma ExponentTaken(s: Text, c: nat)
    requires c < |s| && c < ExponentEnd(s, c)
    ensures c + 1 < ExponentEnd(s, c)
    ensures var x := ExponentOf(s, c, ExponentEnd(s, c));
            ValidExponent(x) && [x.mark] + x.sign + x.digits == s[c..ExponentEnd(s, c)]
  {
    DigitsOnly(s, if c + 1 < |s| && (s[c + 1] == 45 || s[c + 1] == 43) then c + 2 else c + 1);
  }

  lemma FractionTaken(s: Text, b: nat)
    requires b <= |s| && b < FractionEnd(s, b)
    ensures var c := FractionEnd(s, b);
            b + 1 < c && s[b] == 46 && Decimal(s[b + 1..c]) && [46] + s[b + 1..c] == s[b..c]
  {
    DigitsOnly(s, b + 1);
  }

  lemma IntegerTaken(s: Text)
    requires IntegerEnd(s) > 0
    ensures var a, b := if s[0] == 45 then 1 else 0, IntegerEnd(s);
            a < b && Decimal(s[a..b]) && (s[a] == 48 ==> b == a + 1)
  {
    DigitsOnly(s, if s[0] == 45 then 1 else 0);
  }

  lemma NumeralTaken(s: Text)
    requires NumberEnd(s) > 0
    ensures ValidNumeral(NumeralOf(s)) && NumeralText(NumeralOf(s)) == s[..NumberEnd(s)]
  {
    var a, b := if s[0] == 45 then 1 else 0, IntegerEnd(s);
    var c, e := FractionEnd(s, b), NumberEnd(s);
    IntegerTaken(s);
    if c > b { FractionTaken(s, b); }
    if e > c { ExponentTaken(s, c); }
    var n := NumeralOf(s);
    assert SignText(n) == s[..a] && n.whole == s[a..b];
    assert FractionText(n) == s[b..c];
    assert ExponentText(n) == s[c..e];
    Slices(s, a, b, c, e);
  }

  lemma Slices(s: Text, a: nat, b: nat, c: nat, e: nat)
    requires a <= b <= c <= e <= |s|
    ensures s[..a] + s[a..b] + s[b..c] + s[c..e] == s[..e]
  {
  }

  // ---------------------------------------------------------------------------
  // Strings
  // ---------------------------------------------------------------------------

  /** One character of a string: as it is, escaped by a letter, or by four hexadecimal digits. */
  datatype Piece = Plain(c: CodePoint) | Short(letter: CodePoint) | Code(digits: Text)

  function HexNumber(c: CodePoint): int {
    if 48 <= c <= 57 then c - 48 else if 65 <= c <= 70 then c - 65 + 10 else if 97 <= c <= 102 then c - 97 + 10 else -1
  }

  /** What the letters of an escape stand for; -1 for none. */
  function Escaped(letter: CodePoint): int {
    if letter == 34 || letter == 47 || letter == 92 then letter   // quote, slash, backslash
    else if letter == 98 then 8                                   // b
    else if letter == 102 then 12                                 // f
    else if letter == 110 then 10                                 // n
    else if letter == 114 then 13                                 // r
    else if letter == 116 then 9                                  // t
    else -1
  }

  ghost predicate ValidPiece(p: Piece) {
    match p
    case Plain(c) => c >= 32 && c != 34 && c != 92
    case Short(letter) => Escaped(letter) >= 0
    case Code(digits) => |digits| == 4 && forall i :: 0 <= i < 4 ==> HexNumber(digits[i]) >= 0
  }

  ghost predicate ValidPieces(ps: seq<Piece>) { forall i :: 0 <= i < |ps| ==> ValidPiece(ps[i]) }

  function PieceText(p: Piece): Text {
    match p
    case Plain(c) => [c]
    case Short(letter) => [92, letter]
    case Code(digits) => [92, 117] + digits
  }

  function PieceMeaning(p: Piece): CodePoint
    requires ValidPiece(p)
  {
    match p
    case Plain(c) => c
    case Short(letter) => Escaped(letter)
    case Code(d) => HexNumber(d[0]) * 0x1000 + HexNumber(d[1]) * 0x100 + HexNumber(d[2]) * 0x10 + HexNumber(d[3])
  }

  function PiecesText(ps: seq<Piece>): Text {
    if ps == [] then [] else PieceText(ps[0]) + PiecesText(ps[1..])
  }

  /** Two escapes that are the two halves of a surrogate pair. */
  ghost predicate Halves(p: Piece, q: Piece)
    requires ValidPiece(p) && ValidPiece(q)
  {
    p.Code? && q.Code? && 0xD800 <= PieceMeaning(p) < 0xDC00 && 0xDC00 <= PieceMeaning(q) < 0xE000
  }

  ghost function PairMeaning(p: Piece, q: Piece): CodePoint
    requires ValidPiece(p) && ValidPiece(q) && Halves(p, q)
  {
    0x1_0000 + (PieceMeaning(p) - 0xD800) * 0x400 + (PieceMeaning(q) - 0xDC00)
  }

  ghost function PiecesMeaning(ps: seq<Piece>): Text
    requires ValidPieces(ps)
  {
    if ps == [] then []
    else if |ps| >= 2 && Halves(ps[0], ps[1]) then
      [PairMeaning(ps[0], ps[1])] + PiecesMeaning(ps[2..])
    else [PieceMeaning(ps[0])] + PiecesMeaning(ps[1..])
  }

  lemma CodeRead(p: Piece, rest: Text, s: Text)
    requires p.Code? && ValidPiece(p) && s == PieceText(p) + rest
    ensures StartsUnicode(s) && ParseUnicode(s) == Ok(PieceMeaning(p)) && s[6..] == rest
  {
    assert s[2..6] == p.digits;
    assert forall i :: 0 <= i < 4 ==> s[i + 2] == s[2..6][i];
  }

  /** A piece that is not the first half of a pair is read as it stands. */
  lemma PieceRead(p: Piece, rest: Text, s: Text)
    requires ValidPiece(p) && s == PieceText(p) + rest
    requires p.Code? && High(PieceMeaning(p)) && StartsUnicode(rest) ==>
               ParseUnicode(rest).Ok? && !Low(ParseUnicode(rest).value)
    ensures ParseChar(s) == Ok((PieceMeaning(p), rest))
  {
    match p
    case Plain(c) =>
      assert s[1..] == rest;
    case Short(letter) =>
      assert s[2..] == rest && s[0] == 92 && s[1] == letter;
    case Code(digits) =>
      CodeRead(p, rest, s);
  }

  lemma HalvesRead(p: Piece, q: Piece, rest: Text, s: Text)
    requires ValidPiece(p) && ValidPiece(q) && Halves(p, q) && s == PieceText(p) + (PieceText(q) + rest)
    ensures ParseChar(s) == Ok((PairMeaning(p, q), rest))
  {
    CodeRead(p, PieceText(q) + rest, s);
    CodeRead(q, rest, PieceText(q) + rest);
    assert s[12..] == s[6..][6..];
  }

  /** Only a piece of four digits starts as one. */
  lemma OtherStart(p: Piece, rest: Text)
    requires ValidPiece(p)
    ensures PieceText(p) + rest != [] && (PieceText(p) + rest)[0] != 34
    ensures StartsUnicode(PieceText(p) + rest) ==> p.Code?
  {
    var s := PieceText(p) + rest;
    match p
    case Plain(c) => assert s[0] == c;
    case Short(letter) => assert s[0] == 92 && s[1] == letter;
    case Code(digits) => assert s[0] == 92;
  }

  lemma PiecesStep(ps: seq<Piece>, rest: Text, more: Text)
    requires ps != [] && more == PiecesText(ps[1..]) + ([34] + rest)
    ensures PiecesText(ps) + ([34] + rest) == PieceText(ps[0]) + more
  {
    Associate(PieceText(ps[0]), PiecesText(ps[1..]), [34] + rest);
  }

  /** What follows a piece that is no first half does not make it one. */
  lemma NoHalf(p: Piece, ps: seq<Piece>, rest: Text, more: Text)
    requires ValidPiece(p) && ValidPieces(ps) && more == PiecesText(ps) + ([34] + rest)
    requires ps == [] || !Halves(p, ps[0])
    ensures p.Code? && High(PieceMeaning(p)) && StartsUnicode(more) ==>
              ParseUnicode(more).Ok? && !Low(ParseUnicode(more).value)
  {
    if ps != [] {
      var last := PiecesText(ps[1..]) + ([34] + rest);
      PiecesStep(ps, rest, last);
      OtherStart(ps[0], last);
      if ps[0].Code? { CodeRead(ps[0], last, more); }
    }
  }

  lemma StringStep(s: Text, c: CodePoint, rest: Text, t: Text, end: Text)
    requires s != [] && s[0] != 34 && ParseChar(s) == Ok((c, rest)) && ParseString(rest) == Ok((t, end))
    ensures ParseString(s) == Ok(([c] + t, end))
  {
  }

  lemma MeaningPair(ps: seq<Piece>)
    requires ValidPieces(ps) && |ps| >= 2 && Halves(ps[0], ps[1])
    ensures PiecesMeaning(ps) == [PairMeaning(ps[0], ps[1])] + PiecesMeaning(ps[2..])
  {
  }

  lemma PairSplit(ps: seq<Piece>, rest: Text, last: Text)
    requires |ps| >= 2 && last == PiecesText(ps[2..]) + ([34] + rest)
    ensures PiecesText(ps) + ([34] + rest) == PieceText(ps[0]) + (PieceText(ps[1]) + last)
  {
    assert ps[1..][0] == ps[1] && ps[1..][1..] == ps[2..];
    PiecesStep(ps[1..], rest, last);
    PiecesStep(ps, rest, PieceText(ps[1]) + last);
  }

  lemma PairFirst(ps: seq<Piece>, rest: Text, s: Text, last: Text, t: Text, c: CodePoint)
    requires ValidPieces(ps) && |ps| >= 2 && Halves(ps[0], ps[1])
    requires s == PiecesText(ps) + ([34] + rest) && last == PiecesText(ps[2..]) + ([34] + rest)
    requires c == PairMeaning(ps[0], ps[1]) && ParseString(last) == Ok((t, rest))
    ensures ParseString(s) == Ok(([c] + t, rest))
  {
    PairSplit(ps, rest, last);
    OtherStart(ps[0], PieceText(ps[1]) + last);
    HalvesRead(ps[0], ps[1], last, s);
    StringStep(s, c, last, t, rest);
  }

  lemma SingleFirst(ps: seq<Piece>, rest: Text, s: Text, more: Text)
    requires ValidPieces(ps) && ps != [] && (|ps| >= 2 ==> !Halves(ps[0], ps[1]))
    requires s == PiecesText(ps) + ([34] + rest) && more == PiecesText(ps[1..]) + ([34] + rest)
    requires ParseString(more) == Ok((PiecesMeaning(ps[1..]), rest))
    ensures ParseString(s) == Ok((PiecesMeaning(ps), rest))
  {
    PiecesStep(ps, rest, more);
    OtherStart(ps[0], more);
    NoHalf(ps[0], ps[1..], rest, more);
    PieceRead(ps[0], more, s);
    StringStep(s, PieceMeaning(ps[0]), more, PiecesMeaning(ps[1..]), rest);
  }

  /** Any spelling of a string is read as what it spells. */
  lemma {:induction false} PiecesRead(ps: seq<Piece>, rest: Text, s: Text)
    requires ValidPieces(ps) && s == PiecesText(ps) + ([34] + rest)
    ensures ParseString(s) == Ok((PiecesMeaning(ps), rest))
    decreases |ps|
  {
    if ps == [] {
      assert s[1..] == rest;
    } else if |ps| >= 2 && Halves(ps[0], ps[1]) {
      var last := PiecesText(ps[2..]) + ([34] + rest);
      PiecesRead(ps[2..], rest, last);
      PairFirst(ps, rest, s, last, PiecesMeaning(ps[2..]), PairMeaning(ps[0], ps[1]));
      MeaningPair(ps);
    } else {
      var more := PiecesText(ps[1..]) + ([34] + rest);
      PiecesRead(ps[1..], rest, more);
      SingleFirst(ps, rest, s, more);
    }
  }

  /** The pieces that the decoder takes as the next character. */
  function FirstPieces(s: Text): seq<Piece>
    requires ParseChar(s).Ok?
  {
    if s[0] != 92 then [Plain(s[0])]
    else if s[1] != 117 then [Short(s[1])]
    else if |ParseChar(s).value.1| + 12 == |s| then [Code(s[2..6]), Code(s[8..12])]
    else [Code(s[2..6])]
  }

  lemma CodeTaken(s: Text)
    requires ParseUnicode(s).Ok?
    ensures ValidPiece(Code(s[2..6])) && PieceMeaning(Code(s[2..6])) == ParseUnicode(s).value
    ensures PieceText(Code(s[2..6])) == s[..6]
  {
    var d := s[2..6];
    assert forall i :: 0 <= i < 4 ==> d[i] == s[i + 2];
  }

  lemma OnePieceMeaning(p: Piece)
    requires ValidPiece(p)
    ensures ValidPieces([p]) && PiecesMeaning([p]) == [PieceMeaning(p)] && PiecesText([p]) == PieceText(p)
  {
    assert [p][1..] == [];
  }

  lemma TwoPiecesMeaning(p: Piece, q: Piece)
    requires ValidPiece(p) && ValidPiece(q) && Halves(p, q)
    ensures ValidPieces([p, q]) && PiecesText([p, q]) == PieceText(p) + PieceText(q)
    ensures PiecesMeaning([p, q]) == [PairMeaning(p, q)]
  {
    assert [p, q][1..] == [q] && [p, q][2..] == [];
    OnePieceMeaning(q);
  }

  /** What the decoder takes as one character, in pieces; a half that stays alone is not followed by the other. */
  ghost predicate CharOf(s: Text, ps: seq<Piece>, c: CodePoint, rest: Text) {
    && ValidPieces(ps) && PiecesMeaning(ps) == [c] && s == PiecesText(ps) + rest
    && (|ps| == 1 || (|ps| == 2 && Halves(ps[0], ps[1])))
    && (|ps| == 1 && ps[0].Code? && High(PieceMeaning(ps[0])) && ParseUnicode(rest).Ok? ==>
          !Low(ParseUnicode(rest).value))
  }

  lemma CharTaken(s: Text, c: CodePoint, rest: Text)
    requires ParseChar(s) == Ok((c, rest)) && s[0] != 34
    ensures CharOf(s, FirstPieces(s), c, rest)
  {
    if s[0] != 92 {
      OnePieceMeaning(Plain(s[0]));
    } else if s[1] != 117 {
      OnePieceMeaning(Short(s[1]));
    } else {
      CodeTaken(s);
      var p := Code(s[2..6]);
      if |rest| + 12 == |s| {
        CodeTaken(s[6..]);
        assert s[6..][2..6] == s[8..12];
        var q := Code(s[8..12]);
        TwoPiecesMeaning(p, q);
        assert s == s[..6] + (s[6..][..6] + s[12..]);
      } else {
        OnePieceMeaning(p);
        assert s == s[..6] + s[6..];
      }
    }
  }

  /** The pieces of a string that the decoder accepts. */
  function PiecesOf(s: Text): seq<Piece>
    requires ParseString(s).Ok?
    decreases |s|
  {
    if s[0] == 34 then [] else FirstPieces(s) + PiecesOf(ParseChar(s).value.1)
  }

  lemma {:induction false} PiecesTextConcat(a: seq<Piece>, b: seq<Piece>)
    ensures PiecesText(a + b) == PiecesText(a) + PiecesText(b)
  {
    if a == [] {
      assert a + b == b;
    } else {
      assert (a + b)[1..] == a[1..] + b;
      PiecesTextConcat(a[1..], b);
    }
  }

  lemma SingleMeaning(p: Piece, b: seq<Piece>, all: seq<Piece>)
    requires ValidPiece(p) && ValidPieces(b) && (b != [] ==> !Halves(p, b[0])) && all == [p] + b
    ensures ValidPieces(all) && PiecesMeaning(all) == [PieceMeaning(p)] + PiecesMeaning(b)
  {
    assert all[1..] == b && all[0] == p;
  }

  lemma DoubleMeaning(p: Piece, q: Piece, b: seq<Piece>, all: seq<Piece>)
    requires ValidPiece(p) && ValidPiece(q) && Halves(p, q) && ValidPieces(b) && all == [p, q] + b
    ensures ValidPieces(all) && PiecesMeaning(all) == [PairMeaning(p, q)] + PiecesMeaning(b)
  {
    assert all[2..] == b && all[0] == p && all[1] == q;
    MeaningPair(all);
  }

  lemma JoinedMeaning(a: seq<Piece>, b: seq<Piece>)
    requires ValidPieces(a) && ValidPieces(b)
    requires |a| == 1 && b != [] ==> !Halves(a[0], b[0])
    requires |a| == 1 || (|a| == 2 && Halves(a[0], a[1]))
    ensures ValidPieces(a + b) && PiecesMeaning(a + b) == PiecesMeaning(a) + PiecesMeaning(b)
  {
    if |a| == 1 {
      assert a == [a[0]];
      OnePieceMeaning(a[0]);
      SingleMeaning(a[0], b, a + b);
    } else {
      assert a == [a[0], a[1]];
      TwoPiecesMeaning(a[0], a[1]);
      DoubleMeaning(a[0], a[1], b, a + b);
    }
  }

  lemma PiecesJoin(s: Text, a: seq<Piece>, b: seq<Piece>, c: CodePoint, more: Text, t: Text, rest: Text)
    requires CharOf(s, a, c, more) && ValidPieces(b) && PiecesMeaning(b) == t && more == PiecesText(b) + ([34] + rest)
    ensures ValidPieces(a + b) && PiecesMeaning(a + b) == [c] + t && s == PiecesText(a + b) + ([34] + rest)
  {
    if b != [] && |a| == 1 && Halves(a[0], b[0]) {
      PiecesStep(b, rest, PiecesText(b[1..]) + ([34] + rest));
      CodeRead(b[0], PiecesText(b[1..]) + ([34] + rest), more);
      assert false;
    }
    JoinedMeaning(a, b);
    PiecesTextConcat(a, b);
    Associate(PiecesText(a), PiecesText(b), [34] + rest);
  }

  /** A string that the decoder accepts is one of the spellings of what it is read as. */
  lemma {:induction false} PiecesTaken(s: Text, t: Text, rest: Text)
    requires ParseString(s) == Ok((t, rest))
    ensures ValidPieces(PiecesOf(s)) && PiecesMeaning(PiecesOf(s)) == t
    ensures s == PiecesText(PiecesOf(s)) + ([34] + rest)
    decreases |s|
  {
    if s[0] != 34 {
      var (c, more) := ParseChar(s).value;
      CharTaken(s, c, more);
      PiecesTaken(more, t[1..], rest);
      PiecesJoin(s, FirstPieces(s), PiecesOf(more), c, more, t[1..], rest);
      assert [c] + t[1..] == t;
    }
  }

  // ---------------------------------------------------------------------------
  // Values
  // ---------------------------------------------------------------------------

  /**
    A value as it is spelled. White space may stand behind an opening bracket,
    behind each value, and before and behind each comma and colon.
   */
  datatype Syntax =
    | Word(name: Text)
    | Figure(numeral: Numeral)
    | Quote(pieces: seq<Piece>)
    | List(open: Text, items: seq<Item>)
    | Dict(open: Text, entries: seq<Entry>)

  /** `next` is the white space behind the comma, if there is one. */
  datatype Item = Item(value: Syntax, after: Text, next: Text)

  datatype Entry = Entry(key: seq<Piece>, beforeColon: Text, behindColon: Text, value: Syntax, after: Text, next: Text)

  /** `null`, `true`, `false`, `NaN`, `Infinity` and `-Infinity`. */
  ghost predicate Known(name: Text) {
    || name == [110, 117, 108, 108] || name == [116, 114, 117, 101] || name == [102, 97, 108, 115, 101]
    || name == [78, 97, 78] || name == [73, 110, 102, 105, 110, 105, 116, 121]
    || name == [45, 73, 110, 102, 105, 110, 105, 116, 121]
  }

  ghost predicate Valid(x: Syntax)
    decreases x, 1
  {
    match x
    case Word(name) => Known(name)
    case Figure(n) => ValidNumeral(n)
    case Quote(ps) => ValidPieces(ps)
    case List(open, items) => Blank(open) && ValidItems(items)
    case Dict(open, entries) => Blank(open) && ValidEntries(entries)
  }

  ghost predicate ValidItems(items: seq<Item>)
    decreases items, 0
  {
    items != [] ==>
      Valid(items[0].value) && Blank(items[0].after) && Blank(items[0].next) && ValidItems(items[1..])
  }

  ghost predicate ValidEntries(es: seq<Entry>)
    decreases es, 0
  {
    es != [] ==>
      && ValidPieces(es[0].key) && Blank(es[0].beforeColon) && Blank(es[0].behindColon)
      && Valid(es[0].value) && Blank(es[0].after) && Blank(es[0].next) && ValidEntries(es[1..])
  }

  function Spell(x: Syntax): Text
    decreases x, 1
  {
    match x
    case Word(name) => name
    case Figure(n) => NumeralText(n)
    case Quote(ps) => [34] + (PiecesText(ps) + [34])
    case List(open, items) => [91] + (open + if items == [] then [93] else SpellItems(items))
    case Dict(open, entries) => [123] + (open + if entries == [] then [125] else SpellEntries(entries))
  }

  function SpellItems(items: seq<Item>): Text
    requires items != []
    decreases items, 0
  {
    Spell(items[0].value) +
    (items[0].after + if |items| == 1 then [93] else [44] + (items[0].next + SpellItems(items[1..])))
  }

  function SpellKey(e: Entry): Text {
    [34] + (PiecesText(e.key) + ([34] + (e.beforeColon + ([58] + e.behindColon))))
  }

  function SpellEntries(es: seq<Entry>): Text
    requires es != []
    decreases es, 0
  {
    SpellKey(es[0]) + (Spell(es[0].value) +
    (es[0].after + if |es| == 1 then [125] else [44] + (es[0].next + SpellEntries(es[1..]))))
  }

  ghost function Meaning(x: Syntax): Json
    requires Valid(x)
    decreases x, 1
  {
    match x
    case Word(name) => Keyword(name)
    case Figure(n) => Number(NumeralText(n))
    case Quote(ps) => String(PiecesMeaning(ps))
    case List(_, items) => Array(ItemsMeaning(items))
    case Dict(_, entries) => Object(Dictionary(EntriesMeaning(entries)))
  }

  ghost function ItemsMeaning(items: seq<Item>): seq<Json>
    requires ValidItems(items)
    decreases items, 0
  {
    if items == [] then [] else [Meaning(items[0].value)] + ItemsMeaning(items[1..])
  }

  ghost function EntriesMeaning(es: seq<Entry>): Members
    requires ValidEntries(es)
    decreases es, 0
  {
    if es == [] then [] else [Member(PiecesMeaning(es[0].key), Meaning(es[0].value))] + EntriesMeaning(es[1..])
  }

  // ---------------------------------------------------------------------------
  // Whatever is spelled is read
  // ---------------------------------------------------------------------------

  lemma SkipBlank(pad: Text, s: Text)
    requires Blank(pad) && (s == [] || !(s[0] == 32 || s[0] == 9 || s[0] == 10 || s[0] == 13))
    ensures SkipWhite(pad + s) == s
  {
    SkipPad(pad, s);
  }

  lemma WordReads(name: Text, rest: Text)
    requires Known(name)
    ensures ParseValue(name + rest) == Ok((Keyword(name), rest))
  {
    KeywordRoundTrip(name, rest);
  }

  lemma FigureReads(n: Numeral, rest: Text, s: Text)
    requires ValidNumeral(n) && s == NumeralText(n) + rest
    requires NumberEnd(s) == |NumeralText(n)|
    ensures ParseValue(s) == Ok((Number(NumeralText(n)), rest))
  {
    NumeralEnds(n, rest, s);
    NumberIsNoKeyword(s);
    assert s[..|NumeralText(n)|] == NumeralText(n) && s[|NumeralText(n)|..] == rest;
  }

  lemma QuoteReads(ps: seq<Piece>, rest: Text, s: Text)
    requires ValidPieces(ps) && s == [34] + (PiecesText(ps) + ([34] + rest))
    ensures ParseValue(s) == Ok((String(PiecesMeaning(ps)), rest))
  {
    assert s[1..] == PiecesText(ps) + ([34] + rest);
    PiecesRead(ps, rest, s[1..]);
  }

  ghost predicate Mark(c: CodePoint) { c == 44 || c == 58 || c == 93 || c == 125 }

  /** What stands behind a value within an array or object neither continues a number nor hides the mark. */
  lemma BehindValue(after: Text, mark: CodePoint, more: Text)
    requires Blank(after) && Mark(mark)
    ensures Stops(after + ([mark] + more)) && SkipWhite(after + ([mark] + more)) == [mark] + more
  {
    SkipBlank(after, [mark] + more);
    var t := after + ([mark] + more);
    assert t[0] == if after == [] then mark else after[0];
  }

  /** A value starts with a character of its own, no white space and no closing bracket. */
  lemma SpellStart(x: Syntax, rest: Text, s: Text)
    requires Valid(x) && s == Spell(x) + rest
    ensures s != [] && !White(s[0]) && s[0] != 93 && s[0] != 125
  {
    match x
    case Word(name) => assert s[0] == name[0];
    case Figure(n) =>
      NumeralEnds(n, rest, s);
      assert NumeralText(n)[0] == if n.minus then 45 else n.whole[0];
      assert s[0] == NumeralText(n)[0];
    case Quote(_) => assert s[0] == 34;
    case List(_, _) => assert s[0] == 91;
    case Dict(_, _) => assert s[0] == 123;
  }

  lemma SkipToValue(pad: Text, x: Syntax, rest: Text, s: Text)
    requires Blank(pad) && Valid(x) && s == Spell(x) + rest
    ensures SkipWhite(pad + s) == s
  {
    SpellStart(x, rest, s);
    SkipBlank(pad, s);
  }

  lemma Nested(a: Text, b: Text, c: Text, rest: Text)
    ensures (a + (b + c)) + rest == a + (b + (c + rest))
  {
  }

  lemma ItemsSplit(items: seq<Item>, rest: Text, more: Text)
    requires items != []
    requires more == if |items| == 1 then rest else items[0].next + (SpellItems(items[1..]) + rest)
    ensures SpellItems(items) + rest ==
            Spell(items[0].value) + (items[0].after + ([if |items| == 1 then 93 else 44] + more))
  {
    if |items| == 1 {
      Nested(Spell(items[0].value), items[0].after, [93], rest);
    } else {
      var tail := SpellItems(items[1..]);
      Nested(Spell(items[0].value), items[0].after, [44] + (items[0].next + tail), rest);
      Nested([44], items[0].next, tail, rest);
    }
  }

  lemma EntriesSplit(es: seq<Entry>, rest: Text, more: Text)
    requires es != []
    requires more == if |es| == 1 then rest else es[0].next + (SpellEntries(es[1..]) + rest)
    ensures SpellEntries(es) + rest ==
            SpellKey(es[0]) + (Spell(es[0].value) + (es[0].after + ([if |es| == 1 then 125 else 44] + more)))
  {
    var value := Spell(es[0].value);
    if |es| == 1 {
      Nested(SpellKey(es[0]), value, es[0].after + [125], rest);
      Associate(es[0].after, [125], rest);
    } else {
      var tail := SpellEntries(es[1..]);
      var end := [44] + (es[0].next + tail);
      Nested(SpellKey(es[0]), value, es[0].after + end, rest);
      Associate(es[0].after, end, rest);
      Nested([44], es[0].next, tail, rest);
    }
  }

  lemma KeySplit(e: Entry, t: Text)
    ensures (SpellKey(e) + t)[0] == 34
    ensures (SpellKey(e) + t)[1..] == PiecesText(e.key) + ([34] + (e.beforeColon + ([58] + (e.behindColon + t))))
  {
  }

  /** A spelled value is read as what it means, if nothing behind it continues a number. */
  lemma {:induction false} SpelledIsRead(x: Syntax, rest: Text, s: Text)
    requires Valid(x) && s == Spell(x) + rest && (x.Figure? ==> NumberEnd(s) == |Spell(x)|)
    ensures ParseValue(s) == Ok((Meaning(x), rest))
    decreases x, 2
  {
    match x
    case Word(name) => WordReads(name, rest);
    case Figure(n) => FigureReads(n, rest, s);
    case Quote(ps) =>
      assert s == [34] + (PiecesText(ps) + ([34] + rest));
      QuoteReads(ps, rest, s);
    case List(open, items) =>
      if items == [] {
        EmptyListRead(open, rest, s);
      } else {
        var body := SpellItems(items) + rest;
        assert s == [91] + (open + body);
        ItemsRead(items, rest, body);
        ItemsStartWell(items, rest, body);
        ListRead(open, body, ItemsMeaning(items), rest);
      }
    case Dict(open, entries) =>
      if entries == [] {
        EmptyDictRead(open, rest, s);
      } else {
        var body := SpellEntries(entries) + rest;
        assert s == [123] + (open + body);
        EntriesRead(entries, rest, body);
        DictRead(open, body, EntriesMeaning(entries), rest);
      }
  }

  lemma ItemsStartWell(items: seq<Item>, rest: Text, s: Text)
    requires items != [] && ValidItems(items) && s == SpellItems(items) + rest
    ensures s != [] && !White(s[0]) && s[0] != 93
  {
    var more := if |items| == 1 then rest else items[0].next + (SpellItems(items[1..]) + rest);
    ItemsSplit(items, rest, more);
    SpellStart(items[0].value, items[0].after + ([if |items| == 1 then 93 else 44] + more), s);
  }

  lemma EmptyListRead(open: Text, rest: Text, s: Text)
    requires Blank(open) && s == [91] + (open + [93]) + rest
    ensures ParseValue(s) == Ok((Array([]), rest))
  {
    assert s[1..] == open + ([93] + rest);
    BehindValue(open, 93, rest);
  }

  lemma EmptyDictRead(open: Text, rest: Text, s: Text)
    requires Blank(open) && s == [123] + (open + [125]) + rest
    ensures ParseValue(s) == Ok((Object([]), rest))
  {
    assert s[1..] == open + ([125] + rest);
    BehindValue(open, 125, rest);
  }

  lemma ListRead(open: Text, body: Text, items: seq<Json>, rest: Text)
    requires Blank(open) && body != [] && !White(body[0]) && body[0] != 93
    requires ParseItems(body) == Ok((items, rest))
    ensures ParseValue([91] + (open + body)) == Ok((Array(items), rest))
  {
    assert ([91] + (open + body))[1..] == open + body;
    SkipBlank(open, body);
  }

  lemma DictRead(open: Text, body: Text, ms: Members, rest: Text)
    requires Blank(open) && body != [] && body[0] == 34 && ParseMembers(body) == Ok((ms, rest))
    ensures ParseValue([123] + (open + body)) == Ok((Object(Dictionary(ms)), rest))
  {
    assert ([123] + (open + body))[1..] == open + body;
    SkipBlank(open, body);
  }

  /** A value with something behind it that does not continue it. */
  lemma {:induction false} ValueWithin(x: Syntax, after: Text, mark: CodePoint, more: Text, s: Text)
    requires Valid(x) && Blank(after) && Mark(mark) && s == Spell(x) + (after + ([mark] + more))
    ensures ParseValue(s) == Ok((Meaning(x), after + ([mark] + more)))
    decreases x, 3
  {
    BehindValue(after, mark, more);
    if x.Figure? { NumeralEnds(x.numeral, after + ([mark] + more), s); }
    SpelledIsRead(x, after + ([mark] + more), s);
  }

  lemma {:induction false} ItemsRead(items: seq<Item>, rest: Text, s: Text)
    requires items != [] && ValidItems(items) && s == SpellItems(items) + rest
    ensures ParseItems(s) == Ok((ItemsMeaning(items), rest))
    decreases items, 1
  {
    var item, last := items[0], |items| == 1;
    var more := if last then rest else item.next + (SpellItems(items[1..]) + rest);
    var mark := if last then 93 else 44;
    var after := item.after + ([mark] + more);
    ItemsSplit(items, rest, more);
    ValueWithin(item.value, item.after, mark, more, s);
    BehindValue(item.after, mark, more);
    if last {
      LastItem(s, Meaning(item.value), after, rest);
      assert ItemsMeaning(items) == [Meaning(item.value)] + [] == [Meaning(item.value)];
    } else {
      var body := SpellItems(items[1..]) + rest;
      ItemsRead(items[1..], rest, body);
      ItemsStartWell(items[1..], rest, body);
      SkipBlank(item.next, body);
      NextItem(s, Meaning(item.value), after, more, ItemsMeaning(items[1..]), rest);
    }
  }

  lemma {:induction false} EntryRead(e: Entry, mark: CodePoint, more: Text, s: Text)
    requires ValidPieces(e.key) && Blank(e.beforeColon) && Blank(e.behindColon) && Valid(e.value) && Blank(e.after)
    requires Mark(mark) && s == SpellKey(e) + (Spell(e.value) + (e.after + ([mark] + more)))
    ensures ParseMember(s) == Ok((Member(PiecesMeaning(e.key), Meaning(e.value)), e.after + ([mark] + more)))
    ensures s[0] == 34
    decreases e, 4
  {
    var t := Spell(e.value) + (e.after + ([mark] + more));
    KeySplit(e, t);
    var behind := e.beforeColon + ([58] + (e.behindColon + t));
    PiecesRead(e.key, behind, s[1..]);
    BehindValue(e.beforeColon, 58, e.behindColon + t);
    SkipToValue(e.behindColon, e.value, e.after + ([mark] + more), t);
    ValueWithin(e.value, e.after, mark, more, t);
    MemberBuild(s, PiecesMeaning(e.key), behind, e.behindColon + t, Meaning(e.value), e.after + ([mark] + more));
  }

  lemma {:induction false} EntriesRead(es: seq<Entry>, rest: Text, s: Text)
    requires es != [] && ValidEntries(es) && s == SpellEntries(es) + rest
    ensures ParseMembers(s) == Ok((EntriesMeaning(es), rest))
    ensures s[0] == 34
    decreases es, 1
  {
    var e, last := es[0], |es| == 1;
    var more := if last then rest else e.next + (SpellEntries(es[1..]) + rest);
    var mark := if last then 125 else 44;
    var after := e.after + ([mark] + more);
    var m := Member(PiecesMeaning(e.key), Meaning(e.value));
    EntriesSplit(es, rest, more);
    EntryRead(e, mark, more, s);
    BehindValue(e.after, mark, more);
    if last {
      LastMember(s, m, after, rest);
      assert EntriesMeaning(es) == [m] + [] == [m];
    } else {
      var body := SpellEntries(es[1..]) + rest;
      EntriesRead(es[1..], rest, body);
      SkipBlank(e.next, body);
      NextMember(s, m, after, more, EntriesMeaning(es[1..]), rest);
    }
  }

  // ---------------------------------------------------------------------------
  // Whatever is read was spelled
  // ---------------------------------------------------------------------------

  function BlankBefore(s: Text): Text { s[..|s| - |SkipWhite(s)|] }

  lemma {:induction false} Skipped(s: Text)
    ensures Blank(BlankBefore(s)) && s == BlankBefore(s) + SkipWhite(s)
  {
    if s != [] && White(s[0]) {
      Skipped(s[1..]);
      assert BlankBefore(s) == [s[0]] + BlankBefore(s[1..]);
    }
  }

  ghost predicate Spells(x: Syntax, v: Json, s: Text, rest: Text) {
    Valid(x) && Meaning(x) == v && s == Spell(x) + rest
  }

  ghost predicate SpellsItems(items: seq<Item>, vs: seq<Json>, s: Text, rest: Text) {
    items != [] && ValidItems(items) && ItemsMeaning(items) == vs && s == SpellItems(items) + rest
  }

  ghost predicate SpellsEntries(es: seq<Entry>, ms: Members, s: Text, rest: Text) {
    es != [] && ValidEntries(es) && EntriesMeaning(es) == ms && s == SpellEntries(es) + rest
  }

  lemma QuoteSpelled(s: Text, t: Text, rest: Text)
    requires s != [] && s[0] == 34 && ParseString(s[1..]) == Ok((t, rest))
    ensures Spells(Quote(PiecesOf(s[1..])), String(t), s, rest)
  {
    PiecesTaken(s[1..], t, rest);
    var ps := PiecesText(PiecesOf(s[1..]));
    Nested([34], ps, [34], rest);
    assert s == [34] + s[1..];
  }

  lemma OpenSplit(mark: CodePoint, open: Text, body: Text, rest: Text, s: Text)
    requires s != [] && s[0] == mark && s[1..] == open + (body + rest)
    ensures s == [mark] + (open + body) + rest
  {
    Nested([mark], open, body, rest);
    assert s == [mark] + s[1..];
  }

  lemma EmptyListSpelled(open: Text, s: Text, rest: Text)
    requires Blank(open) && s == [91] + (open + [93]) + rest
    ensures Spells(List(open, []), Array([]), s, rest)
  {
  }

  lemma EmptyDictSpelled(open: Text, s: Text, rest: Text)
    requires Blank(open) && s == [123] + (open + [125]) + rest
    ensures Spells(Dict(open, []), Object([]), s, rest)
  {
    assert EntriesMeaning([]) == [] && Dictionary([]) == [];
  }

  lemma FullListSpelled(open: Text, items: seq<Item>, vs: seq<Json>, body: Text, s: Text, rest: Text)
    requires Blank(open) && s != [] && s[0] == 91 && s[1..] == open + body && SpellsItems(items, vs, body, rest)
    ensures Spells(List(open, items), Array(vs), s, rest)
  {
    OpenSplit(91, open, SpellItems(items), rest, s);
  }

  lemma FullDictSpelled(open: Text, es: seq<Entry>, ms: Members, body: Text, s: Text, rest: Text)
    requires Blank(open) && s != [] && s[0] == 123 && s[1..] == open + body && SpellsEntries(es, ms, body, rest)
    ensures Spells(Dict(open, es), Object(Dictionary(ms)), s, rest)
  {
    OpenSplit(123, open, SpellEntries(es), rest, s);
  }

  lemma KeywordKnown(c: CodePoint)
    ensures KeywordFor(c) != [] ==> Known(KeywordFor(c))
  {
  }

  lemma WordSpelled(name: Text, s: Text, rest: Text)
    requires Known(name) && s == name + rest
    ensures Spells(Word(name), Keyword(name), s, rest)
  {
  }

  lemma FigureSpelled(s: Text, n: nat)
    requires 0 < n == NumberEnd(s)
    ensures Spells(Figure(NumeralOf(s)), Number(s[..n]), s, s[n..])
  {
    NumeralTaken(s);
    assert s == s[..n] + s[n..];
  }

  lemma {:induction false} ValueSpelled(s: Text, v: Json, rest: Text)
    requires ParseValue(s) == Ok((v, rest))
    ensures exists x :: Spells(x, v, s, rest)
    decreases |s|, 0
  {
    if s[0] == 34 {
      QuoteSpelled(s, v.text, rest);
    } else if s[0] == 91 {
      ListSpelled(s, v, rest);
    } else if s[0] == 123 {
      DictSpelled(s, v, rest);
    } else if KeywordFor(s[0]) != [] && KeywordFor(s[0]) <= s {
      var name := KeywordFor(s[0]);
      KeywordKnown(s[0]);
      assert s == name + s[|name|..];
      WordSpelled(name, s, s[|name|..]);
    } else {
      FigureSpelled(s, NumberEnd(s));
    }
  }

  lemma {:induction false} ListSpelled(s: Text, v: Json, rest: Text)
    requires s != [] && s[0] == 91 && ParseValue(s) == Ok((v, rest))
    ensures exists x :: Spells(x, v, s, rest)
    decreases |s|, 0, 1
  {
    var open, s1 := BlankBefore(s[1..]), SkipWhite(s[1..]);
    Skipped(s[1..]);
    if s1 != [] && s1[0] == 93 {
      assert s1 == [93] + s1[1..];
      OpenSplit(91, open, [93], rest, s);
      EmptyListSpelled(open, s, rest);
    } else {
      ItemsSpelled(s1, v.items, rest);
      var items :| SpellsItems(items, v.items, s1, rest);
      FullListSpelled(open, items, v.items, s1, s, rest);
    }
  }

  lemma {:induction false} DictSpelled(s: Text, v: Json, rest: Text)
    requires s != [] && s[0] == 123 && ParseValue(s) == Ok((v, rest))
    ensures exists x :: Spells(x, v, s, rest)
    decreases |s|, 0, 1
  {
    var open, s1 := BlankBefore(s[1..]), SkipWhite(s[1..]);
    Skipped(s[1..]);
    if s1 != [] && s1[0] == 125 {
      assert s1 == [125] + s1[1..];
      OpenSplit(123, open, [125], rest, s);
      EmptyDictSpelled(open, s, rest);
    } else {
      var ms := ParseMembers(s1).value.0;
      EntriesSpelled(s1, ms, rest);
      var es :| SpellsEntries(es, ms, s1, rest);
      FullDictSpelled(open, es, ms, s1, s, rest);
    }
  }

  /** What stands behind a value that is not the last thing in the text. */
  lemma BehindTaken(behind: Text, mark: CodePoint)
    requires SkipWhite(behind) != [] && SkipWhite(behind)[0] == mark
    ensures Blank(BlankBefore(behind)) && behind == BlankBefore(behind) + ([mark] + SkipWhite(behind)[1..])
  {
    Skipped(behind);
    assert SkipWhite(behind) == [mark] + SkipWhite(behind)[1..];
  }

  lemma LastItemSpelled(x: Syntax, v: Json, after: Text, s: Text, rest: Text)
    requires Spells(x, v, s, after + ([93] + rest)) && Blank(after)
    ensures exists items :: SpellsItems(items, [v], s, rest)
  {
    var items := [Item(x, after, [])];
    assert items[1..] == [];
    ItemsSplit(items, rest, rest);
    assert ItemsMeaning(items) == [v] + [] == [v];
    assert SpellsItems(items, [v], s, rest);
  }

  lemma NextItemSpelled(x: Syntax, v: Json, after: Text, next: Text, body: Text, more: seq<Item>, vs: seq<Json>,
                        s: Text, rest: Text)
    requires Spells(x, v, s, after + ([44] + (next + body))) && Blank(after) && Blank(next)
    requires SpellsItems(more, vs, body, rest)
    ensures exists items :: SpellsItems(items, [v] + vs, s, rest)
  {
    var items := [Item(x, after, next)] + more;
    assert items[1..] == more;
    ItemsSplit(items, rest, next + body);
    assert SpellsItems(items, [v] + vs, s, rest);
  }

  lemma {:induction false} ItemsSpelled(s: Text, vs: seq<Json>, rest: Text)
    requires ParseItems(s) == Ok((vs, rest))
    ensures exists items :: SpellsItems(items, vs, s, rest)
    decreases |s|, 1
  {
    var (v, behind) := ParseValue(s).value;
    var s1 := SkipWhite(behind);
    ValueSpelled(s, v, behind);
    var x :| Spells(x, v, s, behind);
    BehindTaken(behind, s1[0]);
    if s1[0] == 93 {
      LastItemSpelled(x, v, BlankBefore(behind), s, rest);
    } else {
      var body := SkipWhite(s1[1..]);
      Skipped(s1[1..]);
      var more := ParseItems(body).value.0;
      ItemsSpelled(body, more, rest);
      var items :| SpellsItems(items, more, body, rest);
      NextItemSpelled(x, v, BlankBefore(behind), BlankBefore(s1[1..]), body, items, more, s, rest);
    }
  }

  /** One member with its key, up to the end of its value. */
  ghost predicate SpellsMember(e: Entry, m: Member, s: Text, rest: Text) {
    && ValidPieces(e.key) && Blank(e.beforeColon) && Blank(e.behindColon) && Valid(e.value)
    && m == Member(PiecesMeaning(e.key), Meaning(e.value)) && s == SpellKey(e) + (Spell(e.value) + rest)
  }

  lemma {:induction false} MemberSpelled(s: Text, m: Member, rest: Text)
    requires ParseMember(s) == Ok((m, rest))
    ensures exists e :: SpellsMember(e, m, s, rest)
    decreases |s|, 0
  {
    var (key, behind) := ParseString(s[1..]).value;
    var s1 := SkipWhite(behind);
    var body := SkipWhite(s1[1..]);
    PiecesTaken(s[1..], key, behind);
    BehindTaken(behind, 58);
    Skipped(s1[1..]);
    ValueSpelled(body, m.value, rest);
    var x :| Spells(x, m.value, body, rest);
    var e := Entry(PiecesOf(s[1..]), BlankBefore(behind), BlankBefore(s1[1..]), x, [], []);
    KeySplit(e, body);
    assert s == [34] + s[1..] && SpellKey(e) + body == [34] + (SpellKey(e) + body)[1..];
    assert SpellsMember(e, m, s, rest);
  }

  lemma LastEntrySpelled(e: Entry, m: Member, after: Text, s: Text, rest: Text)
    requires SpellsMember(e, m, s, after + ([125] + rest)) && Blank(after)
    ensures exists es :: SpellsEntries(es, [m], s, rest)
  {
    var es := [e.(after := after, next := [])];
    assert es[1..] == [] && SpellKey(es[0]) == SpellKey(e);
    EntriesSplit(es, rest, rest);
    assert EntriesMeaning(es) == [m] + [] == [m];
    assert SpellsEntries(es, [m], s, rest);
  }

  lemma NextEntrySpelled(e: Entry, m: Member, after: Text, next: Text, body: Text, more: seq<Entry>, ms: Members,
                         s: Text, rest: Text)
    requires SpellsMember(e, m, s, after + ([44] + (next + body))) && Blank(after) && Blank(next)
    requires SpellsEntries(more, ms, body, rest)
    ensures exists es :: SpellsEntries(es, [m] + ms, s, rest)
  {
    var es := [e.(after := after, next := next)] + more;
    assert es[1..] == more && SpellKey(es[0]) == SpellKey(e);
    EntriesSplit(es, rest, next + body);
    assert SpellsEntries(es, [m] + ms, s, rest);
  }

  lemma {:induction false} EntriesSpelled(s: Text, ms: Members, rest: Text)
    requires ParseMembers(s) == Ok((ms, rest))
    ensures exists es :: SpellsEntries(es, ms, s, rest)
    decreases |s|, 1
  {
    var (m, behind) := ParseMember(s).value;
    var s1 := SkipWhite(behind);
    MemberSpelled(s, m, behind);
    var e :| SpellsMember(e, m, s, behind);
    BehindTaken(behind, s1[0]);
    if s1[0] == 125 {
      LastEntrySpelled(e, m, BlankBefore(behind), s, rest);
    } else {
      var body := SkipWhite(s1[1..]);
      Skipped(s1[1..]);
      var more := ParseMembers(body).value.0;
      EntriesSpelled(body, more, rest);
      var es :| SpellsEntries(es, more, body, rest);
      NextEntrySpelled(e, m, BlankBefore(behind), BlankBefore(s1[1..]), body, es, more, s, rest);
    }
  }

  // ---------------------------------------------------------------------------
  // The decoder accepts exactly what can be spelled
  // ---------------------------------------------------------------------------

  /** No longer number starts the text. */
  ghost predicate Longest(n: Numeral, s: Text) {
    forall m: Numeral {:trigger NumeralText(m)} ::
      ValidNumeral(m) && NumeralText(m) <= s ==> |NumeralText(m)| <= |NumeralText(n)|
  }

  lemma LongestEnds(n: Numeral, s: Text)
    requires ValidNumeral(n) && NumeralText(n) <= s
    ensures NumberEnd(s) == |NumeralText(n)| <==> Longest(n, s)
  {
    NumeralEnds(n, s[|NumeralText(n)|..], s);
    if Longest(n, s) {
      NumeralTaken(s);
      assert NumeralText(NumeralOf(s)) <= s;
    }
    if NumberEnd(s) == |NumeralText(n)| {
      forall m: Numeral | ValidNumeral(m) && NumeralText(m) <= s ensures |NumeralText(m)| <= |NumeralText(n)| {
        NumeralEnds(m, s[|NumeralText(m)|..], s);
      }
    }
  }

  /**
    The decoder reads a value from the start of a text, and leaves a rest, exactly
    when what is before the rest is one of the spellings of the value; of numbers
    it takes the longest.
   */
  lemma AcceptsExactly(s: Text, v: Json, rest: Text)
    ensures ParseValue(s) == Ok((v, rest)) <==>
            exists x :: Spells(x, v, s, rest) && (x.Figure? ==> Longest(x.numeral, s))
  {
    if ParseValue(s) == Ok((v, rest)) {
      ValueSpelled(s, v, rest);
      var x :| Spells(x, v, s, rest);
      if x.Figure? {
        NumeralEnds(x.numeral, rest, s);
        NumberIsNoKeyword(s);
        LongestEnds(x.numeral, s);
      }
    }
    if x :| Spells(x, v, s, rest) && (x.Figure? ==> Longest(x.numeral, s)) {
      if x.Figure? { LongestEnds(x.numeral, s); }
      SpelledIsRead(x, rest, s);
    }
  }

  /** Nothing but a value may start the text, not even white space. */
  lemma NothingBefore(s: Text)
    requires s == [] || s[0] == 32 || s[0] == 9 || s[0] == 10 || s[0] == 13 || s[0] == 125
    ensures ParseValue(s).Err?
  {
    if ParseValue(s).Ok? {
      var (v, rest) := ParseValue(s).value;
      ValueSpelled(s, v, rest);
      var x :| Spells(x, v, s, rest);
      SpellStart(x, rest, s);
      assert false;
    }
  }

  // ---------------------------------------------------------------------------
  // Equal keys
  // ---------------------------------------------------------------------------

  /** The keys in the order in which they first occur. */
  function FirstKeys(ms: Members): seq<Text> {
    if ms == [] then []
    else
      var ks, key := FirstKeys(ms[..|ms| - 1]), ms[|ms| - 1].key;
      if key in ks then ks else ks + [key]
  }

  function Keys(d: Members): seq<Text> {
    seq(|d|, i requires 0 <= i < |d| => d[i].key)
  }

  /** The last of the members with its key. */
  ghost predicate LastOfKey(ms: Members, i: nat)
    requires i < |ms|
  {
    forall j :: i < j < |ms| ==> ms[j].key != ms[i].key
  }

  lemma {:induction false} PutFrame(d: Members, key: Text, value: Json)
    ensures Keys(Put(d, key, value)) == if key in Keys(d) then Keys(d) else Keys(d) + [key]
    ensures forall m :: m in Put(d, key, value) ==> m == Member(key, value) || m in d
  {
    if d != [] {
      assert d == [d[0]] + d[1..] && Keys(d) == [d[0].key] + Keys(d[1..]);
      var more := Put(d[1..], key, value);
      if d[0].key != key {
        PutFrame(d[1..], key, value);
        assert Keys([d[0]] + more) == [d[0].key] + Keys(more);
      } else {
        assert Keys([Member(key, value)] + d[1..]) == [key] + Keys(d[1..]);
      }
    }
  }

  lemma {:induction false} PutKeeps(d: Members, key: Text, value: Json, m: Member)
    requires m in d && m.key != key
    ensures m in Put(d, key, value)
  {
    if d[0].key != key && m != d[0] {
      assert m in d[1..];
      PutKeeps(d[1..], key, value, m);
    } else if m != d[0] {
      assert m in d[1..];
    }
  }

  lemma {:induction false} PutSets(d: Members, key: Text, value: Json)
    ensures Member(key, value) in Put(d, key, value)
  {
    if d != [] && d[0].key != key { PutSets(d[1..], key, value); }
  }

  lemma {:induction false} DictionaryKeys(ms: Members)
    ensures Keys(Dictionary(ms)) == FirstKeys(ms)
  {
    if ms != [] {
      var n := |ms| - 1;
      DictionaryKeys(ms[..n]);
      PutFrame(Dictionary(ms[..n]), ms[n].key, ms[n].value);
    }
  }

  lemma {:induction false} FirstKeysDistinct(ms: Members)
    ensures forall i, j :: 0 <= i < j < |FirstKeys(ms)| ==> FirstKeys(ms)[i] != FirstKeys(ms)[j]
    ensures forall i :: 0 <= i < |ms| ==> ms[i].key in FirstKeys(ms)
  {
    if ms != [] {
      var n := |ms| - 1;
      FirstKeysDistinct(ms[..n]);
      forall i | 0 <= i < |ms| ensures ms[i].key in FirstKeys(ms) {
        if i < n { assert ms[..n][i] == ms[i]; }
      }
    }
  }

  lemma {:induction false} LastIsHeld(ms: Members, i: nat)
    requires i < |ms| && LastOfKey(ms, i)
    ensures ms[i] in Dictionary(ms)
  {
    var n := |ms| - 1;
    var d := Dictionary(ms[..n]);
    if i == n {
      PutSets(d, ms[n].key, ms[n].value);
    } else {
      assert forall j :: i < j < n ==> ms[..n][j] == ms[j];
      LastIsHeld(ms[..n], i);
      PutKeeps(d, ms[n].key, ms[n].value, ms[i]);
    }
  }

  /** An object has each key once, where it first occurs, with the value that occurs last. */
  lemma DictionaryMeaning(ms: Members)
    ensures Keys(Dictionary(ms)) == FirstKeys(ms) && DistinctKeys(Dictionary(ms))
    ensures forall i :: 0 <= i < |ms| && LastOfKey(ms, i) ==> ms[i] in Dictionary(ms)
  {
    DictionaryKeys(ms);
    FirstKeysDistinct(ms);
    var d := Dictionary(ms);
    forall i, j | 0 <= i < j < |d| ensures d[i].key != d[j].key { assert Keys(d)[i] != Keys(d)[j]; }
    forall i | 0 <= i < |ms| && LastOfKey(ms, i) ensures ms[i] in d { LastIsHeld(ms, i); }
  }

  // ---------------------------------------------------------------------------
  // How values are written
  // ---------------------------------------------------------------------------

  /** Decimal digits and small letters. */
  ghost predicate LowerHex(c: CodePoint) { 48 <= c <= 57 || 97 <= c <= 102 }

  ghost predicate FourDigits(t: Text) {
    |t| == 6 && t[0] == 92 && t[1] == 117 && forall i :: 2 <= i < 6 ==> LowerHex(t[i])
  }

  /** How each character of a string is written; what four digits stand for follows from their being read back. */
  lemma EscapeMeaning(c: CodePoint)
    ensures var t := EscapeChar(c);
            if c == 34 || c == 92 then t == [92, c]
            else if c == 8 then t == [92, 98]
            else if c == 9 then t == [92, 116]
            else if c == 10 then t == [92, 110]
            else if c == 12 then t == [92, 102]
            else if c == 13 then t == [92, 114]
            else if 32 <= c <= 126 then t == [c]
            else if c < 0x1_0000 then FourDigits(t)
            else |t| == 12 && FourDigits(t[..6]) && FourDigits(t[6..])
  {
  }

  /** How long the text of a value is without any white space. */
  function Size(v: Json): nat
    decreases v, 1
  {
    match v
    case Keyword(name) => |name|
    case Number(literal) => |literal|
    case String(text) => |Escape(text)| + 2
    case Array(items) => if items == [] then 2 else 1 + ItemsSize(items)
    case Object(members) => if members == [] then 2 else 1 + MembersSize(members)
  }

  /** Each item with the comma or bracket behind it. */
  function ItemsSize(items: seq<Json>): nat
    decreases items, 0
  {
    if items == [] then 0 else Size(items[0]) + 1 + ItemsSize(items[1..])
  }

  /** Each key with its quotes and the colon, and each value with the comma or brace behind it. */
  function MembersSize(ms: Members): nat
    decreases ms, 0
  {
    if ms == [] then 0 else |Escape(ms[0].key)| + 3 + Size(ms[0].value) + 1 + MembersSize(ms[1..])
  }

  /** Values are written without white space. */
  lemma {:induction false} PrintSize(v: Json)
    ensures |Print(v)| == Size(v)
    decreases v, 1
  {
    match v
    case Array(items) => if items != [] { ItemsPrintSize(items); }
    case Object(members) => if members != [] { MembersPrintSize(members); }
    case _ =>
  }

  lemma {:induction false} ItemsPrintSize(items: seq<Json>)
    requires items != []
    ensures |PrintItems(items)| == ItemsSize(items)
    decreases items, 0
  {
    PrintSize(items[0]);
    if |items| > 1 { ItemsPrintSize(items[1..]); }
  }

  lemma {:induction false} MembersPrintSize(ms: Members)
    requires ms != []
    ensures |PrintMembers(ms, [])| == MembersSize(ms)
    decreases ms, 0
  {
    PrintSize(ms[0].value);
    if |ms| > 1 { MembersPrintSize(ms[1..]); }
  }
}

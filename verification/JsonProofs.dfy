/** Printed JSON is read back, and no cut-off object is ever taken for a whole one. */
module JsonProofs {
  import opened Wrappers
  import opened Sequences
  import opened Utf8
  import opened Json

  // ---------------------------------------------------------------------------
  // Strings
  // ---------------------------------------------------------------------------

  /** The text with every low surrogate that follows a high one merged into it. */
  function Joined(t: Text): Text {
    if t == [] then []
    else if |t| >= 2 && High(t[0]) && Low(t[1]) then [Pair(t[0], t[1])] + Joined(t[2..])
    else [t[0]] + Joined(t[1..])
  }

  /** No character is written as two separate surrogates. */
  predicate Unsplit(t: Text) {
    forall i :: 0 <= i < |t| - 1 ==> !(High(t[i]) && Low(t[i + 1]))
  }

  lemma {:induction false} JoinedIsSame(t: Text)
    ensures |Joined(t)| <= |t|
    ensures Joined(t) == t <==> Unsplit(t)
  {
    if t == [] {
    } else if |t| >= 2 && High(t[0]) && Low(t[1]) {
      JoinedIsSame(t[2..]);
    } else {
      JoinedIsSame(t[1..]);
      assert t == [t[0]] + t[1..];
      assert Joined(t)[1..] == Joined(t[1..]);
      if Unsplit(t[1..]) {
        forall i | 0 <= i < |t| - 1 ensures !(High(t[i]) && Low(t[i + 1])) {
          assert i > 0 ==> !(High(t[1..][i - 1]) && Low(t[1..][i]));
        }
      }
    }
  }

  lemma UnicodeReadBack(n: int, rest: Text)
    requires 0 <= n < 0x1_0000
    ensures ParseUnicode(UnicodeEscape(n) + rest) == Ok(n)
  {
    var s := UnicodeEscape(n) + rest;
    assert forall i :: 0 <= i < 6 ==> s[i] == UnicodeEscape(n)[i];
    assert n / 16 / 16 == n / 256 && n / 256 / 16 == n / 4096;
  }

  lemma BasicReadBack(c: CodePoint, rest: Text)
    requires c < 0x1_0000
    requires !High(c) || !StartsUnicode(rest) || (ParseUnicode(rest).Ok? && !Low(ParseUnicode(rest).value))
    ensures ParseChar(UnicodeEscape(c) + rest) == Ok((c, rest))
  {
    UnicodeReadBack(c, rest);
    assert (UnicodeEscape(c) + rest)[6..] == rest;
  }

  lemma HalvesReadBack(hi: CodePoint, lo: CodePoint, rest: Text)
    requires High(hi) && Low(lo)
    ensures ParseChar(UnicodeEscape(hi) + (UnicodeEscape(lo) + rest)) == Ok((Pair(hi, lo), rest))
  {
    var s := UnicodeEscape(hi) + (UnicodeEscape(lo) + rest);
    UnicodeReadBack(hi, UnicodeEscape(lo) + rest);
    UnicodeReadBack(lo, rest);
    assert s[6..] == UnicodeEscape(lo) + rest && s[12..] == rest;
  }

  lemma ShortReadBack(c: CodePoint, rest: Text)
    requires ShortEscape(c) != 0 || 32 <= c < 127
    ensures ParseChar(EscapeChar(c) + rest) == Ok((c, rest))
  {
    var s := EscapeChar(c) + rest;
    if ShortEscape(c) != 0 {
      assert s[0] == BACKSLASH && s[1] == ShortEscape(c) && s[2..] == rest;
    } else {
      assert s[0] == c && s[1..] == rest;
    }
  }

  lemma CharReadBack(c: CodePoint, rest: Text)
    requires !High(c) || !StartsUnicode(rest) || (ParseUnicode(rest).Ok? && !Low(ParseUnicode(rest).value))
    ensures ParseChar(EscapeChar(c) + rest) == Ok((c, rest))
  {
    if ShortEscape(c) != 0 || 32 <= c < 127 {
      ShortReadBack(c, rest);
    } else if c < 0x1_0000 {
      BasicReadBack(c, rest);
    } else {
      WideReadBack(c, rest);
    }
  }

  lemma WideReadBack(c: CodePoint, rest: Text)
    requires c >= 0x1_0000
    ensures ParseChar(EscapeChar(c) + rest) == Ok((c, rest))
  {
    var hi, lo := 0xD800 + (c - 0x1_0000) / 0x400, 0xDC00 + (c - 0x1_0000) % 0x400;
    assert Pair(hi, lo) == c && High(hi) && Low(lo);
    HalvesReadBack(hi, lo, rest);
    WideText(c, hi, lo, rest);
  }

  lemma WideText(c: CodePoint, hi: CodePoint, lo: CodePoint, rest: Text)
    requires c >= 0x1_0000 && hi == 0xD800 + (c - 0x1_0000) / 0x400 && lo == 0xDC00 + (c - 0x1_0000) % 0x400
    ensures EscapeChar(c) + rest == UnicodeEscape(hi) + (UnicodeEscape(lo) + rest)
  {
    Associate(UnicodeEscape(hi), UnicodeEscape(lo), rest);
  }

  lemma PairReadBack(hi: CodePoint, lo: CodePoint, rest: Text)
    requires High(hi) && Low(lo)
    ensures ParseChar(EscapeChar(hi) + (EscapeChar(lo) + rest)) == Ok((Pair(hi, lo), rest))
  {
    HalvesReadBack(hi, lo, rest);
  }

  /** How the escape of `d` starts, seen from a high surrogate right before it. */
  lemma EscapeStart(d: CodePoint, rest: Text)
    requires !Low(d)
    ensures StartsUnicode(EscapeChar(d) + rest) ==>
              ParseUnicode(EscapeChar(d) + rest).Ok? && !Low(ParseUnicode(EscapeChar(d) + rest).value)
    ensures (EscapeChar(d) + rest)[0] != QUOTE
  {
    if ShortEscape(d) == 0 && !(32 <= d < 127) {
      if d < 0x1_0000 {
        UnicodeReadBack(d, rest);
      } else {
        var hi, lo := 0xD800 + (d - 0x1_0000) / 0x400, 0xDC00 + (d - 0x1_0000) % 0x400;
        assert EscapeChar(d) + rest == UnicodeEscape(hi) + (UnicodeEscape(lo) + rest);
        UnicodeReadBack(hi, UnicodeEscape(lo) + rest);
      }
    }
  }

  /** Reading an escaped text gives it back with split surrogate pairs joined. */
  lemma {:induction false} StringReadBack(t: Text, rest: Text)
    ensures ParseString(Escape(t) + ([QUOTE] + rest)) == Ok((Joined(t), rest))
    decreases |t|
  {
    var s := Escape(t) + ([QUOTE] + rest);
    if t == [] {
      assert s == [QUOTE] + rest && s[1..] == rest;
    } else {
      var more := Escape(t[1..]) + ([QUOTE] + rest);
      assert s == EscapeChar(t[0]) + more;
      if |t| >= 2 && High(t[0]) && Low(t[1]) {
        var more2 := Escape(t[2..]) + ([QUOTE] + rest);
        assert t[1..][1..] == t[2..];
        assert more == EscapeChar(t[1]) + more2;
        PairReadBack(t[0], t[1], more2);
        StringReadBack(t[2..], rest);
      } else {
        if |t| >= 2 && !Low(t[1]) {
          EscapeStart(t[1], Escape(t[2..]) + ([QUOTE] + rest));
          assert t[1..][1..] == t[2..];
          assert more == EscapeChar(t[1]) + (Escape(t[2..]) + ([QUOTE] + rest));
        }
        if |t| == 1 { assert more[0] == QUOTE; }
        CharReadBack(t[0], more);
        assert s[0] != QUOTE;
        StringReadBack(t[1..], rest);
      }
    }
  }

  /** A string survives being written and read exactly when it holds no split surrogate pair. */
  lemma StringRoundTrip(t: Text, rest: Text)
    ensures ParseValue(Quoted(t) + rest) == Ok((String(t), rest)) <==> Unsplit(t)
  {
    QuotedReadBack(t, rest);
    JoinedIsSame(t);
  }

  lemma QuotedReadBack(t: Text, rest: Text)
    ensures (Quoted(t) + rest)[0] == QUOTE
    ensures ParseString((Quoted(t) + rest)[1..]) == Ok((Joined(t), rest))
  {
    assert (Quoted(t) + rest)[1..] == Escape(t) + ([QUOTE] + rest);
    StringReadBack(t, rest);
  }

  // ---------------------------------------------------------------------------
  // Numbers
  // ---------------------------------------------------------------------------

  /** Text that cannot continue a number. */
  predicate Stops(s: Text) {
    s == [] || !(Digit(s[0]) || s[0] == DOT || ExponentMark(s[0]))
  }

  lemma {:induction false} DigitsStable(s: Text, q: Text, i: nat)
    requires i <= |s|
    requires DigitsEnd(s, i) < |s| || q == [] || !Digit(q[0])
    ensures DigitsEnd(s + q, i) == DigitsEnd(s, i)
    decreases |s| - i
  {
    if i < |s| && Digit(s[i]) { DigitsStable(s, q, i + 1); }
  }

  lemma IntegerStable(s: Text, q: Text)
    requires IntegerEnd(s) > 0 && (IntegerEnd(s) < |s| || q == [] || !Digit(q[0]))
    ensures IntegerEnd(s + q) == IntegerEnd(s)
  {
    var i := if s[0] == MINUS then 1 else 0;
    assert (s + q)[i] == s[i];
    if s[i] != 48 { DigitsStable(s, q, i); }
  }

  lemma FractionStable(s: Text, q: Text, j: nat)
    requires j <= |s|
    requires FractionEnd(s, j) == j < |s + q| ==> (s + q)[j] != DOT
    requires j < FractionEnd(s, j) == |s| ==> q == [] || !Digit(q[0])
    ensures FractionEnd(s + q, j) == FractionEnd(s, j)
  {
    if j < |s| && s[j] == DOT { DigitsStable(s, q, j + 1); }
  }

  lemma ExponentStable(s: Text, q: Text, k: nat)
    requires k <= |s|
    requires ExponentEnd(s, k) == k < |s + q| ==> !ExponentMark((s + q)[k])
    requires k < ExponentEnd(s, k) == |s| ==> q == [] || !Digit(q[0])
    ensures ExponentEnd(s + q, k) == ExponentEnd(s, k)
  {
    if k < |s| && ExponentMark(s[k]) {
      var e := if k + 1 < |s| && (s[k + 1] == MINUS || s[k + 1] == 43) then k + 2 else k + 1;
      DigitsStable(s, q, e);
    }
  }

  /** Appending text does not change a number literal that ends before something that stops it. */
  lemma NumberStable(s: Text, q: Text)
    requires NumberEnd(s) > 0
    requires Stops((s + q)[NumberEnd(s)..])
    ensures NumberEnd(s + q) == NumberEnd(s)
  {
    var j := IntegerEnd(s);
    var k := FractionEnd(s, j);
    var n := ExponentEnd(s, k);
    assert n < |s + q| ==> (s + q)[n..][0] == (s + q)[n];
    assert k < n ==> ExponentMark((s + q)[k]);
    ExponentStable(s, q, k);
    FractionStable(s, q, j);
    IntegerStable(s, q);
  }

  // ---------------------------------------------------------------------------
  // Values: what is printed is read back
  // ---------------------------------------------------------------------------

  ghost predicate DistinctKeys(ms: Members) {
    forall i, j :: 0 <= i < j < |ms| ==> ms[i].key != ms[j].key
  }

  /** Values as the decoder makes them. */
  ghost predicate Clean(v: Json)
    decreases v, 1
  {
    match v
    case Keyword(name) => IsKeyword(name)
    case Number(literal) => IsNumber(literal)
    case String(text) => Unsplit(text)
    case Array(items) => CleanItems(items)
    case Object(members) => CleanMembers(members) && DistinctKeys(members)
  }

  ghost predicate CleanItems(items: seq<Json>)
    decreases items, 0
  {
    items != [] ==> Clean(items[0]) && CleanItems(items[1..])
  }

  ghost predicate CleanMembers(ms: Members)
    decreases ms, 0
  {
    ms != [] ==> Unsplit(ms[0].key) && Clean(ms[0].value) && CleanMembers(ms[1..])
  }

  lemma {:induction false} PutNew(d: Members, key: Text, value: Json)
    requires forall i :: 0 <= i < |d| ==> d[i].key != key
    ensures Put(d, key, value) == d + [Member(key, value)]
  {
    if d != [] { PutNew(d[1..], key, value); }
  }

  lemma {:induction false} DistinctDictionary(ms: Members)
    requires DistinctKeys(ms)
    ensures Dictionary(ms) == ms
  {
    if ms != [] {
      var n := |ms| - 1;
      DistinctDictionary(ms[..n]);
      PutNew(ms[..n], ms[n].key, ms[n].value);
    }
  }

  lemma PrintStart(v: Json, rest: Text)
    requires Clean(v)
    ensures Print(v) != []
    ensures SkipWhite(Print(v) + rest) == Print(v) + rest
    ensures (Print(v) + rest)[0] != RBRACKET
  {
    assert (Print(v) + rest)[0] == Print(v)[0];
  }

  predicate AllWhite(s: Text) { forall i :: 0 <= i < |s| ==> White(s[i]) }

  lemma {:induction false} SkipPad(pad: Text, s: Text)
    requires AllWhite(pad) && (s == [] || !White(s[0]))
    ensures SkipWhite(pad + s) == s
  {
    if pad == [] {
      assert pad + s == s;
    } else {
      assert (pad + s)[1..] == pad[1..] + s;
      SkipPad(pad[1..], s);
    }
  }

  lemma NumberRoundTrip(literal: Text, rest: Text)
    requires IsNumber(literal) && Stops(rest)
    ensures ParseValue(literal + rest) == Ok((Number(literal), rest))
  {
    var s := literal + rest;
    assert s[|literal|..] == rest && s[..|literal|] == literal;
    NumberStable(literal, rest);
    NumberIsNoKeyword(s);
  }

  /** Text that starts a number starts neither a keyword nor anything else. */
  lemma NumberIsNoKeyword(s: Text)
    requires NumberEnd(s) > 0
    ensures s[0] != QUOTE && s[0] != LBRACKET && s[0] != LBRACE
    ensures !(KeywordFor(s[0]) != [] && KeywordFor(s[0]) <= s)
  {
    if s[0] == MINUS { assert KeywordFor(s[0])[1] != s[1]; }
  }

  lemma KeywordRoundTrip(name: Text, rest: Text)
    requires IsKeyword(name)
    ensures ParseValue(name + rest) == Ok((Keyword(name), rest))
  {
    var s := name + rest;
    assert s[|name|..] == rest && s[..|name|] == name && s[0] == name[0];
  }

  /** Any clean value is read back from its printed form, and the text behind it is left alone. */
  lemma {:induction false} ValueRoundTrip(v: Json, rest: Text)
    requires Clean(v) && (v.Number? ==> Stops(rest))
    ensures ParseValue(Print(v) + rest) == Ok((v, rest))
    decreases v, 1
  {
    match v
    case Keyword(name) => KeywordRoundTrip(name, rest);
    case Number(literal) => NumberRoundTrip(literal, rest);
    case String(text) => StringRoundTrip(text, rest);
    case Array(items) => if items == [] { EmptyRoundTrip(rest); } else { ArrayRoundTrip(items, rest); }
    case Object(members) => if members == [] { EmptyRoundTrip(rest); } else { ObjectRoundTrip(members, [], rest); }
  }

  lemma {:induction false} ArrayRoundTrip(items: seq<Json>, rest: Text)
    requires items != [] && CleanItems(items)
    ensures ParseValue([LBRACKET] + PrintItems(items) + rest) == Ok((Array(items), rest))
    decreases items, 2
  {
    var s := PrintItems(items) + rest;
    ItemsRoundTrip(items, rest);
    ItemsStart(items, rest);
    ArrayStep(s, items, rest);
    assert [LBRACKET] + PrintItems(items) + rest == [LBRACKET] + s;
  }

  lemma ItemsStart(items: seq<Json>, rest: Text)
    requires items != [] && CleanItems(items)
    ensures (PrintItems(items) + rest)[0] != RBRACKET && !White((PrintItems(items) + rest)[0])
  {
    PrintStart(items[0], []);
    assert Print(items[0]) + [] == Print(items[0]);
  }

  /** Also with white space behind each member, as in a file header. */
  lemma {:induction false} ObjectRoundTrip(ms: Members, pad: Text, rest: Text)
    requires ms != [] && CleanMembers(ms) && DistinctKeys(ms) && AllWhite(pad)
    ensures ParseValue([LBRACE] + PrintMembers(ms, pad) + rest) == Ok((Object(ms), rest))
    decreases ms, 2
  {
    var s := PrintMembers(ms, pad) + rest;
    MembersRoundTrip(ms, pad, rest);
    DistinctDictionary(ms);
    ObjectStep(s, ms, rest);
    assert [LBRACE] + PrintMembers(ms, pad) + rest == [LBRACE] + s;
  }

  lemma EmptyRoundTrip(rest: Text)
    ensures ParseValue([LBRACKET, RBRACKET] + rest) == Ok((Array([]), rest))
    ensures ParseValue([LBRACE, RBRACE] + rest) == Ok((Object([]), rest))
  {
    assert ([LBRACKET, RBRACKET] + rest)[1..] == [RBRACKET] + rest && ([RBRACKET] + rest)[1..] == rest;
    assert ([LBRACE, RBRACE] + rest)[1..] == [RBRACE] + rest && ([RBRACE] + rest)[1..] == rest;
  }

  lemma ArrayStep(s: Text, items: seq<Json>, rest: Text)
    requires ParseItems(s) == Ok((items, rest))
    requires s[0] != RBRACKET && !White(s[0])
    ensures ParseValue([LBRACKET] + s) == Ok((Array(items), rest))
  {
    assert ([LBRACKET] + s)[1..] == s;
  }

  lemma ObjectStep(s: Text, ms: Members, rest: Text)
    requires ParseMembers(s) == Ok((ms, rest))
    requires s[0] == QUOTE
    ensures ParseValue([LBRACE] + s) == Ok((Object(Dictionary(ms)), rest))
  {
    assert ([LBRACE] + s)[1..] == s;
  }

  lemma LastItem(s: Text, v: Json, after: Text, rest: Text)
    requires ParseValue(s) == Ok((v, after)) && SkipWhite(after) == [RBRACKET] + rest
    ensures ParseItems(s) == Ok(([v], rest))
  {
    assert ([RBRACKET] + rest)[1..] == rest;
  }

  lemma NextItem(s: Text, v: Json, after: Text, more: Text, items: seq<Json>, rest: Text)
    requires ParseValue(s) == Ok((v, after)) && SkipWhite(after) == [COMMA] + more
    requires ParseItems(SkipWhite(more)) == Ok((items, rest))
    ensures ParseItems(s) == Ok(([v] + items, rest))
  {
    assert ([COMMA] + more)[1..] == more;
  }

  /** What is printed behind the first item. */
  function ItemsTail(items: seq<Json>, rest: Text): (r: Text)
    requires items != []
    ensures r != [] && (r[0] == RBRACKET || r[0] == COMMA)
  {
    if |items| == 1 then [RBRACKET] + rest else [COMMA] + (PrintItems(items[1..]) + rest)
  }

  lemma ItemsText(items: seq<Json>, rest: Text)
    requires items != []
    ensures PrintItems(items) + rest == Print(items[0]) + ItemsTail(items, rest)
  {
  }

  lemma {:induction false} ItemRoundTrip(items: seq<Json>, rest: Text)
    requires items != [] && CleanItems(items)
    ensures ParseValue(PrintItems(items) + rest) == Ok((items[0], ItemsTail(items, rest)))
    ensures SkipWhite(ItemsTail(items, rest)) == ItemsTail(items, rest)
    decreases items, 0
  {
    ItemsText(items, rest);
    ValueRoundTrip(items[0], ItemsTail(items, rest));
  }

  lemma {:induction false} ItemsRoundTrip(items: seq<Json>, rest: Text)
    requires items != [] && CleanItems(items)
    ensures ParseItems(PrintItems(items) + rest) == Ok((items, rest))
    decreases items, 1
  {
    var s := PrintItems(items) + rest;
    var tail := ItemsTail(items, rest);
    ItemRoundTrip(items, rest);
    if |items| == 1 {
      LastItem(s, items[0], tail, rest);
      assert items == [items[0]];
    } else {
      var more := PrintItems(items[1..]) + rest;
      ItemsRoundTrip(items[1..], rest);
      ItemsStart(items[1..], rest);
      NextItem(s, items[0], tail, more, items[1..], rest);
      assert items == [items[0]] + items[1..];
    }
  }

  lemma {:induction false} MembersRoundTrip(ms: Members, pad: Text, rest: Text)
    requires ms != [] && CleanMembers(ms) && AllWhite(pad)
    ensures ParseMembers(PrintMembers(ms, pad) + rest) == Ok((ms, rest))
    ensures (PrintMembers(ms, pad) + rest)[0] == QUOTE
    decreases ms, 1
  {
    var s := PrintMembers(ms, pad) + rest;
    var tail := MembersTail(ms, pad, rest);
    MemberRoundTrip(ms, pad, rest);
    SkipPad(pad, tail);
    if |ms| == 1 {
      LastMember(s, ms[0], pad + tail, rest);
      assert ms == [ms[0]];
    } else {
      var more := PrintMembers(ms[1..], pad) + rest;
      MembersRoundTrip(ms[1..], pad, rest);
      assert SkipWhite(more) == more;
      NextMember(s, ms[0], pad + tail, more, ms[1..], rest);
      assert ms == [ms[0]] + ms[1..];
    }
  }

  /** What is printed behind the first member and its padding. */
  function MembersTail(ms: Members, pad: Text, rest: Text): (r: Text)
    requires ms != []
    ensures r != [] && (r[0] == RBRACE || r[0] == COMMA)
  {
    if |ms| == 1 then [RBRACE] + rest else [COMMA] + (PrintMembers(ms[1..], pad) + rest)
  }

  lemma MembersText(ms: Members, pad: Text, rest: Text)
    requires ms != []
    ensures PrintMembers(ms, pad) + rest
         == Quoted(ms[0].key) + ([COLON] + (Print(ms[0].value) + (pad + MembersTail(ms, pad, rest))))
  {
    if |ms| == 1 {
      Reassociate(Quoted(ms[0].key), [COLON], Print(ms[0].value), pad, [RBRACE], rest);
    } else {
      var more := PrintMembers(ms[1..], pad);
      Reassociate(Quoted(ms[0].key), [COLON], Print(ms[0].value), pad, [COMMA] + more, rest);
      Associate([COMMA], more, rest);
    }
  }

  lemma Reassociate(a: Text, b: Text, c: Text, d: Text, e: Text, f: Text)
    ensures a + b + c + d + e + f == a + (b + (c + (d + (e + f))))
  {
  }

  lemma {:induction false} MemberRoundTrip(ms: Members, pad: Text, rest: Text)
    requires ms != [] && CleanMembers(ms) && AllWhite(pad)
    ensures ParseMember(PrintMembers(ms, pad) + rest) == Ok((ms[0], pad + MembersTail(ms, pad, rest)))
    ensures (PrintMembers(ms, pad) + rest)[0] == QUOTE
    decreases ms, 0
  {
    var after := pad + MembersTail(ms, pad, rest);
    MembersText(ms, pad, rest);
    assert after[0] == if pad == [] then MembersTail(ms, pad, rest)[0] else pad[0];
    ValueRoundTrip(ms[0].value, after);
    PrintStart(ms[0].value, after);
    MemberStep(ms[0], Print(ms[0].value) + after, after);
  }

  lemma MemberStep(m: Member, afterColon: Text, rest: Text)
    requires Unsplit(m.key)
    requires SkipWhite(afterColon) == afterColon && ParseValue(afterColon) == Ok((m.value, rest))
    ensures ParseMember(Quoted(m.key) + ([COLON] + afterColon)) == Ok((m, rest))
    ensures (Quoted(m.key) + ([COLON] + afterColon))[0] == QUOTE
  {
    var afterKey := [COLON] + afterColon;
    QuotedReadBack(m.key, afterKey);
    JoinedIsSame(m.key);
    assert SkipWhite(afterKey) == afterKey && afterKey[1..] == afterColon;
  }

  lemma LastMember(s: Text, m: Member, after: Text, rest: Text)
    requires ParseMember(s) == Ok((m, after)) && SkipWhite(after) == [RBRACE] + rest
    ensures ParseMembers(s) == Ok(([m], rest))
  {
    assert ([RBRACE] + rest)[1..] == rest;
  }

  lemma NextMember(s: Text, m: Member, after: Text, more: Text, ms: Members, rest: Text)
    requires ParseMember(s) == Ok((m, after)) && SkipWhite(after) == [COMMA] + more
    requires ParseMembers(SkipWhite(more)) == Ok((ms, rest))
    ensures ParseMembers(s) == Ok(([m] + ms, rest))
  {
    assert ([COMMA] + more)[1..] == more;
  }

  // ---------------------------------------------------------------------------
  // Text appended behind a parsed value does not change it
  // ---------------------------------------------------------------------------

  lemma {:induction false} SkipWhiteMore(s: Text, q: Text)
    requires SkipWhite(s) != []
    ensures SkipWhite(s + q) == SkipWhite(s) + q
  {
    assert (s + q)[0] == s[0];
    if White(s[0]) {
      assert (s + q)[1..] == s[1..] + q;
      SkipWhiteMore(s[1..], q);
    }
  }

  lemma UnicodeMore(s: Text, q: Text)
    requires ParseUnicode(s).Ok?
    ensures ParseUnicode(s + q) == ParseUnicode(s)
  {
    assert forall i :: 0 <= i < |s| ==> (s + q)[i] == s[i];
  }

  lemma CharMore(s: Text, q: Text)
    requires ParseChar(s).Ok?
    requires var rest := ParseChar(s).value.1; rest != [] && (rest[0] == BACKSLASH ==> |rest| >= 2)
    ensures ParseChar(s + q) == Ok((ParseChar(s).value.0, ParseChar(s).value.1 + q))
  {
    assert forall i :: 0 <= i < |s| ==> (s + q)[i] == s[i];
    if s[0] != BACKSLASH {
      assert (s + q)[1..] == s[1..] + q;
    } else if !StartsUnicode(s) {
      assert (s + q)[2..] == s[2..] + q;
    } else {
      UnicodeMore(s, q);
      assert (s + q)[6..] == s[6..] + q;
      if High(ParseUnicode(s).value) && StartsUnicode(s[6..]) {
        UnicodeMore(s[6..], q);
        if Low(ParseUnicode(s[6..]).value) { assert (s + q)[12..] == s[12..] + q; }
      }
    }
  }

  lemma {:induction false} StringMore(s: Text, q: Text)
    requires ParseString(s).Ok?
    ensures ParseString(s + q) == Ok((ParseString(s).value.0, ParseString(s).value.1 + q))
    decreases |s|
  {
    assert (s + q)[0] == s[0];
    if s[0] == QUOTE {
      assert (s + q)[1..] == s[1..] + q;
    } else {
      var rest := ParseChar(s).value.1;
      StringMore(rest, q);
      CharMore(s, q);
    }
  }

  lemma {:induction false} ValueMore(s: Text, q: Text)
    requires ParseValue(s).Ok?
    requires ParseValue(s).value.0.Number? ==> ParseValue(s).value.1 != [] && Stops(ParseValue(s).value.1)
    ensures ParseValue(s + q) == Ok((ParseValue(s).value.0, ParseValue(s).value.1 + q))
    decreases |s|, 0
  {
    assert (s + q)[0] == s[0];
    if s[0] == QUOTE {
      assert (s + q)[1..] == s[1..] + q;
      StringMore(s[1..], q);
    } else if s[0] == LBRACKET {
      ContainerMore(s, q, RBRACKET);
      var s1 := SkipWhite(s[1..]);
      if s1[0] != RBRACKET { ItemsMore(s1, q); }
    } else if s[0] == LBRACE {
      ContainerMore(s, q, RBRACE);
      var s1 := SkipWhite(s[1..]);
      if s1[0] != RBRACE { MembersMore(s1, q); }
    } else if KeywordFor(s[0]) != [] && KeywordFor(s[0]) <= s {
      var n := |KeywordFor(s[0])|;
      assert (s + q)[..n] == s[..n] && (s + q)[n..] == s[n..] + q;
    } else {
      NumberMore(s, q);
    }
  }

  lemma NumberMore(s: Text, q: Text)
    requires NumberEnd(s) > 0 && s[NumberEnd(s)..] != [] && Stops(s[NumberEnd(s)..])
    ensures ParseValue(s + q) == Ok((Number(s[..NumberEnd(s)]), s[NumberEnd(s)..] + q))
  {
    var n := NumberEnd(s);
    assert (s + q)[n..] == s[n..] + q && (s + q)[..n] == s[..n];
    NumberStable(s, q);
    NumberIsNoKeyword(s + q);
  }

  /** What follows the opening bracket or brace. */
  lemma ContainerMore(s: Text, q: Text, close: CodePoint)
    requires s != [] && SkipWhite(s[1..]) != []
    ensures SkipWhite((s + q)[1..]) == SkipWhite(s[1..]) + q
    ensures (SkipWhite(s[1..]) + q)[1..] == SkipWhite(s[1..])[1..] + q
  {
    assert (s + q)[1..] == s[1..] + q;
    SkipWhiteMore(s[1..], q);
  }

  /** A value followed by a separator keeps its end when text is appended. */
  lemma SeparatorStops(rest: Text)
    requires SkipWhite(rest) != []
    requires var c := SkipWhite(rest)[0]; c == COMMA || c == RBRACE || c == RBRACKET
    ensures rest != [] && Stops(rest)
  {
  }

  lemma MarkMore(after: Text, q: Text, mark: CodePoint, more: Text)
    requires SkipWhite(after) == [mark] + more
    ensures SkipWhite(after + q) == [mark] + (more + q)
  {
    SkipWhiteMore(after, q);
    Associate([mark], more, q);
  }

  /** How a list of items that parses begins: a value, a separator, and what follows that. */
  lemma ItemsParts(s: Text, v: Json, after: Text, mark: CodePoint, more: Text)
    requires ParseItems(s).Ok?
    requires ParseValue(s) == Ok((v, after)) && SkipWhite(after) == [mark] + more
    ensures mark == RBRACKET || mark == COMMA
    ensures |more| < |s|
    ensures mark == RBRACKET ==> ParseItems(s) == Ok(([v], more))
    ensures mark == COMMA ==> ParseItems(SkipWhite(more)).Ok? && SkipWhite(more) != []
    ensures mark == COMMA ==>
      ParseItems(s) == Ok(([v] + ParseItems(SkipWhite(more)).value.0, ParseItems(SkipWhite(more)).value.1))
  {
    assert ([mark] + more)[1..] == more;
  }

  lemma {:induction false} ItemsMore(s: Text, q: Text)
    requires ParseItems(s).Ok?
    ensures ParseItems(s + q) == Ok((ParseItems(s).value.0, ParseItems(s).value.1 + q))
    decreases |s|, 1
  {
    var (v, after) := ParseValue(s).value;
    var mark, more := SkipWhite(after)[0], SkipWhite(after)[1..];
    ItemsParts(s, v, after, mark, more);
    SeparatorStops(after);
    ValueMore(s, q);
    MarkMore(after, q, mark, more);
    if mark == RBRACKET {
      LastItem(s + q, v, after + q, more + q);
    } else {
      SkipWhiteMore(more, q);
      ItemsMore(SkipWhite(more), q);
      NextItem(s + q, v, after + q, more + q, ParseItems(SkipWhite(more)).value.0,
        ParseItems(SkipWhite(more)).value.1 + q);
    }
  }

  lemma MemberBuild(s: Text, key: Text, rest: Text, after: Text, v: Json, rest1: Text)
    requires s != [] && s[0] == QUOTE && ParseString(s[1..]) == Ok((key, rest))
    requires SkipWhite(rest) == [COLON] + after && ParseValue(SkipWhite(after)) == Ok((v, rest1))
    ensures ParseMember(s) == Ok((Member(key, v), rest1))
  {
    assert ([COLON] + after)[1..] == after;
  }

  lemma {:induction false} MemberMore(s: Text, q: Text)
    requires ParseMember(s).Ok?
    requires ParseMember(s).value.1 != [] && Stops(ParseMember(s).value.1)
    ensures ParseMember(s + q) == Ok((ParseMember(s).value.0, ParseMember(s).value.1 + q))
    decreases |s|, 0
  {
    var (key, rest) := ParseString(s[1..]).value;
    var after := SkipWhite(rest)[1..];
    var (v, rest1) := ParseValue(SkipWhite(after)).value;
    ValueMore(SkipWhite(after), q);
    MemberMoreText(s, q, key, rest, after);
    MemberBuild(s + q, key, rest + q, after + q, v, rest1 + q);
  }

  lemma MemberMoreText(s: Text, q: Text, key: Text, rest: Text, after: Text)
    requires s != [] && ParseString(s[1..]) == Ok((key, rest))
    requires SkipWhite(rest) == [COLON] + after && SkipWhite(after) != []
    ensures ParseString((s + q)[1..]) == Ok((key, rest + q))
    ensures SkipWhite(rest + q) == [COLON] + (after + q)
    ensures SkipWhite(after + q) == SkipWhite(after) + q
  {
    assert (s + q)[1..] == s[1..] + q;
    StringMore(s[1..], q);
    SkipWhiteMore(rest, q);
    SkipWhiteMore(after, q);
  }

  /** The same for members. */
  lemma MembersParts(s: Text, m: Member, after: Text, mark: CodePoint, more: Text)
    requires ParseMembers(s).Ok?
    requires ParseMember(s) == Ok((m, after)) && SkipWhite(after) == [mark] + more
    ensures mark == RBRACE || mark == COMMA
    ensures |more| < |s|
    ensures mark == RBRACE ==> ParseMembers(s) == Ok(([m], more))
    ensures mark == COMMA ==> ParseMembers(SkipWhite(more)).Ok? && SkipWhite(more) != []
    ensures mark == COMMA ==>
      ParseMembers(s) == Ok(([m] + ParseMembers(SkipWhite(more)).value.0, ParseMembers(SkipWhite(more)).value.1))
  {
    assert ([mark] + more)[1..] == more;
  }

  lemma {:induction false} MembersMore(s: Text, q: Text)
    requires ParseMembers(s).Ok?
    ensures ParseMembers(s + q) == Ok((ParseMembers(s).value.0, ParseMembers(s).value.1 + q))
    decreases |s|, 1
  {
    var (m, after) := ParseMember(s).value;
    var mark, more := SkipWhite(after)[0], SkipWhite(after)[1..];
    MembersParts(s, m, after, mark, more);
    SeparatorStops(after);
    MemberMore(s, q);
    MarkMore(after, q, mark, more);
    if mark == RBRACE {
      LastMember(s + q, m, after + q, more + q);
    } else {
      SkipWhiteMore(more, q);
      MembersMore(SkipWhite(more), q);
      NextMember(s + q, m, after + q, more + q, ParseMembers(SkipWhite(more)).value.0,
        ParseMembers(SkipWhite(more)).value.1 + q);
    }
  }

  /** No proper prefix of a text that parses as a whole object is itself taken for a value. */
  lemma CutObjectFails(s: Text, q: Text, v: Json)
    requires s + q != [] && (s + q)[0] == LBRACE && q != []
    requires ParseValue(s + q) == Ok((v, []))
    ensures ParseValue(s).Err?
  {
    if ParseValue(s).Ok? {
      ValueMore(s, q);
    }
  }
}

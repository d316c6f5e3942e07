/**
  JSON text as Python's `json` module writes it (`dumps`, escaping everything
  outside printable ASCII) and reads it (`JSONDecoder.raw_decode`), following
  RFC 8259, sections 4 to 7.

  A parser takes the remaining text and gives a value and what is left.
 */
module Json {
  import opened Wrappers
  import opened Sequences
  import opened Utf8

  /** A number keeps its literal, so that no rounding is involved. An object lists its members in order. */
  datatype Json =
    | Keyword(name: Text)
    | Number(literal: Text)
    | String(text: Text)
    | Array(items: seq<Json>)
    | Object(members: Members)

  datatype Member = Member(key: Text, value: Json)

  type Members = seq<Member>

  const QUOTE: CodePoint := 34
  const COMMA: CodePoint := 44
  const MINUS: CodePoint := 45
  const DOT: CodePoint := 46
  const COLON: CodePoint := 58
  const LBRACKET: CodePoint := 91
  const BACKSLASH: CodePoint := 92
  const RBRACKET: CodePoint := 93
  const LOWER_U: CodePoint := 117
  const LBRACE: CodePoint := 123
  const RBRACE: CodePoint := 125
  const NEWLINE: CodePoint := 10

  // ---------------------------------------------------------------------------
  // Lexical elements
  // ---------------------------------------------------------------------------

  predicate White(c: CodePoint) { c == 32 || c == 9 || c == 10 || c == 13 }

  function SkipWhite(s: Text): (r: Text)
    ensures |r| <= |s|
  {
    if s != [] && White(s[0]) then SkipWhite(s[1..]) else s
  }

  predicate Digit(c: CodePoint) { 48 <= c <= 57 }

  /** Where the digits that start at `i` end. */
  function DigitsEnd(s: Text, i: nat): (r: nat)
    requires i <= |s|
    ensures i <= r <= |s|
    decreases |s| - i
  {
    if i < |s| && Digit(s[i]) then DigitsEnd(s, i + 1) else i
  }

  /** Where the optional fraction that may start at `i` ends. */
  function FractionEnd(s: Text, i: nat): (r: nat)
    requires i <= |s|
    ensures i <= r <= |s|
  {
    if i < |s| && s[i] == DOT && DigitsEnd(s, i + 1) > i + 1 then DigitsEnd(s, i + 1) else i
  }

  predicate ExponentMark(c: CodePoint) { c == 69 || c == 101 }

  /** Where the optional exponent that may start at `i` ends. */
  function ExponentEnd(s: Text, i: nat): (r: nat)
    requires i <= |s|
    ensures i <= r <= |s|
  {
    if i < |s| && ExponentMark(s[i]) then
      var j := if i + 1 < |s| && (s[i + 1] == MINUS || s[i + 1] == 43) then i + 2 else i + 1;
      if DigitsEnd(s, j) > j then DigitsEnd(s, j) else i
    else i
  }

  /** Where the integer part at the start of `s` ends; 0 when there is none. */
  function IntegerEnd(s: Text): (r: nat)
    ensures r <= |s|
  {
    var i := if s != [] && s[0] == MINUS then 1 else 0;
    if i < |s| && s[i] == 48 then i + 1
    else if i < |s| && Digit(s[i]) then DigitsEnd(s, i)
    else 0
  }

  /** The end of the longest number literal at the start of `s`; 0 when there is none. */
  function NumberEnd(s: Text): (r: nat)
    ensures r <= |s|
  {
    if IntegerEnd(s) == 0 then 0 else ExponentEnd(s, FractionEnd(s, IntegerEnd(s)))
  }

  predicate IsNumber(s: Text) { s != [] && NumberEnd(s) == |s| }

  /** The keyword that text starting with `c` can only be. */
  function KeywordFor(c: CodePoint): Text {
    if c == 110 then [110, 117, 108, 108]                          // null
    else if c == 116 then [116, 114, 117, 101]                     // true
    else if c == 102 then [102, 97, 108, 115, 101]                 // false
    else if c == 78 then [78, 97, 78]                              // NaN
    else if c == 73 then [73, 110, 102, 105, 110, 105, 116, 121]   // Infinity
    else if c == MINUS then [45, 73, 110, 102, 105, 110, 105, 116, 121]
    else []
  }

  predicate IsKeyword(s: Text) { s != [] && KeywordFor(s[0]) == s }

  // ---------------------------------------------------------------------------
  // Strings
  // ---------------------------------------------------------------------------

  predicate High(c: CodePoint) { 0xD800 <= c < 0xDC00 }

  predicate Low(c: CodePoint) { 0xDC00 <= c < 0xE000 }

  function Pair(hi: CodePoint, lo: CodePoint): CodePoint
    requires High(hi) && Low(lo)
  {
    0x1_0000 + (hi - 0xD800) * 0x400 + (lo - 0xDC00)
  }

  type HexDigit = x: int | 0 <= x < 16

  function HexChar(d: HexDigit): CodePoint { if d < 10 then 48 + d else 87 + d }

  function HexValue(c: CodePoint): Option<HexDigit> {
    if 48 <= c <= 57 then Some(c - 48)
    else if 97 <= c <= 102 then Some(c - 87)
    else if 65 <= c <= 70 then Some(c - 55)
    else None
  }

  function UnicodeEscape(n: int): Text
    requires 0 <= n < 0x1_0000
  {
    [BACKSLASH, LOWER_U, HexChar(n / 4096), HexChar(n / 256 % 16), HexChar(n / 16 % 16), HexChar(n % 16)]
  }

  /** The letter of a two-character escape of `c`; 0 when there is none. */
  function ShortEscape(c: CodePoint): CodePoint {
    if c == QUOTE || c == BACKSLASH then c
    else if c == 8 then 98
    else if c == 12 then 102
    else if c == 10 then 110
    else if c == 13 then 114
    else if c == 9 then 116
    else 0
  }

  function EscapeChar(c: CodePoint): Text {
    if ShortEscape(c) != 0 then [BACKSLASH, ShortEscape(c)]
    else if 32 <= c < 127 then [c]
    else if c < 0x1_0000 then UnicodeEscape(c)
    else UnicodeEscape(0xD800 + (c - 0x1_0000) / 0x400) + UnicodeEscape(0xDC00 + (c - 0x1_0000) % 0x400)
  }

  function Escape(t: Text): Text {
    if t == [] then [] else EscapeChar(t[0]) + Escape(t[1..])
  }

  function Quoted(t: Text): Text { [QUOTE] + Escape(t) + [QUOTE] }

  /** What a backslash and `c` stand for, other than a Unicode escape. */
  function Unescape(c: CodePoint): Option<CodePoint> {
    if c == QUOTE || c == BACKSLASH || c == 47 then Some(c)
    else if c == 98 then Some(8)
    else if c == 102 then Some(12)
    else if c == 110 then Some(10)
    else if c == 114 then Some(13)
    else if c == 116 then Some(9)
    else None
  }

  predicate StartsUnicode(s: Text) { |s| >= 2 && s[0] == BACKSLASH && s[1] == LOWER_U }

  /** The number in a Unicode escape at the start of `s`. */
  function ParseUnicode(s: Text): (r: Result<CodePoint>)
    ensures r.Ok? ==> |s| >= 6
  {
    if StartsUnicode(s) && |s| >= 6 && HexValue(s[2]).Some? && HexValue(s[3]).Some? && HexValue(s[4]).Some? &&
      HexValue(s[5]).Some? then
      var a: int, b: int, c: int, d: int := HexValue(s[2]).value, HexValue(s[3]).value, HexValue(s[4]).value,
        HexValue(s[5]).value;
      Ok(a * 4096 + b * 256 + c * 16 + d)
    else Err
  }

  /** One character of a string; a high surrogate takes a low one escaped right behind it. */
  function ParseChar(s: Text): (r: Result<(CodePoint, Text)>)
    ensures r.Ok? ==> |r.value.1| < |s|
  {
    if s == [] || s[0] < 32 then Err
    else if s[0] != BACKSLASH then Ok((s[0], s[1..]))
    else if !StartsUnicode(s) then
      if |s| >= 2 && Unescape(s[1]).Some? then Ok((Unescape(s[1]).value, s[2..])) else Err
    else
      match ParseUnicode(s)
      case Err => Err
      case Ok(u) =>
        if High(u) && StartsUnicode(s[6..]) then
          match ParseUnicode(s[6..])
          case Err => Err
          case Ok(v) => if Low(v) then Ok((Pair(u, v), s[12..])) else Ok((u, s[6..]))
        else Ok((u, s[6..]))
  }

  /** The rest of a string whose opening quote has been taken. */
  function ParseString(s: Text): (r: Result<(Text, Text)>)
    ensures r.Ok? ==> |r.value.1| < |s|
    decreases |s|
  {
    if s != [] && s[0] == QUOTE then Ok(([], s[1..]))
    else
      match ParseChar(s)
      case Err => Err
      case Ok((c, rest)) =>
        match ParseString(rest)
        case Err => Err
        case Ok((t, rest1)) => Ok(([c] + t, rest1))
  }

  // ---------------------------------------------------------------------------
  // Values
  // ---------------------------------------------------------------------------

  /** Sets a key: in place when it is there, at the end when it is not. */
  function Put(d: Members, key: Text, value: Json): Members {
    if d == [] then [Member(key, value)]
    else if d[0].key == key then [Member(key, value)] + d[1..]
    else [d[0]] + Put(d[1..], key, value)
  }

  /** The dictionary built from members in order: of equal keys the last counts. */
  function Dictionary(ms: Members): Members {
    if ms == [] then [] else Put(Dictionary(ms[..|ms| - 1]), ms[|ms| - 1].key, ms[|ms| - 1].value)
  }

  function Print(v: Json): Text
    decreases v, 1
  {
    match v
    case Keyword(name) => name
    case Number(literal) => literal
    case String(text) => Quoted(text)
    case Array(items) => if items == [] then [LBRACKET, RBRACKET] else [LBRACKET] + PrintItems(items)
    case Object(members) => if members == [] then [LBRACE, RBRACE] else [LBRACE] + PrintMembers(members, [])
  }

  function PrintItems(items: seq<Json>): Text
    requires items != []
    decreases items, 0
  {
    Print(items[0]) + if |items| == 1 then [RBRACKET] else [COMMA] + PrintItems(items[1..])
  }

  /** Members with `pad` after each value, up to the closing brace. */
  function PrintMembers(ms: Members, pad: Text): Text
    requires ms != []
    decreases ms, 0
  {
    Quoted(ms[0].key) + [COLON] + Print(ms[0].value) + pad +
    if |ms| == 1 then [RBRACE] else [COMMA] + PrintMembers(ms[1..], pad)
  }

  function ParseValue(s: Text): (r: Result<(Json, Text)>)
    ensures r.Ok? ==> |r.value.1| < |s|
    decreases |s|, 0
  {
    if s == [] then Err
    else if s[0] == QUOTE then
      match ParseString(s[1..])
      case Err => Err
      case Ok((t, rest)) => Ok((String(t), rest))
    else if s[0] == LBRACKET then
      var s1 := SkipWhite(s[1..]);
      if s1 != [] && s1[0] == RBRACKET then Ok((Array([]), s1[1..]))
      else
        match ParseItems(s1)
        case Err => Err
        case Ok((items, rest)) => Ok((Array(items), rest))
    else if s[0] == LBRACE then
      var s1 := SkipWhite(s[1..]);
      if s1 != [] && s1[0] == RBRACE then Ok((Object([]), s1[1..]))
      else
        match ParseMembers(s1)
        case Err => Err
        case Ok((ms, rest)) => Ok((Object(Dictionary(ms)), rest))
    else if KeywordFor(s[0]) != [] && KeywordFor(s[0]) <= s then
      Ok((Keyword(KeywordFor(s[0])), s[|KeywordFor(s[0])|..]))
    else if NumberEnd(s) > 0 then Ok((Number(s[..NumberEnd(s)]), s[NumberEnd(s)..]))
    else Err
  }

  /** One or more array items and the closing bracket. */
  function ParseItems(s: Text): (r: Result<(seq<Json>, Text)>)
    ensures r.Ok? ==> |r.value.1| < |s|
    decreases |s|, 1
  {
    match ParseValue(s)
    case Err => Err
    case Ok((v, rest)) =>
      var s1 := SkipWhite(rest);
      if s1 == [] then Err
      else if s1[0] == RBRACKET then Ok(([v], s1[1..]))
      else if s1[0] != COMMA then Err
      else
        match ParseItems(SkipWhite(s1[1..]))
        case Err => Err
        case Ok((items, rest1)) => Ok(([v] + items, rest1))
  }

  /** One or more members and the closing brace. */
  function ParseMembers(s: Text): (r: Result<(Members, Text)>)
    ensures r.Ok? ==> |r.value.1| < |s|
    decreases |s|, 1
  {
    match ParseMember(s)
    case Err => Err
    case Ok((m, rest)) =>
      var s1 := SkipWhite(rest);
      if s1 == [] then Err
      else if s1[0] == RBRACE then Ok(([m], s1[1..]))
      else if s1[0] != COMMA then Err
      else
        match ParseMembers(SkipWhite(s1[1..]))
        case Err => Err
        case Ok((ms, rest1)) => Ok(([m] + ms, rest1))
  }

  function ParseMember(s: Text): (r: Result<(Member, Text)>)
    ensures r.Ok? ==> |r.value.1| < |s|
    decreases |s|, 0
  {
    if s == [] || s[0] != QUOTE then Err
    else
      match ParseString(s[1..])
      case Err => Err
      case Ok((key, rest)) =>
        var s1 := SkipWhite(rest);
        if s1 == [] || s1[0] != COLON then Err
        else
          match ParseValue(SkipWhite(s1[1..]))
          case Err => Err
          case Ok((v, rest1)) => Ok((Member(key, v), rest1))
  }
}

/** Files with a JSON header: how the header is written, and how header and data are told apart again. */
module HeaderFile {
  import opened Wrappers
  import opened Sequences
  import opened Utf8
  import opened Json
  import opened JsonProofs
  import opened JsonGrammar

  const HEAD_CHUNK := 1024
  const DATA_CHUNK := 4096

  // ---------------------------------------------------------------------------
  // Writing
  // ---------------------------------------------------------------------------

  /** A header, one line a member. An empty header loses its opening brace. */
  function HeaderText(ms: Members): Text {
    if ms == [] then [RBRACE] else [LBRACE] + PrintMembers(ms, [NEWLINE])
  }

  ghost predicate CleanHeader(ms: Members) {
    CleanMembers(ms) && DistinctKeys(ms)
  }

  lemma {:induction false} EncodeConcat(a: Text, b: Text)
    ensures Encode(a + b) == Encode(a) + Encode(b)
  {
    if a == [] {
      assert a + b == b;
    } else {
      assert (a + b)[1..] == a[1..] + b;
      EncodeConcat(a[1..], b);
    }
  }

  /** The bytes written for a header. */
  function HeaderBytes(ms: Members): Bytes {
    Encode(HeaderText(ms))
  }

  /** What is still to be written when `i` members are done. */
  function Remaining(ms: Members, i: nat): Text
    requires i <= |ms|
  {
    if i == |ms| then [RBRACE] else [if i == 0 then LBRACE else COMMA] + PrintMembers(ms[i..], [NEWLINE])
  }

  function MemberLine(ms: Members, i: nat): Text
    requires i < |ms|
  {
    [if i == 0 then LBRACE else COMMA] + Quoted(ms[i].key) + [COLON] + Print(ms[i].value) + [NEWLINE]
  }

  lemma LineByLine(ms: Members, i: nat)
    requires i < |ms|
    ensures Remaining(ms, i) == MemberLine(ms, i) + Remaining(ms, i + 1)
  {
    assert ms[i..][1..] == ms[i + 1..] && ms[i..][0] == ms[i];
  }

  lemma WriteLine(out: Bytes, ms: Members, i: nat)
    requires i < |ms|
    ensures out + Encode(MemberLine(ms, i)) + Encode(Remaining(ms, i + 1)) == out + Encode(Remaining(ms, i))
  {
    LineByLine(ms, i);
    EncodeConcat(MemberLine(ms, i), Remaining(ms, i + 1));
  }

  lemma AllRemaining(ms: Members)
    ensures [] + Encode(Remaining(ms, 0)) == HeaderBytes(ms)
  {
    assert ms[0..] == ms;
  }

  method FormatHeader(ms: Members) returns (out: Bytes)
    ensures out == HeaderBytes(ms)
  {
    out := [];
    var first := true;
    AllRemaining(ms);
    for i := 0 to |ms|
      invariant out + Encode(Remaining(ms, i)) == HeaderBytes(ms) && first == (i == 0)
    {
      var mark := if first then LBRACE else COMMA;
      first := false;
      var line := [mark] + Quoted(ms[i].key) + [COLON] + Print(ms[i].value) + [NEWLINE];
      assert line == MemberLine(ms, i);
      WriteLine(out, ms, i);
      out := out + Encode(line);
    }
    out := out + Encode([RBRACE]);
  }

  // ---------------------------------------------------------------------------
  // Printed JSON is ASCII
  // ---------------------------------------------------------------------------

  /** Characters from `low` up to the last printable one. */
  ghost predicate Shown(t: Text, low: nat) {
    forall i :: 0 <= i < |t| ==> low <= t[i] < 127
  }

  lemma {:induction false} DigitsAscii(s: Text, i: nat)
    requires i <= |s|
    ensures forall k :: i <= k < DigitsEnd(s, i) ==> 32 <= s[k] < 127
    decreases |s| - i
  {
    if i < |s| && Digit(s[i]) { DigitsAscii(s, i + 1); }
  }

  lemma NumberAscii(s: Text)
    ensures forall k :: 0 <= k < NumberEnd(s) ==> 32 <= s[k] < 127
  {
    if IntegerEnd(s) > 0 {
      var i := if s[0] == MINUS then 1 else 0;
      DigitsAscii(s, i);
      var j := IntegerEnd(s);
      if j < |s| { DigitsAscii(s, j + 1); }
      var k := FractionEnd(s, j);
      if k < |s| && ExponentMark(s[k]) {
        DigitsAscii(s, if k + 1 < |s| && (s[k + 1] == MINUS || s[k + 1] == 43) then k + 2 else k + 1);
      }
    }
  }

  lemma {:induction false} EscapeAscii(t: Text)
    ensures Shown(Escape(t), 32)
  {
    if t != [] {
      assert Shown(EscapeChar(t[0]), 32);
      EscapeAscii(t[1..]);
    }
  }

  lemma KeywordAscii(c: CodePoint)
    ensures Shown(KeywordFor(c), 32)
  {
  }

  lemma {:induction false} PrintAscii(v: Json)
    requires Clean(v)
    ensures Shown(Print(v), 32)
    decreases v, 1
  {
    match v
    case Keyword(name) => KeywordAscii(name[0]);
    case Number(literal) => NumberAscii(literal);
    case String(text) => EscapeAscii(text);
    case Array(items) => if items != [] { ItemsAscii(items); }
    case Object(members) => if members != [] { MembersAscii(members, [], 32); }
  }

  lemma {:induction false} ItemsAscii(items: seq<Json>)
    requires items != [] && CleanItems(items)
    ensures Shown(PrintItems(items), 32)
    decreases items, 0
  {
    PrintAscii(items[0]);
    if |items| > 1 { ItemsAscii(items[1..]); }
  }

  lemma {:induction false} MembersAscii(ms: Members, pad: Text, low: nat)
    requires ms != [] && CleanMembers(ms) && low <= 32 && Shown(pad, low)
    ensures Shown(PrintMembers(ms, pad), low)
    decreases ms, 0
  {
    EscapeAscii(ms[0].key);
    PrintAscii(ms[0].value);
    var start := Quoted(ms[0].key) + [COLON] + Print(ms[0].value) + pad;
    assert Shown(start, low);
    if |ms| > 1 {
      MembersAscii(ms[1..], pad, low);
      assert PrintMembers(ms, pad) == start + ([COMMA] + PrintMembers(ms[1..], pad));
    }
  }

  lemma HeaderAscii(ms: Members)
    requires CleanHeader(ms)
    ensures Ascii(HeaderText(ms)) && HeaderBytes(ms) == HeaderText(ms)
  {
    if ms != [] { MembersAscii(ms, [NEWLINE], 10); }
    assert Shown(HeaderText(ms), 10);
    EncodeAscii(HeaderText(ms));
  }

  lemma MiddleShown(m: Member, middle: Text)
    requires Clean(m.value) && middle == Quoted(m.key) + [COLON] + Print(m.value)
    ensures Shown(middle, 32)
  {
    EscapeAscii(m.key);
    PrintAscii(m.value);
    assert Shown(Quoted(m.key), 32) && Shown(Print(m.value), 32) && COLON == 58;
  }

  lemma Framed(first: CodePoint, middle: Text, line: Text)
    requires Shown(middle, 32) && line == [first] + middle + [10]
    ensures |line| == |middle| + 2 && line[0] == first && line[|line| - 1] == 10
    ensures forall k :: 0 < k < |line| - 1 ==> 32 <= line[k] < 127
  {
    forall k | 0 < k < |line| - 1 ensures 32 <= line[k] < 127 { assert line[k] == middle[k - 1]; }
  }

  lemma LineParts(first: CodePoint, key: Text, value: Text, middle: Text, line: Text)
    requires middle == key + [COLON] + value && line == [first] + key + [COLON] + value + [10]
    ensures line == [first] + middle + [10]
  {
  }

  /** A line of the header: opened by a brace or a comma, ended by a line feed, and no control character between. */
  lemma LineShape(ms: Members, i: nat, line: Text)
    requires CleanMembers(ms) && i < |ms| && line == MemberLine(ms, i)
    ensures |line| == |Escape(ms[i].key)| + Size(ms[i].value) + 5
    ensures line[0] == (if i == 0 then 123 else 44) && line[|line| - 1] == 10
    ensures forall k :: 0 < k < |line| - 1 ==> 32 <= line[k] < 127
  {
    MemberClean(ms, i);
    PrintSize(ms[i].value);
    var middle := Quoted(ms[i].key) + [COLON] + Print(ms[i].value);
    MiddleShown(ms[i], middle);
    var first: CodePoint := if i == 0 then 123 else 44;
    LineParts(first, Quoted(ms[i].key), Print(ms[i].value), middle, line);
    Framed(first, middle, line);
  }

  /** A header is one such line for each member, and the closing brace. */
  lemma HeaderIsLines(ms: Members)
    ensures HeaderText(ms) == Lines(ms, |ms|) + [125]
  {
    if ms == [] {
      assert Lines(ms, 0) + [125] == [125];
    } else {
      AllLines(ms, |ms|, HeaderText(ms));
    }
  }

  lemma {:induction false} MemberClean(ms: Members, i: nat)
    requires CleanMembers(ms) && i < |ms|
    ensures Unsplit(ms[i].key) && Clean(ms[i].value)
  {
    if i > 0 {
      MemberClean(ms[1..], i - 1);
      assert ms[1..][i - 1] == ms[i];
    }
  }

  /** The first `n` lines. */
  function Lines(ms: Members, n: nat): Text
    requires n <= |ms|
  {
    if n == 0 then [] else Lines(ms, n - 1) + MemberLine(ms, n - 1)
  }

  lemma {:induction false} AllLines(ms: Members, n: nat, h: Text)
    requires 0 < n <= |ms| && h == HeaderText(ms)
    ensures h == Lines(ms, n) + Remaining(ms, n)
  {
    LineByLine(ms, n - 1);
    if n == 1 {
      assert ms[0..] == ms && Lines(ms, 1) == [] + MemberLine(ms, 0) == MemberLine(ms, 0);
    } else {
      AllLines(ms, n - 1, h);
      Associate(Lines(ms, n - 1), MemberLine(ms, n - 1), Remaining(ms, n));
    }
  }

  // ---------------------------------------------------------------------------
  // Reading
  // ---------------------------------------------------------------------------

  datatype Scanned = HeaderAt(header: Json, data: Bytes, next: nat) | NotFound(left: Option<Bytes>)

  function Min(a: nat, b: nat): nat { if a < b then a else b }

  /**
    Reads on from `pos` with `head` gathered so far: after each chunk the longest
    decodable prefix is tried as JSON. `data` is what the last try left over.
   */
  function Scan(file: Bytes, pos: nat, head: Bytes, data: Option<Bytes>): (r: Scanned)
    requires pos <= |file|
    ensures r.HeaderAt? ==> r.next <= |file|
    decreases |file| - pos
  {
    if pos == |file| then NotFound(data)
    else
      var next := Min(pos + HEAD_CHUNK, |file|);
      var h := head + file[pos..next];
      var (t, n) := Decode(h);
      match ParseValue(t)
      case Ok((v, rest)) => HeaderAt(v, Encode(rest) + h[n..], next)
      case Err => Scan(file, next, h[..n], Some(h[n..]))
  }

  /** What the extractor hands out: the header if it found one, then the data in chunks. */
  datatype Extraction = Found(header: Json, chunks: seq<Bytes>) | NoHeader(chunks: seq<Bytes>) | EmptyFile

  /** The header found, and chunks that make up the data; without a header, what the last try left over. */
  ghost predicate Delivers(file: Bytes, scanned: Scanned, r: Extraction)
    requires scanned.HeaderAt? ==> scanned.next <= |file|
  {
    match scanned
    case HeaderAt(v, data, next) =>
      r.Found? && r.header == v && r.chunks != [] && r.chunks[0] == data && Concat(r.chunks) == data + file[next..]
    case NotFound(left) => r == if left.Some? then NoHeader([left.value]) else EmptyFile
  }

  method ExtractHeaderAndData(file: Bytes) returns (r: Extraction)
    ensures Delivers(file, Scan(file, 0, [], None), r)
  {
    var pos := 0;
    var head: Bytes := [];
    var data: Option<Bytes> := None;
    var header: Option<Json> := None;
    while pos < |file| && header.None?
      invariant pos <= |file|
      invariant header.None? ==> Scan(file, pos, head, data) == Scan(file, 0, [], None)
      invariant header.Some? ==> data.Some? && Scan(file, 0, [], None) == HeaderAt(header.value, data.value, pos)
      decreases |file| - pos
    {
      var next := Min(pos + HEAD_CHUNK, |file|);
      head := head + file[pos..next];
      var (t, n) := Decode(head);
      data := Some(head[n..]);
      match ParseValue(t) {
        case Ok((v, rest)) =>
          header := Some(v);
          data := Some(Encode(rest) + head[n..]);
        case Err =>
          head := head[..n];
      }
      pos := next;
    }
    if data.None? { return EmptyFile; }
    var chunks := ReadChunks(file, pos, data.value);
    r := if header.Some? then Found(header.value, chunks) else NoHeader(chunks);
  }

  lemma ChunkAdded(file: Bytes, start: nat, pos: nat, next: nat, first: Bytes, chunks: seq<Bytes>)
    requires start <= pos <= next <= |file| && Concat(chunks) == first + file[start..pos]
    ensures Concat(chunks + [file[pos..next]]) == first + file[start..next]
  {
    var chunk := file[pos..next];
    assert (chunks + [chunk])[..|chunks|] == chunks;
    assert file[start..pos] + chunk == file[start..next];
    assert first + file[start..pos] + chunk == first + (file[start..pos] + chunk);
  }

  /** `first`, then the rest of the file from `start` on in chunks. */
  method ReadChunks(file: Bytes, start: nat, first: Bytes) returns (chunks: seq<Bytes>)
    requires start <= |file|
    ensures chunks != [] && chunks[0] == first && Concat(chunks) == first + file[start..]
    ensures start == |file| ==> chunks == [first]
    ensures forall i :: 1 <= i < |chunks| - 1 ==> |chunks[i]| == 4096
    ensures |chunks| > 1 ==> 0 < |chunks[|chunks| - 1]| <= 4096
  {
    chunks := [first];
    var pos := start;
    assert Concat(chunks) == first + file[start..pos];
    while pos < |file|
      invariant start <= pos <= |file|
      invariant chunks != [] && chunks[0] == first && Concat(chunks) == first + file[start..pos]
      invariant pos == start ==> chunks == [first]
      invariant forall i :: 1 <= i < |chunks| - 1 ==> |chunks[i]| == 4096
      invariant |chunks| > 1 ==> 0 < |chunks[|chunks| - 1]| <= 4096
      invariant |chunks| > 1 && pos < |file| ==> |chunks[|chunks| - 1]| == 4096
    {
      var next := Min(pos + DATA_CHUNK, |file|);
      ChunkAdded(file, start, pos, next, first, chunks);
      chunks := chunks + [file[pos..next]];
      pos := next;
    }
    assert file[start..pos] == file[start..];
  }

  // ---------------------------------------------------------------------------
  // Round trip
  // ---------------------------------------------------------------------------

  lemma HeaderParses(ms: Members, rest: Text)
    requires CleanHeader(ms) && ms != []
    ensures ParseValue(HeaderText(ms) + rest) == Ok((Object(ms), rest))
  {
    ObjectRoundTrip(ms, [NEWLINE], rest);
  }

  /** A text that is one JSON object and nothing else. */
  ghost predicate WholeObject(t: Text, v: Json) {
    t != [] && t[0] == LBRACE && NoSurrogates(t) && ParseValue(t) == Ok((v, []))
  }

  lemma PrintedIsWhole(ms: Members)
    requires CleanHeader(ms) && ms != []
    ensures WholeObject(HeaderText(ms), Object(ms))
  {
    HeaderAscii(ms);
    HeaderParses(ms, []);
    assert HeaderText(ms) + [] == HeaderText(ms);
  }

  /** As long as only a part of the header is there, cut within a character or not, nothing parses. */
  lemma CutHeader(t: Text, v: Json, n: nat)
    requires WholeObject(t, v) && n < |Encode(t)|
    ensures ParseValue(Decode(Encode(t)[..n]).0).Err?
  {
    DecodedPrefix(t, n);
    var s := Decode(Encode(t)[..n]).0;
    var q := t[|s|..];
    assert s + q == t && q != [];
    CutObjectFails(s, q, v);
  }

  lemma ParsesWithMore(t: Text, v: Json, q: Text)
    requires WholeObject(t, v)
    ensures ParseValue(t + q) == Ok((v, q))
  {
    ValueMore(t, q);
    assert [] + q == q;
  }

  lemma LeftBehind(e: Bytes, b: Bytes, h: Bytes, m: nat, d: Bytes)
    requires h == e + b && m <= |b| && d == b[..m]
    ensures d + h[|e| + m..] == b
  {
    Behind(e, b, m);
  }

  /** The whole header, with whatever bytes follow it in the same chunk. */
  lemma WholeHeader(t: Text, v: Json, b: Bytes, h: Bytes)
    requires WholeObject(t, v) && h == Encode(t) + b
    ensures ParseValue(Decode(h).0) == Ok((v, Decode(b).0))
    ensures Encode(Decode(b).0) + h[Decode(h).1..] == b
  {
    DecodeAll(t, b, h);
    ParsesWithMore(t, v, Decode(b).0);
    DecodeEncode(b);
    LeftBehind(Encode(t), b, h, Decode(b).1, Encode(Decode(b).0));
  }

  lemma Behind(e: Bytes, b: Bytes, m: nat)
    requires m <= |b|
    ensures (e + b)[|e| + m..] == b[m..]
  {
  }

  /** The chunk that completes the header. */
  lemma HeaderCompleted(t: Text, v: Json, data: Bytes, file: Bytes, pos: nat, next: nat, head: Bytes,
                        last: Option<Bytes>)
    requires WholeObject(t, v) && file == Encode(t) + data
    requires pos < |Encode(t)| <= next == Min(pos + HEAD_CHUNK, |file|) && head == file[..pos]
    ensures var r := Scan(file, pos, head, last);
            r.HeaderAt? && r.header == v && r.data + file[r.next..] == data
  {
    var b := data[..next - |Encode(t)|];
    CutBehind(Encode(t), data, file, next);
    assert head + file[pos..next] == file[..next];
    WholeHeader(t, v, b, head + file[pos..next]);
  }

  lemma CutBehind(e: Bytes, data: Bytes, file: Bytes, next: nat)
    requires file == e + data && |e| <= next <= |file|
    ensures file[..next] == e + data[..next - |e|] && data[..next - |e|] + file[next..] == data
  {
  }

  /** A chunk that ends within the header, but not within a character. */
  lemma HeaderContinued(t: Text, v: Json, file: Bytes, pos: nat, next: nat, head: Bytes, last: Option<Bytes>)
    requires WholeObject(t, v) && Encode(t) <= file
    requires pos < next == Min(pos + HEAD_CHUNK, |file|) < |Encode(t)| && head == file[..pos]
    requires Decodable(Encode(t)[..next])
    ensures Scan(file, pos, head, last) == Scan(file, next, file[..next], Some([]))
  {
    var h := head + file[pos..next];
    assert h == file[..next] == Encode(t)[..next];
    CutHeader(t, v, next);
    assert h[..next] == h && h[next..] == [];
  }

  /** No chunk ends within a character of the header. */
  ghost predicate NoCharacterCut(t: Text) {
    forall k: nat {:trigger Decodable(Encode(t)[..k * 1024])} ::
      k * 1024 < |Encode(t)| ==> Decodable(Encode(t)[..k * 1024])
  }

  /**
    Whatever data follows a header, valid UTF-8 or not: if no chunk ends within a
    character of the header, the header is found and the data is complete.
   */
  lemma {:induction false} ScanFindsObject(t: Text, v: Json, data: Bytes, file: Bytes, k: nat, pos: nat,
                                           head: Bytes, last: Option<Bytes>)
    requires WholeObject(t, v) && NoCharacterCut(t) && pos == k * HEAD_CHUNK < |Encode(t)|
    requires file == Encode(t) + data && head == file[..pos]
    ensures var r := Scan(file, pos, head, last);
            r.HeaderAt? && r.header == v && r.data + file[r.next..] == data
    decreases |Encode(t)| - pos
  {
    var next := Min(pos + HEAD_CHUNK, |file|);
    if next < |Encode(t)| {
      assert next == (k + 1) * HEAD_CHUNK && Decodable(Encode(t)[..(k + 1) * HEAD_CHUNK]);
      HeaderContinued(t, v, file, pos, next, head, last);
      ScanFindsObject(t, v, data, file, k + 1, next, file[..next], Some([]));
    } else {
      HeaderCompleted(t, v, data, file, pos, next, head, last);
    }
  }

  lemma AsciiNotCut(t: Text)
    requires Ascii(t)
    ensures NoCharacterCut(t)
  {
    EncodeAscii(t);
    forall k: nat | k * HEAD_CHUNK < |Encode(t)| ensures Decodable(Encode(t)[..k * HEAD_CHUNK]) {
      var s := t[..k * HEAD_CHUNK];
      DecodeAscii(s, []);
      assert s + [] == s;
    }
  }

  lemma ScanReadsOn(file: Bytes, pos: nat, head: Bytes, last: Option<Bytes>, next: nat, h: Bytes, n: nat)
    requires pos < |file| && next == Min(pos + HEAD_CHUNK, |file|) && h == head + file[pos..next]
    requires ParseValue(Decode(h).0).Err? && n == Decode(h).1
    ensures Scan(file, pos, head, last) == Scan(file, next, h[..n], Some(h[n..]))
  {
  }

  /** Bytes that start neither a value nor anything else that may be skipped: white space and the closing brace. */
  ghost predicate StartsNoValue(x: Byte) { x == 32 || x == 9 || x == 10 || x == 13 || x == 125 }

  lemma NoValueDecoded(h: Bytes)
    requires h != [] && StartsNoValue(h[0])
    ensures ParseValue(Decode(h).0).Err? && Decode(h).1 > 0
  {
    assert h == [h[0]] + h[1..];
    DecodeAscii([h[0]], h[1..]);
    NothingBefore(Decode(h).0);
  }

  /** In a file that starts with white space or a closing brace no header is ever found. */
  lemma {:induction false} NoHeaderBehind(file: Bytes, pos: nat, head: Bytes, data: Option<Bytes>)
    requires pos <= |file| && (head == [] ==> pos == 0)
    requires file != [] && StartsNoValue(file[0]) && (head != [] ==> head[0] == file[0])
    ensures Scan(file, pos, head, data).NotFound?
    decreases |file| - pos
  {
    if pos < |file| {
      var next := Min(pos + HEAD_CHUNK, |file|);
      var h := head + file[pos..next];
      assert h[0] == file[0];
      NoValueDecoded(h);
      var n := Decode(h).1;
      ScanReadsOn(file, pos, head, data, next, h, n);
      NoHeaderBehind(file, next, h[..n], Some(h[n..]));
    }
  }

  /** A written header comes back from its file exactly when it is not empty. */
  lemma HeaderRoundTrip(ms: Members, data: Bytes)
    requires CleanHeader(ms)
    ensures var file := HeaderBytes(ms) + data;
            var r := Scan(file, 0, [], None);
            (ms != [] <==> r.HeaderAt?) && (r.HeaderAt? ==> r.header == Object(ms) && r.data + file[r.next..] == data)
  {
    var file := HeaderBytes(ms) + data;
    HeaderAscii(ms);
    assert file[..0] == [];
    if ms == [] {
      NoHeaderBehind(file, 0, [], None);
    } else {
      PrintedIsWhole(ms);
      AsciiNotCut(HeaderText(ms));
      ScanFindsObject(HeaderText(ms), Object(ms), data, file, 0, 0, [], None);
    }
  }

  // ---------------------------------------------------------------------------
  // Headers written by others
  // ---------------------------------------------------------------------------

  lemma SpelledIsWhole(x: Syntax)
    requires Valid(x) && x.Dict? && NoSurrogates(Spell(x))
    ensures WholeObject(Spell(x), Meaning(x))
  {
    assert Spell(x) + [] == Spell(x);
    SpelledIsRead(x, [], Spell(x));
  }

  /**
    An object spelled in any way, with spaces and line breaks wherever they may
    stand, is found as what it means, and the data behind it is complete, if no
    chunk ends within a character.
   */
  lemma SpelledHeaderFound(x: Syntax, data: Bytes)
    requires Valid(x) && x.Dict? && NoSurrogates(Spell(x)) && NoCharacterCut(Spell(x))
    ensures var file := Encode(Spell(x)) + data; var r := Scan(file, 0, [], None);
            r.HeaderAt? && r.header == Meaning(x) && r.data + file[r.next..] == data
  {
    SpelledIsWhole(x);
    EncodeNonempty(Spell(x));
    var file := Encode(Spell(x)) + data;
    assert file[..0] == [];
    ScanFindsObject(Spell(x), Meaning(x), data, file, 0, 0, [], None);
  }

  /** The same for headers in ASCII, for which chunks do not matter. */
  lemma AsciiHeaderFound(x: Syntax, data: Bytes)
    requires Valid(x) && x.Dict? && Ascii(Spell(x))
    ensures var file := Spell(x) + data; var r := Scan(file, 0, [], None);
            r.HeaderAt? && r.header == Meaning(x) && r.data + file[r.next..] == data
  {
    EncodeAscii(Spell(x));
    AsciiNotCut(Spell(x));
    SpelledHeaderFound(x, data);
  }

  /** `{"a": 1}` with a space behind the colon. */
  function SpacedSyntax(): Syntax {
    Dict([], [Entry([Plain(97)], [], [32], Figure(Numeral(false, [49], [], None)), [], [])])
  }

  lemma SpacedSpelling()
    ensures Valid(SpacedSyntax()) && Spell(SpacedSyntax()) == [123, 34, 97, 34, 58, 32, 49, 125]
  {
    var e := SpacedSyntax().entries[0];
    assert NumeralText(e.value.numeral) == [49] && PiecesText([Plain(97)]) == [97];
    assert SpellKey(e) == [34, 97, 34, 58, 32] && Spell(e.value) == [49];
    assert [e][1..] == [] && SpellEntries([e]) == SpellKey(e) + ([49] + ([] + [125]));
  }

  lemma SpacedMeaning()
    ensures Valid(SpacedSyntax()) && Meaning(SpacedSyntax()) == Object([Member([97], Number([49]))])
  {
    var e := SpacedSyntax().entries[0];
    var m := Member([97], Number([49]));
    OnePieceMeaning(Plain(97));
    assert NumeralText(e.value.numeral) == [49] && [e][1..] == [] && EntriesMeaning([]) == [];
    assert EntriesMeaning([e]) == [m] + [] == [m];
    DistinctDictionary([m]);
  }

  lemma SpacedExample(data: Bytes)
    ensures var header: Bytes := [123, 34, 97, 34, 58, 32, 49, 125]; var file := header + data;
            var r := Scan(file, 0, [], None);
            && r.HeaderAt? && r.data + file[r.next..] == data
            && r.header == Object([Member([97], Number([49]))])
  {
    SpacedSpelling();
    SpacedMeaning();
    AsciiHeaderFound(SpacedSyntax(), data);
  }

  // ---------------------------------------------------------------------------
  // Headers that are not plain ASCII
  // ---------------------------------------------------------------------------

  /** Where the k-th chunk ends. */
  function ChunkEnd(file: Bytes, k: nat): nat { Min(k * HEAD_CHUNK, |file|) }

  /** What is kept of the first `k` chunks while no header has been found in them. */
  function Gathered(file: Bytes, k: nat): Bytes {
    if k == 0 then []
    else
      var h := Gathered(file, k - 1) + file[ChunkEnd(file, k - 1)..ChunkEnd(file, k)];
      h[..Decode(h).1]
  }

  lemma {:induction false} GatheredLength(file: Bytes, k: nat)
    ensures |Gathered(file, k)| <= ChunkEnd(file, k)
  {
    if k > 0 { GatheredLength(file, k - 1); }
  }

  /**
    With `n` bytes kept of `g` and the chunk after it, nothing is missing exactly when nothing was
    missing or is now cut off.
   */
  lemma KeptAll(f: Bytes, g: Bytes, a: nat, b: nat, n: nat)
    requires a <= b <= |f| && |g| <= a && n <= |g + f[a..b]|
    ensures (g + f[a..b])[..n] == f[..b] <==> g == f[..a] && n == b
    ensures g == f[..a] ==> g + f[a..b] == f[..b]
  {
    var h := g + f[a..b];
    if h[..n] == f[..b] {
      assert |h| == n == b && h == h[..n];
      assert g == h[..a] && f[..a] == f[..b][..a];
    }
    if g == f[..a] { assert h == f[..b]; }
  }

  lemma KeptSoFar(file: Bytes, k: nat)
    requires k > 0
    ensures Gathered(file, k) == file[..ChunkEnd(file, k)] <==>
            Gathered(file, k - 1) == file[..ChunkEnd(file, k - 1)] && Decodable(file[..ChunkEnd(file, k)])
  {
    GatheredLength(file, k - 1);
    var g, a, b := Gathered(file, k - 1), ChunkEnd(file, k - 1), ChunkEnd(file, k);
    KeptAll(file, g, a, b, Decode(g + file[a..b]).1);
  }

  /** None of the first `k` chunks ends within a character. */
  ghost predicate CleanCuts(file: Bytes, k: nat) {
    k > 0 ==> CleanCuts(file, k - 1) && Decodable(file[..ChunkEnd(file, k)])
  }

  /**
    The bytes of a character cut by a chunk boundary are dropped, so everything
    read is kept exactly when every chunk so far ended at a decodable place.
   */
  lemma {:induction false} NothingDroppedIff(file: Bytes, k: nat)
    ensures Gathered(file, k) == file[..ChunkEnd(file, k)] <==> CleanCuts(file, k)
  {
    if k > 0 {
      NothingDroppedIff(file, k - 1);
      KeptSoFar(file, k);
    }
  }

  /** The `k`-th chunk does not complete a header. */
  ghost predicate StillOpen(file: Bytes, k: nat) {
    && ChunkEnd(file, k) < |file|
    && ParseValue(Decode(Gathered(file, k) + file[ChunkEnd(file, k)..ChunkEnd(file, k + 1)]).0).Err?
  }

  /** What the k-th try left over. */
  function LeftOver(file: Bytes, k: nat): Option<Bytes> {
    if k == 0 then None
    else
      var h := Gathered(file, k - 1) + file[ChunkEnd(file, k - 1)..ChunkEnd(file, k)];
      Some(h[Decode(h).1..])
  }

  lemma ScanGathersMore(file: Bytes, k: nat, pos: nat, g: Bytes, last: Option<Bytes>, pos1: nat, g1: Bytes,
                        last1: Option<Bytes>)
    requires k > 0 && StillOpen(file, k - 1)
    requires pos == ChunkEnd(file, k - 1) && g == Gathered(file, k - 1)
    requires pos1 == ChunkEnd(file, k) && g1 == Gathered(file, k) && last1 == LeftOver(file, k)
    ensures Scan(file, pos, g, last) == Scan(file, pos1, g1, last1)
  {
    var h := g + file[pos..pos1];
    ScanReadsOn(file, pos, g, last, pos1, h, Decode(h).1);
  }

  /** As long as no header is complete, the extractor has gathered just that. */
  lemma {:induction false} ScanGathers(file: Bytes, k: nat, pos: nat, g: Bytes, last: Option<Bytes>)
    requires forall j :: 0 <= j < k ==> StillOpen(file, j)
    requires pos == ChunkEnd(file, k) && g == Gathered(file, k) && last == LeftOver(file, k)
    ensures Scan(file, 0, [], None) == Scan(file, pos, g, last)
  {
    if k > 0 {
      var pos0, g0, last0 := ChunkEnd(file, k - 1), Gathered(file, k - 1), LeftOver(file, k - 1);
      ScanGathers(file, k - 1, pos0, g0, last0);
      ScanGathersMore(file, k, pos0, g0, last0, pos, g, last);
    }
  }

  /** What follows the cut adds nothing to what was decoded before it. */
  lemma CutDecodes(t: Text, n: nat, more: Bytes)
    requires NoSurrogates(t) && HEAD_CHUNK < |Encode(t)| && !Decodable(Encode(t)[..HEAD_CHUNK])
    requires n == Decode(Encode(t)[..HEAD_CHUNK]).1 && more != [] && more[0] == Encode(t)[HEAD_CHUNK]
    ensures Decode(Encode(t)[..HEAD_CHUNK][..n] + more) == (Decode(Encode(t)[..HEAD_CHUNK]).0, n)
  {
    var s := Decode(Encode(t)[..HEAD_CHUNK]).0;
    DecodedPrefix(t, HEAD_CHUNK);
    DecodeEncode(Encode(t)[..HEAD_CHUNK]);
    CutWithinCharacter(t, HEAD_CHUNK);
    ContinuationUndecodable(more);
    DecodeText(s, more);
    assert s + [] == s;
  }

  /** The first chunk ends within a character: what is before it stays, and the next chunk adds nothing. */
  lemma CutChunkAddsNothing(t: Text, v: Json, data: Bytes, file: Bytes, next: nat, n: nat)
    requires WholeObject(t, v) && file == Encode(t) + data
    requires HEAD_CHUNK < |Encode(t)| && next == Min(2 * HEAD_CHUNK, |file|)
    requires !Decodable(Encode(t)[..HEAD_CHUNK]) && n == Decode(Encode(t)[..HEAD_CHUNK]).1
    ensures Scan(file, 0, [], None) == Scan(file, next, file[..n], Some(file[HEAD_CHUNK..next]))
  {
    var h, more := file[..HEAD_CHUNK], file[HEAD_CHUNK..next];
    assert h == Encode(t)[..HEAD_CHUNK] == [] + file[0..HEAD_CHUNK] && h[..n] == file[..n];
    CutHeader(t, v, HEAD_CHUNK);
    ScanReadsOn(file, 0, [], None, HEAD_CHUNK, h, n);
    CutDecodes(t, n, more);
    ScanReadsOn(file, HEAD_CHUNK, h[..n], Some(h[n..]), next, h[..n] + more, n);
    assert (h[..n] + more)[n..] == more && (h[..n] + more)[..n] == h[..n];
  }

  lemma CutCharacterStops(t: Text, v: Json, data: Bytes, file: Bytes)
    requires WholeObject(t, v) && file == Encode(t) + data
    requires HEAD_CHUNK < |Encode(t)| && |file| <= 2 * HEAD_CHUNK && !Decodable(Encode(t)[..HEAD_CHUNK])
    ensures Scan(file, 0, [], None) == NotFound(Some(file[HEAD_CHUNK..]))
  {
    CutChunkAddsNothing(t, v, data, file, |file|, Decode(Encode(t)[..HEAD_CHUNK]).1);
    assert file[HEAD_CHUNK..|file|] == file[HEAD_CHUNK..];
  }

  /**
    In a file of at most two chunks, a header is found exactly when the first chunk does not end
    within a character of it.
   */
  lemma FoundIffNotCut(t: Text, v: Json, data: Bytes)
    requires WholeObject(t, v) && |Encode(t) + data| <= 2 * HEAD_CHUNK
    ensures var file := Encode(t) + data; var r := Scan(file, 0, [], None);
            && (r.HeaderAt? <==> (HEAD_CHUNK < |Encode(t)| ==> Decodable(Encode(t)[..HEAD_CHUNK])))
            && (r.HeaderAt? ==> r.header == v && r.data + file[r.next..] == data)
  {
    var file := Encode(t) + data;
    if HEAD_CHUNK < |Encode(t)| && !Decodable(Encode(t)[..HEAD_CHUNK]) {
      CutCharacterStops(t, v, data, file);
    } else {
      EncodeNonempty(t);
      forall k: nat | k * HEAD_CHUNK < |Encode(t)| ensures Decodable(Encode(t)[..k * HEAD_CHUNK]) {
        assert k == 0 || k == 1;
      }
      assert file[..0] == [];
      ScanFindsObject(t, v, data, file, 0, 0, [], None);
    }
  }

  lemma EncodeNonempty(t: Text)
    requires t != []
    ensures Encode(t) != []
  {
    EncodeCons(t[0], t[1..]);
    assert [t[0]] + t[1..] == t;
  }

  lemma {:induction false} RawString(t: Text, rest: Text)
    requires forall i :: 0 <= i < |t| ==> t[i] >= 32 && t[i] != QUOTE && t[i] != BACKSLASH
    ensures ParseString(t + [QUOTE] + rest) == Ok((t, rest))
  {
    var s := t + [QUOTE] + rest;
    if t == [] {
      assert s[1..] == rest;
    } else {
      RawString(t[1..], rest);
      assert s[1..] == t[1..] + [QUOTE] + rest;
      assert [t[0]] + t[1..] == t;
    }
  }

  /** An object with one member, whose key stands in the text as it is. */
  function RawText(key: Text): Text { [LBRACE] + ([QUOTE] + key + [QUOTE] + ([COLON] + [LBRACE, RBRACE, RBRACE])) }

  function RawObject(key: Text): Json { Object([Member(key, Object([]))]) }

  lemma RawMemberParses(key: Text, s: Text)
    requires forall i :: 0 <= i < |key| ==> key[i] >= 32 && key[i] != QUOTE && key[i] != BACKSLASH
    requires s == [QUOTE] + key + [QUOTE] + ([COLON] + [LBRACE, RBRACE, RBRACE])
    ensures ParseMember(s) == Ok((Member(key, Object([])), [RBRACE]))
  {
    var after: Text := [COLON] + [LBRACE, RBRACE, RBRACE];
    EmptyRoundTrip([RBRACE]);
    assert [LBRACE, RBRACE] + [RBRACE] == [LBRACE, RBRACE, RBRACE];
    assert s[1..] == key + [QUOTE] + after;
    RawString(key, after);
    MemberBuild(s, key, after, [LBRACE, RBRACE, RBRACE], Object([]), [RBRACE]);
  }

  lemma RawObjectParses(key: Text)
    requires forall i :: 0 <= i < |key| ==> key[i] >= 32 && key[i] != QUOTE && key[i] != BACKSLASH
    requires NoSurrogates(key)
    ensures WholeObject(RawText(key), RawObject(key))
  {
    var s := [QUOTE] + key + [QUOTE] + ([COLON] + [LBRACE, RBRACE, RBRACE]);
    var ms := [Member(key, Object([]))];
    RawMemberParses(key, s);
    LastMember(s, ms[0], [RBRACE], []);
    ObjectStep(s, ms, []);
    DistinctDictionary(ms);
  }

  /** A character of two bytes behind `a`, cut between the two. */
  lemma CutBehindAscii(a: Text, more: Text)
    requires Ascii(a) && Ascii(more)
    ensures var e := Encode(a + ([0xE9] + more));
            |e| == |a| + 2 + |more| && !Decodable(e[..|a| + 1])
  {
    EncodeBehindAscii(a, more);
  }

  lemma EncodeBehind(a: Text, more: Text)
    requires Ascii(a) && Ascii(more)
    ensures Encode(a + ([0xE9] + more)) == a + ([0xC3, 0xA9] + more)
  {
    EncodeConcat(a, [0xE9] + more);
    EncodeAscii(a);
    EncodeCons(0xE9, more);
    EncodeAscii(more);
    assert EncodeChar(0xE9) == [0xC3, 0xA9];
  }

  lemma CutFirst(a: Bytes, x: Byte, more: Bytes)
    ensures (a + ([x, 0xA9] + more))[..|a| + 1] == a + [x]
  {
  }

  lemma EncodeBehindAscii(a: Text, more: Text)
    requires Ascii(a) && Ascii(more)
    ensures var e := Encode(a + ([0xE9] + more));
            e == a + ([0xC3, 0xA9] + more) && Decode(e[..|a| + 1]) == (a, |a|)
  {
    EncodeBehind(a, more);
    CutFirst(a, 0xC3, more);
    DecodeAscii(a, [0xC3]);
    assert Decode([0xC3]) == ([], 0) && a + [] == a;
  }

  function Letters(): (a: Text)
    ensures |a| == 1021 && forall i :: 0 <= i < |a| ==> a[i] == 97
  {
    seq(1021, i => 97)
  }

  /**
    In this file the header is a whole object, with a character whose two bytes are
    the bytes 1024 and 1025 of the file, and the extractor finds no header in it.
   */
  lemma CutCharacterLosesHeader()
    ensures var key := Letters() + [0xE9];
            WholeObject(RawText(key), RawObject(key)) && Scan(Encode(RawText(key)), 0, [], None).NotFound?
  {
    var key := Letters() + [0xE9];
    RawObjectParses(key);
    var a: Text := [LBRACE, QUOTE] + Letters();
    var more: Text := [QUOTE, COLON, LBRACE, RBRACE, RBRACE];
    assert RawText(key) == a + ([0xE9] + more);
    CutBehindAscii(a, more);
    var e := Encode(RawText(key));
    assert e + [] == e;
    FoundIffNotCut(RawText(key), RawObject(key), []);
  }

  /** A cut character, and behind the chunk that is lost with it the rest of another text for the same object. */
  lemma CutThenWhole(t: Text, u: Text, v: Json, e: Bytes, n: nat)
    requires WholeObject(t, v) && WholeObject(u, v) && e == Encode(t) && 2 * HEAD_CHUNK < |e| <= 3 * HEAD_CHUNK
    requires !Decodable(e[..HEAD_CHUNK]) && n == Decode(e[..HEAD_CHUNK]).1
    requires e[..n] + e[2 * HEAD_CHUNK..] == Encode(u)
    ensures Scan(e, 0, [], None) == HeaderAt(v, [], |e|)
  {
    assert e + [] == e;
    CutChunkAddsNothing(t, v, [], e, 2 * HEAD_CHUNK, n);
    EncodeDecode(u);
    var h := e[..n] + e[2 * HEAD_CHUNK..|e|];
    assert h == Encode(u) && Encode([]) + h[|h|..] == [];
  }

  /** A key with a string and the same key with an empty object, which counts. */
  function TwiceText(x: Text): Text {
    [LBRACE] + ([QUOTE, 107, QUOTE, COLON] + ([QUOTE] + x + [QUOTE] + ([COMMA] + TwiceEnd())))
  }

  function TwiceEnd(): Text { [QUOTE] + [107] + [QUOTE] + ([COLON] + [LBRACE, RBRACE, RBRACE]) }

  lemma FirstMemberParses(x: Text, s: Text, end: Text)
    requires forall i :: 0 <= i < |x| ==> x[i] >= 32 && x[i] != QUOTE && x[i] != BACKSLASH
    requires s == [QUOTE, 107, QUOTE, COLON] + ([QUOTE] + x + [QUOTE] + end)
    ensures ParseMember(s) == Ok((Member([107], String(x)), end))
  {
    var after := [QUOTE] + x + [QUOTE] + end;
    RawString(x, end);
    assert after[1..] == x + [QUOTE] + end;
    RawString([107], [COLON] + after);
    assert s[1..] == [107] + [QUOTE] + ([COLON] + after);
    MemberBuild(s, [107], [COLON] + after, after, String(x), end);
  }

  lemma SecondCounts(first: Member, second: Member)
    requires first.key == second.key
    ensures Dictionary([first] + [second]) == [second]
  {
    var ms := [first] + [second];
    assert ms[..1] == [first] && [first][..0] == [];
    assert Dictionary([]) == [] && Dictionary([first]) == [first];
    assert Put([first], second.key, second.value) == [second] + [first][1..] == [second];
  }

  lemma TwiceMembers(x: Text, s: Text, first: Member, second: Member)
    requires forall i :: 0 <= i < |x| ==> x[i] >= 32 && x[i] != QUOTE && x[i] != BACKSLASH
    requires s == [QUOTE, 107, QUOTE, COLON] + ([QUOTE] + x + [QUOTE] + ([COMMA] + TwiceEnd()))
    requires first == Member([107], String(x)) && second == Member([107], Object([]))
    ensures ParseMembers(s) == Ok(([first] + [second], []))
  {
    FirstMemberParses(x, s, [COMMA] + TwiceEnd());
    RawMemberParses([107], TwiceEnd());
    LastMember(TwiceEnd(), second, [RBRACE], []);
    NextMember(s, first, [COMMA] + TwiceEnd(), TwiceEnd(), [second], []);
  }

  lemma TwiceParses(x: Text)
    requires forall i :: 0 <= i < |x| ==> x[i] >= 32 && x[i] != QUOTE && x[i] != BACKSLASH
    requires NoSurrogates(x)
    ensures WholeObject(TwiceText(x), RawObject([107]))
  {
    var s := [QUOTE, 107, QUOTE, COLON] + ([QUOTE] + x + [QUOTE] + ([COMMA] + TwiceEnd()));
    var first, second := Member([107], String(x)), Member([107], Object([]));
    TwiceMembers(x, s, first, second);
    ObjectStep(s, [first] + [second], []);
    SecondCounts(first, second);
  }

  lemma TwiceParts(x: Text, a: Text, b: Text)
    requires x == a + ([0xE9] + b)
    ensures var front := [LBRACE, QUOTE, 107, QUOTE, COLON, QUOTE] + a;
            var end := [QUOTE] + ([COMMA] + TwiceEnd());
            TwiceText(x) == front + ([0xE9] + (b + end)) && TwiceText(a) == front + end
  {
  }

  /**
    A cut character need not lose the header: the value that was cut is replaced
    anyway, and the chunk that is lost lies within it.
   */
  lemma CutCharacterMayNotMatter(a: Text, b: Text)
    requires |a| == 1017 && |b| == 1023
    requires forall i :: 0 <= i < |a| ==> a[i] == 97
    requires forall i :: 0 <= i < |b| ==> b[i] == 98
    ensures var t := TwiceText(a + ([0xE9] + b));
            && WholeObject(t, RawObject([107]))
            && HEAD_CHUNK < |Encode(t)| && !Decodable(Encode(t)[..HEAD_CHUNK])
            && Scan(Encode(t), 0, [], None) == HeaderAt(RawObject([107]), [], |Encode(t)|)
  {
    var x := a + ([0xE9] + b);
    TwiceParses(x);
    TwiceParses(a);
    TwiceParts(x, a, b);
    var front: Text := [LBRACE, QUOTE, 107, QUOTE, COLON, QUOTE] + a;
    var end: Text := [QUOTE] + ([COMMA] + TwiceEnd());
    EncodeBehindAscii(front, b + end);
    EncodeAscii(front + end);
    DroppedChunk(front, b, end, Encode(TwiceText(x)));
    CutThenWhole(TwiceText(x), TwiceText(a), RawObject([107]), Encode(TwiceText(x)), |front|);
  }

  lemma DroppedChunk(front: Text, b: Text, end: Text, e: Text)
    requires |front| == HEAD_CHUNK - 1 && |b| == HEAD_CHUNK - 1 && e == front + ([0xC3, 0xA9] + (b + end))
    ensures |e| == 2 * HEAD_CHUNK + |end| && e[..|front|] == front && e[2 * HEAD_CHUNK..] == end
  {
    assert e == (front + [0xC3, 0xA9] + b) + end;
  }
}

/**
  UTF-8 (section 3 of RFC 3629) as Python's `decode` and `encode` treat it: a
  failed decode reports where the first undecodable sequence starts.
 */
module Utf8 {
  import opened Wrappers
  import opened Sequences

  type CodePoint = x: int | 0 <= x < 0x11_0000
  type Text = seq<CodePoint>

  predicate Surrogate(c: CodePoint) { 0xD800 <= c < 0xE000 }

  predicate Ascii(t: Text) { forall i :: 0 <= i < |t| ==> t[i] < 0x80 }

  predicate Continues(b: Byte) { 0x80 <= b < 0xC0 }

  function EncodeChar(c: CodePoint): Bytes {
    if c < 0x80 then [c]
    else if c < 0x800 then [0xC0 + c / 64, 0x80 + c % 64]
    else if c < 0x1_0000 then [0xE0 + c / 4096, 0x80 + c / 64 % 64, 0x80 + c % 64]
    else [0xF0 + c / 262144, 0x80 + c / 4096 % 64, 0x80 + c / 64 % 64, 0x80 + c % 64]
  }

  function Encode(t: Text): Bytes {
    if t == [] then [] else EncodeChar(t[0]) + Encode(t[1..])
  }

  /** What a byte adds to the code point once its marker bits are taken off. */
  function Part(b: Byte, marker: Byte): int { b - marker }

  /** The character at the start of `b` and its length, unless the bytes there are malformed or cut off. */
  function First(b: Bytes): Option<(CodePoint, nat)> {
    if b == [] then None
    else if b[0] < 0x80 then Some((b[0], 1))
    else if 0xC0 <= b[0] < 0xE0 && |b| >= 2 && Continues(b[1]) then
      var c := Part(b[0], 0xC0) * 64 + Part(b[1], 0x80);
      if c >= 0x80 then Some((c, 2)) else None
    else if 0xE0 <= b[0] < 0xF0 && |b| >= 3 && Continues(b[1]) && Continues(b[2]) then
      var c := Part(b[0], 0xE0) * 4096 + Part(b[1], 0x80) * 64 + Part(b[2], 0x80);
      if c >= 0x800 && !Surrogate(c) then Some((c, 3)) else None
    else if 0xF0 <= b[0] < 0xF8 && |b| >= 4 && Continues(b[1]) && Continues(b[2]) && Continues(b[3]) then
      var c := Part(b[0], 0xF0) * 262144 + Part(b[1], 0x80) * 4096 + Part(b[2], 0x80) * 64 + Part(b[3], 0x80);
      if 0x1_0000 <= c < 0x11_0000 then Some((c, 4)) else None
    else None
  }

  /** What the first character encodes to is what it was decoded from. */
  lemma FirstEncodes(b: Bytes)
    requires First(b).Some?
    ensures var (c, n) := First(b).value;
            0 < n <= |b| && !Surrogate(c) && EncodeChar(c) == b[..n]
  {
    var (c, n) := First(b).value;
    if n == 2 {
      Quotients(Part(b[0], 0xC0), Part(b[1], 0x80));
    } else if n == 3 {
      Three(Part(b[0], 0xE0), Part(b[1], 0x80), Part(b[2], 0x80));
    } else if n == 4 {
      Four(Part(b[0], 0xF0), Part(b[1], 0x80), Part(b[2], 0x80), Part(b[3], 0x80));
    }
  }

  lemma Three(x: int, y: int, z: int)
    requires 0 <= y < 64 && 0 <= z < 64
    ensures var c := x * 4096 + y * 64 + z; c / 4096 == x && c / 64 % 64 == y && c % 64 == z
  {
    Quotients(x * 64 + y, z);
    Quotients(x, y);
  }

  lemma Four(x: int, y: int, z: int, u: int)
    requires 0 <= y < 64 && 0 <= z < 64 && 0 <= u < 64
    ensures var c := x * 262144 + y * 4096 + z * 64 + u;
            c / 262144 == x && c / 4096 % 64 == y && c / 64 % 64 == z && c % 64 == u
  {
    Quotients(x * 4096 + y * 64 + z, u);
    Three(x, y, z);
  }

  lemma Quotients(q: int, r: int)
    requires 0 <= r < 64
    ensures (q * 64 + r) / 64 == q && (q * 64 + r) % 64 == r
  {
  }

  /** The characters of the longest decodable prefix, and its length in bytes. */
  function Decode(b: Bytes): (r: (Text, nat))
    ensures r.1 <= |b|
  {
    match First(b)
    case None => ([], 0)
    case Some((c, n)) =>
      FirstEncodes(b);
      var (t, m) := Decode(b[n..]);
      ([c] + t, n + m)
  }

  predicate Decodable(b: Bytes) { Decode(b).1 == |b| }

  /** Re-encoding what was decoded gives back the decoded bytes. */
  lemma {:induction false} DecodeEncode(b: Bytes)
    ensures Encode(Decode(b).0) == b[..Decode(b).1]
  {
    match First(b)
    case None =>
    case Some((c, n)) =>
      FirstEncodes(b);
      DecodeEncode(b[n..]);
      var (t, m) := Decode(b[n..]);
      EncodeCons(c, t);
      Spliced(b, n, m);
  }

  lemma EncodeCons(c: CodePoint, t: Text)
    ensures Encode([c] + t) == EncodeChar(c) + Encode(t)
  {
    assert ([c] + t)[1..] == t;
  }

  lemma Spliced(b: Bytes, n: nat, m: nat)
    requires n + m <= |b|
    ensures b[..n] + b[n..][..m] == b[..n + m]
  {
  }

  /** ASCII in front decodes to itself whatever bytes follow it. */
  lemma {:induction false} DecodeAscii(a: Text, b: Bytes)
    requires Ascii(a)
    ensures Decode(a + b) == (a + Decode(b).0, |a| + Decode(b).1)
  {
    if a == [] {
      assert a + b == b && a + Decode(b).0 == Decode(b).0;
    } else {
      assert (a + b)[1..] == a[1..] + b;
      DecodeAscii(a[1..], b);
      assert [a[0]] + (a[1..] + Decode(b).0) == a + Decode(b).0;
    }
  }

  lemma {:induction false} EncodeAscii(a: Text)
    requires Ascii(a)
    ensures Encode(a) == a
  {
    if a != [] { EncodeAscii(a[1..]); }
  }

  predicate NoSurrogates(t: Text) {
    forall i :: 0 <= i < |t| ==> !Surrogate(t[i])
  }

  /** Encoded text in front decodes to itself whatever bytes follow it. */
  lemma DecodeText(t: Text, b: Bytes)
    requires NoSurrogates(t)
    ensures Decode(Encode(t) + b) == (t + Decode(b).0, |Encode(t)| + Decode(b).1)
  {
    DecodeAll(t, b, Encode(t) + b);
  }

  lemma {:induction false} DecodeAll(t: Text, b: Bytes, all: Bytes)
    requires NoSurrogates(t) && all == Encode(t) + b
    ensures Decode(all) == (t + Decode(b).0, |Encode(t)| + Decode(b).1)
  {
    if t == [] {
      assert all == b && t + Decode(b).0 == Decode(b).0;
    } else {
      var rest := t[1..];
      var more := Encode(rest) + b;
      DecodeAll(rest, b, more);
      EncodedSplit(t, rest, b, more, all);
      TextSplit(t, rest, Decode(b).0);
      DecodeCons(t[0], more, all);
    }
  }

  lemma EncodedSplit(t: Text, rest: Text, b: Bytes, more: Bytes, all: Bytes)
    requires t != [] && rest == t[1..] && more == Encode(rest) + b && all == Encode(t) + b
    ensures all == EncodeChar(t[0]) + more && |Encode(t)| == |EncodeChar(t[0])| + |Encode(rest)|
  {
    Associate(EncodeChar(t[0]), Encode(rest), b);
  }

  lemma TextSplit(t: Text, rest: Text, s: Text)
    requires t != [] && rest == t[1..]
    ensures [t[0]] + (rest + s) == t + s
  {
  }

  /** Any text without surrogates survives being encoded and decoded. */
  lemma EncodeDecode(t: Text)
    requires NoSurrogates(t)
    ensures Decode(Encode(t)) == (t, |Encode(t)|)
  {
    DecodeText(t, []);
    assert Encode(t) + [] == Encode(t) && t + Decode([]).0 == t;
  }

  lemma {:induction false} DecodedNoSurrogates(b: Bytes)
    ensures NoSurrogates(Decode(b).0)
  {
    match First(b)
    case None =>
    case Some((c, n)) =>
      FirstEncodes(b);
      DecodedNoSurrogates(b[n..]);
  }

  /** What decodes of the first bytes of an encoded text is a first part of the text. */
  lemma DecodedPrefix(t: Text, n: nat)
    requires NoSurrogates(t) && n <= |Encode(t)|
    ensures var s := Decode(Encode(t)[..n]).0;
            s <= t && NoSurrogates(s) && (n < |Encode(t)| ==> |s| < |t|)
  {
    var b := Encode(t);
    var (s, m) := Decode(b[..n]);
    DecodeEncode(b[..n]);
    DecodedNoSurrogates(b[..n]);
    assert b[..n][..m] == b[..m] && b == Encode(s) + b[m..];
    DecodeText(s, b[m..]);
    EncodeDecode(t);
    if s == t { assert |b| == m; }
  }

  predicate Continuation(x: Byte) { 0x80 <= x < 0xC0 }

  /** Where a cut does not leave decodable bytes, it is within a character. */
  lemma {:induction false} CutWithinCharacter(t: Text, n: nat)
    requires NoSurrogates(t) && n < |Encode(t)| && !Decodable(Encode(t)[..n])
    ensures Continuation(Encode(t)[n])
  {
    var c, rest := EncodeChar(t[0]), Encode(t[1..]);
    if n < |c| {
      assert Decode(Encode(t)[..0]) == ([], 0);
      assert Encode(t)[n] == c[n];
      TrailingBytes(t[0], n);
    } else {
      CutBehind(c, rest, n);
      DecodeCons(t[0], rest[..n - |c|], Encode(t)[..n]);
      CutWithinCharacter(t[1..], n - |c|);
    }
  }

  lemma CutBehind(a: Bytes, b: Bytes, n: nat)
    requires |a| <= n < |a + b|
    ensures (a + b)[..n] == a + b[..n - |a|] && (a + b)[n] == b[n - |a|]
  {
  }

  lemma TrailingBytes(c: CodePoint, n: nat)
    requires !Surrogate(c) && 0 < n < |EncodeChar(c)|
    ensures Continuation(EncodeChar(c)[n])
  {
  }

  lemma ContinuationUndecodable(b: Bytes)
    requires b != [] && Continuation(b[0])
    ensures Decode(b) == ([], 0)
  {
  }

  lemma DecodeCons(c: CodePoint, rest: Bytes, all: Bytes)
    requires !Surrogate(c) && all == EncodeChar(c) + rest
    ensures Decode(all) == ([c] + Decode(rest).0, |EncodeChar(c)| + Decode(rest).1)
  {
    EncodedFirst(c, rest);
    assert all[|EncodeChar(c)|..] == rest;
  }

  lemma EncodedFirst(c: CodePoint, rest: Bytes)
    requires !Surrogate(c)
    ensures First(EncodeChar(c) + rest) == Some((c, |EncodeChar(c)|))
  {
    Digits64(c);
    var b := EncodeChar(c) + rest;
    assert forall i :: 0 <= i < |EncodeChar(c)| ==> b[i] == EncodeChar(c)[i];
  }

  lemma Digits64(c: nat)
    ensures c == c / 64 * 64 + c % 64
    ensures c == c / 4096 * 4096 + c / 64 % 64 * 64 + c % 64
    ensures c == c / 262144 * 262144 + c / 4096 % 64 * 4096 + c / 64 % 64 * 64 + c % 64
  {
    assert c / 64 / 64 == c / 4096 && c / 4096 / 64 == c / 262144;
  }

  /** What a byte carries besides the leading bits that mark it. */
  function Bits(x: int, lead: int): int { x - lead }

  /** The bits of a character are spread over one to four bytes as section 3 of RFC 3629 lays down. */
  lemma EncodeMeaning(c: CodePoint)
    ensures var b := EncodeChar(c);
            if c < 0x80 then b == [c]
            else if c < 0x800 then
              |b| == 2 && 0xC0 <= b[0] < 0xE0 && Continuation(b[1]) && c == Bits(b[0], 0xC0) * 0x40 + Bits(b[1], 0x80)
            else if c < 0x1_0000 then
              && |b| == 3 && 0xE0 <= b[0] < 0xF0 && Continuation(b[1]) && Continuation(b[2])
              && c == Bits(b[0], 0xE0) * 0x1000 + Bits(b[1], 0x80) * 0x40 + Bits(b[2], 0x80)
            else
              && |b| == 4 && 0xF0 <= b[0] < 0xF8 && Continuation(b[1]) && Continuation(b[2]) && Continuation(b[3])
              && c == Bits(b[0], 0xF0) * 0x4_0000 + Bits(b[1], 0x80) * 0x1000 + Bits(b[2], 0x80) * 0x40
                      + Bits(b[3], 0x80)
  {
    Digits64(c);
  }

  /** No more of the bytes can be decoded than is. */
  lemma LongestPrefix(b: Bytes, t: Text)
    requires NoSurrogates(t) && Encode(t) <= b
    ensures |Encode(t)| <= Decode(b).1
  {
    var rest := b[|Encode(t)|..];
    assert b == Encode(t) + rest;
    DecodeText(t, rest);
  }
}

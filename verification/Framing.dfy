/** Cutting the bytes of a log connection into lines, however the socket delivers them. */
module Framing {
  import opened Wrappers
  import opened Sequences
  import opened Utf8

  const NEWLINE: Byte := 10

  /** The parts between newlines; the last part is what follows the last newline. */
  function Split(b: Bytes): (r: seq<Bytes>)
    ensures r != []
  {
    if b == [] then [[]]
    else
      var rest := Split(b[1..]);
      if b[0] == NEWLINE then [[]] + rest else [[b[0]] + rest[0]] + rest[1..]
  }

  function Join(lines: seq<Bytes>): Bytes
    requires lines != []
  {
    if |lines| == 1 then lines[0] else lines[0] + [NEWLINE] + Join(lines[1..])
  }

  /** The lines, each with its newline. */
  function Terminated(lines: seq<Bytes>): Bytes {
    if lines == [] then [] else lines[0] + [10] + Terminated(lines[1..])
  }

  /** How many lines can be decoded before the first that cannot. */
  function Leading(lines: seq<Bytes>): (n: nat)
    ensures n <= |lines|
    ensures forall i :: 0 <= i < n ==> Decodable(lines[i])
    ensures n < |lines| ==> !Decodable(lines[n])
  {
    if lines == [] || !Decodable(lines[0]) then 0 else 1 + Leading(lines[1..])
  }

  /** The complete lines among the bytes. */
  function Complete(b: Bytes): seq<Bytes> {
    Split(b)[..|Split(b)| - 1]
  }

  function Texts(lines: seq<Bytes>): seq<Text> {
    seq(|lines|, i requires 0 <= i < |lines| => Decode(lines[i]).0)
  }

  /** `lines` are the lines handed on so far. */
  datatype Client = Client(buffer: Bytes, lines: seq<Bytes>)

  /** One read: everything buffered is cut anew, and what cannot be handed on stays buffered. */
  function Receive(c: Client, data: Bytes): Client {
    var parts := Split(c.buffer + data);
    var done := Leading(parts[..|parts| - 1]);
    Client(Join(parts[done..]), c.lines + parts[..done])
  }

  function Run(chunks: seq<Bytes>): Client {
    if chunks == [] then Client([], []) else Receive(Run(chunks[..|chunks| - 1]), chunks[|chunks| - 1])
  }

  // ---------------------------------------------------------------------------
  // Cutting and joining
  // ---------------------------------------------------------------------------

  ghost predicate NewlineFree(lines: seq<Bytes>) {
    forall i :: 0 <= i < |lines| ==> 10 !in lines[i]
  }

  lemma {:induction false} SplitNewlineFree(b: Bytes)
    ensures NewlineFree(Split(b))
  {
    if b != [] { SplitNewlineFree(b[1..]); }
  }

  lemma {:induction false} SplitLine(line: Bytes, b: Bytes)
    requires NEWLINE !in line
    ensures Split(line + [NEWLINE] + b) == [line] + Split(b)
  {
    var all := line + [NEWLINE] + b;
    if line == [] {
      assert all[1..] == b;
    } else {
      assert all[1..] == line[1..] + [NEWLINE] + b;
      SplitLine(line[1..], b);
      assert [line[0]] + line[1..] == line;
    }
  }

  /** Whole lines in front do not change how the rest is cut. */
  lemma {:induction false} SplitAfterLines(lines: seq<Bytes>, b: Bytes)
    requires NewlineFree(lines)
    ensures Split(Terminated(lines) + b) == lines + Split(b)
  {
    if lines == [] {
      assert Terminated(lines) + b == b;
    } else {
      assert Terminated(lines) + b == lines[0] + [NEWLINE] + (Terminated(lines[1..]) + b);
      SplitLine(lines[0], Terminated(lines[1..]) + b);
      SplitAfterLines(lines[1..], b);
      HeadFirst(lines, Split(b));
    }
  }

  lemma HeadFirst(lines: seq<Bytes>, more: seq<Bytes>)
    requires lines != []
    ensures [lines[0]] + (lines[1..] + more) == lines + more
  {
  }

  lemma {:induction false} JoinSplit(b: Bytes)
    ensures Join(Split(b)) == b
  {
    if b != [] {
      var rest := Split(b[1..]);
      JoinSplit(b[1..]);
      if b[0] == NEWLINE {
        assert ([[]] + rest)[1..] == rest;
        assert [] + [NEWLINE] + b[1..] == b;
      } else {
        JoinGrown(b[0], rest);
        assert b == [b[0]] + b[1..];
      }
    }
  }

  lemma JoinGrown(x: Byte, rest: seq<Bytes>)
    requires rest != []
    ensures Join([[x] + rest[0]] + rest[1..]) == [x] + Join(rest)
  {
    var parts := [[x] + rest[0]] + rest[1..];
    assert parts[1..] == rest[1..];
    if |rest| > 1 {
      assert Join(parts) == [x] + (rest[0] + [NEWLINE] + Join(rest[1..]));
    }
  }

  /** The first parts with their newlines, and the others joined, are the whole. */
  lemma {:induction false} JoinFrom(parts: seq<Bytes>, k: nat)
    requires k < |parts|
    ensures Terminated(parts[..k]) + Join(parts[k..]) == Join(parts)
    decreases k
  {
    if k == 0 {
      assert parts[..0] == [] && parts[0..] == parts;
    } else {
      JoinFrom(parts[1..], k - 1);
      assert parts[..k][1..] == parts[1..][..k - 1] && parts[1..][k - 1..] == parts[k..];
    }
  }

  lemma {:induction false} LeadingAfter(a: seq<Bytes>, b: seq<Bytes>)
    requires forall i :: 0 <= i < |a| ==> Decodable(a[i])
    ensures Leading(a + b) == |a| + Leading(b)
  {
    if a == [] {
      assert a + b == b;
    } else {
      assert (a + b)[1..] == a[1..] + b;
      LeadingAfter(a[1..], b);
    }
  }

  // ---------------------------------------------------------------------------
  // Read boundaries do not matter
  // ---------------------------------------------------------------------------

  /** The longest decodable prefix of the complete lines has been handed on, and the rest is buffered. */
  ghost predicate Framed(c: Client, all: Bytes) {
    && c.lines == Complete(all)[..Leading(Complete(all))]
    && Terminated(c.lines) + c.buffer == all
  }

  lemma CompleteAfter(lines: seq<Bytes>, b: Bytes)
    requires NewlineFree(lines)
    ensures Complete(Terminated(lines) + b) == lines + Complete(b)
  {
    SplitAfterLines(lines, b);
  }

  lemma TakeLeading(a: seq<Bytes>, b: seq<Bytes>)
    requires forall i :: 0 <= i < |a| ==> Decodable(a[i])
    ensures (a + b)[..Leading(a + b)] == a + b[..Leading(b)]
  {
    LeadingAfter(a, b);
  }

  lemma Rejoined(lines: seq<Bytes>, b: Bytes, k: nat)
    requires k < |Split(b)|
    ensures Terminated(lines + Split(b)[..k]) + Join(Split(b)[k..]) == Terminated(lines) + b
  {
    JoinFrom(Split(b), k);
    JoinSplit(b);
    TerminatedConcat(lines, Split(b)[..k]);
    Associate(Terminated(lines), Terminated(Split(b)[..k]), Join(Split(b)[k..]));
  }

  /** The lines handed on stay in front; only what is buffered is cut again. */
  lemma ReceiveParts(c: Client, data: Bytes)
    ensures Receive(c, data).lines == c.lines + Complete(c.buffer + data)[..Leading(Complete(c.buffer + data))]
    ensures Terminated(Receive(c, data).lines) + Receive(c, data).buffer == Terminated(c.lines) + (c.buffer + data)
  {
    var b := c.buffer + data;
    ReceivedLines(b, Leading(Complete(b)));
    Rejoined(c.lines, b, Leading(Complete(b)));
  }

  lemma ReceivedLines(b: Bytes, done: nat)
    requires done < |Split(b)|
    ensures Complete(b)[..done] == Split(b)[..done]
  {
  }

  lemma ReceiveKeepsFraming(c: Client, all: Bytes, data: Bytes)
    requires Framed(c, all)
    ensures Framed(Receive(c, data), all + data)
  {
    var b := c.buffer + data;
    SplitNewlineFree(all);
    ReceiveParts(c, data);
    CompleteAfter(c.lines, b);
    TakeLeading(c.lines, Complete(b));
    Associate(Terminated(c.lines), c.buffer, data);
  }

  lemma {:induction false} TerminatedConcat(a: seq<Bytes>, b: seq<Bytes>)
    ensures Terminated(a + b) == Terminated(a) + Terminated(b)
  {
    if a == [] {
      assert a + b == b;
    } else {
      assert (a + b)[1..] == a[1..] + b;
      TerminatedConcat(a[1..], b);
    }
  }

  /** Whatever the reads, the outcome depends only on the bytes received. */
  lemma {:induction false} ReadBoundariesDoNotMatter(chunks: seq<Bytes>)
    ensures Framed(Run(chunks), Concat(chunks))
  {
    if chunks == [] {
      assert Complete([]) == [];
    } else {
      var n := |chunks| - 1;
      ReadBoundariesDoNotMatter(chunks[..n]);
      ReceiveKeepsFraming(Run(chunks[..n]), Concat(chunks[..n]), chunks[n]);
    }
  }

  /**
    What has been handed on is lines without line feed that decode, and what is
    buffered holds no line feed, unless its first line does not decode.
   */
  lemma HandedOn(chunks: seq<Bytes>, i: nat)
    ensures var c := Run(chunks);
            && NewlineFree(c.lines) && (i < |c.lines| ==> Decodable(c.lines[i]))
            && Terminated(c.lines) + c.buffer == Concat(chunks)
            && (10 in c.buffer ==> exists n :: 0 <= n < |c.buffer| && c.buffer[n] == 10 && 10 !in c.buffer[..n] &&
                                               !Decodable(c.buffer[..n]))
  {
    var c, all := Run(chunks), Concat(chunks);
    ReadBoundariesDoNotMatter(chunks);
    SplitNewlineFree(all);
    SplitAfterLines(c.lines, c.buffer);
    LeadingAfter(c.lines, Complete(c.buffer));
    CompleteAfter(c.lines, c.buffer);
    if 10 in c.buffer { FirstLine(c.buffer); }
  }

  lemma {:induction false} FirstLine(b: Bytes)
    requires 10 in b
    ensures |Split(b)| > 1 && |Split(b)[0]| < |b| && b[|Split(b)[0]|] == 10
    ensures b[..|Split(b)[0]|] == Split(b)[0] && 10 !in Split(b)[0]
  {
    if b[0] != 10 {
      assert b == [b[0]] + b[1..];
      FirstLine(b[1..]);
    }
  }

  lemma SameBytesSameOutcome(chunks: seq<Bytes>, chunks': seq<Bytes>)
    requires Concat(chunks) == Concat(chunks')
    ensures Run(chunks) == Run(chunks')
  {
    ReadBoundariesDoNotMatter(chunks);
    ReadBoundariesDoNotMatter(chunks');
    var n := |Terminated(Run(chunks).lines)|;
    assert Run(chunks).buffer == Concat(chunks)[n..];
    assert Run(chunks').buffer == Concat(chunks')[n..];
  }

  class XmlLogClientHandler {
    var buffer: Bytes
    ghost var lines: seq<Bytes>
    ghost var texts: seq<Text>
    /** The undecoded rest, handed on when the connection is closed. */
    var leftover: Option<Bytes>

    ghost function Snap(): Client
      reads this
    {
      Client(buffer, lines)
    }

    constructor ()
      ensures Snap() == Client([], []) && texts == [] && leftover == None
    {
      buffer, lines, texts, leftover := [], [], [], None;
    }

    method HandleRead(data: Bytes)
      modifies this
      ensures data != [] ==> Snap() == Receive(old(Snap()), data) && leftover == old(leftover)
      ensures old(texts) == Texts(old(lines)) ==> texts == Texts(lines)
      ensures data == [] ==> leftover == Some(buffer) && Snap() == old(Snap())
    {
      if data == [] {
        leftover := Some(buffer);
        return;
      }
      buffer := buffer + data;
      var parts := SplitBytes(buffer);
      var done := HandOn(parts[..|parts| - 1]);
      assert parts[..|parts| - 1][..done] == parts[..done];
      buffer := Join(parts[done..]);
    }

    /** Decodes and hands on lines up to the first that cannot be decoded. */
    method HandOn(complete: seq<Bytes>) returns (done: nat)
      modifies this`lines, this`texts
      ensures done == Leading(complete) && lines == old(lines) + complete[..done]
      ensures old(texts) == Texts(old(lines)) ==> texts == Texts(lines)
    {
      done := 0;
      while done < |complete| && Decodable(complete[done])
        invariant done <= |complete|
        invariant done + Leading(complete[done..]) == Leading(complete)
        invariant lines == old(lines) + complete[..done]
        invariant old(texts) == Texts(old(lines)) ==> texts == Texts(lines)
      {
        assert complete[done..][1..] == complete[done + 1..];
        texts := texts + [Decode(complete[done]).0];
        lines := lines + [complete[done]];
        done := done + 1;
      }
    }
  }

  method SplitBytes(b: Bytes) returns (parts: seq<Bytes>)
    ensures parts == Split(b)
  {
    parts := [[]];
    var k := |b|;
    assert b[k..] == [];
    while k > 0
      invariant 0 <= k <= |b| && parts != [] && parts == Split(b[k..])
    {
      k := k - 1;
      assert b[k..][1..] == b[k + 1..];
      parts := if b[k] == NEWLINE then [[]] + parts else [[b[k]] + parts[0]] + parts[1..];
    }
    assert b[0..] == b;
  }
}

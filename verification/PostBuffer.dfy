/**
  The two-stage buffer of the InfluxDB sink: lines gather in a batch, move to
  the post buffer, and are posted from there when the next message comes.
  `posts(n)` tells whether the n-th post gets through.
 */
module PostBuffer {
  import opened Wrappers
  import opened Sequences

  type Line = string

  /** The lines of a message, one for each argument with a numeric value. */
  type Message = seq<Option<Line>>

  function LinesOf(m: Message): seq<Line> {
    if m == [] then []
    else
      var rest := LinesOf(m[..|m| - 1]);
      if m[|m| - 1].Some? then rest + [m[|m| - 1].value] else rest
  }

  datatype Buffers = Buffers(batch: seq<Line>, buffer: seq<Line>, posted: seq<seq<Line>>, attempts: nat)

  /** Posts what is buffered, and only then moves the batch up. */
  function WriteData(posts: nat -> bool, s: Buffers): Buffers {
    if s.buffer == [] then s.(buffer := s.batch, batch := [])
    else if !posts(s.attempts) then s.(attempts := s.attempts + 1)
    else Buffers([], s.batch, s.posted + [s.buffer], s.attempts + 1)
  }

  function Consume(posts: nat -> bool, s: Buffers, m: Message): Buffers {
    WriteData(posts, s.(batch := s.batch + LinesOf(m)))
  }

  function Run(posts: nat -> bool, messages: seq<Message>): Buffers {
    if messages == [] then Buffers([], [], [], 0)
    else Consume(posts, Run(posts, messages[..|messages| - 1]), messages[|messages| - 1])
  }

  /** All lines of the messages, in order. */
  function AllLines(messages: seq<Message>): seq<Line> {
    if messages == [] then [] else AllLines(messages[..|messages| - 1]) + LinesOf(messages[|messages| - 1])
  }

  /** Where the messages were cut into posts, and which of them are buffered. */
  datatype Cuts = Cuts(posts: seq<nat>, buffered: nat)

  /** Post `i` is made of the messages between its cut and the next. */
  ghost predicate PostIsWhole(messages: seq<Message>, posted: seq<seq<Line>>, cuts: seq<nat>, i: nat)
    requires i < |posted| && |cuts| == |posted| + 1
  {
    cuts[i] <= cuts[i + 1] <= |messages| && posted[i] == AllLines(messages[cuts[i]..cuts[i + 1]])
  }

  /** The posts, the post buffer and the batch each hold the lines of whole messages, one after the other. */
  ghost predicate CutAt(messages: seq<Message>, s: Buffers, cuts: Cuts) {
    && |cuts.posts| == |s.posted| + 1 && cuts.posts[0] == 0
    && (forall i :: 0 <= i < |s.posted| ==> PostIsWhole(messages, s.posted, cuts.posts, i))
    && cuts.posts[|s.posted|] <= cuts.buffered <= |messages|
    && s.buffer == AllLines(messages[cuts.posts[|s.posted|]..cuts.buffered])
    && s.batch == AllLines(messages[cuts.buffered..])
  }

  lemma {:induction false} LinesConcat(a: seq<Message>, b: seq<Message>)
    ensures AllLines(a + b) == AllLines(a) + AllLines(b)
  {
    if b == [] {
      assert a + b == a;
    } else {
      assert (a + b)[..|a + b| - 1] == a + b[..|b| - 1];
      LinesConcat(a, b[..|b| - 1]);
    }
  }

  lemma AppendMessage(messages: seq<Message>, m: Message, s: Buffers, cuts: Cuts)
    requires CutAt(messages, s, cuts)
    ensures CutAt(messages + [m], s.(batch := s.batch + LinesOf(m)), cuts)
  {
    var all := messages + [m];
    assert all[cuts.buffered..] == messages[cuts.buffered..] + [m];
    LinesConcat(messages[cuts.buffered..], [m]);
    assert [m][..0] == [];
    assert AllLines([m]) == LinesOf(m);
    assert all[cuts.posts[|s.posted|]..cuts.buffered] == messages[cuts.posts[|s.posted|]..cuts.buffered];
    forall i | 0 <= i < |s.posted| ensures PostIsWhole(all, s.posted, cuts.posts, i) {
      assert PostIsWhole(messages, s.posted, cuts.posts, i);
      assert all[cuts.posts[i]..cuts.posts[i + 1]] == messages[cuts.posts[i]..cuts.posts[i + 1]];
    }
  }

  lemma WriteKeepsCuts(posts: nat -> bool, messages: seq<Message>, s: Buffers, cuts: Cuts) returns (cuts1: Cuts)
    requires CutAt(messages, s, cuts)
    ensures CutAt(messages, WriteData(posts, s), cuts1)
  {
    var n := |messages|;
    var last := cuts.posts[|s.posted|];
    assert messages[n..] == [] && messages[cuts.buffered..n] == messages[cuts.buffered..];
    if s.buffer == [] {
      LinesConcat(messages[last..cuts.buffered], messages[cuts.buffered..]);
      assert messages[last..cuts.buffered] + messages[cuts.buffered..] == messages[last..n];
      cuts1 := cuts.(buffered := n);
    } else if !posts(s.attempts) {
      cuts1 := cuts;
    } else {
      cuts1 := Cuts(cuts.posts + [cuts.buffered], n);
      forall i | 0 <= i < |s.posted| + 1 ensures PostIsWhole(messages, s.posted + [s.buffer], cuts1.posts, i) {
        if i < |s.posted| { assert PostIsWhole(messages, s.posted, cuts.posts, i); }
      }
    }
  }

  /** Whatever posts fail, every post is made of whole messages, in order. */
  lemma {:induction false} PostsAreWholeMessages(posts: nat -> bool, messages: seq<Message>) returns (cuts: Cuts)
    ensures CutAt(messages, Run(posts, messages), cuts)
  {
    if messages == [] {
      cuts := Cuts([0], 0);
    } else {
      var n := |messages| - 1;
      var before := PostsAreWholeMessages(posts, messages[..n]);
      var s := Run(posts, messages[..n]);
      AppendMessage(messages[..n], messages[n], s, before);
      assert messages[..n] + [messages[n]] == messages;
      cuts := WriteKeepsCuts(posts, messages, s.(batch := s.batch + LinesOf(messages[n])), before);
    }
  }

  function Total(s: Buffers): seq<Line> {
    Concat(s.posted) + s.buffer + s.batch
  }

  lemma WriteConserves(posts: nat -> bool, s: Buffers)
    ensures Total(WriteData(posts, s)) == Total(s)
  {
    assert (s.posted + [s.buffer])[..|s.posted|] == s.posted;
    assert s.batch + [] == s.batch;
  }

  lemma BatchMore(s: Buffers, lines: seq<Line>)
    ensures Total(s.(batch := s.batch + lines)) == Total(s) + lines
  {
    Associate(Concat(s.posted) + s.buffer, s.batch, lines);
  }

  /** Posted, buffered and batched lines are all lines ever appended, in order. */
  lemma {:induction false} LinesConserved(posts: nat -> bool, messages: seq<Message>)
    ensures Total(Run(posts, messages)) == AllLines(messages)
  {
    if messages != [] {
      var n := |messages| - 1;
      LinesConserved(posts, messages[..n]);
      var s := Run(posts, messages[..n]);
      var s1 := s.(batch := s.batch + LinesOf(messages[n]));
      WriteConserves(posts, s1);
      BatchMore(s, LinesOf(messages[n]));
    }
  }

  /** How many of the first `n` posts get through. */
  function Successes(posts: nat -> bool, n: nat): nat {
    if n == 0 then 0 else Successes(posts, n - 1) + if posts(n - 1) then 1 else 0
  }

  /**
    Every post that gets through carries lines, lines are never held back from a
    buffer that is free, and the batch waits only after a failed post.
   */
  lemma {:induction false} PostsCount(posts: nat -> bool, messages: seq<Message>)
    ensures var s := Run(posts, messages);
            && |s.posted| == Successes(posts, s.attempts)
            && (forall i :: 0 <= i < |s.posted| ==> s.posted[i] != [])
            && (s.batch != [] ==> s.buffer != [] && s.attempts > 0 && !posts(s.attempts - 1))
  {
    if messages != [] {
      PostsCount(posts, messages[..|messages| - 1]);
    }
  }

  /** How many arguments have a value. */
  function Valued(m: Message): nat {
    if m == [] then 0 else Valued(m[..|m| - 1]) + if m[|m| - 1].Some? then 1 else 0
  }

  /** Each argument with a value gives one line, in the order of the arguments. */
  lemma {:induction false} LineOfArgument(m: Message, i: nat)
    requires i < |m|
    ensures |LinesOf(m)| == Valued(m)
    ensures m[i].Some? ==> Valued(m[..i]) < Valued(m) && LinesOf(m)[Valued(m[..i])] == m[i].value
  {
    var n := |m| - 1;
    if i < n {
      LineOfArgument(m[..n], i);
      assert m[..n][..i] == m[..i] && m[..n][i] == m[i];
    } else if n > 0 {
      LineOfArgument(m[..n], n - 1);
    }
  }

  /** As long as posts get through, each message is posted when the next one comes. */
  lemma {:induction false} PostedOneBehind(posts: nat -> bool, messages: seq<Message>)
    requires (forall n :: posts(n)) && messages != [] && forall i :: 0 <= i < |messages| ==> LinesOf(messages[i]) != []
    ensures var s, n := Run(posts, messages), |messages| - 1;
            && |s.posted| == n && (forall i :: 0 <= i < n ==> s.posted[i] == LinesOf(messages[i]))
            && s.buffer == LinesOf(messages[n]) && s.batch == []
  {
    var n := |messages| - 1;
    if n > 0 {
      PostedOneBehind(posts, messages[..n]);
      var s := Run(posts, messages[..n]);
      assert s.batch + LinesOf(messages[n]) == LinesOf(messages[n]);
      assert messages[..n][n - 1] == messages[n - 1];
    } else {
      assert messages[..0] == [] && [] + LinesOf(messages[0]) == LinesOf(messages[0]);
    }
  }

  class SinkFactory {
    var entryArgBatch: seq<Line>
    var entryArgBuffer: seq<Line>
    ghost var posted: seq<seq<Line>>
    var attempts: nat

    ghost function Snap(): Buffers
      reads this
    {
      Buffers(entryArgBatch, entryArgBuffer, posted, attempts)
    }

    constructor ()
      ensures Snap() == Buffers([], [], [], 0)
    {
      entryArgBatch, entryArgBuffer, posted, attempts := [], [], [], 0;
    }

    method WriteArgData(posts: nat -> bool) returns (ok: bool)
      modifies this
      ensures Snap() == WriteData(posts, old(Snap()))
      ensures ok == (old(entryArgBuffer) == [] || posts(old(attempts)))
    {
      if entryArgBuffer != [] {
        attempts := attempts + 1;
        if !posts(attempts - 1) { return false; }
        posted := posted + [entryArgBuffer];
        entryArgBuffer := [];
      }
      entryArgBuffer := entryArgBuffer + entryArgBatch;
      entryArgBatch := [];
      ok := true;
    }

    /** Appends a line for each numeric argument; whether the post got through is not looked at. */
    method ConsumeMessage(posts: nat -> bool, m: Message)
      modifies this
      ensures Snap() == Consume(posts, old(Snap()), m)
    {
      for k := 0 to |m|
        invariant Snap() == old(Snap()).(batch := old(Snap()).batch + LinesOf(m[..k]))
      {
        assert m[..k + 1][..k] == m[..k];
        if m[k].Some? {
          entryArgBatch := entryArgBatch + [m[k].value];
        }
      }
      assert m[..|m|] == m;
      var ok := WriteArgData(posts);
    }
  }
}

/** The asynchronous text output: one buffer is being sent while the next one fills. */
module AsyncOutput {

  import opened Sequences

  /** A client writes; an outstanding send completes; or it fails after `sent` bytes. */
  datatype Event = Write(data: Bytes) | Completed | Failed(sent: nat)

  /**
    `written` is everything handed to `write`, `received` what has reached the
    peer, `outstanding` the number of sends started and not yet reported back.
   */
  datatype Stream = Stream(current: Bytes, next: Bytes, writing: bool, failed: bool,
                           written: Bytes, received: Bytes, outstanding: nat)

  function Initial(): Stream { Stream([], [], false, false, [], [], 0) }

  /** Exchanges the buffers and sends what was gathered, if anything. */
  function StartSend(s: Stream): Stream {
    if s.next == [] then s.(current := [], next := [], writing := false)
    else s.(current := s.next, next := [], writing := true, outstanding := s.outstanding + 1)
  }

  /** The events that can happen: only an outstanding send reports back. */
  predicate Enabled(s: Stream, e: Event) {
    match e
    case Write(_) => true
    case Completed => s.outstanding > 0
    case Failed(sent) => s.outstanding > 0 && sent <= |s.current|
  }

  function Step(s: Stream, e: Event): Stream
    requires Enabled(s, e)
  {
    match e
    case Write(data) =>
      var s1 := s.(next := s.next + data, written := s.written + data);
      if s.writing then s1 else StartSend(s1)
    case Completed =>
      StartSend(s.(received := s.received + s.current, outstanding := s.outstanding - 1))
    case Failed(sent) =>
      s.(failed := true, received := s.received + s.current[..sent], outstanding := s.outstanding - 1)
  }

  /** The bytes that have not been reported as sent yet. */
  function Pending(s: Stream): Bytes { s.current + s.next }

  ghost predicate Inv(s: Stream) {
    && s.outstanding == (if s.writing && !s.failed then 1 else 0)
    && (s.failed ==> s.writing)
    && (!s.writing ==> Pending(s) == [])
    && (s.writing ==> s.current != [])
    && (!s.failed ==> s.received + Pending(s) == s.written)
    && s.received <= s.written
  }

  ghost predicate Possible(events: seq<Event>)
    decreases |events|, 0
  {
    events != [] ==> Possible(events[..|events| - 1]) && Enabled(Run(events[..|events| - 1]), events[|events| - 1])
  }

  ghost function Run(events: seq<Event>): Stream
    requires Possible(events)
    decreases |events|, 1
  {
    if events == [] then Initial() else Step(Run(events[..|events| - 1]), events[|events| - 1])
  }

  function Written(events: seq<Event>): Bytes {
    if events == [] then []
    else
      var before := Written(events[..|events| - 1]);
      match events[|events| - 1] case Write(data) => before + data case _ => before
  }

  lemma StepKeepsInv(s: Stream, e: Event)
    requires Inv(s) && Enabled(s, e)
    ensures Inv(Step(s, e))
  {
    var s1 := Step(s, e);
    match e
    case Write(data) =>
      assert Pending(s1) == Pending(s) + data;
      assert s.received + Pending(s) + data == s.received + (Pending(s) + data);
      assert s.received <= s.written <= s1.written;
    case Completed =>
      assert s.received + Pending(s) == s1.received + Pending(s1);
    case Failed(sent) =>
      assert s.written == s.received + s.current[..sent] + (s.current[sent..] + s.next);
  }

  /**
    For every interleaving: nothing is lost, doubled or reordered, at most one
    send is outstanding, and what the peer has is always a prefix of what was
    written, also when a send fails half way.
   */
  lemma {:induction false} EveryRun(events: seq<Event>)
    requires Possible(events)
    ensures Inv(Run(events)) && Run(events).written == Written(events)
  {
    if events != [] {
      EveryRun(events[..|events| - 1]);
      StepKeepsInv(Run(events[..|events| - 1]), events[|events| - 1]);
    }
  }

  /** The buffer being sent is not touched until its send is reported back. */
  lemma SentBufferUntouched(s: Stream, data: Bytes)
    requires Inv(s) && s.outstanding > 0
    ensures Step(s, Write(data)).current == s.current && Step(s, Write(data)).outstanding == s.outstanding
  {
  }

  /** Without new writes everything has arrived after at most two completions. */
  lemma DrainsInTwo(s: Stream)
    requires Inv(s) && s.outstanding > 0
    ensures var s1 := Step(s, Completed);
            if s1.outstanding == 0 then s1.received == s.written
            else Step(s1, Completed).outstanding == 0 && Step(s1, Completed).received == s.written
  {
    StepKeepsInv(s, Completed);
    var s1 := Step(s, Completed);
    if s1.outstanding > 0 {
      StepKeepsInv(s1, Completed);
      var s2 := Step(s1, Completed);
      assert s2.received + Pending(s2) == s2.received;
    } else {
      assert s1.received + Pending(s1) == s1.received;
    }
  }

  /** After a failure nothing more is ever sent. */
  lemma {:induction false} FailureIsFinal(s: Stream, more: seq<Event>, i: nat)
    requires Inv(s) && s.failed && i <= |more|
    requires forall k :: 0 <= k < |more| ==> more[k].Write?
    ensures Writes(s, more[..i]).received == s.received && Writes(s, more[..i]).outstanding == 0
    ensures Writes(s, more[..i]).failed && Writes(s, more[..i]).writing
  {
    if i > 0 {
      FailureIsFinal(s, more, i - 1);
      assert more[..i][..i - 1] == more[..i - 1];
    }
  }

  ghost predicate SomeFailed(events: seq<Event>) {
    exists k :: 0 <= k < |events| && events[k].Failed?
  }

  lemma SomeFailedLast(events: seq<Event>, n: nat)
    requires n + 1 == |events|
    ensures SomeFailed(events) <==> SomeFailed(events[..n]) || events[n].Failed?
  {
    if SomeFailed(events[..n]) {
      var k :| 0 <= k < n && events[..n][k].Failed?;
      assert events[k].Failed?;
    }
    if k :| 0 <= k < n && events[k].Failed? { assert events[..n][k].Failed?; }
  }

  lemma FailedStep(s: Stream, e: Event)
    requires Enabled(s, e)
    ensures Step(s, e).failed <==> s.failed || e.Failed?
  {
  }

  /**
    A stream counts as disconnected exactly when one of its sends has failed, and while it is
    connected nothing is lost.
   */
  lemma {:induction false} DisconnectedIffFailed(events: seq<Event>)
    requires Possible(events)
    ensures Run(events).failed <==> SomeFailed(events)
    ensures !Run(events).failed ==> Run(events).received + Pending(Run(events)) == Written(events)
  {
    EveryRun(events);
    if events != [] {
      var n := |events| - 1;
      DisconnectedIffFailed(events[..n]);
      SomeFailedLast(events, n);
      FailedStep(Run(events[..n]), events[n]);
    }
  }

  /** The stream after further writes. */
  function Writes(s: Stream, more: seq<Event>): Stream
    requires forall k :: 0 <= k < |more| ==> more[k].Write?
  {
    if more == [] then s else Step(Writes(s, more[..|more| - 1]), more[|more| - 1])
  }

  class AsioOutputStream {
    var current: Bytes
    var next: Bytes
    var failed: bool
    var writing: bool
    ghost var written: Bytes
    ghost var received: Bytes
    ghost var outstanding: nat

    ghost function Snap(): Stream
      reads this
    {
      Stream(current, next, writing, failed, written, received, outstanding)
    }

    constructor ()
      ensures Snap() == Initial() && Inv(Snap())
    {
      current, next, failed, writing := [], [], false, false;
      written, received, outstanding := [], [], 0;
    }

    method IsConnected() returns (connected: bool)
      ensures connected == !failed
    {
      connected := !failed;
    }

    /** `write`: gathers the data, and starts sending unless a send is under way. */
    method WriteData(data: Bytes)
      requires Inv(Snap())
      modifies this
      ensures Inv(Snap()) && Snap() == Step(old(Snap()), Write(data))
    {
      StepKeepsInv(Snap(), Write(data));
      next := next + data;
      written := written + data;
      if !writing {
        SendNext();
      }
    }

    /** `_write`. */
    method SendNext()
      modifies this
      ensures Snap() == StartSend(old(Snap()))
    {
      current, next := next, current;
      next := [];
      if current != [] {
        writing := true;
        outstanding := outstanding + 1;
      } else {
        writing := false;
      }
    }

    /** The completion handler of the send. */
    method OnSent(error: bool, sent: nat)
      requires Inv(Snap()) && outstanding > 0 && sent <= |current|
      modifies this
      ensures Inv(Snap()) && Snap() == Step(old(Snap()), if error then Failed(sent) else Completed)
    {
      StepKeepsInv(Snap(), if error then Failed(sent) else Completed);
      outstanding := outstanding - 1;
      if !error {
        received := received + current;
        SendNext();
      } else {
        received := received + current[..sent];
        failed := true;
      }
    }
  }
}

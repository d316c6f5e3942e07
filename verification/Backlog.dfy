/**
  The retry backlog of the database sinks. The parent accepts or refuses what it
  is offered; `verdict(n)` is its answer to the n-th offer.
 */
module Backlog {
  import opened Sequences

  datatype Sink<T> = Sink(backlog: seq<T>, accepted: seq<T>, offers: nat)

  type Verdict = nat -> bool

  /** Offers the backlog from the front until it is empty or something is refused. */
  function Flush<T>(verdict: Verdict, s: Sink<T>): Sink<T>
    decreases |s.backlog|
  {
    if s.backlog == [] then s
    else if verdict(s.offers) then Flush(verdict, Sink(s.backlog[1..], s.accepted + [s.backlog[0]], s.offers + 1))
    else s.(offers := s.offers + 1)
  }

  /** Flushes, and then offers the new item whether or not the flush got through. */
  function Dispatch<T>(verdict: Verdict, s: Sink<T>, x: T): Sink<T> {
    var s1 := Flush(verdict, s);
    if verdict(s1.offers) then s1.(accepted := s1.accepted + [x], offers := s1.offers + 1)
    else s1.(backlog := s1.backlog + [x], offers := s1.offers + 1)
  }

  function Run<T>(verdict: Verdict, items: seq<T>): Sink<T> {
    if items == [] then Sink([], [], 0)
    else Dispatch(verdict, Run(verdict, items[..|items| - 1]), items[|items| - 1])
  }

  class StreamSink<T> {
    var backlog: seq<T>
    ghost var accepted: seq<T>
    var offers: nat

    ghost function Snap(): Sink<T>
      reads this
    {
      Sink(backlog, accepted, offers)
    }

    constructor ()
      ensures Snap() == Sink([], [], 0)
    {
      backlog, accepted, offers := [], [], 0;
    }

    method FlushBacklog(verdict: Verdict)
      modifies this
      ensures Snap() == Flush(verdict, old(Snap()))
    {
      var pos := 0;
      var taken := true;
      while pos < |backlog| && taken
        invariant pos <= |backlog| && backlog == old(backlog)
        invariant taken ==> Flush(verdict, Sink(backlog[pos..], accepted, offers)) == Flush(verdict, old(Snap()))
        invariant !taken ==> pos < |backlog| && Sink(backlog[pos..], accepted, offers) == Flush(verdict, old(Snap()))
        decreases |backlog| - pos, taken
      {
        assert backlog[pos..][1..] == backlog[pos + 1..];
        taken := verdict(offers);
        offers := offers + 1;
        if taken {
          accepted := accepted + [backlog[pos]];
          pos := pos + 1;
        }
      }
      if pos == |backlog| {
        backlog := [];
      } else {
        backlog := backlog[pos..];
      }
    }

    method DispatchItem(verdict: Verdict, x: T)
      modifies this
      ensures Snap() == Dispatch(verdict, old(Snap()), x)
    {
      if backlog != [] {
        FlushBacklog(verdict);
      }
      offers := offers + 1;
      if verdict(offers - 1) {
        accepted := accepted + [x];
      } else {
        backlog := backlog + [x];
      }
    }
  }

  // ---------------------------------------------------------------------------
  // Items are moved, never made: a run on items is a run on their positions
  // ---------------------------------------------------------------------------

  function Positions(n: nat): seq<nat> { seq(n, i => i) }

  function Pick<T>(items: seq<T>, positions: seq<nat>): seq<T>
    requires forall i :: 0 <= i < |positions| ==> positions[i] < |items|
  {
    seq(|positions|, i requires 0 <= i < |positions| => items[positions[i]])
  }

  /** The run on one position more. */
  lemma NextPosition(verdict: Verdict, n: nat) returns (before: Sink<nat>, flushed: Sink<nat>)
    ensures before == Run(verdict, Positions(n)) && flushed == Flush(verdict, before)
    ensures Positions(n + 1) == Positions(n) + [n]
    ensures Run(verdict, Positions(n + 1)) ==
            if verdict(flushed.offers) then Sink(flushed.backlog, flushed.accepted + [n], flushed.offers + 1)
            else Sink(flushed.backlog + [n], flushed.accepted, flushed.offers + 1)
  {
    assert Positions(n + 1)[..n] == Positions(n);
    before := Run(verdict, Positions(n));
    flushed := Flush(verdict, before);
    assert Run(verdict, Positions(n + 1)) == Dispatch(verdict, before, n);
  }

  /** `s` holds the items at the positions that `p` holds. */
  ghost predicate Mirrors<T>(items: seq<T>, s: Sink<T>, p: Sink<nat>) {
    && Below(p.backlog, |items|) && Below(p.accepted, |items|)
    && s == Sink(Pick(items, p.backlog), Pick(items, p.accepted), p.offers)
  }

  lemma {:induction false} FlushMirrors<T>(verdict: Verdict, items: seq<T>, s: Sink<T>, p: Sink<nat>)
    requires Mirrors(items, s, p)
    ensures Mirrors(items, Flush(verdict, s), Flush(verdict, p))
    decreases |p.backlog|
  {
    if p.backlog != [] && verdict(p.offers) {
      var p1 := Sink(p.backlog[1..], p.accepted + [p.backlog[0]], p.offers + 1);
      var s1 := Sink(s.backlog[1..], s.accepted + [s.backlog[0]], s.offers + 1);
      assert Pick(items, p1.backlog) == s1.backlog && Pick(items, p1.accepted) == s1.accepted;
      FlushMirrors(verdict, items, s1, p1);
    }
  }

  lemma PickAppend<T>(items: seq<T>, a: seq<nat>, n: nat)
    requires Below(a, |items|) && n < |items|
    ensures Below(a + [n], |items|) && Pick(items, a + [n]) == Pick(items, a) + [items[n]]
  {
  }

  lemma {:induction false} RunMirrors<T>(verdict: Verdict, items: seq<T>, n: nat)
    requires n <= |items|
    ensures Mirrors(items, Run(verdict, items[..n]), Run(verdict, Positions(n)))
  {
    if n > 0 {
      RunMirrors(verdict, items, n - 1);
      var p, q := NextPosition(verdict, n - 1);
      assert items[..n][..n - 1] == items[..n - 1];
      FlushMirrors(verdict, items, Run(verdict, items[..n - 1]), p);
      PickAppend(items, q.backlog, n - 1);
      PickAppend(items, q.accepted, n - 1);
    }
  }

  // ---------------------------------------------------------------------------
  // Nothing lost, nothing twice, the backlog in order
  // ---------------------------------------------------------------------------

  ghost predicate Increasing(positions: seq<nat>) {
    forall i, j :: 0 <= i < j < |positions| ==> positions[i] < positions[j]
  }

  /** `s` lists the positions below `n`, each exactly once. */
  ghost predicate Permutes(s: seq<nat>, n: nat) {
    |s| == n && Below(s, n) && forall i, j :: 0 <= i < j < |s| ==> s[i] != s[j]
  }

  /** Accepted and backlogged together are all dispatched positions, each once; the backlog is in order. */
  ghost predicate Conserved(p: Sink<nat>, n: nat) {
    Permutes(p.accepted + p.backlog, n) && Increasing(p.backlog)
  }

  lemma {:induction false} FlushConserves<T>(verdict: Verdict, p: Sink<T>)
    ensures var p1 := Flush(verdict, p);
            && p1.accepted + p1.backlog == p.accepted + p.backlog
            && p.accepted <= p1.accepted
            && |p1.backlog| <= |p.backlog| && p1.backlog == p.backlog[|p.backlog| - |p1.backlog|..]
    decreases |p.backlog|
  {
    if p.backlog != [] && verdict(p.offers) {
      var q := Sink(p.backlog[1..], p.accepted + [p.backlog[0]], p.offers + 1);
      assert q.accepted + q.backlog == p.accepted + ([p.backlog[0]] + p.backlog[1..]);
      assert [p.backlog[0]] + p.backlog[1..] == p.backlog;
      FlushConserves(verdict, q);
    }
  }

  lemma Inserted(a: seq<nat>, b: seq<nat>, n: nat)
    requires Permutes(a + b, n)
    ensures Permutes(a + [n] + b, n + 1)
  {
    var s, t := a + b, a + [n] + b;
    assert forall i :: 0 <= i < |a| ==> t[i] == s[i];
    assert forall i :: |a| < i < |t| ==> t[i] == s[i - 1];
  }

  /** Accepting or backlogging the next position keeps all that. */
  lemma NextConserved(accepted: seq<nat>, backlog: seq<nat>, n: nat)
    requires Permutes(accepted + backlog, n) && Increasing(backlog)
    ensures Permutes(accepted + [n] + backlog, n + 1)
    ensures Permutes(accepted + (backlog + [n]), n + 1) && Increasing(backlog + [n])
  {
    Inserted(accepted, backlog, n);
    assert accepted + backlog + [] == accepted + backlog;
    Inserted(accepted + backlog, [], n);
    assert accepted + (backlog + [n]) == accepted + backlog + [n] + [];
    AppendIncreasing(accepted, backlog, n);
  }

  lemma IncreasingSuffix(s: seq<nat>, k: nat)
    requires Increasing(s) && k <= |s|
    ensures Increasing(s[k..])
  {
  }

  /** For any parent: every dispatched item is accepted once or waits in the backlog, in dispatch order. */
  lemma {:induction false} NothingLostOrDoubled(verdict: Verdict, n: nat)
    ensures Conserved(Run(verdict, Positions(n)), n)
  {
    if n > 0 {
      NothingLostOrDoubled(verdict, n - 1);
      var p, q := NextPosition(verdict, n - 1);
      FlushConserves<nat>(verdict, p);
      IncreasingSuffix(p.backlog, |p.backlog| - |q.backlog|);
      NextConserved(q.accepted, q.backlog, n - 1);
    }
  }

  lemma AppendIncreasing(a: seq<nat>, b: seq<nat>, n: nat)
    requires Permutes(a + b, n) && Increasing(b)
    ensures Increasing(b + [n])
  {
    assert forall i :: 0 <= i < |b| ==> b[i] == (a + b)[|a| + i];
  }

  lemma PickConcat<T>(items: seq<T>, a: seq<nat>, b: seq<nat>)
    requires Below(a, |items|) && Below(b, |items|)
    ensures Below(a + b, |items|) && Pick(items, a + b) == Pick(items, a) + Pick(items, b)
  {
  }

  /** The highest position occurs, and without it the others are still listed once each. */
  lemma RemoveHighest(s: seq<nat>, n: nat) returns (k: nat)
    requires n > 0 && Permutes(s, n)
    ensures k < |s| && s[k] == n - 1 && Permutes(s[..k] + s[k + 1..], n - 1)
  {
    assert n - 1 in s by {
      if n - 1 !in s { Pigeonhole(s, n - 1); }
    }
    k :| 0 <= k < |s| && s[k] == n - 1;
  }

  lemma InsertMultiset<T>(a: seq<T>, x: T, b: seq<T>)
    ensures multiset(a + [x] + b) == multiset(a + b) + multiset{x}
  {
  }

  lemma PickAround<T>(items: seq<T>, s: seq<nat>, k: nat)
    requires k < |s| && Below(s, |items|)
    ensures Below(s[..k] + s[k + 1..], |items|)
    ensures multiset(Pick(items, s)) == multiset(Pick(items, s[..k] + s[k + 1..])) + multiset{items[s[k]]}
  {
    var a, b := s[..k], s[k + 1..];
    PickConcat(items, a, b);
    assert Pick(items, s) == Pick(items, a) + [items[s[k]]] + Pick(items, b);
    InsertMultiset(Pick(items, a), items[s[k]], Pick(items, b));
  }

  /** Picking every position once picks every item once. */
  lemma {:induction false} PickAll<T>(items: seq<T>, s: seq<nat>, n: nat)
    requires Permutes(s, n) && n <= |items|
    ensures multiset(Pick(items, s)) == multiset(items[..n])
  {
    if n == 0 {
      assert Pick(items, s) == [];
    } else {
      var k := RemoveHighest(s, n);
      PickAround(items, s, k);
      PickAll(items, s[..k] + s[k + 1..], n - 1);
      assert items[..n] == items[..n - 1] + [items[n - 1]];
    }
  }

  /** The same in terms of the items. */
  lemma ItemsConserved<T>(verdict: Verdict, items: seq<T>)
    ensures var s := Run(verdict, items); var p := Run(verdict, Positions(|items|));
            && Mirrors(items, s, p) && Conserved(p, |items|)
            && multiset(s.accepted + s.backlog) == multiset(items)
  {
    var n := |items|;
    RunMirrors(verdict, items, n);
    NothingLostOrDoubled(verdict, n);
    assert items[..n] == items;
    var p: Sink<nat> := Run(verdict, Positions(n));
    PickAll(items, p.accepted + p.backlog, n);
    PickConcat(items, p.accepted, p.backlog);
  }

  // ---------------------------------------------------------------------------
  // Order
  // ---------------------------------------------------------------------------

  /** Dispatch `k` has its item accepted although its flush was refused. */
  ghost predicate Overtakes(verdict: Verdict, k: nat) {
    var s := Flush(verdict, Run(verdict, Positions(k)));
    s.backlog != [] && verdict(s.offers)
  }

  function Accepted(verdict: Verdict, n: nat): seq<nat> {
    Run(verdict, Positions(n)).accepted
  }

  /** What has been accepted stays accepted, in its place. */
  lemma AcceptedGrows(verdict: Verdict, n: nat)
    ensures Accepted(verdict, n) <= Accepted(verdict, n + 1)
  {
    var before, flushed := NextPosition(verdict, n);
    FlushConserves<nat>(verdict, before);
  }

  lemma OvertakenAt(verdict: Verdict, k: nat) returns (at: nat)
    requires Overtakes(verdict, k)
    ensures at < k && at < |Accepted(verdict, k + 1)| && Accepted(verdict, k + 1)[at] == k
  {
    var before, flushed := NextPosition(verdict, k);
    FlushConserves<nat>(verdict, before);
    NothingLostOrDoubled(verdict, k);
    at := |flushed.accepted|;
    assert at + |flushed.backlog| == |before.accepted + before.backlog| == k;
  }

  /** An item that overtook the backlog stays ahead of its turn for ever. */
  lemma {:induction false} OvertakenForGood(verdict: Verdict, k: nat, n: nat) returns (at: nat)
    requires k < n && Overtakes(verdict, k)
    ensures at < k && at < |Accepted(verdict, n)| && Accepted(verdict, n)[at] == k
    decreases n
  {
    if n == k + 1 {
      at := OvertakenAt(verdict, k);
    } else {
      at := OvertakenForGood(verdict, k, n - 1);
      AcceptedGrows(verdict, n - 1);
    }
  }

  /** Accepted and backlog together are the dispatched sequence exactly when no refused flush was overtaken. */
  lemma {:induction false} InOrderIffNoOvertaking(verdict: Verdict, n: nat)
    ensures var s := Run(verdict, Positions(n));
            s.accepted + s.backlog == Positions(n) <==> forall k: nat :: k < n ==> !Overtakes(verdict, k)
  {
    if k: nat :| k < n && Overtakes(verdict, k) {
      var at := OvertakenForGood(verdict, k, n);
      var s: Sink<nat> := Run(verdict, Positions(n));
      assert (s.accepted + s.backlog)[at] == k && Positions(n)[at] == at;
    } else {
      NoOvertakingInOrder(verdict, n);
    }
  }

  lemma {:induction false} NoOvertakingInOrder(verdict: Verdict, n: nat)
    requires forall k: nat :: k < n ==> !Overtakes(verdict, k)
    ensures Run(verdict, Positions(n)).accepted + Run(verdict, Positions(n)).backlog == Positions(n)
  {
    if n > 0 {
      NoOvertakingInOrder(verdict, n - 1);
      OneMoreInOrder(verdict, n - 1);
    }
  }

  lemma OneMoreInOrder(verdict: Verdict, n: nat)
    requires Run(verdict, Positions(n)).accepted + Run(verdict, Positions(n)).backlog == Positions(n)
    requires !Overtakes(verdict, n)
    ensures Run(verdict, Positions(n + 1)).accepted + Run(verdict, Positions(n + 1)).backlog == Positions(n + 1)
  {
    var before, flushed := NextPosition(verdict, n);
    FlushConserves<nat>(verdict, before);
    AppendedLast(flushed.accepted, flushed.backlog, n);
  }

  lemma AppendedLast(a: seq<nat>, b: seq<nat>, n: nat)
    ensures a + (b + [n]) == a + b + [n]
    ensures b == [] ==> a + [n] + b == a + b + [n]
  {
  }

  /** The failing case: the parent refuses twice and then accepts. */
  lemma OvertakingHappens()
    ensures var verdict := (n: nat) => n >= 2;
            Run(verdict, ['a', 'b']) == Sink(['a'], ['b'], 3)
  {
    var verdict := (n: nat) => n >= 2;
    assert ['a', 'b'][..1] == ['a'] && ['a'][..0] == [];
    assert Run(verdict, ['a']) == Sink(['a'], [], 1);
    assert Flush(verdict, Sink(['a'], [], 1)) == Sink(['a'], [], 2);
  }

  // ---------------------------------------------------------------------------
  // Every offer counts
  // ---------------------------------------------------------------------------

  /** How many of the first `n` offers are accepted. */
  function Acceptances(verdict: Verdict, n: nat): nat {
    if n == 0 then 0 else Acceptances(verdict, n - 1) + if verdict(n - 1) then 1 else 0
  }

  lemma {:induction false} FlushCounts<T>(verdict: Verdict, s: Sink<T>)
    requires |s.accepted| == Acceptances(verdict, s.offers)
    ensures var s1 := Flush(verdict, s);
            && |s1.accepted| == Acceptances(verdict, s1.offers)
            && (s1.backlog != [] ==> s1.offers > 0 && !verdict(s1.offers - 1))
    decreases |s.backlog|
  {
    if s.backlog != [] && verdict(s.offers) {
      FlushCounts(verdict, Sink(s.backlog[1..], s.accepted + [s.backlog[0]], s.offers + 1));
    }
  }

  /** Every accepted offer delivers one item, and a flush gives up only on a refusal. */
  lemma {:induction false} OffersCount<T>(verdict: Verdict, items: seq<T>)
    ensures |Run(verdict, items).accepted| == Acceptances(verdict, Run(verdict, items).offers)
    ensures items != [] ==> Run(verdict, items).offers > 0
    ensures Run(verdict, items).backlog != [] ==>
              exists n: nat :: n < Run(verdict, items).offers && !verdict(n)
  {
    if items != [] {
      var before := Run(verdict, items[..|items| - 1]);
      OffersCount(verdict, items[..|items| - 1]);
      FlushCounts(verdict, before);
      var s1 := Flush(verdict, before);
      assert s1.backlog != [] ==> !verdict(s1.offers - 1);
    }
  }

  /** A parent that accepts again gets the whole backlog with the next dispatch. */
  lemma {:induction false} AcceptingParentDrains<T>(verdict: Verdict, s: Sink<T>, x: T)
    requires forall n: nat :: s.offers <= n ==> verdict(n)
    ensures Dispatch(verdict, s, x).backlog == []
    ensures Dispatch(verdict, s, x).accepted == s.accepted + s.backlog + [x]
    decreases |s.backlog|
  {
    if s.backlog != [] {
      var s1 := Sink(s.backlog[1..], s.accepted + [s.backlog[0]], s.offers + 1);
      AcceptingParentDrains(verdict, s1, x);
      assert [s.backlog[0]] + s.backlog[1..] == s.backlog;
      assert s1.accepted + s1.backlog == s.accepted + s.backlog;
    } else {
      assert s.accepted + s.backlog == s.accepted;
    }
  }
}

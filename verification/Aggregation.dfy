/** Interval statistics of the log server: per tag and instance, reported whenever a period is over. */
module Aggregation {
  import opened Wrappers

  /** Durations in nanoseconds. */
  datatype Aggregate = Aggregate(sum: int, min: int, max: int, count: nat)

  datatype Key = Key(tag: nat, instance: nat)

  /** An interval report, and whether the period of its key is over when it is taken in. */
  datatype Interval = Interval(key: Key, duration: int, expired: bool)

  function Empty(): Aggregate { Aggregate(0, 0, 0, 0) }

  function Updated(a: Aggregate, d: int): Aggregate {
    Aggregate(a.sum + d,
              if a.count == 0 || d < a.min then d else a.min,
              if d > a.max then d else a.max,
              a.count + 1)
  }

  /** A reset keeps the extremes; the minimum is overwritten by the next update, the maximum is not. */
  function Cleared(a: Aggregate): Aggregate { a.(sum := 0, count := 0) }

  /** Division as the duration types do it, towards zero. */
  function Truncated(a: int, b: int): int
    requires b > 0
  {
    if a >= 0 then a / b else -((-a) / b)
  }

  function MinDuration(a: Aggregate): int { if a.count > 0 then a.min else 0 }
  function MaxDuration(a: Aggregate): int { if a.count > 0 then a.max else 0 }
  function AvgDuration(a: Aggregate): int { if a.count > 0 then Truncated(a.sum, a.count) else 0 }

  // ---------------------------------------------------------------------------
  // What the numbers mean
  // ---------------------------------------------------------------------------

  function Sum(s: seq<int>): int {
    if s == [] then 0 else Sum(s[..|s| - 1]) + s[|s| - 1]
  }

  ghost predicate IsMin(m: int, s: seq<int>) {
    m in s && forall i :: 0 <= i < |s| ==> m <= s[i]
  }

  /** The maximum of the durations and of zero, which it starts from. */
  ghost predicate IsMaxOrZero(m: int, s: seq<int>) {
    m >= 0 && (m == 0 || m in s) && forall i :: 0 <= i < |s| ==> s[i] <= m
  }

  /** Count, sum and minimum are those of the window, the maximum that of the whole history. */
  ghost predicate Describes(a: Aggregate, window: seq<int>, history: seq<int>) {
    && a.count == |window| && a.sum == Sum(window)
    && (window != [] ==> IsMin(a.min, window))
    && IsMaxOrZero(a.max, history)
    && |window| <= |history| && window == history[|history| - |window|..]
  }

  lemma UpdateDescribes(a: Aggregate, window: seq<int>, history: seq<int>, d: int)
    requires Describes(a, window, history)
    ensures Describes(Updated(a, d), window + [d], history + [d])
  {
    UpdateMore(a, window, history, d, Updated(a, d), window + [d], history + [d]);
  }

  lemma UpdateMore(a: Aggregate, window: seq<int>, history: seq<int>, d: int, b: Aggregate, w: seq<int>, h: seq<int>)
    requires Describes(a, window, history) && b == Updated(a, d) && w == window + [d] && h == history + [d]
    ensures Describes(b, w, h)
  {
    SumMore(window, d);
    MinMore(a.min, window, d);
    MaxMore(a.max, history, d);
    SuffixMore(window, history, d);
    assert b.count == |w| && b.sum == Sum(w);
    assert IsMin(b.min, w) && IsMaxOrZero(b.max, h);
  }

  lemma SumMore(s: seq<int>, d: int)
    ensures Sum(s + [d]) == Sum(s) + d
  {
    assert (s + [d])[..|s|] == s;
  }

  lemma MinMore(m: int, s: seq<int>, d: int)
    requires s != [] ==> IsMin(m, s)
    ensures IsMin(if s == [] then d else if d < m then d else m, s + [d])
  {
    var w := s + [d];
    assert w[|s|] == d && (s != [] ==> m in w);
  }

  lemma MaxMore(m: int, s: seq<int>, d: int)
    requires IsMaxOrZero(m, s)
    ensures IsMaxOrZero(if d > m then d else m, s + [d])
  {
    var h := s + [d];
    assert h[|s|] == d && (m in s ==> m in h);
  }

  lemma SuffixMore(window: seq<int>, history: seq<int>, d: int)
    requires |window| <= |history| && window == history[|history| - |window|..]
    ensures window + [d] == (history + [d])[|history| - |window|..]
  {
  }

  lemma ClearDescribes(a: Aggregate, window: seq<int>, history: seq<int>)
    requires Describes(a, window, history)
    ensures Describes(Cleared(a), [], history)
  {
  }

  lemma {:induction false} SumBounds(s: seq<int>, lo: int, hi: int)
    requires forall i :: 0 <= i < |s| ==> lo <= s[i] <= hi
    ensures lo * |s| <= Sum(s) <= hi * |s|
  {
    if s != [] {
      var n := |s| - 1;
      SumBounds(s[..n], lo, hi);
      assert lo * |s| == lo * n + lo && hi * |s| == hi * n + hi;
    }
  }

  lemma Scaled(x: int, y: int, b: int)
    requires b > 0
    ensures x <= y <==> x * b <= y * b
  {
    if x <= y {
      assert (y - x) * b >= 0;
    } else {
      assert (x - y) * b > 0;
    }
  }

  lemma QuotientBounds(a: int, b: int, lo: int, hi: int)
    requires b > 0 && lo * b <= a <= hi * b
    ensures lo <= Truncated(a, b) <= hi
  {
    var q := Truncated(a, b);
    if a >= 0 {
      assert q * b <= a < (q + 1) * b;
      Scaled(q + 1, lo, b);
      Scaled(q, hi, b);
    } else {
      var p := (-a) / b;
      assert p * b <= -a < (p + 1) * b;
      assert q * b == -(p * b) && (q - 1) * b == -((p + 1) * b);
      Scaled(lo, q, b);
      Scaled(hi, q - 1, b);
    }
  }

  /** In every non-empty window the truncated average lies between minimum and maximum. */
  lemma AverageBetween(a: Aggregate, window: seq<int>, history: seq<int>)
    requires Describes(a, window, history) && window != []
    ensures MinDuration(a) <= AvgDuration(a) <= MaxDuration(a)
  {
    forall i | 0 <= i < |window| ensures a.min <= window[i] <= a.max {
      assert window[i] == history[|history| - |window| + i];
    }
    SumBounds(window, a.min, a.max);
    QuotientBounds(a.sum, a.count, a.min, a.max);
  }

  lemma QuotientMeaning(a: int, b: int, p: int)
    requires a >= 0 && b > 0 && p == a / b
    ensures 0 <= p * b <= a < p * b + b
  {
    assert p >= 0;
  }

  lemma TruncatedMeaning(a: int, b: int, q: int)
    requires b > 0 && q == Truncated(a, b)
    ensures if a >= 0 then 0 <= q * b <= a < q * b + b else q * b - b < a <= q * b <= 0
  {
    if a >= 0 {
      QuotientMeaning(a, b, q);
    } else {
      QuotientMeaning(-a, b, -q);
      assert (-q) * b == -(q * b);
    }
  }

  /** The average times the count falls short of the sum by less than the count, on the side of zero. */
  lemma AverageMeaning(a: Aggregate, window: seq<int>, history: seq<int>)
    requires Describes(a, window, history) && window != []
    ensures var n, sum, avg := |window|, Sum(window), AvgDuration(a);
            if sum >= 0 then 0 <= avg * n <= sum < avg * n + n else avg * n - n < sum <= avg * n <= 0
  {
    TruncatedMeaning(a.sum, a.count, AvgDuration(a));
  }

  /** Nothing is reported of an empty window, and of any other its least duration and the greatest so far or zero. */
  lemma ExtremesMeaning(a: Aggregate, window: seq<int>, history: seq<int>)
    requires Describes(a, window, history)
    ensures window == [] ==> MinDuration(a) == 0 && MaxDuration(a) == 0 && AvgDuration(a) == 0
    ensures window != [] ==> IsMin(MinDuration(a), window) && IsMaxOrZero(MaxDuration(a), history)
  {
  }

  // ---------------------------------------------------------------------------
  // All keys together
  // ---------------------------------------------------------------------------

  /** The aggregates by key, and what has been reported. */
  datatype State = State(intervals: map<Key, Aggregate>, reports: seq<(Key, Aggregate)>)

  function At(m: map<Key, Aggregate>, key: Key): Aggregate {
    if key in m then m[key] else Empty()
  }

  /** Takes an interval in; when its period is over, reports the aggregate and resets it. */
  function Consume(s: State, i: Interval): State {
    var a := Updated(At(s.intervals, i.key), i.duration);
    if i.expired then State(s.intervals[i.key := Cleared(a)], s.reports + [(i.key, a)])
    else s.(intervals := s.intervals[i.key := a])
  }

  function Run(intervals: seq<Interval>): State {
    if intervals == [] then State(map[], [])
    else Consume(Run(intervals[..|intervals| - 1]), intervals[|intervals| - 1])
  }

  /** All durations of a key. */
  function History(intervals: seq<Interval>, key: Key): seq<int> {
    if intervals == [] then []
    else
      var before := History(intervals[..|intervals| - 1], key);
      var last := intervals[|intervals| - 1];
      if last.key == key then before + [last.duration] else before
  }

  /** The durations of a key since its last report. */
  function Window(intervals: seq<Interval>, key: Key): seq<int> {
    if intervals == [] then []
    else
      var before := Window(intervals[..|intervals| - 1], key);
      var last := intervals[|intervals| - 1];
      if last.key != key then before else if last.expired then [] else before + [last.duration]
  }

  lemma {:induction false} HistoryConcat(a: seq<Interval>, b: seq<Interval>, key: Key)
    ensures History(a + b, key) == History(a, key) + History(b, key)
  {
    if b == [] {
      assert a + b == a;
    } else {
      assert (a + b)[..|a + b| - 1] == a + b[..|b| - 1];
      HistoryConcat(a, b[..|b| - 1], key);
    }
  }

  lemma HistoryOfOne(i: Interval, key: Key)
    ensures History([i], key) == if i.key == key then [i.duration] else []
  {
    assert [i][..0] == [];
  }

  /** The window is the history since the last interval that was reported with. */
  lemma {:induction false} WindowSince(before: seq<Interval>, i: Interval, after: seq<Interval>, key: Key)
    requires i.key == key && i.expired && forall j :: 0 <= j < |after| && after[j].key == key ==> !after[j].expired
    ensures Window(before + [i] + after, key) == History(after, key)
    decreases |after|
  {
    var all := before + [i] + after;
    if after == [] {
      assert all[..|before|] == before && all[|before|] == i;
    } else {
      assert all[..|all| - 1] == before + [i] + after[..|after| - 1];
      WindowSince(before, i, after[..|after| - 1], key);
    }
  }

  /** Before the first report it is all of the history. */
  lemma {:induction false} WindowFromStart(intervals: seq<Interval>, key: Key)
    requires forall j :: 0 <= j < |intervals| && intervals[j].key == key ==> !intervals[j].expired
    ensures Window(intervals, key) == History(intervals, key)
  {
    if intervals != [] { WindowFromStart(intervals[..|intervals| - 1], key); }
  }

  /** After any intervals, every key's aggregate describes its window and its history. */
  lemma {:induction false} AggregatesDescribe(intervals: seq<Interval>, key: Key)
    ensures Describes(At(Run(intervals).intervals, key), Window(intervals, key), History(intervals, key))
  {
    if intervals != [] {
      var n := |intervals| - 1;
      AggregatesDescribe(intervals[..n], key);
      var last := intervals[n];
      var a := At(Run(intervals[..n]).intervals, key);
      var a1 := At(Run(intervals).intervals, key);
      if last.key != key {
        assert a1 == a;
      } else {
        var w, h := Window(intervals[..n], key), History(intervals[..n], key);
        UpdateDescribes(a, w, h, last.duration);
        if last.expired {
          ClearDescribes(Updated(a, last.duration), w + [last.duration], h + [last.duration]);
        }
      }
    }
  }

  /** What is reported describes the window that the report closes. */
  lemma ReportDescribes(intervals: seq<Interval>)
    requires intervals != [] && intervals[|intervals| - 1].expired
    ensures var n := |intervals| - 1; var last := intervals[n]; var reports := Run(intervals).reports;
            && reports != [] && reports[|reports| - 1].0 == last.key
            && Describes(reports[|reports| - 1].1, Window(intervals[..n], last.key) + [last.duration],
              History(intervals, last.key))
  {
    var n := |intervals| - 1;
    var last := intervals[n];
    AggregatesDescribe(intervals[..n], last.key);
    UpdateDescribes(At(Run(intervals[..n]).intervals, last.key), Window(intervals[..n], last.key),
                    History(intervals[..n], last.key), last.duration);
  }

  /** The hits reported for a key. */
  function ReportedHits(reports: seq<(Key, Aggregate)>, key: Key): nat {
    if reports == [] then 0
    else
      var last := reports[|reports| - 1];
      ReportedHits(reports[..|reports| - 1], key) + if last.0 == key then last.1.count else 0
  }

  /** For every key: reported hits plus pending hits are the intervals received. */
  lemma {:induction false} HitsConserved(intervals: seq<Interval>, key: Key)
    ensures var s := Run(intervals);
            ReportedHits(s.reports, key) + At(s.intervals, key).count == |History(intervals, key)|
  {
    if intervals != [] {
      var n := |intervals| - 1;
      HitsConserved(intervals[..n], key);
      var s := Run(intervals[..n]);
      var s1 := Run(intervals);
      if intervals[n].expired {
        assert s1.reports[..|s1.reports| - 1] == s.reports;
      }
    }
  }

  class AggregateIntervals {
    var intervals: map<Key, Aggregate>
    ghost var reports: seq<(Key, Aggregate)>

    ghost function Snap(): State
      reads this
    {
      State(intervals, reports)
    }

    constructor ()
      ensures Snap() == State(map[], [])
    {
      intervals, reports := map[], [];
    }

    /** The updated aggregate when its period is over. */
    method Update(i: Interval) returns (due: Option<Aggregate>)
      modifies this`intervals
      ensures intervals == old(intervals)[i.key := Updated(At(old(intervals), i.key), i.duration)]
      ensures due == if i.expired then Some(intervals[i.key]) else None
    {
      if i.key !in intervals {
        intervals := intervals[i.key := Empty()];
      }
      intervals := intervals[i.key := Updated(intervals[i.key], i.duration)];
      due := if i.expired then Some(intervals[i.key]) else None;
    }

    method Reset(key: Key)
      requires key in intervals
      modifies this`intervals
      ensures intervals == old(intervals)[key := Cleared(old(intervals)[key])]
      ensures forall window, history :: Describes(old(intervals)[key], window, history) ==>
              Describes(intervals[key], [], history)
    {
      intervals := intervals[key := Cleared(intervals[key])];
    }

    /** What a sink does with an interval: report when due, and only then reset. */
    method ConsumeInterval(i: Interval) returns (dispatched: Option<Aggregate>)
      modifies this
      ensures Snap() == Consume(old(Snap()), i)
      ensures dispatched.Some? <==> i.expired
      ensures dispatched.Some? ==> reports == old(reports) + [(i.key, dispatched.value)]
    {
      dispatched := Update(i);
      if dispatched.Some? {
        reports := reports + [(i.key, dispatched.value)];
        Reset(i.key);
      }
    }
  }
}

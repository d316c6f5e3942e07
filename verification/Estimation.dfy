/** The remaining-time estimate of an activity: a ring of eight samples that a restart does not clear. */
module Estimation {

  const RING := 8

  /** A progress report: range, value, and the three clock readings taken while it is handled. */
  datatype Report = Report(min: real, value: real, max: real, now0: real, now1: real, now2: real)

  /** `samples` are those taken since the last restart. */
  datatype Activity = Activity(min: real, value: real, max: real, startTime: real, samples: seq<real>)

  /** Progress that goes back means that the activity was started anew. */
  predicate Restarts(a: Activity, r: Report) { a.value > r.value }

  function DoneRatio(min: real, value: real, max: real): real
    requires min != max
  {
    (value - min) / (max - min)
  }

  /** A sample is taken only for a sensible range, some progress, and after five seconds. */
  predicate TakesSample(startTime: real, r: Report) {
    r.max > r.min && r.value > r.min && r.now1 - startTime > 5.0
  }

  function Sample(startTime: real, r: Report): real
    requires r.max > r.min && r.value > r.min
  {
    var done := DoneRatio(r.min, r.value, r.max);
    assert done > 0.0 by { Positive(r.value - r.min, r.max - r.min); }
    (r.now2 - startTime) * ((1.0 - done) / done)
  }

  lemma Positive(a: real, b: real)
    requires a > 0.0 && b > 0.0
    ensures a / b > 0.0
  {
  }

  function Update(a: Activity, r: Report): Activity {
    var start := if Restarts(a, r) then r.now0 else a.startTime;
    var samples := if Restarts(a, r) then [] else a.samples;
    Activity(r.min, r.value, r.max, start,
             if TakesSample(start, r) then samples + [Sample(start, r)] else samples)
  }

  function Initial(now: real): Activity { Activity(0.0, 0.0, 1.0, now, []) }

  function Run(now: real, reports: seq<Report>): Activity {
    if reports == [] then Initial(now)
    else Update(Run(now, reports[..|reports| - 1]), reports[|reports| - 1])
  }

  /** Nothing from before a restart has any influence on what comes after it. */
  lemma {:induction false} RestartForgets(now: real, before: seq<Report>, now': real, before': seq<Report>,
                                          r: Report, after: seq<Report>)
    requires Restarts(Run(now, before), r) && Restarts(Run(now', before'), r)
    ensures Run(now, before + [r] + after) == Run(now', before' + [r] + after)
    decreases |after|
  {
    if after == [] {
      assert before + [r] + after == before + [r] && before' + [r] + after == before' + [r];
      assert (before + [r])[..|before|] == before && (before' + [r])[..|before'|] == before';
    } else {
      var n := |after| - 1;
      RestartForgets(now, before, now', before', r, after[..n]);
      assert (before + [r] + after)[..|before| + 1 + n] == before + [r] + after[..n];
      assert (before' + [r] + after)[..|before'| + 1 + n] == before' + [r] + after[..n];
    }
  }

  // ---------------------------------------------------------------------------
  // Means
  // ---------------------------------------------------------------------------

  function Sum(s: seq<real>): real {
    if s == [] then 0.0 else Sum(s[..|s| - 1]) + s[|s| - 1]
  }

  lemma {:induction false} SumConcat(a: seq<real>, b: seq<real>)
    ensures Sum(a + b) == Sum(a) + Sum(b)
  {
    if b == [] {
      assert a + b == a;
    } else {
      assert (a + b)[..|a + b| - 1] == a + b[..|b| - 1];
      SumConcat(a, b[..|b| - 1]);
    }
  }

  function Least(a: nat, b: nat): nat { if a < b then a else b }

  /** The mean of the last eight samples, or of all when there are fewer; zero while there are too few. */
  function Estimate(samples: seq<real>): real {
    if |samples| > RING / 2 then
      var count := Least(RING, |samples|);
      Sum(samples[|samples| - count..]) / count as real
    else 0.0
  }

  // ---------------------------------------------------------------------------
  // What samples and estimates mean
  // ---------------------------------------------------------------------------

  lemma Divided(a: real, c: real)
    requires c != 0.0
    ensures a / c * c == a
  {
  }

  /** A sample relates the time still to be taken to the time taken as what is to be done to what is done. */
  lemma SampleMeaning(startTime: real, r: Report)
    requires r.max > r.min && r.value > r.min
    ensures Sample(startTime, r) * (r.value - r.min) == (r.now2 - startTime) * (r.max - r.value)
  {
    var range, part, elapsed := r.max - r.min, r.value - r.min, r.now2 - startTime;
    var done := part / range;
    Positive(part, range);
    var q := (1.0 - done) / done;
    Divided(part, range);
    Divided(1.0 - done, done);
    assert q * part == (q * done) * range;
    assert (1.0 - done) * range == range - done * range == r.max - r.value;
    assert (elapsed * q) * part == elapsed * (q * part);
  }

  /**
    What a report does: progress that goes back starts anew, and a sample is added
    if there is some progress in a proper range more than five seconds after the start.
   */
  lemma UpdateMeaning(a: Activity, r: Report)
    ensures var b := Update(a, r); var anew := r.value < a.value; var kept := if anew then [] else a.samples;
            && b.min == r.min && b.value == r.value && b.max == r.max
            && b.startTime == (if anew then r.now0 else a.startTime)
            && if r.max > r.min && r.value > r.min && r.now1 - b.startTime > 5.0
               then |b.samples| == |kept| + 1 && kept <= b.samples &&
                    b.samples[|kept|] * (r.value - r.min) == (r.now2 - b.startTime) * (r.max - r.value)
               else b.samples == kept
  {
    if r.max > r.min && r.value > r.min { SampleMeaning(Update(a, r).startTime, r); }
  }

  /** The estimate times the number of samples it is taken from is their sum; there is none from up to four. */
  lemma EstimateMeaning(samples: seq<real>, count: nat, c: real)
    requires count == (if |samples| < 8 then |samples| else 8) && c == count as real
    ensures |samples| <= 4 ==> Estimate(samples) == 0.0
    ensures |samples| > 4 ==> Estimate(samples) * c == Sum(samples[|samples| - count..])
  {
    if |samples| > 4 { Divided(Sum(samples[|samples| - count..]), c); }
  }

  // ---------------------------------------------------------------------------
  // The ring
  // ---------------------------------------------------------------------------

  /** The ring holds the last eight samples, each at its number modulo eight. */
  ghost predicate RingHolds(ring: seq<real>, samples: seq<real>) {
    |ring| == RING && forall j :: 0 <= j < |samples| && |samples| - RING <= j ==> ring[j % RING] == samples[j]
  }

  lemma RingPush(ring: seq<real>, samples: seq<real>, x: real)
    requires RingHolds(ring, samples)
    ensures RingHolds(ring[|samples| % RING := x], samples + [x])
  {
    var n := |samples|;
    forall j | 0 <= j < n && n - RING < j ensures j % RING != n % RING {
      OtherPlace(j, n);
    }
  }

  lemma OtherPlace(j: nat, n: nat)
    requires n - RING < j < n
    ensures j % RING != n % RING
  {
  }

  lemma Modulo(q: nat, i: nat)
    requires i < RING
    ensures (RING * q + i) % RING == i
  {
  }

  lemma RingAt(ring: seq<real>, samples: seq<real>, q: nat, i: nat)
    requires RingHolds(ring, samples) && i < RING
    requires |samples| - RING <= RING * q + i < |samples|
    ensures ring[i] == samples[RING * q + i]
  {
    Modulo(q, i);
  }

  lemma RingRotated(ring: seq<real>, samples: seq<real>, k: nat)
    requires RingHolds(ring, samples) && |samples| >= RING && k == |samples| % RING
    ensures ring[..k] == samples[|samples| - k..]
    ensures ring[k..] == samples[|samples| - RING..|samples| - k]
  {
    var n := |samples|;
    var q := n / RING;
    assert n == RING * q + k;
    forall i | 0 <= i < k ensures ring[i] == samples[n - k + i] {
      RingAt(ring, samples, q, i);
    }
    forall i | k <= i < RING ensures ring[i] == samples[n - RING - k + i] {
      RingAt(ring, samples, q - 1, i);
    }
  }

  lemma RotatedSum(ring: seq<real>, samples: seq<real>, k: nat)
    requires |ring| == RING <= |samples| && k <= RING
    requires ring[..k] == samples[|samples| - k..]
    requires ring[k..] == samples[|samples| - RING..|samples| - k]
    ensures Sum(ring) == Sum(samples[|samples| - RING..])
  {
    var n := |samples|;
    SumConcat(ring[..k], ring[k..]);
    SumConcat(samples[n - RING..n - k], samples[n - k..]);
    assert ring == ring[..k] + ring[k..];
    assert samples[n - RING..] == samples[n - RING..n - k] + samples[n - k..];
  }

  lemma RingFilling(ring: seq<real>, samples: seq<real>)
    requires RingHolds(ring, samples) && |samples| < RING
    ensures ring[..|samples|] == samples
  {
    forall i | 0 <= i < |samples| ensures ring[i] == samples[i] { RingAt(ring, samples, 0, i); }
  }

  /** The first slots of the ring sum up to the last samples: a full ring holds them rotated. */
  lemma RingSum(ring: seq<real>, samples: seq<real>)
    requires RingHolds(ring, samples)
    ensures var count := Least(RING, |samples|);
            Sum(ring[..count]) == Sum(samples[|samples| - count..])
  {
    var n := |samples|;
    if n < RING {
      RingFilling(ring, samples);
      assert samples[0..] == samples;
    } else {
      RingRotated(ring, samples, n % RING);
      RotatedSum(ring, samples, n % RING);
      assert ring[..RING] == ring;
    }
  }

  class ActivityData {
    var min: real
    var value: real
    var max: real
    var startTime: real
    var remainingUpdatePos: nat
    const remainingTimes: array<real>
    ghost var samples: seq<real>

    ghost function Snap(): Activity
      reads this
    {
      Activity(min, value, max, startTime, samples)
    }

    ghost predicate Valid()
      reads this, remainingTimes
    {
      && remainingTimes.Length == RING
      && remainingUpdatePos == |samples|
      && RingHolds(remainingTimes[..], samples)
    }

    constructor (now: real)
      ensures Valid() && Snap() == Initial(now) && fresh(remainingTimes)
    {
      min, value, max, startTime := 0.0, 0.0, 1.0, now;
      remainingUpdatePos := 0;
      remainingTimes := new real[RING](_ => 0.0);
      samples := [];
    }

    method UpdateWith(r: Report)
      requires Valid()
      modifies this, remainingTimes
      ensures Valid() && Snap() == Update(old(Snap()), r)
    {
      if value > r.value {
        startTime := r.now0;
        remainingUpdatePos := 0;
        samples := [];
      }
      min, value, max := r.min, r.value, r.max;
      if max > min && value > min && r.now1 - startTime > 5.0 {
        var sample := Sample(startTime, r);
        RingPush(remainingTimes[..], samples, sample);
        ghost var ring := remainingTimes[..];
        remainingTimes[remainingUpdatePos % RING] := sample;
        assert remainingTimes[..] == ring[remainingUpdatePos % RING := sample];
        remainingUpdatePos := remainingUpdatePos + 1;
        samples := samples + [sample];
      }
    }

    method EstimatedRemainingTime() returns (estimate: real)
      requires Valid()
      ensures estimate == Estimate(samples)
    {
      if remainingUpdatePos > RING / 2 {
        var count := Least(RING, remainingUpdatePos);
        var sum := 0.0;
        for i := 0 to count
          invariant sum == Sum(remainingTimes[..i])
        {
          assert remainingTimes[..i + 1][..i] == remainingTimes[..i];
          sum := sum + remainingTimes[i];
        }
        RingSum(remainingTimes[..], samples);
        assert remainingTimes[..][..count] == remainingTimes[..count];
        estimate := sum / count as real;
      } else {
        estimate := 0.0;
      }
    }
  }
}

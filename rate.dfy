/**
 * The RR-interval filter and the sticky rate state of `computeBpmFromBuffer`,
 * with Kotlin's `Double` arithmetic idealised as exact reals.
 */
module Rate {
  import opened Optional

  const SampleRate: real := 500.0
  const MinRR: real := 0.4
  const MaxRR: real := 1.5

  /** `peaks.windowed(2, 1) { it[1] - it[0] }` */
  function Differences(peaks: seq<int>): (d: seq<int>)
    ensures |d| == if |peaks| < 2 then 0 else |peaks| - 1
    ensures forall k :: 0 <= k < |d| ==> d[k] == peaks[k + 1] - peaks[k]
  {
    if |peaks| < 2 then [] else [peaks[1] - peaks[0]] + Differences(peaks[1..])
  }

  /** `.map { it / sampleRate }` */
  function Seconds(d: seq<int>): (s: seq<real>)
    ensures |s| == |d|
    ensures forall k :: 0 <= k < |s| ==> s[k] == d[k] as real / SampleRate
  {
    if d == [] then [] else [d[0] as real / SampleRate] + Seconds(d[1..])
  }

  /** `it in 0.4..1.5` */
  predicate Plausible(rr: real): (r: bool)
    ensures r ==> rr > 0.0
  {
    MinRR <= rr <= MaxRR
  }

  /** `.filter { it in 0.4..1.5 }`: the plausible intervals, in their order. */
  function KeepPlausible(s: seq<real>): (r: seq<real>)
    ensures |r| <= |s|
    ensures forall k :: 0 <= k < |r| ==> Plausible(r[k])
    ensures forall x :: x in r ==> x in s
    ensures forall k :: 0 <= k < |s| && Plausible(s[k]) ==> s[k] in r
  {
    if s == [] then []
    else if Plausible(s[0]) then [s[0]] + KeepPlausible(s[1..])
    else KeepPlausible(s[1..])
  }

  /** The filter keeps every plausible interval as often as it occurs, and nothing else. */
  lemma {:induction false} KeepPlausibleCounts(s: seq<real>)
    ensures forall x :: multiset(KeepPlausible(s))[x] == if Plausible(x) then multiset(s)[x] else 0
  {
    if s != [] {
      KeepPlausibleCounts(s[1..]);
      assert s == [s[0]] + s[1..];
    }
  }

  /** The filter distributes over concatenation, so it keeps the input order. */
  lemma {:induction false} KeepPlausibleAppend(a: seq<real>, b: seq<real>)
    ensures KeepPlausible(a + b) == KeepPlausible(a) + KeepPlausible(b)
  {
    if a == [] {
      assert a + b == b;
    } else {
      var ab := a + b;
      assert ab[0] == a[0];
      assert ab[1..] == a[1..] + b;
      KeepPlausibleAppend(a[1..], b);
      if Plausible(a[0]) {
        calc {
          KeepPlausible(ab);
          [a[0]] + KeepPlausible(a[1..] + b);
          [a[0]] + (KeepPlausible(a[1..]) + KeepPlausible(b));
          ([a[0]] + KeepPlausible(a[1..])) + KeepPlausible(b);
        }
      }
    }
  }

  /** The RR intervals, in seconds, that survive the plausibility filter. */
  function RRIntervals(peaks: seq<int>): (r: seq<real>)
    ensures |peaks| < 2 ==> r == []
    ensures |peaks| >= 1 ==> |r| < |peaks|
    ensures forall k :: 0 <= k < |r| ==> Plausible(r[k])
  {
    KeepPlausible(Seconds(Differences(peaks)))
  }

  /** At 500 Hz an interval is plausible exactly when it spans 200 to 750 samples. */
  lemma PlausibleSamples(d: int)
    ensures Plausible(d as real / SampleRate) <==> 200 <= d <= 750
  {
  }

  /** Some interval survives exactly when two consecutive peaks are 200 to 750 samples apart. */
  lemma {:induction false} RRIntervalsNonEmpty(peaks: seq<int>)
    ensures RRIntervals(peaks) != [] <==>
      exists k :: 0 <= k < |peaks| - 1 && 200 <= peaks[k + 1] - peaks[k] <= 750
  {
    var d := Differences(peaks);
    var s := Seconds(d);
    var r := RRIntervals(peaks);
    if r != [] {
      assert r[0] in s;
      var k :| 0 <= k < |s| && s[k] == r[0];
      PlausibleSamples(d[k]);
      assert 200 <= peaks[k + 1] - peaks[k] <= 750;
    }
    if k :| 0 <= k < |peaks| - 1 && 200 <= peaks[k + 1] - peaks[k] <= 750 {
      PlausibleSamples(d[k]);
      assert s[k] in r;
    }
  }

  function Sum(s: seq<real>): real {
    if s == [] then 0.0 else s[0] + Sum(s[1..])
  }

  /** `average()` of a non-empty list. */
  function Mean(s: seq<real>): (m: real)
    requires s != []
    ensures m * |s| as real == Sum(s)
    ensures |s| == 1 ==> m == s[0]
  {
    Sum(s) / |s| as real
  }

  lemma {:induction false} SumWithin(s: seq<real>, lo: real, hi: real)
    requires forall k :: 0 <= k < |s| ==> lo <= s[k] <= hi
    ensures |s| as real * lo <= Sum(s) <= |s| as real * hi
  {
    if s != [] {
      SumWithin(s[1..], lo, hi);
      assert |s| as real * lo == lo + |s[1..]| as real * lo;
      assert |s| as real * hi == hi + |s[1..]| as real * hi;
    }
  }

  /** The mean of values in [lo, hi] lies in [lo, hi]. */
  lemma MeanWithin(s: seq<real>, lo: real, hi: real)
    requires s != []
    requires forall k :: 0 <= k < |s| ==> lo <= s[k] <= hi
    ensures lo <= Mean(s) <= hi
  {
    SumWithin(s, lo, hi);
    var n := |s| as real;
    assert Mean(s) * n == Sum(s);
  }

  /**
   * The new `lastValidRR`: with at least two peaks and some surviving
   * interval, their mean; otherwise the previous value, kept.
   */
  function NextRR(last: Option<real>, peaks: seq<int>): (r: Option<real>)
    ensures RRIntervals(peaks) == [] ==> r == last
    ensures RRIntervals(peaks) != [] ==> r == Some(Mean(RRIntervals(peaks))) && Plausible(r.value)
    ensures (last.None? || Plausible(last.value)) ==> (r.None? || Plausible(r.value))
  {
    if |peaks| >= 2 then
      var rr := RRIntervals(peaks);
      if rr != [] then
        MeanWithin(rr, MinRR, MaxRR);
        Some(Mean(rr))
      else last
    else last
  }

  /** BPM from an RR interval in seconds. */
  function Bpm(rr: real): (b: real)
    requires rr > 0.0
    ensures b * rr == 60.0
  {
    60.0 / rr
  }

  /** A plausible RR interval gives a heart rate of 40 to 150 BPM. */
  lemma BpmRange(rr: real)
    requires Plausible(rr)
    ensures 40.0 <= Bpm(rr) <= 150.0
  {
    var b := Bpm(rr);
    assert b * rr == 60.0;
  }

  /** What the monitor keeps: whenever an RR interval is known, the BPM is derived from it. */
  ghost predicate Consistent(lastValidRR: Option<real>, currentBpm: real) {
    match lastValidRR
    case None => currentBpm == 0.0
    case Some(rr) => Plausible(rr) && currentBpm == Bpm(rr)
  }

  /** With fewer than two peaks, or no pair 200 to 750 samples apart, nothing changes. */
  lemma NextRRSticky(last: Option<real>, peaks: seq<int>)
    requires |peaks| < 2 || forall k :: 0 <= k < |peaks| - 1 ==> !(200 <= peaks[k + 1] - peaks[k] <= 750)
    ensures NextRR(last, peaks) == last
  {
    RRIntervalsNonEmpty(peaks);
  }

  /** Peaks one second apart at 500 Hz: RR intervals of 1.0 s and 60 BPM. */
  lemma RegularBeat()
    ensures RRIntervals([100, 600, 1100]) == [1.0, 1.0]
    ensures NextRR(None, [100, 600, 1100]) == Some(1.0)
    ensures Bpm(1.0) == 60.0
  {
    var p := [100, 600, 1100];
    assert Differences(p) == [500, 500] by {
      assert Differences(p[1..]) == [500];
    }
    assert Seconds([500, 500]) == [1.0, 1.0] by {
      assert Seconds([500, 500][1..]) == [1.0];
    }
    assert KeepPlausible([1.0, 1.0]) == [1.0, 1.0] by {
      assert KeepPlausible([1.0, 1.0][1..]) == [1.0];
    }
    assert Sum([1.0, 1.0]) == 2.0 by {
      assert Sum([1.0, 1.0][1..]) == 1.0;
    }
    assert RRIntervals(p) == [1.0, 1.0];
    assert Mean([1.0, 1.0]) == 1.0;
  }

  /** A 2.0 s interval is left out of the mean: only the 1.0 s interval counts. */
  lemma LongIntervalExcluded()
    ensures NextRR(None, [0, 1000, 1500]) == Some(1.0)
  {
    var p := [0, 1000, 1500];
    assert Differences(p) == [1000, 500] by {
      assert Differences(p[1..]) == [500];
    }
    assert Seconds([1000, 500]) == [2.0, 1.0] by {
      assert Seconds([1000, 500][1..]) == [1.0];
    }
    assert KeepPlausible([2.0, 1.0]) == [1.0] by {
      assert KeepPlausible([2.0, 1.0][1..]) == [1.0];
    }
    assert RRIntervals(p) == [1.0];
    assert Mean([1.0]) == 1.0;
  }
}

/**
 * The peak-selection step of R-peak detection: over the integrated signal
 * and its threshold, keep the interior indices whose value is above the
 * threshold and strictly above both neighbours.
 */
module Peaks {
  /** The condition of `integratedSignal.indices.filter { ... }`. */
  predicate IsPeak(v: seq<real>, threshold: real, i: int) {
    0 < i < |v| - 1 && v[i] > threshold && v[i] > v[i - 1] && v[i] > v[i + 1]
  }

  /** The qualifying indices among `from until v.size`, in increasing order. */
  function PeaksFrom(v: seq<real>, threshold: real, from: nat): (r: seq<nat>)
    requires from <= |v|
    ensures forall k :: 0 <= k < |r| ==> from <= r[k] < |v| && IsPeak(v, threshold, r[k])
    ensures forall i :: from <= i < |v| && IsPeak(v, threshold, i) ==> i in r
    ensures forall a, b :: 0 <= a < b < |r| ==> r[a] < r[b]
    decreases |v| - from
  {
    if from == |v| then []
    else if IsPeak(v, threshold, from) then [from] + PeaksFrom(v, threshold, from + 1)
    else PeaksFrom(v, threshold, from + 1)
  }

  /** `detectRPeaks`'s result from the integrated signal and its threshold. */
  function SelectPeaks(v: seq<real>, threshold: real): (r: seq<nat>)
    ensures forall k :: 0 <= k < |r| ==> IsPeak(v, threshold, r[k])
    ensures forall i :: IsPeak(v, threshold, i) ==> i in r
    ensures forall a, b :: 0 <= a < b < |r| ==> r[a] < r[b]
  {
    PeaksFrom(v, threshold, 0)
  }

  /** Two strict local maxima cannot be neighbours, so peaks are at least 2 apart. */
  lemma {:induction false} PeaksSpaced(v: seq<real>, threshold: real, k: int)
    requires 0 <= k < |SelectPeaks(v, threshold)| - 1
    ensures SelectPeaks(v, threshold)[k + 1] - SelectPeaks(v, threshold)[k] >= 2
  {
    var r := SelectPeaks(v, threshold);
    assert IsPeak(v, threshold, r[k]) && IsPeak(v, threshold, r[k + 1]);
    assert r[k] < r[k + 1];
  }
}

/**
 * `reject_outliers` of plot_graph.py: a first-difference outlier mask for one
 * channel. A point is flagged when its jump from the previous point exceeds
 * m times the median jump over the whole series; the first point borrows the
 * jump of the second.
 */
module Outliers {
  import opened Stats

  /** The exceptions the script can raise while cleaning a series. */
  datatype Error =
    | IndexError   // `diffs[0]` on an empty difference list (fewer than two values)
    | ValueError   // `np.matmul` of an empty feature list with the 9-row coefficient column

  datatype Result<T> = Ok(value: T) | Err(error: Error)

  /** The multiplier the script uses (the default argument m=3). */
  const DefaultMultiplier: real := 3.0

  function Abs(x: real): (r: real)
    ensures r >= 0.0 && (r == x || r == -x)
  {
    if x < 0.0 then -x else x
  }

  /** The absolute successive differences |v[i] - v[i-1]| for i = 1 .. n-1. */
  function Jumps(data: seq<real>): (j: seq<real>)
    ensures |j| == if |data| < 2 then 0 else |data| - 1
    ensures forall i :: 0 <= i < |j| ==> j[i] == Abs(data[i + 1] - data[i]) && j[i] >= 0.0
  {
    if |data| < 2 then [] else [Abs(data[1] - data[0])] + Jumps(data[1..])
  }

  /**
   * The jumps with a copy of the first one put in front, so that there is
   * again one entry per value and index 0 borrows the jump of index 1.
   */
  function Diffs(data: seq<real>): (d: seq<real>)
    requires |data| >= 2
    ensures |d| == |data|
    ensures d[0] == d[1]
    ensures forall i :: 0 <= i < |d| ==> d[i] >= 0.0
    ensures forall i :: 1 <= i < |data| ==> d[i] == Abs(data[i] - data[i - 1])
  {
    var jumps := Jumps(data);
    var d := [jumps[0]] + jumps;
    assert forall i :: 1 <= i < |data| ==> d[i] == jumps[i - 1];
    d
  }

  /** m times the median of the differences: the bar a jump must exceed to be an outlier. */
  function Threshold(data: seq<real>, m: real): real
    requires |data| >= 2
  {
    m * Median(Diffs(data))
  }

  /** One flag per value: is its (borrowed, for index 0) jump above the threshold? */
  function OutlierMask(data: seq<real>, m: real): (mask: seq<bool>)
    requires |data| >= 2
    ensures |mask| == |data|
    ensures mask[0] == mask[1]
    ensures forall i :: 1 <= i < |data| ==>
              (mask[i] <==> Abs(data[i] - data[i - 1]) > Threshold(data, m))
  {
    var d := Diffs(data);
    var bar := Threshold(data, m);
    seq(|data|, i requires 0 <= i < |data| => d[i] > bar)
  }

  /** The source function itself: fewer than two values raise IndexError. */
  function RejectOutliers(data: seq<real>, m: real): (r: Result<seq<bool>>)
    ensures r.Err? <==> |data| < 2
    ensures r.Err? ==> r.error == IndexError
    ensures r.Ok? ==> |r.value| == |data| && r.value[0] == r.value[1]
    ensures r.Ok? ==> forall i :: 1 <= i < |data| ==>
              (r.value[i] <==> Abs(data[i] - data[i - 1]) > Threshold(data, m))
  {
    if |data| < 2 then Err(IndexError) else Ok(OutlierMask(data, m))
  }

  /** Number of flagged entries of a mask. */
  function CountTrue(mask: seq<bool>): (c: nat)
    ensures c <= |mask|
  {
    if mask == [] then 0 else (if mask[0] then 1 else 0) + CountTrue(mask[1..])
  }

  /**
   * A jump is never negative, so the median jump is not either: a non-negative
   * multiplier gives a non-negative bar, and a multiplier of at least one a bar
   * no lower than the median jump.
   */
  lemma {:induction false} ThresholdBounds(data: seq<real>, m: real)
    requires |data| >= 2
    ensures m >= 0.0 ==> Threshold(data, m) >= 0.0
    ensures m >= 1.0 ==> Median(Diffs(data)) <= Threshold(data, m)
  {
    if m >= 0.0 {
      ThresholdNonNegative(data, m);
    }
    if m >= 1.0 {
      ThresholdAtLeastMedian(data, m);
    }
  }

  lemma {:induction false} ThresholdNonNegative(data: seq<real>, m: real)
    requires |data| >= 2 && m >= 0.0
    ensures Threshold(data, m) >= 0.0
  {
    var d := Diffs(data);
    assert forall i :: 0 <= i < |d| ==> d[i] >= 0.0;
    ThresholdIsScaledMedian(data, m);
    ScaledMedianBounds(d, m);
  }

  lemma {:induction false} ThresholdAtLeastMedian(data: seq<real>, m: real)
    requires |data| >= 2 && m >= 1.0
    ensures Median(Diffs(data)) <= Threshold(data, m)
  {
    var d := Diffs(data);
    assert forall i :: 0 <= i < |d| ==> d[i] >= 0.0;
    ThresholdIsScaledMedian(data, m);
    ScaledMedianBounds(d, m);
  }

  lemma {:induction false} ThresholdIsScaledMedian(data: seq<real>, m: real)
    requires |data| >= 2
    ensures Threshold(data, m) == m * Median(Diffs(data))
  {
  }

  lemma {:induction false} ScaledMedianBounds(s: seq<real>, m: real)
    requires |s| > 0
    requires forall i :: 0 <= i < |s| ==> s[i] >= 0.0
    ensures m >= 0.0 ==> m * Median(s) >= 0.0
    ensures m >= 1.0 ==> Median(s) <= m * Median(s)
  {
    MedianNonNegative(s);
    Scale(m, Median(s));
  }

  lemma {:induction false} Scale(m: real, x: real)
    requires x >= 0.0
    ensures m >= 0.0 ==> m * x >= 0.0
    ensures m >= 1.0 ==> x <= m * x
  {
    if m >= 1.0 {
      assert m * x == x + (m - 1.0) * x;
    }
  }

  /** A constant series has no jumps at all and so flags nothing, whatever m is. */
  lemma {:induction false} ConstantSeriesFlagsNothing(data: seq<real>, m: real)
    requires |data| >= 2
    requires forall i :: 0 <= i < |data| ==> data[i] == data[0]
    ensures forall i :: 0 <= i < |data| ==> !OutlierMask(data, m)[i]
  {
    var d := Diffs(data);
    forall i | 1 <= i < |d| ensures d[i] == 0.0 {
      assert data[i] == data[i - 1];
    }
    MedianOfConstant(d, 0.0);
  }

  /** A mask built by comparing each entry with one bar counts the entries above that bar. */
  lemma {:induction false} CountTrueOfComparison(d: seq<real>, bar: real, mask: seq<bool>)
    requires |mask| == |d|
    requires forall i :: 0 <= i < |d| ==> (mask[i] <==> d[i] > bar)
    ensures CountTrue(mask) == CountAbove(d, bar)
  {
    if d != [] {
      CountTrueOfComparison(d[1..], bar, mask[1..]);
    }
  }

  /**
   * With m >= 1 at most half of the points (rounded down) of a channel are
   * flagged: at least half of the differences are at most the median, which is
   * itself at most m times the median.
   */
  lemma {:induction false} AtMostHalfFlagged(data: seq<real>, m: real)
    requires |data| >= 2 && m >= 1.0
    ensures CountTrue(OutlierMask(data, m)) <= |data| / 2
  {
    ThresholdBounds(data, m);
    CountTrueOfComparison(Diffs(data), Threshold(data, m), OutlierMask(data, m));
    CountAboveMonotone(Diffs(data), Median(Diffs(data)), Threshold(data, m));
    AtMostHalfAboveMedian(Diffs(data));
  }

  /** The median of the spike's differences [0, 0, 0, 90, 90, 0] is 0. */
  lemma {:induction false} SpikeMedian(d: seq<real>)
    requires d == [0.0, 0.0, 0.0, 90.0, 90.0, 0.0]
    ensures Median(d) == 0.0
  {
    SpikeJumpCount(d);
    MedianZeroIfMostlyZero(d);
  }

  lemma {:induction false} SpikeJumpCount(d: seq<real>)
    requires d == [0.0, 0.0, 0.0, 90.0, 90.0, 0.0]
    ensures CountAbove(d, 0.0) == 2
  {
    assert CountAbove(d[5..], 0.0) == 0;
    assert CountAbove(d[4..], 0.0) == 1 by { assert d[4..][1..] == d[5..]; }
    assert CountAbove(d[3..], 0.0) == 2 by { assert d[3..][1..] == d[4..]; }
    assert CountAbove(d[2..], 0.0) == 2 by { assert d[2..][1..] == d[3..]; }
    assert CountAbove(d[1..], 0.0) == 2 by { assert d[1..][1..] == d[2..]; }
  }

  /**
   * The worked example: in [10, 10, 10, 100, 10, 10] the differences are
   * [0, 0, 0, 90, 90, 0], their median is 0, and both the jump into the spike
   * (index 3) and the jump back out of it (index 4) are flagged.
   */
  lemma {:induction false} SpikeFlagsBothJumps(data: seq<real>)
    requires data == [10.0, 10.0, 10.0, 100.0, 10.0, 10.0]
    ensures RejectOutliers(data, DefaultMultiplier) == Ok([false, false, false, true, true, false])
  {
    SpikeThreshold(data);
    ZeroBarFlagsEveryChange(data, DefaultMultiplier);
    var mask := OutlierMask(data, DefaultMultiplier);
    assert !mask[1] && !mask[2] && mask[3] && mask[4] && !mask[5];
    SixFlags(mask, [false, false, false, true, true, false]);
  }

  /** When the median jump is zero, every change of value is an outlier. */
  lemma {:induction false} ZeroBarFlagsEveryChange(data: seq<real>, m: real)
    requires |data| >= 2 && Threshold(data, m) == 0.0
    ensures forall i :: 1 <= i < |data| ==> (OutlierMask(data, m)[i] <==> data[i] != data[i - 1])
  {
  }

  /**
   * If fewer than half of the differences are positive, the median jump is 0
   * and so is the threshold, whatever the multiplier.
   */
  lemma {:induction false} ThresholdZeroIfFewJumps(data: seq<real>, m: real)
    requires |data| >= 2
    requires CountAbove(Diffs(data), 0.0) < |data| - |data| / 2
    ensures Threshold(data, m) == 0.0
  {
    ThresholdIsScaledMedian(data, m);
    MedianZeroIfMostlyZero(Diffs(data));
  }

  /** With fewer than half of the differences positive, exactly the changes of value are flagged. */
  lemma {:induction false} ChangesFlaggedIfFewJumps(data: seq<real>, m: real)
    requires |data| >= 2
    requires CountAbove(Diffs(data), 0.0) < |data| - |data| / 2
    ensures OutlierMask(data, m)[0] == (data[1] != data[0])
    ensures forall i :: 1 <= i < |data| ==> (OutlierMask(data, m)[i] <==> data[i] != data[i - 1])
  {
    ThresholdZeroIfFewJumps(data, m);
    ZeroBarFlagsEveryChange(data, m);
  }

  lemma {:induction false} SpikeThreshold(data: seq<real>)
    requires data == [10.0, 10.0, 10.0, 100.0, 10.0, 10.0]
    ensures Threshold(data, DefaultMultiplier) == 0.0
  {
    var expected := [0.0, 0.0, 0.0, 90.0, 90.0, 0.0];
    assert Abs(data[3] - data[2]) == 90.0 && Abs(data[4] - data[3]) == 90.0;
    DiffsAre(data, expected);
    SpikeMedian(Diffs(data));
  }

  /** Pins down the difference series of a concrete input entry by entry. */
  lemma {:induction false} DiffsAre(data: seq<real>, expected: seq<real>)
    requires |data| >= 2 && |expected| == |data| && expected[0] == expected[1]
    requires forall i :: 1 <= i < |data| ==> expected[i] == Abs(data[i] - data[i - 1])
    ensures Diffs(data) == expected
  {
    var d := Diffs(data);
    forall i | 0 <= i < |data| ensures d[i] == expected[i] {
      if i == 0 {
        assert d[0] == d[1] == expected[1];
      } else {
        assert d[i] == Abs(data[i] - data[i - 1]) == expected[i];
      }
    }
  }

  lemma {:induction false} SixFlags(mask: seq<bool>, expected: seq<bool>)
    requires |mask| == |expected| == 6
    requires mask[0] == expected[0] && mask[1] == expected[1] && mask[2] == expected[2]
    requires mask[3] == expected[3] && mask[4] == expected[4] && mask[5] == expected[5]
    ensures mask == expected
  {
    assert forall i :: 0 <= i < 6 ==> mask[i] == expected[i];
  }
}

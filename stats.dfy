/**
 * The order statistics that numpy's `median` supplies to the outlier filter:
 * sorting a finite series of reals, taking its median (middle element for an
 * odd length, mean of the two middle elements for an even length), and
 * counting how many entries lie strictly above a value.
 */
module Stats {

  ghost predicate IsSorted(s: seq<real>) {
    forall i, j :: 0 <= i < j < |s| ==> s[i] <= s[j]
  }

  /** Inserts x into an already sorted sequence, keeping it sorted. */
  function Insert(x: real, s: seq<real>): (r: seq<real>)
    requires IsSorted(s)
    ensures |r| == |s| + 1
    ensures IsSorted(r)
    ensures multiset(r) == multiset(s) + multiset{x}
    ensures r[0] == if s != [] && s[0] < x then s[0] else x
  {
    if s == [] || x <= s[0] then
      [x] + s
    else
      assert s == [s[0]] + s[1..];
      var tail := Insert(x, s[1..]);
      assert s[0] <= tail[0];
      [s[0]] + tail
  }

  /** Ascending sort of a series (insertion sort; only its result matters). */
  function Sort(s: seq<real>): (r: seq<real>)
    ensures |r| == |s|
    ensures IsSorted(r)
    ensures multiset(r) == multiset(s)
  {
    if s == [] then []
    else
      assert s == [s[0]] + s[1..];
      Insert(s[0], Sort(s[1..]))
  }

  /** numpy's median: the middle of the sorted series, or the mean of the two middle entries. */
  function Median(s: seq<real>): real
    requires |s| > 0
  {
    var t := Sort(s);
    var n := |t|;
    if n % 2 == 1 then t[n / 2] else (t[n / 2 - 1] + t[n / 2]) / 2.0
  }

  /** Number of entries of s strictly greater than x. */
  function CountAbove(s: seq<real>, x: real): (c: nat)
    ensures c <= |s|
  {
    if s == [] then 0 else (if s[0] > x then 1 else 0) + CountAbove(s[1..], x)
  }

  /** The median lies between the two middle entries of the sorted series. */
  lemma {:induction false} MedianBetweenMiddles(s: seq<real>)
    requires |s| > 0
    ensures Sort(s)[(|s| - 1) / 2] <= Median(s) <= Sort(s)[|s| / 2]
  {
    var t := Sort(s);
    var n := |s|;
    if n % 2 == 1 {
      assert (n - 1) / 2 == n / 2;
    } else {
      assert (n - 1) / 2 == n / 2 - 1;
      assert t[n / 2 - 1] <= t[n / 2];
    }
  }

  /** Every entry of the sorted series is an entry of the original. */
  lemma {:induction false} SortedEntryIsEntry(s: seq<real>, k: nat)
    requires k < |s|
    ensures Sort(s)[k] in s
  {
    var t := Sort(s);
    assert t[k] in multiset(t);
    assert t[k] in multiset(s);
  }

  /** The median of a series of non-negative values is non-negative. */
  lemma {:induction false} MedianNonNegative(s: seq<real>)
    requires |s| > 0
    requires forall i :: 0 <= i < |s| ==> s[i] >= 0.0
    ensures Median(s) >= 0.0
  {
    MedianBetweenMiddles(s);
    SortedEntryIsEntry(s, (|s| - 1) / 2);
  }

  /** The median of a series whose entries all equal c is c. */
  lemma {:induction false} MedianOfConstant(s: seq<real>, c: real)
    requires |s| > 0
    requires forall i :: 0 <= i < |s| ==> s[i] == c
    ensures Median(s) == c
  {
    var n := |s|;
    SortedEntryIsEntry(s, (n - 1) / 2);
    SortedEntryIsEntry(s, n / 2);
    if n % 2 == 0 {
      SortedEntryIsEntry(s, n / 2 - 1);
    }
  }

  lemma {:induction false} CountAboveInsert(y: real, t: seq<real>, x: real)
    requires IsSorted(t)
    ensures CountAbove(Insert(y, t), x) == CountAbove(t, x) + (if y > x then 1 else 0)
  {
    if t == [] || y <= t[0] {
      assert Insert(y, t)[1..] == t;
    } else {
      var r := Insert(y, t);
      assert r[1..] == Insert(y, t[1..]);
      CountAboveInsert(y, t[1..], x);
    }
  }

  /** Sorting does not change how many entries lie above a value. */
  lemma {:induction false} CountAboveSort(s: seq<real>, x: real)
    ensures CountAbove(Sort(s), x) == CountAbove(s, x)
  {
    if s != [] {
      CountAboveSort(s[1..], x);
      CountAboveInsert(s[0], Sort(s[1..]), x);
    }
  }

  /** Raising the bar never admits more entries. */
  lemma {:induction false} CountAboveMonotone(s: seq<real>, x: real, y: real)
    requires x <= y
    ensures CountAbove(s, y) <= CountAbove(s, x)
  {
    if s != [] {
      CountAboveMonotone(s[1..], x, y);
    }
  }

  /** In a sorted series, no entry up to index k lies above a bar that t[k] does not exceed. */
  lemma {:induction false} CountAboveSorted(t: seq<real>, x: real, k: nat)
    requires IsSorted(t)
    requires k < |t| && t[k] <= x
    ensures CountAbove(t, x) <= |t| - k - 1
  {
    assert t[0] <= x;
    if k > 0 {
      CountAboveSorted(t[1..], x, k - 1);
    }
  }

  /** In a sorted series, every entry from an index whose entry is above x onwards is above x. */
  lemma {:induction false} CountAboveSortedTail(t: seq<real>, x: real, k: nat)
    requires IsSorted(t)
    requires k < |t| && t[k] > x
    ensures CountAbove(t, x) >= |t| - k
  {
    if k > 0 {
      CountAboveSortedTail(t[1..], x, k - 1);
    } else {
      assert forall i :: 0 <= i < |t| ==> t[i] > x;
      AllAbove(t, x);
    }
  }

  lemma {:induction false} AllAbove(t: seq<real>, x: real)
    requires forall i :: 0 <= i < |t| ==> t[i] > x
    ensures CountAbove(t, x) == |t|
  {
    if t != [] {
      AllAbove(t[1..], x);
    }
  }

  /** A non-negative series with fewer than half of its entries positive has median 0. */
  lemma {:induction false} MedianZeroIfMostlyZero(s: seq<real>)
    requires |s| > 0
    requires forall i :: 0 <= i < |s| ==> s[i] >= 0.0
    requires CountAbove(s, 0.0) < |s| - |s| / 2
    ensures Median(s) == 0.0
  {
    var t, n := Sort(s), |s|;
    CountAboveSort(s, 0.0);
    if t[n / 2] > 0.0 {
      CountAboveSortedTail(t, 0.0, n / 2);
      assert false;
    }
    SortedEntryIsEntry(s, (n - 1) / 2);
    MedianBetweenMiddles(s);
  }

  /** At most half of the entries (rounded down) lie strictly above the median. */
  lemma {:induction false} AtMostHalfAboveMedian(s: seq<real>)
    requires |s| > 0
    ensures CountAbove(s, Median(s)) <= |s| / 2
  {
    var n := |s|;
    MedianBetweenMiddles(s);
    CountAboveSort(s, Median(s));
    CountAboveSorted(Sort(s), Median(s), (n - 1) / 2);
  }
}

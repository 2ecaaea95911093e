/** Stand-ins for the BasicStatistics library routines the caller uses
    (median, mad, mean, bound) and for std::sort on a vector of doubles.
    Doubles are modelled as exact reals. */
module Stats {

  predicate SortedAsc(s: seq<real>)
  {
    forall i, j :: 0 <= i < j < |s| ==> s[i] <= s[j]
  }

  /** Inserts `x` into an ascending sequence. */
  function Insert(x: real, s: seq<real>): (r: seq<real>)
    ensures |r| == |s| + 1
    ensures multiset(r) == multiset(s) + multiset{x}
  {
    if s == [] || x <= s[0] then
      [x] + s
    else
      assert s == [s[0]] + s[1..];
      [s[0]] + Insert(x, s[1..])
  }

  /** Every value of a sequence lies in the bounds its multiset lies in. */
  lemma ValuesAtLeast(s: seq<real>, lo: real)
    requires forall v :: v in multiset(s) ==> lo <= v
    ensures forall k :: 0 <= k < |s| ==> lo <= s[k]
  {
    forall k | 0 <= k < |s|
      ensures lo <= s[k]
    {
      assert s[k] in multiset(s);
    }
  }

  lemma ConsSorted(a: real, t: seq<real>)
    requires SortedAsc(t) && forall k :: 0 <= k < |t| ==> a <= t[k]
    ensures SortedAsc([a] + t)
  {
  }

  lemma {:induction false} InsertSorted(x: real, s: seq<real>)
    requires SortedAsc(s)
    ensures SortedAsc(Insert(x, s))
    decreases |s|
  {
    if s != [] && x > s[0] {
      var t := Insert(x, s[1..]);
      InsertSorted(x, s[1..]);
      forall v | v in multiset(t)
        ensures s[0] <= v
      {
        assert v in multiset(s[1..]) || v == x;
        if v in multiset(s[1..]) {
          var k :| 0 <= k < |s[1..]| && s[1..][k] == v;
          assert s[k + 1] == v;
        }
      }
      ValuesAtLeast(t, s[0]);
      ConsSorted(s[0], t);
    }
  }

  /** std::sort on a vector of doubles: an ascending permutation. */
  function SortAsc(s: seq<real>): (r: seq<real>)
    ensures |r| == |s|
    ensures multiset(r) == multiset(s)
    ensures SortedAsc(r)
  {
    if s == [] then []
    else
      assert s == [s[0]] + s[1..];
      InsertSorted(s[0], SortAsc(s[1..]));
      Insert(s[0], SortAsc(s[1..]))
  }

  /** BasicStatistics::median on data that is already sorted: the middle
      element, or the mean of the two middle elements for even length. */
  function Median(s: seq<real>): (r: real)
    requires |s| > 0
  {
    var n := |s|;
    if n % 2 == 0 then 0.5 * (s[n / 2 - 1] + s[n / 2]) else s[n / 2]
  }

  /** A median of values that all lie in [lo, hi] lies in [lo, hi] too. */
  lemma MedianInBand(s: seq<real>, lo: real, hi: real)
    requires |s| > 0
    requires forall k :: 0 <= k < |s| ==> lo <= s[k] <= hi
    ensures lo <= Median(s) <= hi
  {
  }

  /** Sorted input: the median lies between the smallest and the largest value. */
  lemma MedianBetweenExtremes(s: seq<real>)
    requires |s| > 0 && SortedAsc(s)
    ensures s[0] <= Median(s) <= s[|s| - 1]
  {
  }

  /** The library's own examples: the middle element of an odd-length list,
      the mean of the two middle elements of an even-length one. */
  lemma MedianExamples()
    ensures Median([0.5, 1.0, 1.5]) == 1.0
    ensures Median([0.5, 0.8, 1.0, 1.5]) == 0.9
  {
  }

  function Abs(x: real): real
  {
    if x < 0.0 then -x else x
  }

  function Deviations(s: seq<real>, m: real): (r: seq<real>)
    ensures |r| == |s|
    ensures forall k :: 0 <= k < |s| ==> r[k] == Abs(s[k] - m) && r[k] >= 0.0
  {
    seq(|s|, k requires 0 <= k < |s| => Abs(s[k] - m))
  }

  /** Sorted absolute deviations start at a value of at least 0. */
  lemma DeviationsSorted(s: seq<real>, m: real)
    requires |s| > 0
    ensures SortAsc(Deviations(s, m))[0] >= 0.0
  {
    var d := SortAsc(Deviations(s, m));
    assert d[0] in multiset(Deviations(s, m));
  }

  /** BasicStatistics::mad(data, median): the median absolute deviation
      from the given centre (unscaled). */
  function Mad(s: seq<real>, m: real): (r: real)
    requires |s| > 0
    ensures r >= 0.0
  {
    var d := SortAsc(Deviations(s, m));
    DeviationsSorted(s, m);
    MedianBetweenExtremes(d);
    Median(d)
  }

  function Sum(s: seq<real>): real
  {
    if s == [] then 0.0 else s[0] + Sum(s[1..])
  }

  /** BasicStatistics::mean: the arithmetic mean. */
  function Mean(s: seq<real>): real
    requires |s| > 0
  {
    Sum(s) / |s| as real
  }

  lemma {:induction false} SumBounds(s: seq<real>, lo: real)
    requires forall k :: 0 <= k < |s| ==> lo <= s[k]
    ensures Sum(s) >= lo * |s| as real
  {
    if s != [] {
      SumBounds(s[1..], lo);
    }
  }

  /** The mean of values that are all at least `lo` is at least `lo`. */
  lemma MeanAtLeast(s: seq<real>, lo: real)
    requires |s| > 0
    requires forall k :: 0 <= k < |s| ==> lo <= s[k]
    ensures Mean(s) >= lo
  {
    SumBounds(s, lo);
  }

  /** BasicStatistics::bound: `x` clamped to [lo, hi]. */
  function Bound(x: real, lo: real, hi: real): (r: real)
    requires lo <= hi
    ensures lo <= r <= hi
    ensures lo <= x <= hi ==> r == x
    ensures x < lo ==> r == lo
    ensures x > hi ==> r == hi
  {
    if x < lo then lo else if x > hi then hi else x
  }
}

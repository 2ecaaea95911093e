/** CNV counts per sample and per region (main.cpp, "count CNVs per
    sample/region"): every range counts once for its sample, and every result
    inside a range whose copy number is not 2 counts once for its region. The
    hash maps keyed by sample and region become vectors indexed by handle. */
module Counts {
  import opened CnvData

  /** Every range names an existing sample and, when it is not empty, lies
      within the results; every result names an existing region. */
  predicate Countable(results: seq<ResultData>, ranges: seq<Range>, nSamples: nat, nExons: nat)
  {
    && (forall r :: 0 <= r < |ranges| ==>
          ranges[r].sample < nSamples
          && (ranges[r].start <= ranges[r].end ==> 0 <= ranges[r].start && ranges[r].end < |results|))
    && (forall i :: 0 <= i < |results| ==> results[i].exon < nExons)
  }

  /** The number of ranges among the first `k` that belong to sample `s`. */
  function SampleTally(ranges: seq<Range>, k: nat, s: nat): nat
    requires k <= |ranges|
  {
    if k == 0 then 0
    else SampleTally(ranges, k - 1, s) + (if ranges[k - 1].sample == s then 1 else 0)
  }

  /** Whether result `i` is a CNV of region `e`. */
  predicate Hit(results: seq<ResultData>, i: int, e: nat)
    requires 0 <= i < |results|
  {
    results[i].copies != 2 && results[i].exon == e
  }

  /** The CNVs of region `e` among the results lo..hi (inclusive). */
  function Hits(results: seq<ResultData>, lo: int, hi: int, e: nat): nat
    requires lo <= hi ==> 0 <= lo && hi < |results|
    decreases hi - lo
  {
    if hi < lo then 0
    else Hits(results, lo, hi - 1, e) + (if Hit(results, hi, e) then 1 else 0)
  }

  /** The CNVs of region `e` inside the first `k` ranges. */
  function ExonTally(results: seq<ResultData>, ranges: seq<Range>, k: nat, e: nat): nat
    requires k <= |ranges|
    requires forall r :: 0 <= r < |ranges| && ranges[r].start <= ranges[r].end ==>
               0 <= ranges[r].start && ranges[r].end < |results|
  {
    if k == 0 then 0
    else ExonTally(results, ranges, k - 1, e) + Hits(results, ranges[k - 1].start, ranges[k - 1].end, e)
  }

  /** The inner loop: the CNVs of one range added to the region counts. */
  method AddRange(results: seq<ResultData>, rg: Range, perExon: seq<int>) returns (out: seq<int>)
    requires rg.start <= rg.end ==> 0 <= rg.start && rg.end < |results|
    requires forall i :: 0 <= i < |results| ==> results[i].exon < |perExon|
    ensures |out| == |perExon|
    ensures forall e :: 0 <= e < |perExon| ==> out[e] == perExon[e] + Hits(results, rg.start, rg.end, e)
  {
    out := perExon;
    var i := rg.start;
    ghost var before := rg.start - 1;
    assert forall e :: Hits(results, rg.start, before, e) == 0;
    while i <= rg.end
      invariant rg.start <= i && (i <= rg.end + 1 || i == rg.start)
      invariant |out| == |perExon|
      invariant forall e :: 0 <= e < |perExon| ==> out[e] == perExon[e] + Hits(results, rg.start, i - 1, e)
      decreases rg.end - i
    {
      if results[i].copies != 2 {
        out := out[results[i].exon := out[results[i].exon] + 1];
      }
      i := i + 1;
    }
  }

  /** The counting loop over the ranges. */
  method CountCnvs(results: seq<ResultData>, ranges: seq<Range>, nSamples: nat, nExons: nat)
    returns (perSample: seq<int>, perExon: seq<int>)
    requires Countable(results, ranges, nSamples, nExons)
    ensures |perSample| == nSamples
    ensures forall s :: 0 <= s < nSamples ==> perSample[s] == SampleTally(ranges, |ranges|, s)
    ensures |perExon| == nExons
    ensures forall e :: 0 <= e < nExons ==> perExon[e] == ExonTally(results, ranges, |ranges|, e)
  {
    perSample := seq(nSamples, s => 0);
    perExon := seq(nExons, e => 0);
    for r := 0 to |ranges|
      invariant |perSample| == nSamples && |perExon| == nExons
      invariant forall s :: 0 <= s < nSamples ==> perSample[s] == SampleTally(ranges, r, s)
      invariant forall e :: 0 <= e < nExons ==> perExon[e] == ExonTally(results, ranges, r, e)
    {
      perSample := perSample[ranges[r].sample := perSample[ranges[r].sample] + 1];
      perExon := AddRange(results, ranges[r], perExon);
    }
  }

  // ---------------------------------------------------------------------
  // Properties

  /** The sum of a vector of counts. */
  function Total(v: seq<int>): int
  {
    if v == [] then 0 else Total(v[..|v| - 1]) + v[|v| - 1]
  }

  /** Adding `d` to one entry adds `d` to the total. */
  lemma {:induction false} TotalBump(v: seq<int>, j: nat, d: int)
    requires j < |v|
    ensures Total(v[j := v[j] + d]) == Total(v) + d
    decreases |v|
  {
    var w := v[j := v[j] + d];
    if j < |v| - 1 {
      assert w[..|w| - 1] == v[..|v| - 1][j := v[j] + d];
      TotalBump(v[..|v| - 1], j, d);
    } else {
      assert w[..|w| - 1] == v[..|v| - 1];
    }
  }

  /** The total of a pointwise sum is the sum of the totals. */
  lemma {:induction false} TotalAdd(a: seq<int>, b: seq<int>, c: seq<int>)
    requires |a| == |b| == |c|
    requires forall e :: 0 <= e < |c| ==> c[e] == a[e] + b[e]
    ensures Total(c) == Total(a) + Total(b)
    decreases |c|
  {
    if c != [] {
      var n := |c| - 1;
      TotalAdd(a[..n], b[..n], c[..n]);
    }
  }

  /** The per-sample counts, as a vector. */
  function SampleVector(ranges: seq<Range>, k: nat, nSamples: nat): (v: seq<int>)
    requires k <= |ranges|
    ensures |v| == nSamples
  {
    seq(nSamples, s requires 0 <= s < nSamples => SampleTally(ranges, k, s))
  }

  /** Every range counts for exactly one sample: the per-sample counts add up
      to the number of ranges. */
  lemma {:induction false} SampleCountsTotal(ranges: seq<Range>, k: nat, nSamples: nat)
    requires k <= |ranges|
    requires forall r :: 0 <= r < |ranges| ==> ranges[r].sample < nSamples
    ensures Total(SampleVector(ranges, k, nSamples)) == k
  {
    if k == 0 {
      ZeroTotal(SampleVector(ranges, 0, nSamples));
    } else {
      SampleCountsTotal(ranges, k - 1, nSamples);
      var prev := SampleVector(ranges, k - 1, nSamples);
      var j := ranges[k - 1].sample;
      assert SampleVector(ranges, k, nSamples) == prev[j := prev[j] + 1];
      TotalBump(prev, j, 1);
    }
  }

  /** A vector of zeros adds up to zero. */
  lemma {:induction false} ZeroTotal(v: seq<int>)
    requires forall e :: 0 <= e < |v| ==> v[e] == 0
    ensures Total(v) == 0
  {
    if v != [] {
      ZeroTotal(v[..|v| - 1]);
    }
  }

  /** A sample's count is positive exactly when one of the ranges is its own. */
  lemma {:induction false} SampleCountPositive(ranges: seq<Range>, k: nat, s: nat)
    requires k <= |ranges|
    ensures SampleTally(ranges, k, s) > 0 <==> exists r :: 0 <= r < k && ranges[r].sample == s
  {
    if k > 0 {
      SampleCountPositive(ranges, k - 1, s);
      if ranges[k - 1].sample != s && SampleTally(ranges, k, s) == 0 {
        forall r | 0 <= r < k
          ensures ranges[r].sample != s
        {
        }
      }
    }
  }

  /** The CNVs of any region among the results lo..hi (inclusive). */
  function CnvsIn(results: seq<ResultData>, lo: int, hi: int): nat
    requires lo <= hi ==> 0 <= lo && hi < |results|
    decreases hi - lo
  {
    if hi < lo then 0
    else CnvsIn(results, lo, hi - 1) + (if results[hi].copies != 2 then 1 else 0)
  }

  /** The per-region counts of the results lo..hi, as a vector. */
  function HitVector(results: seq<ResultData>, lo: int, hi: int, nExons: nat): (v: seq<int>)
    requires lo <= hi ==> 0 <= lo && hi < |results|
    ensures |v| == nExons
  {
    seq(nExons, e requires 0 <= e < nExons => Hits(results, lo, hi, e))
  }

  /** Every CNV among lo..hi counts for exactly one region. */
  lemma {:induction false} HitsTotal(results: seq<ResultData>, lo: int, hi: int, nExons: nat)
    requires lo <= hi ==> 0 <= lo && hi < |results|
    requires forall i :: 0 <= i < |results| ==> results[i].exon < nExons
    ensures Total(HitVector(results, lo, hi, nExons)) == CnvsIn(results, lo, hi)
    decreases hi - lo
  {
    if hi < lo {
      ZeroTotal(HitVector(results, lo, hi, nExons));
    } else {
      HitsTotal(results, lo, hi - 1, nExons);
      var prev := HitVector(results, lo, hi - 1, nExons);
      var j := results[hi].exon;
      if results[hi].copies != 2 {
        assert HitVector(results, lo, hi, nExons) == prev[j := prev[j] + 1];
        TotalBump(prev, j, 1);
      } else {
        assert HitVector(results, lo, hi, nExons) == prev;
      }
    }
  }

  /** The CNVs inside the first `k` ranges, counted once per range. */
  function CnvsInRanges(results: seq<ResultData>, ranges: seq<Range>, k: nat): nat
    requires k <= |ranges|
    requires forall r :: 0 <= r < |ranges| && ranges[r].start <= ranges[r].end ==>
               0 <= ranges[r].start && ranges[r].end < |results|
  {
    if k == 0 then 0
    else CnvsInRanges(results, ranges, k - 1) + CnvsIn(results, ranges[k - 1].start, ranges[k - 1].end)
  }

  /** The per-region counts, as a vector. */
  function ExonVector(results: seq<ResultData>, ranges: seq<Range>, k: nat, nExons: nat): (v: seq<int>)
    requires k <= |ranges|
    requires forall r :: 0 <= r < |ranges| && ranges[r].start <= ranges[r].end ==>
               0 <= ranges[r].start && ranges[r].end < |results|
    ensures |v| == nExons
  {
    seq(nExons, e requires 0 <= e < nExons => ExonTally(results, ranges, k, e))
  }

  /** The per-region counts add up to the CNVs inside the ranges. */
  lemma {:induction false} ExonCountsTotal(results: seq<ResultData>, ranges: seq<Range>, k: nat, nSamples: nat,
                                           nExons: nat)
    requires k <= |ranges| && Countable(results, ranges, nSamples, nExons)
    ensures Total(ExonVector(results, ranges, k, nExons)) == CnvsInRanges(results, ranges, k)
  {
    if k == 0 {
      ZeroTotal(ExonVector(results, ranges, 0, nExons));
    } else {
      ExonCountsTotal(results, ranges, k - 1, nSamples, nExons);
      var rg := ranges[k - 1];
      HitsTotal(results, rg.start, rg.end, nExons);
      TotalAdd(ExonVector(results, ranges, k - 1, nExons), HitVector(results, rg.start, rg.end, nExons),
               ExonVector(results, ranges, k, nExons));
    }
  }

  /** A range whose results all have a copy number other than 2 contributes
      its size. */
  lemma {:induction false} CnvsInFull(results: seq<ResultData>, lo: int, hi: int)
    requires lo <= hi ==> 0 <= lo && hi < |results|
    requires forall i :: lo <= i <= hi ==> results[i].copies != 2
    ensures CnvsIn(results, lo, hi) == if hi < lo then 0 else hi - lo + 1
    decreases hi - lo
  {
    if lo <= hi {
      CnvsInFull(results, lo, hi - 1);
    }
  }
}

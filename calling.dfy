/** Copy-number estimation and CNV seed detection (main.cpp, calculateZ,
    calculateCopies and "CNV seed detection"): every (sample, region) pair of
    the compacted cohort gets a result, sample-major; a pair that is a
    statistical outlier, or looks like a homozygous deletion, gets an estimated
    copy number and, unless that number is 2, a one-result seed range. */
module Calling {
  import opened Stats
  import opened CnvData

  /** The user-set calling thresholds: min_z, ext_min_z, ext_gap_span,
      reg_min_ncov, reg_min_cov, and the cohort depth avg_abs_cov. */
  datatype CallParams = CallParams(
    minZ: real, extMinZ: real, extGapSpan: real,
    regMinNcov: real, regMinCov: real, avgAbsCov: real)

  /** calculateZ: NaN when the spread or the reference is zero, otherwise
      (doc - ref) / ref_stdev clamped to [-10, 10]. */
  function CalculateZ(x: Sample, e: nat): ZScore
    requires e < |x.doc| && e < |x.ref| && e < |x.refStdev|
  {
    if x.refStdev[e] == 0.0 || x.ref[e] == 0.0 then NaN
    else Z(Bound((x.doc[e] - x.ref[e]) / x.refStdev[e], -10.0, 10.0))
  }

  /** C's round on a non-negative value: halves are rounded up. */
  function Round(x: real): int
  {
    (x + 0.5).Floor
  }

  /** The copy number for a coverage ratio 2 * doc / ref. */
  function CopiesOfRatio(ratio: real): int
  {
    if ratio < 0.2 then 0
    else if ratio < 1.0 then 1
    else Round(ratio)
  }

  /** Region `ex` of sample `x` is addressable and has a non-zero reference. */
  predicate HasRatio(x: Sample, ex: Exon)
  {
    0 <= ex.index < |x.doc| && ex.index < |x.ref| && x.ref[ex.index] != 0.0
  }

  function Ratio(x: Sample, ex: Exon): real
    requires HasRatio(x, ex)
  {
    2.0 * x.doc[ex.index] / x.ref[ex.index]
  }

  /** calculateCopies. */
  function CalculateCopies(x: Sample, ex: Exon): int
    requires HasRatio(x, ex)
  {
    CopiesOfRatio(Ratio(x, ex))
  }

  /** A compacted cohort whose references are all positive. */
  predicate Callable(c: Cohort)
  {
    Compacted(c) && RefPositive(c)
  }

  /** The seed test: a z-score outlier in either direction (NaN is neither),
      or a region with a reliable reference whose coverage is below a tenth
      of it. */
  predicate SeedTest(z: ZScore, doc: real, ref: real, p: CallParams)
  {
    || z.AtMost(-p.minZ)
    || z.AtLeast(p.minZ)
    || (ref >= p.regMinNcov && ref * p.avgAbsCov >= p.regMinCov && doc < 0.1 * ref)
  }

  /** The result for sample `s` and region `e`. */
  function SeedResult(c: Cohort, p: CallParams, s: nat, e: nat): ResultData
    requires Callable(c) && s < |c.samples| && e < |c.exons|
  {
    var x := c.samples[s];
    var z := CalculateZ(x, e);
    var copies := if SeedTest(z, x.doc[e], x.ref[e], p) then CalculateCopies(x, c.exons[e]) else 2;
    ResultData(s, e, z, copies)
  }

  /** Multiplication by a natural number is monotone. */
  lemma {:induction false} MulMonotone(a: int, b: int, n: nat)
    requires a <= b
    ensures a * n <= b * n
    decreases b - a
  {
    if a < b {
      MulMonotone(a, b - 1, n);
      assert (b - 1) * n + n == b * n;
    }
  }

  /** Flat indices follow the sample order. */
  lemma FlatOrder(s1: nat, e1: nat, s2: nat, e2: nat, n: nat)
    requires e1 < n && s1 < s2
    ensures s1 * n + e1 < s2 * n + e2
  {
    assert (s1 + 1) * n == s1 * n + n;
    MulMonotone(s1 + 1, s2, n);
  }

  /** A flat index names one (sample, region) pair. */
  lemma FlatUnique(s1: nat, e1: nat, s2: nat, e2: nat, n: nat)
    requires e1 < n && e2 < n && s1 * n + e1 == s2 * n + e2
    ensures s1 == s2 && e1 == e2
  {
    if s1 < s2 {
      FlatOrder(s1, e1, s2, e2, n);
    } else if s2 < s1 {
      FlatOrder(s2, e2, s1, e1, n);
    }
  }

  /** The results of sample `s`, in region order. */
  function Row(c: Cohort, p: CallParams, s: nat): (r: seq<ResultData>)
    requires Callable(c) && s < |c.samples|
    ensures |r| == |c.exons|
    ensures forall e :: 0 <= e < |r| ==> r[e] == SeedResult(c, p, s, e)
  {
    seq(|c.exons|, e requires 0 <= e < |c.exons| => SeedResult(c, p, s, e))
  }

  /** The results of the first `k` samples, sample-major: result i is for
      the sample and region whose flat index s * E + e is i. */
  function Rows(c: Cohort, p: CallParams, k: nat): (r: seq<ResultData>)
    requires Callable(c) && k <= |c.samples|
    ensures |r| == k * |c.exons|
  {
    if k == 0 then []
    else
      var prev := Rows(c, p, k - 1);
      assert |prev| + |c.exons| == k * |c.exons|;
      prev + Row(c, p, k - 1)
  }

  /** `r` is the result of the pair of one of the first `k` samples whose
      flat index is `i`. */
  predicate InLayout(c: Cohort, p: CallParams, r: ResultData, k: nat, i: int)
    requires Callable(c) && k <= |c.samples|
  {
    && r.sample < k && r.exon < |c.exons|
    && r.sample * |c.exons| + r.exon == i
    && r == SeedResult(c, p, r.sample, r.exon)
  }

  /** Result i of the first `k` samples is the result of the pair whose flat
      index s * E + e is i. */
  lemma {:induction false} RowsLayout(c: Cohort, p: CallParams, k: nat)
    requires Callable(c) && k <= |c.samples|
    ensures forall i :: 0 <= i < |Rows(c, p, k)| ==> InLayout(c, p, Rows(c, p, k)[i], k, i)
  {
    if k > 0 {
      RowsLayout(c, p, k - 1);
      var prev := Rows(c, p, k - 1);
      var r := Rows(c, p, k);
      forall i | 0 <= i < |r|
        ensures InLayout(c, p, r[i], k, i)
      {
        if i < |prev| {
          assert r[i] == prev[i];
          assert InLayout(c, p, prev[i], k - 1, i);
        } else {
          assert r[i] == Row(c, p, k - 1)[i - |prev|];
        }
      }
    }
  }

  function Results(c: Cohort, p: CallParams): (r: seq<ResultData>)
    requires Callable(c)
  {
    Rows(c, p, |c.samples|)
  }

  /** The seed ranges read off the results: one range [i, i] per result whose
      copy number is not 2, DEL for fewer copies and INS for more. */
  function SeedRanges(results: seq<ResultData>, k: nat): seq<Range>
    requires k <= |results|
  {
    if k == 0 then []
    else
      var x := results[k - 1];
      SeedRanges(results, k - 1)
        + (if x.copies != 2 then [Range(x.sample, k - 1, k - 1, if x.copies < 2 then Del else Ins)] else [])
  }

  /** One pair: its z-score, the seed test, and the seed range if any. */
  method SeedPair(c: Cohort, p: CallParams, s: nat, e: nat, index: int)
    returns (res: ResultData, seed: seq<Range>)
    requires Callable(c) && s < |c.samples| && e < |c.exons|
    ensures res == SeedResult(c, p, s, e)
    ensures seed == if res.copies != 2 then [Range(s, index, index, if res.copies < 2 then Del else Ins)] else []
  {
    var x := c.samples[s];
    var z := CalculateZ(x, e);
    res := ResultData(s, e, z, 2);
    seed := [];
    if z.AtMost(-p.minZ) || z.AtLeast(p.minZ)
       || (x.ref[e] >= p.regMinNcov && x.ref[e] * p.avgAbsCov >= p.regMinCov && x.doc[e] < 0.1 * x.ref[e])
    {
      res := res.(copies := CalculateCopies(x, c.exons[e]));
      if res.copies != 2 {
        seed := [Range(s, index, index, if res.copies < 2 then Del else Ins)];
      }
    }
  }

  /** The state of the inner loop once the first `e` regions of sample `s`
      are done: their results appended, and the seeds of all results. */
  predicate SampleState(c: Cohort, p: CallParams, s: nat, e: nat, results: seq<ResultData>,
                        results': seq<ResultData>, ranges': seq<Range>)
    requires Callable(c) && s < |c.samples| && e <= |c.exons|
  {
    results' == results + Row(c, p, s)[..e] && ranges' == SeedRanges(results', |results'|)
  }

  /** One iteration of the inner loop: the result of region e is appended,
      and its seed when its copy number is not 2. */
  method SeedStep(c: Cohort, p: CallParams, s: nat, e: nat, results: seq<ResultData>,
                  results': seq<ResultData>, ranges': seq<Range>)
    returns (results'': seq<ResultData>, ranges'': seq<Range>)
    requires Callable(c) && s < |c.samples| && e < |c.exons|
    requires SampleState(c, p, s, e, results, results', ranges')
    ensures SampleState(c, p, s, e + 1, results, results'', ranges'')
  {
    var res, seed := SeedPair(c, p, s, e, |results'|);
    assert Row(c, p, s)[..e + 1] == Row(c, p, s)[..e] + [res];
    SeedRangesPrefix(results', res);
    ranges'' := ranges' + seed;
    results'' := results' + [res];
  }

  /** The inner loop over the regions of sample `s`. */
  method DetectSampleSeeds(c: Cohort, p: CallParams, s: nat, results: seq<ResultData>, ranges: seq<Range>)
    returns (results': seq<ResultData>, ranges': seq<Range>)
    requires Callable(c) && s < |c.samples|
    requires ranges == SeedRanges(results, |results|)
    ensures results' == results + Row(c, p, s)
    ensures ranges' == SeedRanges(results', |results'|)
  {
    results' := results;
    ranges' := ranges;
    assert results + Row(c, p, s)[..0] == results;
    for e := 0 to |c.exons|
      invariant SampleState(c, p, s, e, results, results', ranges')
    {
      results', ranges' := SeedStep(c, p, s, e, results, results', ranges');
    }
    assert Row(c, p, s)[..|c.exons|] == Row(c, p, s);
  }

  /** The loop over the samples; the running result index is the length of
      the result list. */
  method DetectSeeds(c: Cohort, p: CallParams) returns (results: seq<ResultData>, ranges: seq<Range>)
    requires Callable(c)
    ensures results == Results(c, p)
    ensures ranges == SeedRanges(results, |results|)
  {
    results := [];
    ranges := [];
    for s := 0 to |c.samples|
      invariant results == Rows(c, p, s)
      invariant ranges == SeedRanges(results, |results|)
    {
      results, ranges := DetectSampleSeeds(c, p, s, results, ranges);
    }
  }

  /** Appending a result extends the seed ranges of the prefix. */
  lemma {:induction false} SeedRangesPrefix(results: seq<ResultData>, x: ResultData)
    ensures SeedRanges(results + [x], |results| + 1)
            == SeedRanges(results, |results|)
               + (if x.copies != 2 then [Range(x.sample, |results|, |results|, if x.copies < 2 then Del else Ins)] else [])
  {
    SeedRangesSame(results, results + [x], |results|);
  }

  /** The seed ranges of a prefix depend on that prefix only. */
  lemma {:induction false} SeedRangesSame(a: seq<ResultData>, b: seq<ResultData>, k: nat)
    requires k <= |a| && k <= |b| && a[..k] == b[..k]
    ensures SeedRanges(a, k) == SeedRanges(b, k)
  {
    if k > 0 {
      assert a[k - 1] == a[..k][k - 1];
      assert b[k - 1] == b[..k][k - 1];
      assert a[..k - 1] == a[..k][..k - 1];
      assert b[..k - 1] == b[..k][..k - 1];
      SeedRangesSame(a, b, k - 1);
    }
  }

  /** previousExists: result i - 1 exists and belongs to the same sample and
      chromosome as result i. */
  function PreviousExists(c: Cohort, results: seq<ResultData>, i: nat): bool
    requires ResultsRefer(c, results) && i < |results|
  {
    if i == 0 then false
    else if results[i - 1].sample != results[i].sample then false
    else if ChrOf(c, results, i) != ChrOf(c, results, i - 1) then false
    else true
  }

  // ---------------------------------------------------------------------
  // Properties

  /** calculateZ is NaN exactly when the spread or the reference is zero;
      otherwise it lies in [-10, 10] and equals the raw score when that is
      already in range. */
  lemma ZScoreRange(x: Sample, e: nat)
    requires e < |x.doc| && e < |x.ref| && e < |x.refStdev|
    ensures CalculateZ(x, e).NaN? <==> x.refStdev[e] == 0.0 || x.ref[e] == 0.0
    ensures CalculateZ(x, e).Z? ==> -10.0 <= CalculateZ(x, e).value <= 10.0
    ensures CalculateZ(x, e).Z? && -10.0 <= (x.doc[e] - x.ref[e]) / x.refStdev[e] <= 10.0
            ==> CalculateZ(x, e).value == (x.doc[e] - x.ref[e]) / x.refStdev[e]
  {
  }

  /** Rounding is within a half of the value. */
  lemma RoundClose(x: real)
    ensures (Round(x) as real) - 0.5 <= x < (Round(x) as real) + 0.5
  {
  }

  /** The copy number: 0 below a ratio of 0.2, 1 below 1.0, otherwise the
      rounded ratio, which is at least 1. */
  lemma CopiesCases(ratio: real)
    ensures CopiesOfRatio(ratio) == 0 <==> ratio < 0.2
    ensures 0.2 <= ratio < 1.0 ==> CopiesOfRatio(ratio) == 1
    ensures ratio >= 1.0 ==> CopiesOfRatio(ratio) >= 1
                             && (CopiesOfRatio(ratio) as real) - 0.5 <= ratio < (CopiesOfRatio(ratio) as real) + 0.5
  {
    RoundClose(ratio);
  }

  /** The copy number never decreases as the ratio grows. */
  lemma CopiesMonotone(a: real, b: real)
    requires a <= b
    ensures CopiesOfRatio(a) <= CopiesOfRatio(b)
  {
    RoundClose(a);
    RoundClose(b);
  }

  /** Fewer than 2 copies exactly when the ratio is below 1.5, more than 2
      exactly when it is at least 2.5. */
  lemma CopiesVersusTwo(ratio: real)
    ensures CopiesOfRatio(ratio) < 2 <==> ratio < 1.5
    ensures CopiesOfRatio(ratio) > 2 <==> ratio >= 2.5
  {
    RoundClose(ratio);
  }

  /** Result i is the result of its sample at its region: it carries that
      pair's z-score, and its copy number differs from 2 only if the seed
      test fired. */
  lemma ResultLayout(c: Cohort, p: CallParams, i: nat)
    requires Callable(c) && i < |Results(c, p)|
    ensures Results(c, p)[i].sample < |c.samples| && Results(c, p)[i].exon < |c.exons|
    ensures Results(c, p)[i].sample * |c.exons| + Results(c, p)[i].exon == i
    ensures Results(c, p)[i].z == CalculateZ(c.samples[Results(c, p)[i].sample], Results(c, p)[i].exon)
    ensures Results(c, p)[i].copies != 2 ==>
              var r := Results(c, p)[i];
              && SeedTest(r.z, c.samples[r.sample].doc[r.exon], c.samples[r.sample].ref[r.exon], p)
              && r.copies == CalculateCopies(c.samples[r.sample], c.exons[r.exon])
  {
    RowsLayout(c, p, |c.samples|);
    assert InLayout(c, p, Results(c, p)[i], |c.samples|, i);
  }

  /** Conversely, the pair (s, e) is at flat index s * E + e. */
  lemma ResultAt(c: Cohort, p: CallParams, s: nat, e: nat)
    requires Callable(c) && s < |c.samples| && e < |c.exons|
    ensures s * |c.exons| + e < |Results(c, p)|
    ensures Results(c, p)[s * |c.exons| + e] == SeedResult(c, p, s, e)
  {
    var n := |c.exons|;
    MulMonotone(s + 1, |c.samples|, n);
    assert (s + 1) * n == s * n + n;
    RowsLayout(c, p, |c.samples|);
    var r := Results(c, p)[s * n + e];
    assert InLayout(c, p, r, |c.samples|, s * n + e);
    FlatUnique(r.sample, r.exon, s, e, n);
  }

  /** The results refer to existing samples and regions. */
  lemma ResultsReferToCohort(c: Cohort, p: CallParams)
    requires Callable(c)
    ensures ResultsRefer(c, Results(c, p))
  {
    forall i | 0 <= i < |Results(c, p)|
      ensures Results(c, p)[i].sample < |c.samples| && Results(c, p)[i].exon < |c.exons|
    {
      ResultLayout(c, p, i);
    }
  }

  /** The seed ranges are single results whose copy number is not 2, of the
      result's sample, and a deletion exactly when the copy number is below 2. */
  lemma {:induction false} SeedRangesShape(results: seq<ResultData>, k: nat)
    requires k <= |results|
    ensures forall j :: 0 <= j < |SeedRanges(results, k)| ==>
              var r := SeedRanges(results, k)[j];
              && 0 <= r.start == r.end < k
              && results[r.start].copies != 2
              && r.sample == results[r.start].sample
              && (r.kind == Del <==> results[r.start].copies < 2)
  {
    if k > 0 {
      SeedRangesShape(results, k - 1);
      var rs := SeedRanges(results, k - 1);
      var rs2 := SeedRanges(results, k);
      assert forall j :: 0 <= j < |rs| ==> rs2[j] == rs[j];
    }
  }

  /** The seed ranges are in increasing order. */
  lemma {:induction false} SeedRangesOrdered(results: seq<ResultData>, k: nat)
    requires k <= |results|
    ensures forall a, b :: 0 <= a < b < |SeedRanges(results, k)| ==>
              SeedRanges(results, k)[a].end < SeedRanges(results, k)[b].start
  {
    if k > 0 {
      SeedRangesOrdered(results, k - 1);
      SeedRangesShape(results, k - 1);
      var rs := SeedRanges(results, k - 1);
      var rs2 := SeedRanges(results, k);
      forall a, b | 0 <= a < b < |rs2|
        ensures rs2[a].end < rs2[b].start
      {
        assert rs2[a] == rs[a];
        if b < |rs| {
          assert rs2[b] == rs[b];
        }
      }
    }
  }

  predicate StartsAt(rs: seq<Range>, i: int)
  {
    exists j :: 0 <= j < |rs| && rs[j].start == i
  }

  /** Every result whose copy number is not 2 starts a seed range. */
  lemma {:induction false} SeedRangesComplete(results: seq<ResultData>, k: nat)
    requires k <= |results|
    ensures forall i :: 0 <= i < k && results[i].copies != 2 ==> StartsAt(SeedRanges(results, k), i)
  {
    if k > 0 {
      SeedRangesComplete(results, k - 1);
      var rs := SeedRanges(results, k - 1);
      var rs2 := SeedRanges(results, k);
      forall i | 0 <= i < k && results[i].copies != 2
        ensures StartsAt(rs2, i)
      {
        if i < k - 1 {
          assert StartsAt(rs, i);
          var j :| 0 <= j < |rs| && rs[j].start == i;
          assert rs2[j].start == i;
        } else {
          assert rs2[|rs|].start == i;
        }
      }
    }
  }

  /** On the result layout, a previous result exists exactly when result i
      is not its sample's first region and the region before it lies on the
      same chromosome. */
  lemma PreviousExistsOnLayout(c: Cohort, p: CallParams, i: nat)
    requires Callable(c) && i < |Results(c, p)|
    ensures ResultsRefer(c, Results(c, p))
    ensures var r := Results(c, p)[i];
            PreviousExists(c, Results(c, p), i)
            <==> r.exon != 0 && c.exons[r.exon - 1].chr == c.exons[r.exon].chr
  {
    ResultsReferToCohort(c, p);
    var rs := Results(c, p);
    var n := |c.exons|;
    var r := rs[i];
    ResultLayout(c, p, i);
    if i > 0 {
      var q := rs[i - 1];
      ResultLayout(c, p, i - 1);
      if r.exon != 0 {
        FlatUnique(q.sample, q.exon, r.sample, r.exon - 1, n);
      } else {
        assert r.sample > 0;
        assert i - 1 == (r.sample - 1) * n + (n - 1);
        FlatUnique(q.sample, q.exon, r.sample - 1, n - 1, n);
      }
    }
  }
}

/** Region quality control (main.cpp, "calculate overall average depth" and
    "region QC"): per region, the median and the scaled MAD of the normalized
    coverage over the QC-passing samples, and the five reasons for flagging a
    region. */
module RegionQc {
  import opened Stats
  import opened CnvData

  /** The scale applied to the MAD: 1.428 in the source (not 1.4826). */
  const MadScale: real := 1.428

  /** The user-set region thresholds: reg_min_ncov, reg_min_cov, reg_max_cv. */
  datatype RegionThresholds = RegionThresholds(minNcov: real, minCov: real, maxCv: real)

  /** The excluded-regions file: whether one was given, and
      BedFile::overlapsWith, whose source is not part of this model. */
  datatype Exclusion = Exclusion(given: bool, overlaps: (Chromosome, int, int) -> bool)

  predicate Passing(s: Sample) { s.qc == [] }

  /** doc_mean of the QC-passing samples, in sample order. */
  function PassingDocMeans(samples: seq<Sample>): (r: seq<real>)
    ensures |r| <= |samples|
    decreases |samples|
  {
    if samples == [] then []
    else
      var last := samples[|samples| - 1];
      PassingDocMeans(samples[..|samples| - 1]) + (if Passing(last) then [last.docMean] else [])
  }

  /** The normalized coverage of region `e` in the QC-passing samples, in sample order. */
  function PassingDocs(samples: seq<Sample>, e: nat): (r: seq<real>)
    requires forall s :: 0 <= s < |samples| ==> e < |samples[s].doc|
    ensures |r| == |PassingDocMeans(samples)|
    decreases |samples|
  {
    if samples == [] then []
    else
      var last := samples[|samples| - 1];
      PassingDocs(samples[..|samples| - 1], e) + (if Passing(last) then [last.doc[e]] else [])
  }

  predicate SomePassing(samples: seq<Sample>)
  {
    exists s :: 0 <= s < |samples| && Passing(samples[s])
  }

  lemma {:induction false} PassingNonEmpty(samples: seq<Sample>)
    requires SomePassing(samples)
    ensures |PassingDocMeans(samples)| > 0
    decreases |samples|
  {
    var last := samples[|samples| - 1];
    if !Passing(last) {
      var s :| 0 <= s < |samples| && Passing(samples[s]);
      assert samples[..|samples| - 1][s] == samples[s];
      PassingNonEmpty(samples[..|samples| - 1]);
    }
  }

  /** avg_abs_cov: the mean doc_mean of the QC-passing samples. */
  function AverageDepth(samples: seq<Sample>): real
    requires SomePassing(samples)
  {
    PassingNonEmpty(samples);
    Mean(PassingDocMeans(samples))
  }

  /** mad/median > reg_max_cv with IEEE division: a zero median gives +inf for
      a positive MAD (flagged) and NaN for a zero MAD (not flagged). */
  predicate CvExceeds(mad: real, median: real, maxCv: real)
  {
    if median == 0.0 then mad > 0.0 else mad / median > maxCv
  }

  /** The flags appended to a region, in the source's order. */
  function RegionFlags(exon: Exon, median: real, mad: real, avgAbsCov: real,
                       t: RegionThresholds, ex: Exclusion): seq<RegionFlag>
  {
    (if median < t.minNcov then [LowNormalizedCoverage(t.minNcov)] else [])
    + (if median * avgAbsCov < t.minCov then [LowCoverage(t.minCov)] else [])
    + (if CvExceeds(mad, median, t.maxCv) then [HighVariation(t.maxCv)] else [])
    + (if ex.given && ex.overlaps(exon.chr, exon.start, exon.end) then [Excluded] else [])
    + (if exon.chr.IsY() then [OnChrY] else [])
  }

  predicate DocsCover(samples: seq<Sample>, n: nat)
  {
    forall s :: 0 <= s < |samples| ==> |samples[s].doc| == n
  }

  /** The median and the scaled MAD of region `e` over the QC-passing samples. */
  function RegionStats(samples: seq<Sample>, e: nat): (real, real)
    requires SomePassing(samples)
    requires forall s :: 0 <= s < |samples| ==> e < |samples[s].doc|
  {
    PassingNonEmpty(samples);
    var tmp := SortAsc(PassingDocs(samples, e));
    var median := Median(tmp);
    (median, MadScale * Mad(tmp, median))
  }

  /** Region `e` after QC: its median, its scaled MAD and its flags. */
  function CheckedExon(exon: Exon, e: nat, samples: seq<Sample>, avgAbsCov: real,
                       t: RegionThresholds, ex: Exclusion): Exon
    requires SomePassing(samples)
    requires forall s :: 0 <= s < |samples| ==> e < |samples[s].doc|
  {
    var st := RegionStats(samples, e);
    exon.(median := st.0, mad := st.1,
          qc := exon.qc + RegionFlags(exon, st.0, st.1, avgAbsCov, t, ex))
  }

  /** The loop that collects the QC-passing samples' doc_mean and averages them. */
  method ComputeAverageDepth(samples: seq<Sample>) returns (avg: real)
    requires SomePassing(samples)
    ensures avg == AverageDepth(samples)
  {
    var tmp: seq<real> := [];
    for s := 0 to |samples|
      invariant tmp == PassingDocMeans(samples[..s])
    {
      assert samples[..s + 1][..s] == samples[..s];
      if samples[s].qc == [] {
        tmp := tmp + [samples[s].docMean];
      }
    }
    assert samples[..|samples|] == samples;
    PassingNonEmpty(samples);
    avg := Mean(tmp);
  }

  /** The loop that collects region `e`'s coverage over the QC-passing samples. */
  method CollectPassingDocs(samples: seq<Sample>, e: nat) returns (tmp: seq<real>)
    requires forall s :: 0 <= s < |samples| ==> e < |samples[s].doc|
    ensures tmp == PassingDocs(samples, e)
  {
    tmp := [];
    for s := 0 to |samples|
      invariant tmp == PassingDocs(samples[..s], e)
    {
      assert samples[..s + 1][..s] == samples[..s];
      if samples[s].qc == [] {
        tmp := tmp + [samples[s].doc[e]];
      }
    }
    assert samples[..|samples|] == samples;
  }

  /** The body of the region loop for region `e`. */
  method CheckRegion(exon: Exon, e: nat, samples: seq<Sample>, avgAbsCov: real,
                     t: RegionThresholds, ex: Exclusion) returns (r: Exon)
    requires SomePassing(samples)
    requires forall s :: 0 <= s < |samples| ==> e < |samples[s].doc|
    ensures r == CheckedExon(exon, e, samples, avgAbsCov, t, ex)
  {
    var tmp := CollectPassingDocs(samples, e);
    PassingNonEmpty(samples);
    tmp := SortAsc(tmp);
    var median := Median(tmp);
    var mad := MadScale * Mad(tmp, median);
    ghost var st := RegionStats(samples, e);
    assert median == st.0 && mad == st.1;
    var qc := exon.qc + RegionFlags(exon, median, mad, avgAbsCov, t, ex);
    r := exon.(median := median, mad := mad, qc := qc);
  }

  /** The region QC stage. Returns the checked regions and avg_abs_cov. */
  method CheckRegions(exons: seq<Exon>, samples: seq<Sample>, t: RegionThresholds, ex: Exclusion)
    returns (out: seq<Exon>, avgAbsCov: real)
    requires SomePassing(samples)
    requires DocsCover(samples, |exons|)
    ensures avgAbsCov == AverageDepth(samples)
    ensures |out| == |exons|
    ensures forall e :: 0 <= e < |exons| ==>
              out[e] == CheckedExon(exons[e], e, samples, avgAbsCov, t, ex)
  {
    avgAbsCov := ComputeAverageDepth(samples);
    out := exons;
    for e := 0 to |exons|
      invariant |out| == |exons|
      invariant forall k :: 0 <= k < e ==> out[k] == CheckedExon(exons[k], k, samples, avgAbsCov, t, ex)
      invariant forall k :: e <= k < |exons| ==> out[k] == exons[k]
    {
      var checked := CheckRegion(out[e], e, samples, avgAbsCov, t, ex);
      out := out[e := checked];
    }
  }

  // ---------------------------------------------------------------------
  // Properties

  /** None of the five conditions for flagging a region holds: normalized
      median below reg_min_ncov, absolute median below reg_min_cov, variation
      above reg_max_cv, overlap with the excluded regions, chrY. */
  predicate RegionOk(exon: Exon, median: real, mad: real, avgAbsCov: real,
                     t: RegionThresholds, ex: Exclusion)
  {
    && median >= t.minNcov
    && median * avgAbsCov >= t.minCov
    && !CvExceeds(mad, median, t.maxCv)
    && !(ex.given && ex.overlaps(exon.chr, exon.start, exon.end))
    && !exon.chr.IsY()
  }

  /** No flag is raised exactly when none of the five conditions holds. */
  lemma RegionFlagsEmpty(exon: Exon, median: real, mad: real, avgAbsCov: real,
                         t: RegionThresholds, ex: Exclusion)
    ensures RegionFlags(exon, median, mad, avgAbsCov, t, ex) == []
            <==> RegionOk(exon, median, mad, avgAbsCov, t, ex)
  {
    var f := RegionFlags(exon, median, mad, avgAbsCov, t, ex);
    assert |f| == (if median < t.minNcov then 1 else 0)
                  + (if median * avgAbsCov < t.minCov then 1 else 0)
                  + (if CvExceeds(mad, median, t.maxCv) then 1 else 0)
                  + (if ex.given && ex.overlaps(exon.chr, exon.start, exon.end) then 1 else 0)
                  + (if exon.chr.IsY() then 1 else 0);
  }

  /** A region that entered QC unflagged leaves it unflagged exactly when none
      of the five conditions holds for its median and scaled MAD. */
  lemma KeptRegion(exon: Exon, e: nat, samples: seq<Sample>, avgAbsCov: real,
                   t: RegionThresholds, ex: Exclusion)
    requires SomePassing(samples)
    requires forall s :: 0 <= s < |samples| ==> e < |samples[s].doc|
    requires exon.qc == []
    ensures var r := CheckedExon(exon, e, samples, avgAbsCov, t, ex);
            r.qc == [] <==> RegionOk(exon, r.median, r.mad, avgAbsCov, t, ex)
  {
    var r := CheckedExon(exon, e, samples, avgAbsCov, t, ex);
    assert r.qc == RegionFlags(exon, r.median, r.mad, avgAbsCov, t, ex);
    RegionFlagsEmpty(exon, r.median, r.mad, avgAbsCov, t, ex);
  }

  /** A region that passes QC has a positive median whenever reg_min_ncov is
      positive, or reg_min_cov is positive and the average depth is not
      negative. Then every reference built for it is positive too. */
  lemma KeptMedianPositive(exon: Exon, e: nat, samples: seq<Sample>, avgAbsCov: real,
                           t: RegionThresholds, ex: Exclusion)
    requires SomePassing(samples)
    requires forall s :: 0 <= s < |samples| ==> e < |samples[s].doc|
    ensures var r := CheckedExon(exon, e, samples, avgAbsCov, t, ex);
            r.qc == [] && (t.minNcov > 0.0 || (t.minCov > 0.0 && avgAbsCov >= 0.0)) ==> r.median > 0.0
  {
    var r := CheckedExon(exon, e, samples, avgAbsCov, t, ex);
    assert r.qc == exon.qc + RegionFlags(exon, r.median, r.mad, avgAbsCov, t, ex);
    if r.qc == [] {
      UnflaggedMedian(exon, r.median, r.mad, avgAbsCov, t, ex);
    }
  }

  /** The same for the whole region QC stage: with a positive reg_min_ncov
      (the default is 0.01), every region that passed has a positive median. */
  lemma CheckedMediansPositive(exons: seq<Exon>, samples: seq<Sample>, avgAbsCov: real,
                               t: RegionThresholds, ex: Exclusion, out: seq<Exon>)
    requires SomePassing(samples) && DocsCover(samples, |exons|)
    requires |out| == |exons|
    requires forall e :: 0 <= e < |exons| ==> out[e] == CheckedExon(exons[e], e, samples, avgAbsCov, t, ex)
    requires t.minNcov > 0.0 || (t.minCov > 0.0 && avgAbsCov >= 0.0)
    ensures forall e :: 0 <= e < |out| && out[e].qc == [] ==> out[e].median > 0.0
  {
    forall e | 0 <= e < |out| && out[e].qc == []
      ensures out[e].median > 0.0
    {
      KeptMedianPositive(exons[e], e, samples, avgAbsCov, t, ex);
    }
  }

  /** The bounds on the median that an unflagged region satisfies. */
  lemma UnflaggedMedian(exon: Exon, median: real, mad: real, avgAbsCov: real,
                        t: RegionThresholds, ex: Exclusion)
    requires RegionFlags(exon, median, mad, avgAbsCov, t, ex) == []
    ensures median >= t.minNcov && median * avgAbsCov >= t.minCov
    ensures t.minNcov > 0.0 || (t.minCov > 0.0 && avgAbsCov >= 0.0) ==> median > 0.0
  {
    RegionFlagsEmpty(exon, median, mad, avgAbsCov, t, ex);
    ProductSign(median, avgAbsCov);
  }

  /** A non-positive factor times a non-negative one is not positive. */
  lemma ProductSign(x: real, y: real)
    ensures x <= 0.0 && y >= 0.0 ==> x * y <= 0.0
  {
  }

  lemma {:induction false} PassingDocsFromPassing(samples: seq<Sample>, e: nat, k: int)
    requires forall s :: 0 <= s < |samples| ==> e < |samples[s].doc|
    requires 0 <= k < |PassingDocs(samples, e)|
    ensures exists s :: 0 <= s < |samples| && Passing(samples[s]) && samples[s].doc[e] == PassingDocs(samples, e)[k]
    decreases |samples|
  {
    var init := samples[..|samples| - 1];
    if k < |PassingDocs(init, e)| {
      PassingDocsFromPassing(init, e, k);
      var s :| 0 <= s < |init| && Passing(init[s]) && init[s].doc[e] == PassingDocs(init, e)[k];
      assert samples[s] == init[s];
    }
  }

  /** The region median and the scaled MAD: the median lies within any bounds
      that hold for the normalized coverage of every QC-passing sample, and the
      scaled MAD is not negative. */
  lemma RegionStatistics(exon: Exon, e: nat, samples: seq<Sample>, avgAbsCov: real,
                         t: RegionThresholds, ex: Exclusion, lo: real, hi: real)
    requires SomePassing(samples)
    requires forall s :: 0 <= s < |samples| ==> e < |samples[s].doc|
    requires forall s :: 0 <= s < |samples| && Passing(samples[s]) ==> lo <= samples[s].doc[e] <= hi
    ensures var r := CheckedExon(exon, e, samples, avgAbsCov, t, ex);
            lo <= r.median <= hi && r.mad >= 0.0
  {
    PassingNonEmpty(samples);
    var docs := PassingDocs(samples, e);
    var tmp := SortAsc(docs);
    forall k | 0 <= k < |tmp|
      ensures lo <= tmp[k] <= hi
    {
      assert tmp[k] in multiset(docs);
      var j :| 0 <= j < |docs| && docs[j] == tmp[k];
      PassingDocsFromPassing(samples, e, j);
    }
    MedianInBand(tmp, lo, hi);
  }

  lemma {:induction false} PassingDocMeansFromPassing(samples: seq<Sample>, k: int)
    requires 0 <= k < |PassingDocMeans(samples)|
    ensures exists s :: 0 <= s < |samples| && Passing(samples[s]) && samples[s].docMean == PassingDocMeans(samples)[k]
    decreases |samples|
  {
    var init := samples[..|samples| - 1];
    if k < |PassingDocMeans(init)| {
      PassingDocMeansFromPassing(init, k);
      var s :| 0 <= s < |init| && Passing(init[s]) && init[s].docMean == PassingDocMeans(init)[k];
      assert samples[s] == init[s];
    }
  }

  /** The cohort depth is at least any lower bound of the QC-passing samples'
      doc_mean (for example sam_min_depth, which every passing sample meets). */
  lemma AverageDepthAtLeast(samples: seq<Sample>, lo: real)
    requires SomePassing(samples)
    requires forall s :: 0 <= s < |samples| && Passing(samples[s]) ==> samples[s].docMean >= lo
    ensures AverageDepth(samples) >= lo
  {
    PassingNonEmpty(samples);
    var means := PassingDocMeans(samples);
    forall k | 0 <= k < |means| ensures lo <= means[k] {
      PassingDocMeansFromPassing(samples, k);
    }
    MeanAtLeast(means, lo);
  }
}

/** Reference construction (main.cpp, "construct reference from 'n' most
    similar samples"): for every sample and region, the normalized coverage of
    the most similar QC-passing samples that is not an extreme outlier is
    collected up to a count of `n`; its median and scaled MAD become the
    sample's reference and spread for the region, with the region median as a
    fallback. A sample whose coverage correlates badly with its reference is
    flagged, which already affects the samples processed after it. */
module Reference {
  import opened Stats
  import opened CnvData
  import RegionQc

  /** Every sample's ranked list has an entry for each of the first
      `|samples| - 1` positions, every entry names an existing sample, and
      every sample's coverage covers `nExons` regions. */
  predicate Ready(samples: seq<Sample>, nExons: nat)
  {
    forall s :: 0 <= s < |samples| ==>
      && |samples[s].correlAll| >= |samples| - 1
      && |samples[s].doc| >= nExons
      && (forall i :: 0 <= i < |samples[s].correlAll| ==> samples[s].correlAll[i].sample < |samples|)
  }

  /** `b` has the same coverage and ranked lists as `a`. */
  predicate SameInputs(a: seq<Sample>, b: seq<Sample>)
  {
    && |a| == |b|
    && forall s :: 0 <= s < |a| ==> a[s].doc == b[s].doc && a[s].correlAll == b[s].correlAll
  }

  lemma ReadyKept(a: seq<Sample>, b: seq<Sample>, nExons: nat)
    requires Ready(a, nExons) && SameInputs(a, b)
    ensures Ready(b, nExons)
  {
    forall s | 0 <= s < |b|
      ensures |b[s].correlAll| >= |b| - 1 && |b[s].doc| >= nExons
      ensures forall i :: 0 <= i < |b[s].correlAll| ==> b[s].correlAll[i].sample < |b|
    {
      assert a[s].doc == b[s].doc && a[s].correlAll == b[s].correlAll;
    }
  }

  /** The outlier band around the region median `m`. */
  predicate InBand(v: real, m: real)
  {
    0.25 * m <= v <= 1.75 * m
  }

  /** The coverage of region `e` in the sample at rank `i` of list `l`. */
  function RankedValue(samples: seq<Sample>, l: seq<SampleCorrelation>, e: nat, i: nat): real
    requires i < |l| && l[i].sample < |samples| && e < |samples[l[i].sample].doc|
  {
    samples[l[i].sample].doc[e]
  }

  /** Whether the value at rank `i` is taken: its sample passed QC and the
      value lies in the outlier band. */
  predicate Takes(samples: seq<Sample>, l: seq<SampleCorrelation>, e: nat, m: real, i: nat)
    requires i < |l| && l[i].sample < |samples| && e < |samples[l[i].sample].doc|
  {
    samples[l[i].sample].qc == [] && InBand(RankedValue(samples, l, e, i), m)
  }

  /** `l` can be scanned for region `e` over its first `k` ranks. */
  predicate Scannable(samples: seq<Sample>, l: seq<SampleCorrelation>, e: nat, k: nat)
  {
    && k <= |l|
    && forall i :: 0 <= i < k ==> l[i].sample < |samples| && e < |samples[l[i].sample].doc|
  }

  /** Every value taken over the first `k` ranks, without a cap. */
  function Accepted(samples: seq<Sample>, l: seq<SampleCorrelation>, e: nat, m: real, k: nat): seq<real>
    requires Scannable(samples, l, e, k)
  {
    if k == 0 then []
    else
      Accepted(samples, l, e, m, k - 1)
        + (if Takes(samples, l, e, m, k - 1) then [RankedValue(samples, l, e, k - 1)] else [])
  }

  /** The values the loop holds after the first `k` ranks: it stops taking
      values as soon as it holds `n` of them. */
  function Collect(samples: seq<Sample>, l: seq<SampleCorrelation>, e: nat, m: real, n: nat, k: nat): seq<real>
    requires Scannable(samples, l, e, k)
  {
    if k == 0 then []
    else
      var prev := Collect(samples, l, e, m, n, k - 1);
      if |prev| == n then prev
      else prev + (if Takes(samples, l, e, m, k - 1) then [RankedValue(samples, l, e, k - 1)] else [])
  }

  /** The first `n` elements of `s`, or all of them. */
  function Take(s: seq<real>, n: nat): (r: seq<real>)
    ensures |r| == if |s| <= n then |s| else n
  {
    if |s| <= n then s else s[..n]
  }

  /** Once the loop holds `n` values, scanning further ranks changes nothing. */
  lemma {:induction false} CollectStaysFull(samples: seq<Sample>, l: seq<SampleCorrelation>, e: nat, m: real,
                                            n: nat, k: nat, k2: nat)
    requires k <= k2 && Scannable(samples, l, e, k2)
    requires |Collect(samples, l, e, m, n, k)| == n
    ensures Collect(samples, l, e, m, n, k2) == Collect(samples, l, e, m, n, k)
    decreases k2 - k
  {
    if k < k2 {
      CollectStaysFull(samples, l, e, m, n, k, k2 - 1);
    }
  }

  /** The inner scan of the source (with its early `break`). */
  method CollectValues(samples: seq<Sample>, l: seq<SampleCorrelation>, e: nat, m: real, n: nat)
    returns (values: seq<real>)
    requires n >= 1 && |samples| >= 1 && Scannable(samples, l, e, |samples| - 1)
    ensures values == Collect(samples, l, e, m, n, |samples| - 1)
  {
    values := [];
    var i := 0;
    while i < |samples| - 1
      invariant 0 <= i <= |samples| - 1
      invariant values == Collect(samples, l, e, m, n, i)
      invariant |values| < n
    {
      if samples[l[i].sample].qc == [] {
        var value := samples[l[i].sample].doc[e];
        if 0.25 * m <= value && value <= 1.75 * m {
          values := values + [value];
        }
      }
      if |values| == n {
        CollectStaysFull(samples, l, e, m, n, i + 1, |samples| - 1);
        return;
      }
      i := i + 1;
    }
  }

  /** A region's reference value and spread. */
  datatype RefStat = RefStat(ref: real, stdev: real)

  function Max(a: real, b: real): real
  {
    if a >= b then a else b
  }

  /** With a full set of `n` values: their median, and 1.428 * MAD floored at a
      tenth of the median; otherwise the region median and 0.3 times it. */
  function RefOf(values: seq<real>, n: nat, m: real): RefStat
  {
    if |values| == n && n > 0 then
      var sorted := SortAsc(values);
      var median := Median(sorted);
      RefStat(median, Max(RegionQc.MadScale * Mad(sorted, median), 0.1 * median))
    else
      RefStat(m, 0.3 * m)
  }

  /** The reference of one sample at region `e`, whose median is `m`. */
  function RegionRef(samples: seq<Sample>, l: seq<SampleCorrelation>, e: nat, m: real, n: nat): RefStat
    requires |samples| >= 1 && Scannable(samples, l, e, |samples| - 1)
  {
    RefOf(Collect(samples, l, e, m, n, |samples| - 1), n, m)
  }

  /** The thresholds and the library routine the stage uses: n, sam_min_corr,
      and BasicStatistics::correlation, whose source is not part of this model. */
  datatype RefParams = RefParams(n: nat, minCorr: real, correlation: (seq<real>, seq<real>) -> real)

  /** The reference values of sample `s` for all regions, in region order. */
  function RefValues(samples: seq<Sample>, s: nat, exons: seq<Exon>, n: nat): (r: seq<RefStat>)
    requires Ready(samples, |exons|) && s < |samples|
    ensures |r| == |exons|
    ensures forall e :: 0 <= e < |exons| ==> r[e] == RegionRef(samples, samples[s].correlAll, e, exons[e].median, n)
  {
    seq(|exons|, e requires 0 <= e < |exons| => RegionRef(samples, samples[s].correlAll, e, exons[e].median, n))
  }

  function Refs(stats: seq<RefStat>): (r: seq<real>)
    ensures |r| == |stats| && forall e :: 0 <= e < |stats| ==> r[e] == stats[e].ref
  {
    seq(|stats|, e requires 0 <= e < |stats| => stats[e].ref)
  }

  function Stdevs(stats: seq<RefStat>): (r: seq<real>)
    ensures |r| == |stats| && forall e :: 0 <= e < |stats| ==> r[e] == stats[e].stdev
  {
    seq(|stats|, e requires 0 <= e < |stats| => stats[e].stdev)
  }

  /** The flag appended when the reference correlation is too low. */
  function CorrFlags(correl: real, minCorr: real): seq<SampleFlag>
  {
    if correl < minCorr then [LowReferenceCorrelation(correl)] else []
  }

  /** Sample `s` after its reference has been built in the state `samples`. */
  function WithReference(samples: seq<Sample>, s: nat, exons: seq<Exon>, p: RefParams): Sample
    requires Ready(samples, |exons|) && s < |samples|
  {
    var x := samples[s];
    var stats := RefValues(samples, s, exons, p.n);
    var ref := x.ref + Refs(stats);
    var correl := p.correlation(x.doc, ref);
    x.(ref := ref, refStdev := x.refStdev + Stdevs(stats), refCorrel := correl,
       qc := x.qc + CorrFlags(correl, p.minCorr))
  }

  /** The state after the first `k` samples have been processed, in order. */
  function ReferenceStage(samples: seq<Sample>, k: nat, exons: seq<Exon>, p: RefParams): (r: seq<Sample>)
    requires Ready(samples, |exons|) && k <= |samples|
    ensures SameInputs(samples, r)
    ensures forall s :: k <= s < |samples| ==> r[s] == samples[s]
  {
    if k == 0 then samples
    else
      var prev := ReferenceStage(samples, k - 1, exons, p);
      ReadyKept(samples, prev, |exons|);
      prev[k - 1 := WithReference(prev, k - 1, exons, p)]
  }

  /** The reference of one region: the scan, then median and spread or the
      fallback. */
  method RegionReference(samples: seq<Sample>, l: seq<SampleCorrelation>, e: nat, m: real, n: nat)
    returns (r: RefStat)
    requires n >= 1 && |samples| >= 1 && Scannable(samples, l, e, |samples| - 1)
    ensures r == RegionRef(samples, l, e, m, n)
  {
    var values := CollectValues(samples, l, e, m, n);
    if |values| == n {
      var sorted := SortAsc(values);
      var median := Median(sorted);
      var stdev := RegionQc.MadScale * Mad(sorted, median);
      r := RefStat(median, Max(stdev, 0.1 * median));
    } else {
      r := RefStat(m, 0.3 * m);
    }
  }

  /** The loop over the regions for one sample: one reference value and one
      spread appended per region. */
  method RegionLoop(samples: seq<Sample>, s: nat, exons: seq<Exon>, n: nat)
    returns (ref: seq<real>, refStdev: seq<real>)
    requires n >= 1 && Ready(samples, |exons|) && s < |samples|
    ensures ref == samples[s].ref + Refs(RefValues(samples, s, exons, n))
    ensures refStdev == samples[s].refStdev + Stdevs(RefValues(samples, s, exons, n))
  {
    ghost var stats := RefValues(samples, s, exons, n);
    ghost var refs, stdevs := Refs(stats), Stdevs(stats);
    ref := samples[s].ref;
    refStdev := samples[s].refStdev;
    for e := 0 to |exons|
      invariant ref == samples[s].ref + refs[..e]
      invariant refStdev == samples[s].refStdev + stdevs[..e]
    {
      ReadyScannable(samples, s, |exons|, e);
      var st := RegionReference(samples, samples[s].correlAll, e, exons[e].median, n);
      ref := ref + [st.ref];
      refStdev := refStdev + [st.stdev];
      PrefixSnoc(refs, e);
      PrefixSnoc(stdevs, e);
    }
    PrefixWhole(refs);
    PrefixWhole(stdevs);
  }

  /** Growing a prefix by one element. */
  lemma PrefixSnoc(v: seq<real>, e: nat)
    requires e < |v|
    ensures v[..e + 1] == v[..e] + [v[e]]
  {
  }

  /** The prefix of full length is the whole sequence. */
  lemma PrefixWhole(v: seq<real>)
    ensures v[..|v|] == v
  {
  }

  /** A ready sample's ranked list can be scanned for every region. */
  lemma ReadyScannable(samples: seq<Sample>, s: nat, nExons: nat, e: nat)
    requires Ready(samples, nExons) && s < |samples| && e < nExons
    ensures |samples| >= 1 && Scannable(samples, samples[s].correlAll, e, |samples| - 1)
  {
    var l := samples[s].correlAll;
    forall i | 0 <= i < |samples| - 1
      ensures l[i].sample < |samples| && e < |samples[l[i].sample].doc|
    {
      assert l[i].sample < |samples|;
    }
  }

  /** One sample: the region loop, then the correlation with the new
      reference and the flag. */
  method BuildSampleReference(samples: seq<Sample>, s: nat, exons: seq<Exon>, p: RefParams)
    returns (r: Sample)
    requires p.n >= 1 && Ready(samples, |exons|) && s < |samples|
    ensures r == WithReference(samples, s, exons, p)
  {
    var ref, refStdev := RegionLoop(samples, s, exons, p.n);
    var correl := p.correlation(samples[s].doc, ref);
    r := samples[s].(ref := ref, refStdev := refStdev, refCorrel := correl);
    if correl < p.minCorr {
      r := r.(qc := r.qc + [LowReferenceCorrelation(correl)]);
    }
  }

  /** The loop over the samples. */
  method BuildReferences(samples: seq<Sample>, exons: seq<Exon>, p: RefParams) returns (out: seq<Sample>)
    requires p.n >= 1 && Ready(samples, |exons|)
    ensures out == ReferenceStage(samples, |samples|, exons, p)
  {
    out := samples;
    for s := 0 to |samples|
      invariant out == ReferenceStage(samples, s, exons, p)
    {
      ReadyKept(samples, out, |exons|);
      var r := BuildSampleReference(out, s, exons, p);
      out := out[s := r];
    }
  }

  // ---------------------------------------------------------------------
  // Properties

  /** The capped scan is the uncapped list of taken values cut to `n`. */
  lemma {:induction false} CollectIsTake(samples: seq<Sample>, l: seq<SampleCorrelation>, e: nat, m: real,
                                         n: nat, k: nat)
    requires Scannable(samples, l, e, k)
    ensures Collect(samples, l, e, m, n, k) == Take(Accepted(samples, l, e, m, k), n)
  {
    if k > 0 {
      CollectIsTake(samples, l, e, m, n, k - 1);
      var a := Accepted(samples, l, e, m, k - 1);
      var a2 := Accepted(samples, l, e, m, k);
      assert a2[..|a|] == a;
      if |a| > n {
        assert a2[..n] == a[..n];
      }
    }
  }

  /** `v` is a value in the outlier band that the sample at one of the first
      `k` ranks, a QC-passing one, has at region `e`. */
  predicate FromRanks(samples: seq<Sample>, l: seq<SampleCorrelation>, e: nat, m: real, k: nat, v: real)
    requires Scannable(samples, l, e, k)
  {
    InBand(v, m) && exists i :: 0 <= i < k && samples[l[i].sample].qc == [] && RankedValue(samples, l, e, i) == v
  }

  /** Every taken value comes from a QC-passing sample among the first `k`
      ranks and lies in the outlier band. */
  lemma {:induction false} AcceptedFrom(samples: seq<Sample>, l: seq<SampleCorrelation>, e: nat, m: real, k: nat)
    requires Scannable(samples, l, e, k)
    ensures forall j :: 0 <= j < |Accepted(samples, l, e, m, k)| ==>
              FromRanks(samples, l, e, m, k, Accepted(samples, l, e, m, k)[j])
  {
    if k > 0 {
      AcceptedFrom(samples, l, e, m, k - 1);
      var a := Accepted(samples, l, e, m, k - 1);
      var a2 := Accepted(samples, l, e, m, k);
      forall j | 0 <= j < |a2|
        ensures FromRanks(samples, l, e, m, k, a2[j])
      {
        if j < |a| {
          assert a2[j] == a[j];
          assert FromRanks(samples, l, e, m, k - 1, a[j]);
          var i :| 0 <= i < k - 1 && samples[l[i].sample].qc == [] && RankedValue(samples, l, e, i) == a[j];
          assert 0 <= i < k;
        } else {
          assert Takes(samples, l, e, m, k - 1);
          assert a2[j] == RankedValue(samples, l, e, k - 1);
        }
      }
    }
  }

  /** The scan of sample `s`'s list for region `e` holds at most `n` values,
      each from a QC-passing sample among the first |samples|-1 ranks and
      within [0.25 m, 1.75 m]; fewer than `n` means every such value was taken. */
  lemma CollectedValues(samples: seq<Sample>, l: seq<SampleCorrelation>, e: nat, m: real, n: nat)
    requires |samples| >= 1 && Scannable(samples, l, e, |samples| - 1)
    ensures var v := Collect(samples, l, e, m, n, |samples| - 1);
            && |v| <= n
            && (|v| < n ==> v == Accepted(samples, l, e, m, |samples| - 1))
            && forall j :: 0 <= j < |v| ==> FromRanks(samples, l, e, m, |samples| - 1, v[j])
  {
    var k := |samples| - 1;
    CollectIsTake(samples, l, e, m, n, k);
    AcceptedFrom(samples, l, e, m, k);
    var a := Accepted(samples, l, e, m, k);
    var v := Collect(samples, l, e, m, n, k);
    forall j | 0 <= j < |v|
      ensures v[j] == a[j]
    {
    }
  }

  /** With `n` values the reference is their median, inside the outlier band,
      and the spread is at least 1.428 * MAD and a tenth of the median;
      otherwise the region median and 0.3 times it are used. */
  lemma RefOfValues(values: seq<real>, n: nat, m: real)
    requires n >= 1
    requires forall j :: 0 <= j < |values| ==> InBand(values[j], m)
    ensures var r := RefOf(values, n, m);
            && (|values| == n ==>
                  && r.ref == Median(SortAsc(values))
                  && 0.25 * m <= r.ref <= 1.75 * m
                  && r.stdev >= RegionQc.MadScale * Mad(SortAsc(values), r.ref)
                  && r.stdev >= 0.1 * r.ref)
            && (|values| != n ==> r.ref == m && r.stdev == 0.3 * m)
  {
    if |values| == n {
      var sorted := SortAsc(values);
      forall j | 0 <= j < |sorted|
        ensures 0.25 * m <= sorted[j] <= 1.75 * m
      {
        assert sorted[j] in multiset(values);
        var i :| 0 <= i < |values| && values[i] == sorted[j];
      }
      MedianInBand(sorted, 0.25 * m, 1.75 * m);
    }
  }

  /** A positive region median gives a positive reference and spread. */
  lemma RefPositiveFromMedian(samples: seq<Sample>, l: seq<SampleCorrelation>, e: nat, m: real, n: nat)
    requires n >= 1 && m > 0.0
    requires |samples| >= 1 && Scannable(samples, l, e, |samples| - 1)
    ensures RegionRef(samples, l, e, m, n).ref > 0.0 && RegionRef(samples, l, e, m, n).stdev > 0.0
  {
    CollectedValues(samples, l, e, m, n);
    RefOfValues(Collect(samples, l, e, m, n, |samples| - 1), n, m);
  }

  /** After the sample loop, every sample holds one more reference and spread
      per region, and those of a region with a positive median are positive,
      whatever the ranking and the QC of the other samples. */
  lemma ReferencesPositive(samples: seq<Sample>, exons: seq<Exon>, p: RefParams)
    requires p.n >= 1 && Ready(samples, |exons|)
    ensures var out := ReferenceStage(samples, |samples|, exons, p);
            forall s :: 0 <= s < |samples| ==> ReferencesOf(samples[s], out[s], exons)
  {
    forall s | 0 <= s < |samples| {
      ReferencePositive(samples, exons, p, s);
    }
  }

  /** `y` is `x` with one reference and one spread appended per region, both
      positive for a region with a positive median. */
  predicate ReferencesOf(x: Sample, y: Sample, exons: seq<Exon>)
  {
    && |y.ref| == |x.ref| + |exons| && |y.refStdev| == |x.refStdev| + |exons|
    && forall e :: 0 <= e < |exons| && exons[e].median > 0.0 ==>
         y.ref[|x.ref| + e] > 0.0 && y.refStdev[|x.refStdev| + e] > 0.0
  }

  /** The same for one sample, which is built in the state its predecessors
      left. */
  lemma ReferencePositive(samples: seq<Sample>, exons: seq<Exon>, p: RefParams, s: nat)
    requires p.n >= 1 && Ready(samples, |exons|) && s < |samples|
    ensures ReferencesOf(samples[s], ReferenceStage(samples, |samples|, exons, p)[s], exons)
  {
    var before := ReferenceStage(samples, s, exons, p);
    StageOrder(samples, |samples|, s, exons, p);
    assert before[s] == samples[s];
    WithReferencePositive(before, s, exons, p);
  }

  /** Building one sample's reference in any ready state. */
  lemma WithReferencePositive(samples: seq<Sample>, s: nat, exons: seq<Exon>, p: RefParams)
    requires p.n >= 1 && Ready(samples, |exons|) && s < |samples|
    ensures ReferencesOf(samples[s], WithReference(samples, s, exons, p), exons)
  {
    var x := samples[s];
    var stats := RefValues(samples, s, exons, p.n);
    StatsPositive(samples, s, exons, p.n);
    AppendedPositive(x, x.(ref := x.ref + Refs(stats), refStdev := x.refStdev + Stdevs(stats)), exons, stats);
  }

  /** The statistics of every region with a positive median are positive. */
  lemma StatsPositive(samples: seq<Sample>, s: nat, exons: seq<Exon>, n: nat)
    requires n >= 1 && Ready(samples, |exons|) && s < |samples|
    ensures forall e :: 0 <= e < |exons| && exons[e].median > 0.0 ==>
              RefValues(samples, s, exons, n)[e].ref > 0.0 && RefValues(samples, s, exons, n)[e].stdev > 0.0
  {
    forall e | 0 <= e < |exons| && exons[e].median > 0.0
      ensures RefValues(samples, s, exons, n)[e].ref > 0.0 && RefValues(samples, s, exons, n)[e].stdev > 0.0
    {
      ReadyScannable(samples, s, |exons|, e);
      RefPositiveFromMedian(samples, samples[s].correlAll, e, exons[e].median, n);
    }
  }

  /** Appending positive statistics gives positive appended entries. */
  lemma AppendedPositive(x: Sample, y: Sample, exons: seq<Exon>, stats: seq<RefStat>)
    requires |stats| == |exons|
    requires y.ref == x.ref + Refs(stats) && y.refStdev == x.refStdev + Stdevs(stats)
    requires forall e :: 0 <= e < |exons| && exons[e].median > 0.0 ==> stats[e].ref > 0.0 && stats[e].stdev > 0.0
    ensures ReferencesOf(x, y, exons)
  {
    forall e | 0 <= e < |exons| && exons[e].median > 0.0
      ensures y.ref[|x.ref| + e] > 0.0 && y.refStdev[|x.refStdev| + e] > 0.0
    {
      assert y.ref[|x.ref| + e] == Refs(stats)[e];
      assert y.refStdev[|x.refStdev| + e] == Stdevs(stats)[e];
    }
  }

  /** Building a sample's reference appends one value and one spread per
      region, sets the correlation, adds the correlation flag exactly when it
      is below the minimum, and changes nothing else. */
  lemma WithReferenceFacts(samples: seq<Sample>, s: nat, exons: seq<Exon>, p: RefParams)
    requires Ready(samples, |exons|) && s < |samples|
    ensures var x := samples[s];
            var r := WithReference(samples, s, exons, p);
            && |r.ref| == |x.ref| + |exons| && r.ref[..|x.ref|] == x.ref
            && |r.refStdev| == |x.refStdev| + |exons| && r.refStdev[..|x.refStdev|] == x.refStdev
            && (forall e :: 0 <= e < |exons| ==>
                  r.ref[|x.ref| + e] == RegionRef(samples, x.correlAll, e, exons[e].median, p.n).ref
                  && r.refStdev[|x.refStdev| + e] == RegionRef(samples, x.correlAll, e, exons[e].median, p.n).stdev)
            && r.refCorrel == p.correlation(x.doc, r.ref)
            && (r.qc == x.qc <==> r.refCorrel >= p.minCorr)
            && (r.refCorrel < p.minCorr ==> r.qc == x.qc + [LowReferenceCorrelation(r.refCorrel)])
            && r.name == x.name && r.noref == x.noref && r.doc == x.doc && r.docMean == x.docMean
            && r.docStdev == x.docStdev && r.correlAll == x.correlAll
  {
    var x := samples[s];
    var r := WithReference(samples, s, exons, p);
    if r.refCorrel < p.minCorr {
      assert |r.qc| == |x.qc| + 1;
    }
  }

  /** Sample `s` is processed in the state left by the samples before it: a
      sample flagged there is no longer taken as reference for `s`. */
  lemma {:induction false} StageOrder(samples: seq<Sample>, k: nat, s: nat, exons: seq<Exon>, p: RefParams)
    requires Ready(samples, |exons|) && s < k <= |samples|
    ensures Ready(ReferenceStage(samples, s, exons, p), |exons|)
    ensures ReferenceStage(samples, k, exons, p)[s]
            == WithReference(ReferenceStage(samples, s, exons, p), s, exons, p)
  {
    ReadyKept(samples, ReferenceStage(samples, s, exons, p), |exons|);
    if s < k - 1 {
      StageOrder(samples, k - 1, s, exons, p);
    }
  }
}

/** Normalization of the depth-of-coverage data (main.cpp, "normalize DOC by
    mean"): every sample's coverage is divided by its length-weighted mean over
    the autosomal regions and over the chrX regions separately; coverage on any
    other chromosome is set to zero; low-depth samples are flagged. */
module Normalization {
  import opened Stats
  import opened CnvData

  /** A (coverage, region length) pair, as passed to weightedMean. */
  type Weighted = (real, int)

  function WeightedSum(data: seq<Weighted>): real
    decreases |data|
  {
    if data == [] then 0.0
    else WeightedSum(data[..|data| - 1]) + data[|data| - 1].0 * data[|data| - 1].1 as real
  }

  function TotalWeight(data: seq<Weighted>): int
    decreases |data|
  {
    if data == [] then 0 else TotalWeight(data[..|data| - 1]) + data[|data| - 1].1
  }

  predicate PositiveWeights(data: seq<Weighted>)
  {
    forall k :: 0 <= k < |data| ==> data[k].1 > 0
  }

  lemma {:induction false} TotalWeightPositive(data: seq<Weighted>)
    requires PositiveWeights(data) && data != []
    ensures TotalWeight(data) > 0
    decreases |data|
  {
    if |data| > 1 {
      TotalWeightPositive(data[..|data| - 1]);
    }
  }

  /** weightedMean: the weighted mean of the values, 0 for no data. */
  function WeightedMean(data: seq<Weighted>): (r: real)
    requires PositiveWeights(data)
    ensures data == [] ==> r == 0.0
  {
    if data == [] then 0.0
    else
      TotalWeightPositive(data);
      WeightedSum(data) / TotalWeight(data) as real
  }

  /** weightedMean as the source computes it, with two running sums. */
  method ComputeWeightedMean(data: seq<Weighted>) returns (mean: real)
    requires PositiveWeights(data)
    ensures mean == WeightedMean(data)
  {
    if |data| == 0 {
      return 0.0;
    }
    var wsum := 0.0;
    var size := 0.0;
    for i := 0 to |data|
      invariant wsum == WeightedSum(data[..i])
      invariant size == TotalWeight(data[..i]) as real
    {
      assert data[..i + 1][..i] == data[..i];
      wsum := wsum + data[i].0 * data[i].1 as real;
      size := size + data[i].1 as real;
    }
    assert data[..|data|] == data;
    TotalWeightPositive(data);
    mean := wsum / size;
  }

  /** The data with every value divided by `m`. */
  function Scaled(data: seq<Weighted>, m: real): (r: seq<Weighted>)
    requires m != 0.0
    ensures |r| == |data|
    ensures forall k :: 0 <= k < |data| ==> r[k] == (data[k].0 / m, data[k].1)
  {
    seq(|data|, k requires 0 <= k < |data| => (data[k].0 / m, data[k].1))
  }

  lemma {:induction false} ScaledSums(data: seq<Weighted>, m: real)
    requires m != 0.0
    ensures WeightedSum(Scaled(data, m)) == WeightedSum(data) / m
    ensures TotalWeight(Scaled(data, m)) == TotalWeight(data)
    decreases |data|
  {
    if data != [] {
      var init := data[..|data| - 1];
      var last := data[|data| - 1];
      assert Scaled(data, m)[..|data| - 1] == Scaled(init, m);
      ScaledSums(init, m);
      DivDistributes(WeightedSum(init), last.0, last.1 as real, m);
    }
  }

  lemma DivDistributes(a: real, b: real, w: real, m: real)
    requires m != 0.0
    ensures a / m + (b / m) * w == (a + b * w) / m
  {
    calc {
      a / m + (b / m) * w;
      a / m + (b * w) / m;
      (a + b * w) / m;
    }
  }

  /** Dividing every value by the weighted mean yields weighted mean 1. */
  lemma ScaledByMeanHasMeanOne(data: seq<Weighted>)
    requires PositiveWeights(data) && WeightedMean(data) != 0.0
    ensures PositiveWeights(Scaled(data, WeightedMean(data)))
    ensures WeightedMean(Scaled(data, WeightedMean(data))) == 1.0
  {
    var m := WeightedMean(data);
    var sc := Scaled(data, m);
    ScaledSums(data, m);
    TotalWeightPositive(data);
    var ws := WeightedSum(data);
    var t := TotalWeight(data) as real;
    assert m == ws / t;
    MeanOfRatio(ws, t);
    assert sc != [];
    assert WeightedMean(sc) == WeightedSum(sc) / TotalWeight(sc) as real;
  }

  /** Dividing a sum by its own nonzero mean and then by the weight gives 1. */
  lemma MeanOfRatio(ws: real, t: real)
    requires t > 0.0 && ws / t != 0.0
    ensures (ws / (ws / t)) / t == 1.0
  {
    var m := ws / t;
    assert ws == m * t;
    assert ws / m == t;
  }

  /** The region classes that get a mean of their own. */
  datatype Group = Autosomal | ChrX

  predicate InGroup(chr: Chromosome, g: Group)
  {
    match g
    case Autosomal => chr.IsAutosome()
    case ChrX => !chr.IsAutosome() && chr.IsX()
  }

  /** The (coverage, length) pairs of one group, in region order, as the
      source collects them into doc_auto and doc_chrx. */
  function GroupData(exons: seq<Exon>, doc: seq<real>, g: Group): (r: seq<Weighted>)
    requires |doc| >= |exons|
    ensures |r| <= |exons|
    decreases |exons|
  {
    if exons == [] then []
    else
      var e := |exons| - 1;
      GroupData(exons[..e], doc, g)
        + (if InGroup(exons[e].chr, g) then [(doc[e], exons[e].end - exons[e].start)] else [])
  }

  predicate PositiveLengths(exons: seq<Exon>)
  {
    forall e :: 0 <= e < |exons| ==> exons[e].end > exons[e].start
  }

  lemma {:induction false} GroupDataWeights(exons: seq<Exon>, doc: seq<real>, g: Group)
    requires |doc| >= |exons| && PositiveLengths(exons)
    ensures PositiveWeights(GroupData(exons, doc, g))
    decreases |exons|
  {
    if exons != [] {
      GroupDataWeights(exons[..|exons| - 1], doc, g);
    }
  }

  function GroupMean(exons: seq<Exon>, doc: seq<real>, g: Group): real
    requires |doc| >= |exons| && PositiveLengths(exons)
  {
    GroupDataWeights(exons, doc, g);
    WeightedMean(GroupData(exons, doc, g))
  }

  /** The number of regions on chromosomes satisfying the class. */
  function CountX(exons: seq<Exon>): nat
    decreases |exons|
  {
    if exons == [] then 0
    else CountX(exons[..|exons| - 1]) + (if exons[|exons| - 1].chr.IsX() then 1 else 0)
  }

  function CountY(exons: seq<Exon>): nat
    decreases |exons|
  {
    if exons == [] then 0
    else
      var chr := exons[|exons| - 1].chr;
      CountY(exons[..|exons| - 1]) + (if !chr.IsX() && chr.IsY() then 1 else 0)
  }

  function CountOther(exons: seq<Exon>): nat
    decreases |exons|
  {
    if exons == [] then 0
    else
      var chr := exons[|exons| - 1].chr;
      CountOther(exons[..|exons| - 1]) + (if !chr.IsX() && !chr.IsY() && !chr.IsAutosome() then 1 else 0)
  }

  /** The autosomal count the source derives as "all minus the others" is the
      number of autosomal (coverage, length) pairs, and the chrX count is the
      number of chrX pairs. */
  lemma {:induction false} CountsMatchGroups(exons: seq<Exon>, doc: seq<real>)
    requires |doc| >= |exons|
    ensures |exons| - CountX(exons) - CountY(exons) - CountOther(exons)
            == |GroupData(exons, doc, Autosomal)|
    ensures CountX(exons) == |GroupData(exons, doc, ChrX)|
    decreases |exons|
  {
    if exons != [] {
      CountsMatchGroups(exons[..|exons| - 1], doc);
    }
  }

  /** The counting loop over the regions (c_chrx, c_chry, c_chro, c_auto). */
  method CountRegions(exons: seq<Exon>) returns (cAuto: int, cChrX: int)
    ensures cChrX == CountX(exons)
    ensures cAuto == |exons| - CountX(exons) - CountY(exons) - CountOther(exons)
  {
    var cX, cY, cO := 0, 0, 0;
    for e := 0 to |exons|
      invariant cX == CountX(exons[..e])
      invariant cY == CountY(exons[..e])
      invariant cO == CountOther(exons[..e])
    {
      assert exons[..e + 1][..e] == exons[..e];
      if exons[e].chr.IsX() {
        cX := cX + 1;
      } else if exons[e].chr.IsY() {
        cY := cY + 1;
      } else if !exons[e].chr.IsAutosome() {
        cO := cO + 1;
      }
    }
    assert exons[..|exons|] == exons;
    cAuto := |exons| - cX - cY - cO;
    cChrX := cX;
  }

  /** The normalized value of one region's coverage. */
  function NormalizedValue(chr: Chromosome, v: real, meanAuto: real, meanX: real): real
  {
    if chr.IsAutosome() && meanAuto > 0.0 then v / meanAuto
    else if chr.IsX() && meanX > 0.0 then v / meanX
    else 0.0
  }

  /** The low-depth flags appended to a sample's QC after normalization. */
  function DepthFlags(docMean: real, meanAuto: real, meanX: real, cAuto: int, cChrX: int,
                      samMinDepth: real): seq<SampleFlag>
  {
    (if docMean < samMinDepth then [LowDepth(docMean)] else [])
    + (if cChrX > 0 && meanX < 5.0 then [LowDepthChrX(meanX)] else [])
    + (if cAuto > 0 && meanAuto < 5.0 then [LowDepthAutosomes(meanAuto)] else [])
  }

  /** A sample after normalization: coverage divided by its group mean, the
      mean of the larger group kept as doc_mean, the spread recorded, and the
      low-depth flags appended. */
  function NormalizedSample(exons: seq<Exon>, s: Sample, samMinDepth: real,
                            stdev: seq<real> -> real): (r: Sample)
    requires |s.doc| == |exons| && PositiveLengths(exons)
  {
    var meanAuto := GroupMean(exons, s.doc, Autosomal);
    var meanX := GroupMean(exons, s.doc, ChrX);
    var cAuto := |exons| - CountX(exons) - CountY(exons) - CountOther(exons);
    var cChrX := CountX(exons);
    var doc := seq(|exons|, e requires 0 <= e < |exons| =>
                 NormalizedValue(exons[e].chr, s.doc[e], meanAuto, meanX));
    var docMean := if cChrX > cAuto then meanX else meanAuto;
    s.(doc := doc, docMean := docMean, docStdev := stdev(doc),
       qc := s.qc + DepthFlags(docMean, meanAuto, meanX, cAuto, cChrX, samMinDepth))
  }

  /** The collection loop: the (coverage, length) pairs of both groups. */
  method CollectGroups(exons: seq<Exon>, doc: seq<real>) returns (docAuto: seq<Weighted>, docChrX: seq<Weighted>)
    requires |doc| == |exons|
    ensures docAuto == GroupData(exons, doc, Autosomal)
    ensures docChrX == GroupData(exons, doc, ChrX)
  {
    docAuto, docChrX := [], [];
    for e := 0 to |exons|
      invariant docAuto == GroupData(exons[..e], doc, Autosomal)
      invariant docChrX == GroupData(exons[..e], doc, ChrX)
    {
      assert exons[..e + 1][..e] == exons[..e];
      if exons[e].chr.IsAutosome() {
        docAuto := docAuto + [(doc[e], exons[e].end - exons[e].start)];
      } else if exons[e].chr.IsX() {
        docChrX := docChrX + [(doc[e], exons[e].end - exons[e].start)];
      }
    }
    assert exons[..|exons|] == exons;
  }

  /** The in-place division loop. */
  method DivideByMeans(exons: seq<Exon>, raw: seq<real>, meanAuto: real, meanX: real)
    returns (doc: seq<real>)
    requires |raw| == |exons|
    ensures doc == seq(|exons|, e requires 0 <= e < |exons| =>
                      NormalizedValue(exons[e].chr, raw[e], meanAuto, meanX))
  {
    doc := raw;
    for e := 0 to |exons|
      invariant |doc| == |exons|
      invariant forall k :: 0 <= k < e ==> doc[k] == NormalizedValue(exons[k].chr, raw[k], meanAuto, meanX)
      invariant forall k :: e <= k < |exons| ==> doc[k] == raw[k]
    {
      if exons[e].chr.IsAutosome() && meanAuto > 0.0 {
        doc := doc[e := doc[e] / meanAuto];
      } else if exons[e].chr.IsX() && meanX > 0.0 {
        doc := doc[e := doc[e] / meanX];
      } else {
        doc := doc[e := 0.0];
      }
    }
  }

  /** Normalizes one sample with the source's loops. */
  method NormalizeSample(exons: seq<Exon>, s: Sample, cAuto: int, cChrX: int,
                         samMinDepth: real, stdev: seq<real> -> real) returns (r: Sample)
    requires |s.doc| == |exons| && PositiveLengths(exons)
    requires cChrX == CountX(exons)
    requires cAuto == |exons| - CountX(exons) - CountY(exons) - CountOther(exons)
    ensures r == NormalizedSample(exons, s, samMinDepth, stdev)
  {
    var docAuto, docChrX := CollectGroups(exons, s.doc);
    GroupDataWeights(exons, s.doc, Autosomal);
    GroupDataWeights(exons, s.doc, ChrX);
    var meanX := ComputeWeightedMean(docChrX);
    var meanAuto := ComputeWeightedMean(docAuto);
    assert meanX == GroupMean(exons, s.doc, ChrX);
    assert meanAuto == GroupMean(exons, s.doc, Autosomal);
    var doc := DivideByMeans(exons, s.doc, meanAuto, meanX);

    // store mean and stdev, flag low-depth samples
    var docMean := if cChrX > cAuto then meanX else meanAuto;
    var qc := s.qc;
    if docMean < samMinDepth {
      qc := qc + [LowDepth(docMean)];
    }
    if cChrX > 0 && meanX < 5.0 {
      qc := qc + [LowDepthChrX(meanX)];
    }
    if cAuto > 0 && meanAuto < 5.0 {
      qc := qc + [LowDepthAutosomes(meanAuto)];
    }
    assert qc == s.qc + DepthFlags(docMean, meanAuto, meanX, cAuto, cChrX, samMinDepth);
    r := s.(doc := doc, docMean := docMean, docStdev := stdev(doc), qc := qc);
  }

  /** The normalization stage over all samples. `stdev` stands for
      BasicStatistics::stdev(doc, 1.0), whose source is not part of this model. */
  method Normalize(exons: seq<Exon>, samples: seq<Sample>, samMinDepth: real,
                   stdev: seq<real> -> real) returns (out: seq<Sample>)
    requires PositiveLengths(exons)
    requires forall s :: 0 <= s < |samples| ==> |samples[s].doc| == |exons|
    ensures |out| == |samples|
    ensures forall s :: 0 <= s < |samples| ==>
              out[s] == NormalizedSample(exons, samples[s], samMinDepth, stdev)
  {
    var cAuto, cChrX := CountRegions(exons);
    out := samples;
    for s := 0 to |samples|
      invariant |out| == |samples|
      invariant forall k :: 0 <= k < s ==> out[k] == NormalizedSample(exons, samples[k], samMinDepth, stdev)
      invariant forall k :: s <= k < |samples| ==> out[k] == samples[k]
    {
      var ns := NormalizeSample(exons, out[s], cAuto, cChrX, samMinDepth, stdev);
      out := out[s := ns];
    }
  }

  // ---------------------------------------------------------------------
  // Properties of a normalized sample

  /** Every region's normalized value: autosomal coverage divided by the
      autosomal mean if that is positive, chrX coverage by the chrX mean if that
      is positive, everything else zero. Only the coverage, its mean, its spread
      and the QC flags change. */
  lemma NormalizedEntries(exons: seq<Exon>, s: Sample, samMinDepth: real,
                          stdev: seq<real> -> real, e: int)
    requires |s.doc| == |exons| && PositiveLengths(exons) && 0 <= e < |exons|
    ensures var r := NormalizedSample(exons, s, samMinDepth, stdev);
            var mA := GroupMean(exons, s.doc, Autosomal);
            var mX := GroupMean(exons, s.doc, ChrX);
            && |r.doc| == |exons|
            && (exons[e].chr.IsAutosome() && mA > 0.0 ==> r.doc[e] == s.doc[e] / mA)
            && (exons[e].chr.IsX() && mX > 0.0 ==> r.doc[e] == s.doc[e] / mX)
            && (!exons[e].chr.IsAutosome() && !exons[e].chr.IsX() ==> r.doc[e] == 0.0)
            && r.name == s.name && r.noref == s.noref && r.ref == s.ref
            && r.refStdev == s.refStdev && r.correlAll == s.correlAll
            && s.qc <= r.qc
  {
  }

  /** doc_mean is the chrX mean exactly when chrX regions outnumber the
      autosomal ones, and the autosomal mean otherwise. */
  lemma DocMeanChoice(exons: seq<Exon>, s: Sample, samMinDepth: real, stdev: seq<real> -> real)
    requires |s.doc| == |exons| && PositiveLengths(exons)
    ensures var r := NormalizedSample(exons, s, samMinDepth, stdev);
            var nAuto := |GroupData(exons, s.doc, Autosomal)|;
            var nX := |GroupData(exons, s.doc, ChrX)|;
            && (nX > nAuto ==> r.docMean == GroupMean(exons, s.doc, ChrX))
            && (nX <= nAuto ==> r.docMean == GroupMean(exons, s.doc, Autosomal))
  {
    CountsMatchGroups(exons, s.doc);
  }

  /** A sample that entered normalization unflagged leaves it unflagged exactly
      when its doc_mean reaches the minimum depth and each non-empty group has
      a mean depth of at least 5. */
  lemma DepthQc(exons: seq<Exon>, s: Sample, samMinDepth: real, stdev: seq<real> -> real)
    requires |s.doc| == |exons| && PositiveLengths(exons) && s.qc == []
    ensures var r := NormalizedSample(exons, s, samMinDepth, stdev);
            var nAuto := |GroupData(exons, s.doc, Autosomal)|;
            var nX := |GroupData(exons, s.doc, ChrX)|;
            r.qc == [] <==>
              && r.docMean >= samMinDepth
              && (nX > 0 ==> GroupMean(exons, s.doc, ChrX) >= 5.0)
              && (nAuto > 0 ==> GroupMean(exons, s.doc, Autosomal) >= 5.0)
  {
    CountsMatchGroups(exons, s.doc);
  }

  /** The group data of the normalized coverage is the group data of the raw
      coverage divided by the group mean. */
  lemma {:induction false} GroupDataOfNormalized(exons: seq<Exon>, raw: seq<real>, doc: seq<real>,
                                                 g: Group, m: real)
    requires |raw| >= |exons| && |doc| >= |exons| && m != 0.0
    requires forall e :: 0 <= e < |exons| && InGroup(exons[e].chr, g) ==> doc[e] == raw[e] / m
    ensures GroupData(exons, doc, g) == Scaled(GroupData(exons, raw, g), m)
    decreases |exons|
  {
    if exons != [] {
      GroupDataOfNormalized(exons[..|exons| - 1], raw, doc, g, m);
    }
  }

  /** The length-weighted mean of the normalized autosomal coverage is 1 when
      the raw autosomal mean is positive, and likewise for chrX. */
  lemma NormalizedGroupMeanIsOne(exons: seq<Exon>, s: Sample, samMinDepth: real,
                                 stdev: seq<real> -> real, g: Group)
    requires |s.doc| == |exons| && PositiveLengths(exons)
    requires GroupMean(exons, s.doc, g) > 0.0
    ensures GroupMean(exons, NormalizedSample(exons, s, samMinDepth, stdev).doc, g) == 1.0
  {
    var r := NormalizedSample(exons, s, samMinDepth, stdev);
    var m := GroupMean(exons, s.doc, g);
    GroupDataWeights(exons, s.doc, g);
    GroupDataOfNormalized(exons, s.doc, r.doc, g, m);
    ScaledByMeanHasMeanOne(GroupData(exons, s.doc, g));
  }
}

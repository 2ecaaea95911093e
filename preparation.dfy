/** From the reference stage to CNV calling: once references are built and bad
    samples and regions are removed, every remaining reference is positive,
    which is what calling divides by (calculateCopies). This holds when every
    region that passed QC has a positive median, which region QC ensures for a
    positive reg_min_ncov (RegionQc.KeptMedianPositive). */
module Preparation {
  import opened CnvData
  import opened Reference
  import opened Compaction
  import opened Calling

  /** The cohort main.cpp calls CNVs on: the samples that passed QC after the
      reference stage, with their vectors cut to the regions that passed QC. */
  function CallCohort(built: seq<Sample>, exons: seq<Exon>): Cohort
    requires Aligned(KeptSamples(built), |exons|)
  {
    var kept := KeptSamples(built);
    Cohort(seq(|kept|, s requires 0 <= s < |kept| => CompactedSample(kept[s], exons)), KeptExons(exons))
  }

  /** Samples that enter the reference stage with empty references and one
      coverage value per region leave it aligned, and the compacted cohort is
      callable when every region that passed QC has a positive median. */
  lemma CohortCallable(samples: seq<Sample>, exons: seq<Exon>, p: RefParams)
    requires p.n >= 1 && Ready(samples, |exons|)
    requires forall s :: 0 <= s < |samples| ==>
               samples[s].ref == [] && samples[s].refStdev == [] && |samples[s].doc| == |exons|
    requires forall e :: 0 <= e < |exons| && exons[e].qc == [] ==> exons[e].median > 0.0
    ensures var built := ReferenceStage(samples, |samples|, exons, p);
            Aligned(KeptSamples(built), |exons|) && Callable(CallCohort(built, exons))
  {
    var built := ReferenceStage(samples, |samples|, exons, p);
    ReferencesPositive(samples, exons, p);
    var kept := KeptSamples(built);
    var pos := Positions(SamplesOk(built), true, |built|);
    forall k | 0 <= k < |kept|
      ensures |kept[k].doc| == |exons| && |kept[k].ref| == |exons| && |kept[k].refStdev| == |exons|
      ensures ReferencesOf(samples[pos[k]], kept[k], exons)
    {
      assert kept[k] == built[pos[k]];
      assert built[pos[k]].doc == samples[pos[k]].doc;
    }
    CompactedCohort(kept, exons);
    KeptPositive(kept, exons, samples, pos);
  }

  /** Entry k of a compacted sample is its entry for the k-th kept region,
      whose median is positive. */
  lemma KeptPositive(kept: seq<Sample>, exons: seq<Exon>, samples: seq<Sample>, pos: seq<nat>)
    requires Aligned(kept, |exons|) && |pos| == |kept|
    requires forall k :: 0 <= k < |kept| ==> pos[k] < |samples| && samples[pos[k]].ref == []
    requires forall k :: 0 <= k < |kept| ==> ReferencesOf(samples[pos[k]], kept[k], exons)
    requires forall e :: 0 <= e < |exons| && exons[e].qc == [] ==> exons[e].median > 0.0
    ensures var out := seq(|kept|, s requires 0 <= s < |kept| => CompactedSample(kept[s], exons));
            forall s, k :: 0 <= s < |kept| && 0 <= k < |KeptExons(exons)| ==> out[s].ref[k] > 0.0
  {
    var out := seq(|kept|, s requires 0 <= s < |kept| => CompactedSample(kept[s], exons));
    var epos := Positions(ExonsOk(exons), true, |exons|);
    CompactedCohort(kept, exons);
    forall s, k | 0 <= s < |kept| && 0 <= k < |KeptExons(exons)|
      ensures out[s].ref[k] > 0.0
    {
      var e := epos[k];
      assert exons[e].qc == [];
      assert out[s].ref[k] == kept[s].ref[e];
      assert ReferencesOf(samples[pos[s]], kept[s], exons);
    }
  }
}

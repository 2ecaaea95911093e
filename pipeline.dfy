/** The calling stages in the order main.cpp runs them: seeds, extension,
    merging of touching ranges, then gap bridging. Each stage's contract is
    what the next one needs, so together they give the guarantees of the
    final range list. */
module Pipeline {
  import opened CnvData
  import opened Calling
  import opened Extension
  import opened Merging

  /** From a callable cohort to the final results and ranges. The ranges
      index the results, are disjoint and in order, and cover every result
      whose copy number is not 2. Without bridging they are also uniform in
      sample, chromosome and type, cannot grow and no two neighbours can be
      merged; with bridging no two neighbours can be bridged. */
  method CallCnvs(c: Cohort, p: CallParams) returns (results: seq<ResultData>, ranges: seq<Range>)
    requires Callable(c)
    ensures Wf(c, results) && RangesWf(results, ranges) && Ordered(ranges)
    ensures CoveredAll(results, ranges)
    ensures |results| == |Results(c, p)|
    ensures forall i :: 0 <= i < |results| ==>
              results[i].sample == Results(c, p)[i].sample && results[i].exon == Results(c, p)[i].exon
              && results[i].z == Results(c, p)[i].z
    ensures p.extGapSpan <= 0.0 ==>
              && Uniform(c, results, ranges)
              && NoMergeable(c, results, ranges)
              && forall r :: 0 <= r < |ranges| ==> Stuck(c, results, ranges[r], p)
    ensures p.extGapSpan > 0.0 ==> NoBridgeable(c, results, ranges, p)
  {
    var seedResults, seeds := DetectSeeds(c, p);
    SeedsInv(c, p);
    var extResults, extended := ExtendAll(c, seedResults, seeds, p);
    var merged := MergeAdjacent(c, extResults, extended);
    MergeAllInv(c, extResults, extended);
    MergeAllMaximal(c, extResults, extended);
    MergeAllStuck(c, extResults, extended, p);
    results, ranges := BridgeGaps(c, extResults, merged, p);
    BridgedCovered(c, extResults, merged, ranges, results);
  }
}
